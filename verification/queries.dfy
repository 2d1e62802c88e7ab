/** Read-only views over the transaction sequence: the table filter and its
    newest-first display order, the month balance series, and the month's
    top expense categories. */
module Queries {
  import opened Wrappers
  import opened Seqs
  import opened Sorting
  import opened Calendar
  import opened Transactions

  // ---------------------------------------------------------------------
  // Table filter

  /** The duration selector; `AnyTime` is the empty choice. */
  datatype Duration = AnyTime | Today | Last7Days | Last30Days | Last3Months

  /** The duration test on the whole-day difference between today and the
      transaction's date. */
  predicate WithinWindow(duration: Duration, daysDiff: int) {
    match duration
    case AnyTime => true
    case Today => daysDiff == 0
    case Last7Days => daysDiff <= 7
    case Last30Days => daysDiff <= 30
    case Last3Months => daysDiff <= 90
  }

  /** The three filters: a selected date must match exactly and then the
      duration is not consulted; otherwise the duration window applies; a
      selected type must match. */
  predicate Matches(t: Transaction, selectedDate: Option<Date>, duration: Duration, typeFilter: Option<Kind>, today: int) {
    && (selectedDate.Some? ==> t.date == selectedDate.value)
    && (selectedDate.None? ==> WithinWindow(duration, today - DayKey(t)))
    && (typeFilter.Some? ==> t.kind == typeFilter.value)
  }

  /** The transactions that pass the table filters, in ledger order. `today`
      is the current day number. */
  function FilterTransactions(ts: seq<Transaction>, selectedDate: Option<Date>, duration: Duration,
                              typeFilter: Option<Kind>, today: int): seq<Transaction>
  {
    Filter(ts, t => Matches(t, selectedDate, duration, typeFilter, today))
  }

  /** The filter returns an order-preserving subsequence of the ledger that
      holds exactly the transactions passing every selected test. With a date
      selected every result has that date and the duration is ignored;
      otherwise `today` keeps day difference 0 and the windows keep day
      differences of at most 7, 30 or 90. A type filter keeps only that
      type. */
  lemma FilterTransactionsSpec(ts: seq<Transaction>, selectedDate: Option<Date>, duration: Duration,
                               typeFilter: Option<Kind>, today: int)
    ensures var r := FilterTransactions(ts, selectedDate, duration, typeFilter, today);
            && IsSubsequence(r, ts)
            && (forall t :: t in r <==> t in ts && Matches(t, selectedDate, duration, typeFilter, today))
            && (selectedDate.Some? ==> forall t :: t in r ==> t.date == selectedDate.value)
            && (selectedDate.Some? ==> r == FilterTransactions(ts, selectedDate, AnyTime, typeFilter, today))
            && (selectedDate.None? && duration == Today ==> forall t :: t in r ==> DayKey(t) == today)
            && (selectedDate.None? && duration == Last7Days ==> forall t :: t in r ==> today - DayKey(t) <= 7)
            && (selectedDate.None? && duration == Last30Days ==> forall t :: t in r ==> today - DayKey(t) <= 30)
            && (selectedDate.None? && duration == Last3Months ==> forall t :: t in r ==> today - DayKey(t) <= 90)
            && (typeFilter.Some? ==> forall t :: t in r ==> t.kind == typeFilter.value)
  {
    var p := t => Matches(t, selectedDate, duration, typeFilter, today);
    FilterSpec(ts, p);
    if selectedDate.Some? {
      FilterCongruence(ts, p, t => Matches(t, selectedDate, AnyTime, typeFilter, today));
    }
  }

  /** The table's sort key: later dates first. */
  function NewestFirstKey(t: Transaction): int {
    -DayKey(t)
  }

  /** The order the table shows filtered transactions in: `filtered.sort((a,
      b) => new Date(b.date) - new Date(a.date))`. */
  function DisplayOrder(filtered: seq<Transaction>): seq<Transaction> {
    SortBy(filtered, NewestFirstKey)
  }

  /** The table shows the filtered transactions newest first, transactions of
      the same date in filter order. */
  lemma DisplayOrderSpec(filtered: seq<Transaction>)
    ensures IsStableSortOf(DisplayOrder(filtered), filtered, NewestFirstKey)
    ensures forall i, j :: 0 <= i < j < |DisplayOrder(filtered)|
              ==> DayKey(DisplayOrder(filtered)[i]) >= DayKey(DisplayOrder(filtered)[j])
  {
    SortBySpec(filtered, NewestFirstKey);
  }

  // ---------------------------------------------------------------------
  // Month balance series

  /** The transactions whose date lies in month `m`, in ledger order. */
  function InMonthTransactions(ts: seq<Transaction>, m: Month): seq<Transaction> {
    Filter(ts, (t: Transaction) => InMonth(t.date, m))
  }

  /** The in-month transactions stably sorted by date. */
  function MonthOrder(ts: seq<Transaction>, m: Month): seq<Transaction> {
    SortBy(InMonthTransactions(ts, m), DayKey)
  }

  /** The transactions dated strictly before the first day of month `m`. */
  function EarlierTransactions(ts: seq<Transaction>, m: Month): seq<Transaction> {
    Filter(ts, t => DayKey(t) < DayNumber(MonthStart(m)))
  }

  /** A chart series: one label and one value per point. */
  datatype Series = Series(labels: seq<Date>, values: seq<int>)

  function Dates(ts: seq<Transaction>): (r: seq<Date>)
    ensures |r| == |ts| && forall i :: 0 <= i < |ts| ==> r[i] == ts[i].date
  {
    seq(|ts|, i requires 0 <= i < |ts| => ts[i].date)
  }

  function Balances(ts: seq<Transaction>): (r: seq<int>)
    ensures |r| == |ts| && forall i :: 0 <= i < |ts| ==> r[i] == ts[i].balance
  {
    seq(|ts|, i requires 0 <= i < |ts| => ts[i].balance)
  }

  /** The running-balance series of month `m`: no series when nothing falls
      in the month; otherwise a first point at `<m>-01` holding the net of
      all earlier transactions, then one point per in-month transaction in
      date order holding the running balance after it. */
  function MonthSeries(ts: seq<Transaction>, m: Month): Option<Series> {
    var month := MonthOrder(ts, m);
    if |month| == 0 then None
    else
      Some(SeriesOf(MonthStart(m), month, Total(EarlierTransactions(ts, m), Net)))
  }

  /** The series that starts at `start` with `opening` and then walks the
      running balance over `month`. */
  function SeriesOf(start: Date, month: seq<Transaction>, opening: int): Series {
    Series([start] + Dates(month), [opening] + Balances(Walk(month, opening)))
  }

  /** `s` starts at `start` with `opening`, then has one point per
      transaction of `month`, in order, labelled with its date and holding
      the previous value plus its signed amount; so the last value is
      `opening` plus the net of `month`. */
  predicate RunningSeries(s: Series, start: Date, month: seq<Transaction>, opening: int) {
    && |s.labels| == |s.values| == 1 + |month|
    && s.labels[0] == start
    && s.values[0] == opening
    && (forall i :: 0 <= i < |month| ==> s.labels[i + 1] == month[i].date)
    && (forall i :: 0 <= i < |month| ==> s.values[i + 1] == s.values[i] + Signed(month[i]))
    && s.values[|month|] == opening + Total(month, Net)
  }

  /** Walking the running balance over `month` from `opening` yields a
      running series. */
  lemma SeriesOfSteps(start: Date, month: seq<Transaction>, opening: int)
    ensures RunningSeries(SeriesOf(start, month, opening), start, month, opening)
  {
    var walked := Walk(month, opening);
    var values := [opening] + Balances(walked);
    assert SeriesOf(start, month, opening).values == values;
    forall i | 0 <= i < |month| ensures values[i + 1] == values[i] + Signed(month[i]) {
      WalkStep(month, opening, i);
      assert values[i + 1] == walked[i].balance;
      if i > 0 {
        assert values[i] == walked[i - 1].balance;
      }
    }
    WalkBalances(month, opening);
  }

  /** The month's transactions in date order are a stable sort of the
      in-month transactions, hold exactly the ledger's transactions of that
      month, and have the same net. */
  lemma MonthOrderSpec(ts: seq<Transaction>, m: Month)
    ensures IsStableSortOf(MonthOrder(ts, m), InMonthTransactions(ts, m), DayKey)
    ensures forall t :: t in MonthOrder(ts, m) <==> t in ts && InMonth(t.date, m)
    ensures Total(MonthOrder(ts, m), Net) == Total(InMonthTransactions(ts, m), Net)
  {
    var inMonth := InMonthTransactions(ts, m);
    FilterSpec(ts, (t: Transaction) => InMonth(t.date, m));
    SortBySpec(inMonth, DayKey);
    TotalPermutation(MonthOrder(ts, m), inMonth, Net);
    forall t ensures t in MonthOrder(ts, m) <==> t in inMonth {
      assert t in MonthOrder(ts, m) <==> t in multiset(MonthOrder(ts, m));
    }
  }

  /** The series is missing exactly when no transaction falls in the month. */
  lemma MonthSeriesExists(ts: seq<Transaction>, m: Month)
    ensures MonthSeries(ts, m).None? <==> forall t :: t in ts ==> !InMonth(t.date, m)
  {
    var month := MonthOrder(ts, m);
    MonthOrderSpec(ts, m);
    if |month| == 0 {
      forall t | t in ts ensures !InMonth(t.date, m) {
        assert t !in month;
      }
    } else {
      assert month[0] in ts && InMonth(month[0].date, m);
    }
  }

  /** In a series that starts at the first of the month and steps through
      the month's transactions in date order, labels after the first lie in
      the month, and all labels ascend. */
  lemma MonthSeriesLabels(ts: seq<Transaction>, m: Month, opening: int)
    ensures var s := SeriesOf(MonthStart(m), MonthOrder(ts, m), opening);
            && (forall i :: 1 <= i < |s.labels| ==> InMonth(s.labels[i], m))
            && (forall i, j :: 0 <= i < j < |s.labels| ==> DayNumber(s.labels[i]) <= DayNumber(s.labels[j]))
  {
    var month := MonthOrder(ts, m);
    MonthOrderSpec(ts, m);
    forall i | 0 <= i < |month| ensures InMonth(month[i].date, m) && DayNumber(MonthStart(m)) <= DayKey(month[i]) {
      assert month[i] in month;
      MonthStartFirst(month[i].date, m);
    }
    LabelsAscend(MonthStart(m), month, opening, m);
  }

  /** The labels of a series over date-sorted transactions of month `m`,
      starting no later than any of them, lie in the month after the first
      and ascend. */
  lemma LabelsAscend(start: Date, month: seq<Transaction>, opening: int, m: Month)
    requires SortedBy(month, DayKey)
    requires forall i :: 0 <= i < |month| ==> InMonth(month[i].date, m) && DayNumber(start) <= DayKey(month[i])
    ensures var s := SeriesOf(start, month, opening);
            && (forall i :: 1 <= i < |s.labels| ==> InMonth(s.labels[i], m))
            && (forall i, j :: 0 <= i < j < |s.labels| ==> DayNumber(s.labels[i]) <= DayNumber(s.labels[j]))
  {
    var labels := SeriesOf(start, month, opening).labels;
    assert labels == [start] + Dates(month);
    forall i | 1 <= i < |labels| ensures labels[i] == month[i - 1].date {
    }
    forall i, j | 0 <= i < j < |labels| ensures DayNumber(labels[i]) <= DayNumber(labels[j]) {
      if i > 0 {
        assert DayKey(month[i - 1]) <= DayKey(month[j - 1]);
      }
    }
  }

  /** The month series exists exactly when some transaction falls in the
      month. Then it is the running series that starts at `<m>-01` with the
      net of all strictly earlier transactions and steps through the month's
      transactions in stable date order; its labels after the first lie in
      the month, and all labels ascend by date. */
  lemma MonthSeriesSpec(ts: seq<Transaction>, m: Month)
    ensures MonthSeries(ts, m).None? <==> forall t :: t in ts ==> !InMonth(t.date, m)
    ensures MonthSeries(ts, m).Some? ==>
              RunningSeries(MonthSeries(ts, m).value, MonthStart(m), MonthOrder(ts, m), Total(EarlierTransactions(ts, m), Net))
    ensures MonthSeries(ts, m).Some? ==>
              var s := MonthSeries(ts, m).value;
              && (forall i :: 1 <= i < |s.labels| ==> InMonth(s.labels[i], m))
              && (forall i, j :: 0 <= i < j < |s.labels| ==> DayNumber(s.labels[i]) <= DayNumber(s.labels[j]))
  {
    MonthSeriesExists(ts, m);
    if MonthSeries(ts, m).Some? {
      SeriesOfSteps(MonthStart(m), MonthOrder(ts, m), Total(EarlierTransactions(ts, m), Net));
      MonthSeriesLabels(ts, m, Total(EarlierTransactions(ts, m), Net));
    }
  }

  // ---------------------------------------------------------------------
  // Top expense categories of a month

  /** How many categories the bar chart shows at most. */
  const TopCount := 10

  /** One bar of the chart: a category and the sum of its expenses. */
  datatype CategoryTotal = CategoryTotal(category: string, total: int)

  function CategoryName(e: CategoryTotal): string {
    e.category
  }

  /** The expense transactions dated in month `m`, in ledger order. */
  function MonthExpenses(ts: seq<Transaction>, m: Month): seq<Transaction> {
    Filter(ts, (t: Transaction) => t.kind == Expense && InMonth(t.date, m))
  }

  /** The categories the transactions of `es` use. */
  function Categories(es: seq<Transaction>): set<string> {
    set t | t in es :: t.category
  }

  /** The categories the entries name. */
  function Names(entries: seq<CategoryTotal>): set<string> {
    set e | e in entries :: e.category
  }

  /** The position of the entry for category `c`, if any. */
  function FindCategory(entries: seq<CategoryTotal>, c: string): (r: Option<nat>)
    ensures r.None? <==> forall i :: 0 <= i < |entries| ==> entries[i].category != c
    ensures r.Some? ==> r.value < |entries| && entries[r.value].category == c
  {
    if |entries| == 0 then None
    else if entries[0].category == c then Some(0)
    else match FindCategory(entries[1..], c)
      case None => None
      case Some(i) => Some(i + 1)
  }

  /** Adds `amount` to the entry for `c`, appending a new entry when `c` has
      none yet: the accumulation into `categoryTotals`, whose keys keep the
      order of first insertion. */
  function Accumulate(entries: seq<CategoryTotal>, c: string, amount: int): seq<CategoryTotal> {
    match FindCategory(entries, c)
    case None => entries + [CategoryTotal(c, amount)]
    case Some(i) => entries[i := CategoryTotal(c, entries[i].total + amount)]
  }

  /** The per-category sums of `es`, one entry per category in order of
      first appearance. */
  function GroupByCategory(es: seq<Transaction>): seq<CategoryTotal>
    decreases |es|
  {
    if |es| == 0 then []
    else
      var last := es[|es| - 1];
      Accumulate(GroupByCategory(es[..|es| - 1]), last.category, last.amount)
  }

  /** The ranking key: larger totals first. */
  function LargerFirst(e: CategoryTotal): int {
    -e.total
  }

  /** The bar chart's data for month `m`: the month's expense categories by
      descending total, at most `TopCount` of them; none when the month has
      no expenses. */
  function TopExpenseCategories(ts: seq<Transaction>, m: Month): seq<CategoryTotal> {
    var es := MonthExpenses(ts, m);
    if |es| == 0 then [] else Top(GroupByCategory(es))
  }

  /** The first `TopCount` entries by descending total. */
  function Top(g: seq<CategoryTotal>): seq<CategoryTotal> {
    var ranked := SortBy(g, LargerFirst);
    if |ranked| <= TopCount then ranked else ranked[..TopCount]
  }

  /** A category no transaction uses sums to zero. */
  lemma {:induction false} TotalUnusedCategory(es: seq<Transaction>, k: Kind, c: string)
    requires c !in Categories(es)
    ensures Total(es, CategoryOf(k, c)) == 0
    decreases |es|
  {
    if |es| > 0 {
      assert es[|es| - 1] in es;
      assert c !in Categories(es[..|es| - 1]) by {
        forall t | t in es[..|es| - 1] ensures t in es {
        }
      }
      TotalUnusedCategory(es[..|es| - 1], k, c);
    }
  }

  lemma CategoriesSnoc(es: seq<Transaction>)
    requires |es| > 0
    ensures Categories(es) == Categories(es[..|es| - 1]) + {es[|es| - 1].category}
  {
    assert es == es[..|es| - 1] + [es[|es| - 1]];
    forall t ensures t in es <==> t in es[..|es| - 1] || t == es[|es| - 1] {
    }
  }

  lemma AccumulateNames(entries: seq<CategoryTotal>, c: string, amount: int)
    ensures Names(Accumulate(entries, c, amount)) == Names(entries) + {c}
  {
    var r := Accumulate(entries, c, amount);
    match FindCategory(entries, c)
    case None =>
      forall e ensures e in r <==> e in entries || e == CategoryTotal(c, amount) {
      }
    case Some(i) =>
      forall n | n in Names(r) ensures n in Names(entries) {
        var e :| e in r && e.category == n;
        var j :| 0 <= j < |r| && r[j] == e;
        if j != i {
          assert entries[j] == e;
        } else {
          assert entries[i].category == n;
        }
      }
      forall n | n in Names(entries) ensures n in Names(r) {
        var e :| e in entries && e.category == n;
        var j :| 0 <= j < |entries| && entries[j] == e;
        if j != i {
          assert r[j] == e;
        } else {
          assert r[i].category == n;
        }
      }
  }

  lemma NamesSnoc(entries: seq<CategoryTotal>)
    requires |entries| > 0
    ensures Names(entries) == Names(entries[..|entries| - 1]) + {entries[|entries| - 1].category}
  {
    assert entries == entries[..|entries| - 1] + [entries[|entries| - 1]];
    forall e ensures e in entries <==> e in entries[..|entries| - 1] || e == entries[|entries| - 1] {
    }
  }

  /** Under distinct categories the last entry's category is not among the
      earlier ones. */
  lemma LastNameNew(entries: seq<CategoryTotal>)
    requires |entries| > 0 && DistinctBy(entries, CategoryName)
    ensures entries[|entries| - 1].category !in Names(entries[..|entries| - 1])
  {
    var n := |entries| - 1;
    forall e | e in entries[..n] ensures e.category != entries[n].category {
      var j :| 0 <= j < n && entries[..n][j] == e;
      assert CategoryName(entries[j]) != CategoryName(entries[n]);
    }
  }

  lemma DistinctPrefix(entries: seq<CategoryTotal>, n: int)
    requires 0 <= n <= |entries| && DistinctBy(entries, CategoryName)
    ensures DistinctBy(entries[..n], CategoryName)
  {
    forall i, j | 0 <= i < j < n ensures CategoryName(entries[..n][i]) != CategoryName(entries[..n][j]) {
      assert entries[..n][i] == entries[i] && entries[..n][j] == entries[j];
    }
  }

  /** The entries whose categories are distinct number as many as their
      categories. */
  lemma {:induction false} DistinctNamesCount(entries: seq<CategoryTotal>)
    requires DistinctBy(entries, CategoryName)
    ensures |Names(entries)| == |entries|
    decreases |entries|
  {
    if |entries| > 0 {
      var n := |entries| - 1;
      DistinctPrefix(entries, n);
      DistinctNamesCount(entries[..n]);
      NamesSnoc(entries);
      LastNameNew(entries);
    }
  }

  /** What grouping guarantees about the entries `g` built from `es`. */
  ghost predicate GroupsOf(g: seq<CategoryTotal>, es: seq<Transaction>) {
    && DistinctBy(g, CategoryName)
    && Names(g) == Categories(es)
    && forall i :: 0 <= i < |g| ==> g[i].total == Total(es, CategoryOf(Expense, g[i].category))
  }

  lemma ExpenseTotalAppend(es: seq<Transaction>, t: Transaction, c: string)
    requires t.kind == Expense
    ensures Total(es + [t], CategoryOf(Expense, c)) == Total(es, CategoryOf(Expense, c)) + (if t.category == c then t.amount else 0)
  {
    TotalConcat(es, [t], CategoryOf(Expense, c));
    SingleTotal(t, CategoryOf(Expense, c));
  }

  lemma CategoriesAppend(es: seq<Transaction>, t: Transaction)
    ensures Categories(es + [t]) == Categories(es) + {t.category}
  {
    CategoriesSnoc(es + [t]);
    assert (es + [t])[..|es|] == es;
  }

  /** A category seen for the first time gets a new entry holding its
      amount. */
  lemma AccumulateNew(g: seq<CategoryTotal>, es: seq<Transaction>, t: Transaction)
    requires t.kind == Expense && GroupsOf(g, es)
    requires FindCategory(g, t.category).None?
    ensures GroupsOf(Accumulate(g, t.category, t.amount), es + [t])
  {
    var r := Accumulate(g, t.category, t.amount);
    assert r == g + [CategoryTotal(t.category, t.amount)];
    AccumulateNames(g, t.category, t.amount);
    CategoriesAppend(es, t);
    assert t.category !in Categories(es);
    TotalUnusedCategory(es, Expense, t.category);
    forall i | 0 <= i < |r| ensures r[i].total == Total(es + [t], CategoryOf(Expense, r[i].category)) {
      ExpenseTotalAppend(es, t, r[i].category);
    }
  }

  /** A category seen before has its entry increased by the amount. */
  lemma AccumulateExisting(g: seq<CategoryTotal>, es: seq<Transaction>, t: Transaction, k: nat)
    requires t.kind == Expense && GroupsOf(g, es)
    requires FindCategory(g, t.category) == Some(k)
    ensures GroupsOf(Accumulate(g, t.category, t.amount), es + [t])
  {
    var r := Accumulate(g, t.category, t.amount);
    assert r == g[k := CategoryTotal(t.category, g[k].total + t.amount)];
    AccumulateNames(g, t.category, t.amount);
    CategoriesAppend(es, t);
    forall i, j | 0 <= i < j < |r| ensures CategoryName(r[i]) != CategoryName(r[j]) {
      assert CategoryName(g[i]) != CategoryName(g[j]);
    }
    forall i | 0 <= i < |r| ensures r[i].total == Total(es + [t], CategoryOf(Expense, r[i].category)) {
      ExpenseTotalAppend(es, t, r[i].category);
      if i < k {
        assert CategoryName(g[i]) != CategoryName(g[k]);
      } else if i > k {
        assert CategoryName(g[k]) != CategoryName(g[i]);
      }
    }
  }

  /** Grouping all-expense transactions gives one entry per category, each
      holding that category's expense total. */
  lemma {:induction false} GroupByCategorySpec(es: seq<Transaction>)
    requires forall i :: 0 <= i < |es| ==> es[i].kind == Expense
    ensures DistinctBy(GroupByCategory(es), CategoryName)
    ensures Names(GroupByCategory(es)) == Categories(es)
    ensures forall i :: 0 <= i < |GroupByCategory(es)| ==>
              GroupByCategory(es)[i].total == Total(es, CategoryOf(Expense, GroupByCategory(es)[i].category))
    decreases |es|
  {
    if |es| > 0 {
      var front := es[..|es| - 1];
      var last := es[|es| - 1];
      GroupByCategorySpec(front);
      assert es == front + [last];
      match FindCategory(GroupByCategory(front), last.category)
      case None => AccumulateNew(GroupByCategory(front), front, last);
      case Some(k) => AccumulateExisting(GroupByCategory(front), front, last, k);
    }
  }

  /** Ranking keeps the entries, their distinct categories and their
      names, and orders them by non-increasing total. */
  lemma RankSpec(g: seq<CategoryTotal>)
    requires DistinctBy(g, CategoryName)
    ensures var ranked := SortBy(g, LargerFirst);
            && |ranked| == |g|
            && (forall i, j :: 0 <= i < j < |ranked| ==> ranked[i].total >= ranked[j].total)
            && DistinctBy(ranked, CategoryName)
            && (forall i :: 0 <= i < |ranked| ==> ranked[i] in g)
            && Names(ranked) == Names(g)
  {
    var ranked := SortBy(g, LargerFirst);
    SortBySpec(g, LargerFirst);
    DistinctByPermutation(g, ranked, CategoryName);
    forall e ensures e in ranked <==> e in g {
      assert e in ranked <==> e in multiset(ranked);
      assert e in g <==> e in multiset(g);
    }
    forall i, j | 0 <= i < j < |ranked| ensures ranked[i].total >= ranked[j].total {
      assert LargerFirst(ranked[i]) <= LargerFirst(ranked[j]);
    }
  }

  /** Of entries with distinct categories, `Top` keeps `TopCount` of them,
      or all when there are fewer, with distinct categories, in
      non-increasing order of total, none smaller than an entry it leaves
      out. */
  lemma TopSpec(g: seq<CategoryTotal>)
    requires DistinctBy(g, CategoryName)
    ensures var r := Top(g);
            && |r| == (if |g| <= TopCount then |g| else TopCount)
            && (forall i, j :: 0 <= i < j < |r| ==> r[i].total >= r[j].total)
            && DistinctBy(r, CategoryName)
            && (forall i :: 0 <= i < |r| ==> r[i] in g)
            && (forall e :: e in g && e.category !in Names(r) ==> |r| == TopCount && e.total <= r[TopCount - 1].total)
  {
    var ranked := SortBy(g, LargerFirst);
    var r := Top(g);
    RankSpec(g);
    assert r == ranked[..|r|];
    assert DistinctBy(r, CategoryName) by {
      forall i, j | 0 <= i < j < |r| ensures CategoryName(r[i]) != CategoryName(r[j]) {
        assert CategoryName(ranked[i]) != CategoryName(ranked[j]);
      }
    }
    forall e | e in g && e.category !in Names(r) ensures |r| == TopCount && e.total <= r[TopCount - 1].total {
      assert e.category in Names(ranked);
      var x :| x in ranked && x.category == e.category;
      var k :| 0 <= k < |ranked| && ranked[k] == x;
      var j :| 0 <= j < |g| && g[j] == e;
      assert r[..0] == [];
      forall i | 0 <= i < |r| ensures ranked[i].category in Names(r) {
        assert r[i] in r;
      }
      assert k >= |r|;
      var jx :| 0 <= jx < |g| && g[jx] == x;
      DistinctBySame(g, CategoryName, jx, j);
    }
  }

  /** `r` holds categories of `es`, one entry each, each with the
      category's expense total in `es`, in non-increasing order of total; it
      holds all of them when there are at most `TopCount`, and otherwise
      exactly `TopCount`, each at least as large as any category left out. */
  ghost predicate RanksTop(r: seq<CategoryTotal>, es: seq<Transaction>) {
    && |r| == (if |Categories(es)| <= TopCount then |Categories(es)| else TopCount)
    && (forall i, j :: 0 <= i < j < |r| ==> r[i].total >= r[j].total)
    && DistinctBy(r, CategoryName)
    && (forall i :: 0 <= i < |r| ==>
          r[i].category in Categories(es) && r[i].total == Total(es, CategoryOf(Expense, r[i].category)))
    && (forall c :: c in Categories(es) && c !in Names(r) ==>
          |r| == TopCount && Total(es, CategoryOf(Expense, c)) <= r[TopCount - 1].total)
  }

  /** The chart ranks the month's expense categories: the month's expenses
      are exactly the ledger's expenses dated in the month, and the bars
      rank their categories as `RanksTop` says. */
  lemma TopExpenseCategoriesSpec(ts: seq<Transaction>, m: Month)
    ensures forall t :: t in MonthExpenses(ts, m) <==> t in ts && t.kind == Expense && InMonth(t.date, m)
    ensures RanksTop(TopExpenseCategories(ts, m), MonthExpenses(ts, m))
  {
    var es := MonthExpenses(ts, m);
    MonthExpensesSpec(ts, m);
    if |es| == 0 {
      assert Categories(es) == {};
    } else {
      GroupByCategorySpec(es);
      TopOfGroups(GroupByCategory(es), es);
    }
  }

  /** The month's expenses are the transactions of the ledger that are
      expenses dated in the month, all of them expenses. */
  lemma MonthExpensesSpec(ts: seq<Transaction>, m: Month)
    ensures forall t :: t in MonthExpenses(ts, m) <==> t in ts && t.kind == Expense && InMonth(t.date, m)
    ensures forall i :: 0 <= i < |MonthExpenses(ts, m)| ==> MonthExpenses(ts, m)[i].kind == Expense
  {
    var es := MonthExpenses(ts, m);
    FilterSpec(ts, (t: Transaction) => t.kind == Expense && InMonth(t.date, m));
    assert forall i :: 0 <= i < |es| ==> es[i] in es;
  }

  /** The top entries of a grouping of `es` rank categories of `es` by their
      expense totals. */
  lemma TopOfGroups(g: seq<CategoryTotal>, es: seq<Transaction>)
    requires GroupsOf(g, es)
    ensures RanksTop(Top(g), es)
  {
    var r := Top(g);
    DistinctNamesCount(g);
    TopSpec(g);
    forall i | 0 <= i < |r|
      ensures r[i].category in Categories(es) && r[i].total == Total(es, CategoryOf(Expense, r[i].category))
    {
      var j :| 0 <= j < |g| && g[j] == r[i];
      assert g[j].category in Names(g);
    }
    forall c | c in Categories(es) && c !in Names(r)
      ensures |r| == TopCount && Total(es, CategoryOf(Expense, c)) <= r[TopCount - 1].total
    {
      assert c in Names(g);
      var j :| 0 <= j < |g| && g[j].category == c;
    }
  }
}
