/** The ledger store: the transaction sequence, the income and expense
    category aggregates, and the two balance scalars, with the add, delete,
    recompute and clear operations that keep them in step. */
module LedgerStore {
  import opened Wrappers
  import opened Seqs
  import opened Sorting
  import opened Calendar
  import opened Transactions

  /** The engine's whole state. `balance` and `currentBalance` are kept
      separately, as the program keeps them. */
  datatype Ledger = Ledger(
    transactions: seq<Transaction>,
    incomeData: map<string, int>,
    expenseData: map<string, int>,
    balance: int,
    currentBalance: int)

  /** The fields of a new transaction as the entry form supplies them. */
  datatype Draft = Draft(kind: Kind, category: string, amount: int, date: Date, description: string)

  /** The state at start-up, before anything is loaded. */
  function Empty(): Ledger {
    Ledger([], map[], map[], 0, 0)
  }

  /** `m[c] || 0`: a missing category reads as 0. */
  function Get(m: map<string, int>, c: string): int {
    if c in m then m[c] else 0
  }

  function Other(k: Kind): Kind {
    if k == Income then Expense else Income
  }

  /** The aggregate map for transactions of type `k`. */
  function Aggregate(l: Ledger, k: Kind): map<string, int> {
    if k == Income then l.incomeData else l.expenseData
  }

  /** `m[c] = (m[c] || 0) + amount`. */
  function Credit(m: map<string, int>, c: string, amount: int): map<string, int> {
    m[c := Get(m, c) + amount]
  }

  /** `m[c] -= amount`, then the entry is deleted if it is no longer
      positive. */
  function Debit(m: map<string, int>, c: string, amount: int): map<string, int> {
    var v := Get(m, c) - amount;
    if v <= 0 then m - {c} else m[c := v]
  }

  /** `a` and `b` agree on every category other than `c`. */
  ghost predicate SameElsewhere(a: map<string, int>, b: map<string, int>, c: string) {
    forall k :: k != c ==> (k in a <==> k in b) && (k in a ==> a[k] == b[k])
  }

  /** Records a new transaction: credits its category in the aggregate of its
      type, moves both scalars by its signed amount, and appends it stamped
      with the new `currentBalance`. Nothing is re-sorted. */
  function Add(l: Ledger, d: Draft, id: int): (r: Ledger)
    ensures |r.transactions| == |l.transactions| + 1
    ensures r.transactions[..|l.transactions|] == l.transactions
    ensures r.transactions[|l.transactions|]
         == Transaction(id, d.kind, d.category, d.amount, d.date, d.description, r.currentBalance)
    ensures r.balance == l.balance + SignedAmount(d.kind, d.amount)
    ensures r.currentBalance == l.currentBalance + SignedAmount(d.kind, d.amount)
    ensures d.category in Aggregate(r, d.kind)
    ensures Aggregate(r, d.kind)[d.category] == Get(Aggregate(l, d.kind), d.category) + d.amount
    ensures SameElsewhere(Aggregate(r, d.kind), Aggregate(l, d.kind), d.category)
    ensures Aggregate(r, Other(d.kind)) == Aggregate(l, Other(d.kind))
  {
    var updated :=
      if d.kind == Income then
        l.(incomeData := Credit(l.incomeData, d.category, d.amount), balance := l.balance + d.amount)
      else
        l.(expenseData := Credit(l.expenseData, d.category, d.amount), balance := l.balance - d.amount);
    var current := l.currentBalance + (if d.kind == Income then d.amount else -d.amount);
    var t := Transaction(id, d.kind, d.category, d.amount, d.date, d.description, current);
    updated.(currentBalance := current, transactions := l.transactions + [t])
  }

  /** `transactions.findIndex(t => t.id === id)`, with -1 as `None`. */
  function IndexOfId(ts: seq<Transaction>, id: int): (r: Option<nat>)
    ensures r.None? <==> forall j :: 0 <= j < |ts| ==> ts[j].id != id
    ensures r.Some? ==> r.value < |ts| && ts[r.value].id == id
    ensures r.Some? ==> forall j :: 0 <= j < r.value ==> ts[j].id != id
    decreases |ts|
  {
    if |ts| == 0 then None
    else if ts[0].id == id then Some(0)
    else match IndexOfId(ts[1..], id)
      case None => None
      case Some(i) => Some(i + 1)
  }

  /** Stable sort by date, then re-stamp every transaction with the running
      balance; `currentBalance` becomes the final running balance. */
  function Recalculate(l: Ledger): Ledger {
    var sorted := SortBy(l.transactions, DayKey);
    l.(transactions := Walk(sorted, 0), currentBalance := Total(sorted, Net))
  }

  /** Lines 601-619 of the delete callback: reverses the contribution of the
      transaction at position `i` to its category aggregate and to `balance`,
      and splices it out, leaving stamped balances stale. */
  function Unrecord(l: Ledger, i: int): Ledger
    requires 0 <= i < |l.transactions|
  {
    var t := l.transactions[i];
    var reversed :=
      if t.kind == Income then
        l.(incomeData := Debit(l.incomeData, t.category, t.amount), balance := l.balance - t.amount)
      else
        l.(expenseData := Debit(l.expenseData, t.category, t.amount), balance := l.balance + t.amount);
    reversed.(transactions := l.transactions[..i] + l.transactions[i + 1..])
  }

  /** Deletes the first transaction with this id, if any: reverses its
      contribution, removes it, and recomputes all stamped balances. */
  function Delete(l: Ledger, id: int): (r: Ledger)
    ensures (forall j :: 0 <= j < |l.transactions| ==> l.transactions[j].id != id) ==> r == l
  {
    match IndexOfId(l.transactions, id)
    case None => l
    case Some(i) => Recalculate(Unrecord(l, i))
  }

  /** Empties the ledger and its aggregates and zeroes both scalars. */
  function Clear(l: Ledger): (r: Ledger)
    ensures Consistent(r)
    ensures |r.transactions| == 0 && |r.incomeData| == 0 && |r.expenseData| == 0
    ensures r.balance == 0 && r.currentBalance == 0
  {
    Empty()
  }

  // ---------------------------------------------------------------------
  // Invariants

  predicate PositiveAmounts(ts: seq<Transaction>) {
    forall i :: 0 <= i < |ts| ==> ts[i].amount > 0
  }

  function IdOf(t: Transaction): int {
    t.id
  }

  predicate UniqueIds(ts: seq<Transaction>) {
    DistinctBy(ts, IdOf)
  }

  /** No transaction of `ts` has this id. */
  predicate Fresh(id: int, ts: seq<Transaction>) {
    forall i :: 0 <= i < |ts| ==> ts[i].id != id
  }

  /** For one type: an aggregate holds exactly the categories
      whose live total is positive, each with that total. */
  ghost predicate AggregatesAgree(m: map<string, int>, ts: seq<Transaction>, k: Kind) {
    forall c ::
      && (c in m <==> Total(ts, CategoryOf(k, c)) > 0)
      && (c in m ==> m[c] == Total(ts, CategoryOf(k, c)))
  }

  /** The invariants every add and delete keeps: positive amounts, unique
      ids, both scalars equal to the net total, and both aggregates in
      agreement with the transactions. */
  ghost predicate Consistent(l: Ledger) {
    && PositiveAmounts(l.transactions)
    && UniqueIds(l.transactions)
    && l.balance == Total(l.transactions, Net)
    && l.currentBalance == Total(l.transactions, Net)
    && AggregatesAgree(l.incomeData, l.transactions, Income)
    && AggregatesAgree(l.expenseData, l.transactions, Expense)
  }

  // ---------------------------------------------------------------------
  // Facts about totals used by the invariant proofs

  lemma {:induction false} CategoryTotalNonNegative(ts: seq<Transaction>, k: Kind, c: string)
    requires PositiveAmounts(ts)
    ensures Total(ts, CategoryOf(k, c)) >= 0
    decreases |ts|
  {
    if |ts| > 0 {
      CategoryTotalNonNegative(ts[..|ts| - 1], k, c);
    }
  }

  lemma TotalAppend(ts: seq<Transaction>, t: Transaction, w: Weighting)
    ensures Total(ts + [t], w) == Total(ts, w) + Weight(t, w)
  {
    assert (ts + [t])[..|ts|] == ts;
  }

  /** Removing one transaction keeps amounts positive. */
  lemma RemoveAtPositive(ts: seq<Transaction>, i: int)
    requires 0 <= i < |ts| && PositiveAmounts(ts)
    ensures PositiveAmounts(ts[..i] + ts[i + 1..])
  {
    var rem := ts[..i] + ts[i + 1..];
    assert forall k :: 0 <= k < |rem| ==> rem[k] == ts[if k < i then k else k + 1];
  }

  /** Removing one transaction keeps ids unique. */
  lemma RemoveAtUnique(ts: seq<Transaction>, i: int)
    requires 0 <= i < |ts| && UniqueIds(ts)
    ensures UniqueIds(ts[..i] + ts[i + 1..])
  {
    var rem := ts[..i] + ts[i + 1..];
    assert forall k :: 0 <= k < |rem| ==> rem[k] == ts[if k < i then k else k + 1];
    forall a, b | 0 <= a < b < |rem| ensures IdOf(rem[a]) != IdOf(rem[b]) {
      var a', b' := (if a < i then a else a + 1), (if b < i then b else b + 1);
      assert a' < b' && rem[a] == ts[a'] && rem[b] == ts[b'];
    }
  }

  // ---------------------------------------------------------------------
  // Recomputation

  lemma RecalculateOrder(l: Ledger)
    ensures IsStableSortOf(Unstamped(Recalculate(l).transactions), Unstamped(l.transactions), DayKey)
  {
    var sorted := SortBy(l.transactions, DayKey);
    SortBySpec(Unstamped(l.transactions), DayKey);
    UnstampedSortBy(l.transactions);
    WalkUnstamped(sorted, 0);
  }

  lemma RecalculateTotals(l: Ledger)
    ensures forall w :: Total(Recalculate(l).transactions, w) == Total(l.transactions, w)
    ensures Recalculate(l).currentBalance == Total(l.transactions, Net)
  {
    var ts := l.transactions;
    var sorted := SortBy(ts, DayKey);
    var walked := Walk(sorted, 0);
    SortBySpec(ts, DayKey);
    WalkUnstamped(sorted, 0);
    forall w ensures Total(walked, w) == Total(ts, w) {
      TotalRestamped(walked, sorted, w);
      TotalPermutation(sorted, ts, w);
    }
    TotalPermutation(sorted, ts, Net);
  }

  lemma RecalculateChronological(l: Ledger)
    ensures Chronological(Recalculate(l).transactions)
    ensures Recalculate(l).currentBalance == LastBalance(Recalculate(l).transactions)
  {
    SortBySpec(l.transactions, DayKey);
    WalkChronological(SortBy(l.transactions, DayKey));
  }

  /** After recomputation the transactions, balances aside, are a stable
      ascending-by-date sort of the old ones; each stamped balance is the
      signed prefix sum up to and including it (`Chronological`);
      `currentBalance` is the last stamped balance, or 0 for an empty ledger,
      and equals the net
      total; every total and everything else is unchanged. */
  lemma RecalculateSpec(l: Ledger)
    ensures IsStableSortOf(Unstamped(Recalculate(l).transactions), Unstamped(l.transactions), DayKey)
    ensures Chronological(Recalculate(l).transactions)
    ensures Recalculate(l).currentBalance == LastBalance(Recalculate(l).transactions)
    ensures Recalculate(l).currentBalance == Total(l.transactions, Net)
    ensures forall w :: Total(Recalculate(l).transactions, w) == Total(l.transactions, w)
    ensures Recalculate(l).incomeData == l.incomeData && Recalculate(l).expenseData == l.expenseData
    ensures Recalculate(l).balance == l.balance
  {
    RecalculateOrder(l);
    RecalculateTotals(l);
    RecalculateChronological(l);
  }

  /** Recomputation keeps amounts positive and ids unique. */
  lemma RecalculateKeepsEntries(l: Ledger)
    requires PositiveAmounts(l.transactions) && UniqueIds(l.transactions)
    ensures PositiveAmounts(Recalculate(l).transactions) && UniqueIds(Recalculate(l).transactions)
  {
    var ts := l.transactions;
    var sorted := SortBy(ts, DayKey);
    var walked := Walk(sorted, 0);
    SortBySpec(ts, DayKey);
    DistinctByPermutation(ts, sorted, IdOf);
    WalkKeeps(sorted, 0);
    forall i | 0 <= i < |walked| ensures walked[i].amount > 0 {
      assert sorted[i] in multiset(ts);
    }
    forall i, j | 0 <= i < j < |walked| ensures IdOf(walked[i]) != IdOf(walked[j]) {
      assert IdOf(sorted[i]) != IdOf(sorted[j]);
    }
  }

  // ---------------------------------------------------------------------
  // Add

  lemma AgreeAfterCredit(m: map<string, int>, ts: seq<Transaction>, t: Transaction, k: Kind)
    requires AggregatesAgree(m, ts, k) && PositiveAmounts(ts) && t.amount > 0
    ensures AggregatesAgree(if t.kind == k then Credit(m, t.category, t.amount) else m, ts + [t], k)
  {
    var m' := if t.kind == k then Credit(m, t.category, t.amount) else m;
    forall c ensures && (c in m' <==> Total(ts + [t], CategoryOf(k, c)) > 0)
                     && (c in m' ==> m'[c] == Total(ts + [t], CategoryOf(k, c)))
    {
      TotalAppend(ts, t, CategoryOf(k, c));
      CategoryTotalNonNegative(ts, k, c);
    }
  }

  /** Add keeps every invariant when the amount is positive and the id is
      fresh: both scalars still equal the net total, and each aggregate entry
      still equals the live total of its type and category. */
  lemma AddPreservesConsistency(l: Ledger, d: Draft, id: int)
    requires Consistent(l)
    requires d.amount > 0
    requires Fresh(id, l.transactions)
    ensures Consistent(Add(l, d, id))
  {
    var r := Add(l, d, id);
    var ts := l.transactions;
    var t := r.transactions[|ts|];
    assert r.transactions == ts + [t];
    TotalAppend(ts, t, Net);
    AgreeAfterCredit(l.incomeData, ts, t, Income);
    AgreeAfterCredit(l.expenseData, ts, t, Expense);
    forall i, j | 0 <= i < j < |r.transactions| ensures IdOf(r.transactions[i]) != IdOf(r.transactions[j]) {
      if j < |ts| {
        assert IdOf(ts[i]) != IdOf(ts[j]);
      }
    }
  }

  /** Add appends without re-sorting, so a chronological ledger stays
      chronological exactly when no existing transaction is
      dated after the new one. */
  lemma AddChronologyIff(l: Ledger, d: Draft, id: int)
    requires Consistent(l) && Chronological(l.transactions)
    ensures Chronological(Add(l, d, id).transactions)
        <==> forall i :: 0 <= i < |l.transactions| ==> DayKey(l.transactions[i]) <= DayNumber(d.date)
  {
    if forall i :: 0 <= i < |l.transactions| ==> DayKey(l.transactions[i]) <= DayNumber(d.date) {
      AddLateIsChronological(l, d, id);
    } else {
      var i :| 0 <= i < |l.transactions| && DayKey(l.transactions[i]) > DayNumber(d.date);
      AddEarlyBreaksChronology(l, d, id, i);
    }
  }

  /** Adding a transaction dated on or after every existing one keeps the
      ledger chronological. */
  lemma AddLateIsChronological(l: Ledger, d: Draft, id: int)
    requires Consistent(l) && Chronological(l.transactions)
    requires forall i :: 0 <= i < |l.transactions| ==> DayKey(l.transactions[i]) <= DayNumber(d.date)
    ensures Chronological(Add(l, d, id).transactions)
  {
    var r := Add(l, d, id);
    var ts := l.transactions;
    var t := r.transactions[|ts|];
    assert r.transactions == ts + [t];
    forall i | 0 <= i < |r.transactions| ensures r.transactions[i].balance == Total(r.transactions[..i + 1], Net) {
      if i < |ts| {
        assert r.transactions[..i + 1] == ts[..i + 1];
      } else {
        assert r.transactions[..i + 1] == ts + [t];
        TotalAppend(ts, t, Net);
      }
    }
  }

  /** Adding a transaction dated before an existing one leaves it out of
      date order. */
  lemma AddEarlyBreaksChronology(l: Ledger, d: Draft, id: int, i: int)
    requires Consistent(l)
    requires 0 <= i < |l.transactions| && DayKey(l.transactions[i]) > DayNumber(d.date)
    ensures !Chronological(Add(l, d, id).transactions)
  {
    var r := Add(l, d, id);
    assert DayKey(r.transactions[i]) > DayKey(r.transactions[|l.transactions|]);
  }

  // ---------------------------------------------------------------------
  // Delete

  lemma AgreeAfterDebit(m: map<string, int>, ts: seq<Transaction>, i: int, k: Kind)
    requires 0 <= i < |ts|
    requires AggregatesAgree(m, ts, k) && PositiveAmounts(ts)
    ensures AggregatesAgree(if ts[i].kind == k then Debit(m, ts[i].category, ts[i].amount) else m,
                            ts[..i] + ts[i + 1..], k)
  {
    var t := ts[i];
    var rem := ts[..i] + ts[i + 1..];
    var m' := if t.kind == k then Debit(m, t.category, t.amount) else m;
    RemoveAtPositive(ts, i);
    forall c ensures && (c in m' <==> Total(rem, CategoryOf(k, c)) > 0)
                     && (c in m' ==> m'[c] == Total(rem, CategoryOf(k, c)))
    {
      TotalRemoveAt(ts, i, CategoryOf(k, c));
      CategoryTotalNonNegative(rem, k, c);
    }
  }

  /** A ledger whose only fault is stale stamped balances becomes consistent
      by recomputation. */
  lemma RecalculateRestores(b: Ledger)
    requires PositiveAmounts(b.transactions) && UniqueIds(b.transactions)
    requires b.balance == Total(b.transactions, Net)
    requires AggregatesAgree(b.incomeData, b.transactions, Income)
    requires AggregatesAgree(b.expenseData, b.transactions, Expense)
    ensures Consistent(Recalculate(b))
  {
    RecalculateTotals(b);
    RecalculateKeepsEntries(b);
    var r := Recalculate(b);
    assert forall c :: Total(r.transactions, CategoryOf(Income, c)) == Total(b.transactions, CategoryOf(Income, c));
    assert forall c :: Total(r.transactions, CategoryOf(Expense, c)) == Total(b.transactions, CategoryOf(Expense, c));
  }

  /** Unrecording keeps every invariant except the stamped balances. */
  lemma UnrecordKeepsAggregates(l: Ledger, i: int)
    requires Consistent(l) && 0 <= i < |l.transactions|
    ensures PositiveAmounts(Unrecord(l, i).transactions) && UniqueIds(Unrecord(l, i).transactions)
    ensures Unrecord(l, i).balance == Total(Unrecord(l, i).transactions, Net)
    ensures AggregatesAgree(Unrecord(l, i).incomeData, Unrecord(l, i).transactions, Income)
    ensures AggregatesAgree(Unrecord(l, i).expenseData, Unrecord(l, i).transactions, Expense)
  {
    RemoveAtPositive(l.transactions, i);
    RemoveAtUnique(l.transactions, i);
    TotalRemoveAt(l.transactions, i, Net);
    AgreeAfterDebit(l.incomeData, l.transactions, i, Income);
    AgreeAfterDebit(l.expenseData, l.transactions, i, Expense);
  }

  /** Delete keeps every invariant, and leaves the transactions
      chronological whenever it removed one. */
  lemma DeletePreservesConsistency(l: Ledger, id: int)
    requires Consistent(l)
    ensures Consistent(Delete(l, id))
    ensures !Fresh(id, l.transactions) ==> Chronological(Delete(l, id).transactions)
  {
    match IndexOfId(l.transactions, id)
    case None =>
    case Some(i) =>
      UnrecordKeepsAggregates(l, i);
      RecalculateRestores(Unrecord(l, i));
      RecalculateChronological(Unrecord(l, i));
  }

  lemma IndexOfFirstMatch(ts: seq<Transaction>, id: int, i: int)
    requires 0 <= i < |ts| && ts[i].id == id
    requires forall j :: 0 <= j < i ==> ts[j].id != id
    ensures IndexOfId(ts, id) == Some(i)
  {
  }

  /** The entries and balance after unrecording position `i`. */
  lemma UnrecordSpec(l: Ledger, i: int)
    requires 0 <= i < |l.transactions|
    ensures multiset(Unstamped(Unrecord(l, i).transactions))
         == multiset(Unstamped(l.transactions)) - multiset{Unstamp(l.transactions[i])}
    ensures Unrecord(l, i).balance == l.balance - Signed(l.transactions[i])
    ensures var t := l.transactions[i];
            var m := Aggregate(Unrecord(l, i), t.kind);
            var v := Get(Aggregate(l, t.kind), t.category) - t.amount;
            && (t.category in m <==> v > 0)
            && (t.category in m ==> m[t.category] == v)
            && SameElsewhere(m, Aggregate(l, t.kind), t.category)
    ensures Aggregate(Unrecord(l, i), Other(l.transactions[i].kind))
         == Aggregate(l, Other(l.transactions[i].kind))
  {
    var ts := l.transactions;
    var u := Unstamped(ts);
    UnstampedConcat(ts[..i], ts[i + 1..]);
    assert Unstamped(ts[..i]) == u[..i];
    assert Unstamped(ts[i + 1..]) == u[i + 1..];
    MultisetRemoveAt(u, i);
  }

  /** Deleting the transaction at the first position `i` holding `id` removes
      exactly that transaction (balances aside, the rest is a stable
      date-sort of what remains), moves `balance` by its negated signed
      amount, lowers its category total by its amount and drops the category
      exactly when the result is not positive, leaves every other category
      and the other aggregate alone, and leaves the list chronological with
      `currentBalance` the last stamp. */
  lemma DeleteSpec(l: Ledger, id: int, i: int)
    requires 0 <= i < |l.transactions| && l.transactions[i].id == id
    requires forall j :: 0 <= j < i ==> l.transactions[j].id != id
    ensures |Delete(l, id).transactions| == |l.transactions| - 1
    ensures multiset(Unstamped(Delete(l, id).transactions))
         == multiset(Unstamped(l.transactions)) - multiset{Unstamp(l.transactions[i])}
    ensures IsStableSortOf(Unstamped(Delete(l, id).transactions),
                           Unstamped(l.transactions[..i] + l.transactions[i + 1..]), DayKey)
    ensures Delete(l, id).balance == l.balance - Signed(l.transactions[i])
    ensures var t := l.transactions[i];
            var m := Aggregate(Delete(l, id), t.kind);
            var v := Get(Aggregate(l, t.kind), t.category) - t.amount;
            && (t.category in m <==> v > 0)
            && (t.category in m ==> m[t.category] == v)
            && SameElsewhere(m, Aggregate(l, t.kind), t.category)
    ensures Aggregate(Delete(l, id), Other(l.transactions[i].kind))
         == Aggregate(l, Other(l.transactions[i].kind))
    ensures Chronological(Delete(l, id).transactions)
    ensures Delete(l, id).currentBalance == LastBalance(Delete(l, id).transactions)
  {
    var u := Unrecord(l, i);
    IndexOfFirstMatch(l.transactions, id, i);
    assert Delete(l, id) == Recalculate(u);
    UnrecordSpec(l, i);
    RecalculateSpec(u);
  }

  /** With unique ids, no transaction with the deleted id remains. */
  lemma DeleteRemovesId(l: Ledger, id: int)
    requires UniqueIds(l.transactions)
    ensures Fresh(id, Delete(l, id).transactions)
  {
    match IndexOfId(l.transactions, id)
    case None =>
    case Some(i) =>
      RemoveAtFresh(l.transactions, i);
      RecalculateOrder(Unrecord(l, i));
      FreshUnstamped(id, l.transactions[..i] + l.transactions[i + 1..], Delete(l, id).transactions);
  }

  /** Under unique ids, removing a transaction removes its id. */
  lemma RemoveAtFresh(ts: seq<Transaction>, i: int)
    requires UniqueIds(ts) && 0 <= i < |ts|
    ensures Fresh(ts[i].id, ts[..i] + ts[i + 1..])
  {
    var rem := ts[..i] + ts[i + 1..];
    forall k | 0 <= k < |rem| ensures rem[k].id != ts[i].id {
      if k < i {
        assert rem[k] == ts[k];
        assert IdOf(ts[k]) != IdOf(ts[i]);
      } else {
        assert rem[k] == ts[k + 1];
        assert IdOf(ts[i]) != IdOf(ts[k + 1]);
      }
    }
  }

  /** An id absent from `ts` is absent from any rearrangement of it, whatever
      the balances. */
  lemma FreshUnstamped(id: int, ts: seq<Transaction>, r: seq<Transaction>)
    requires Fresh(id, ts)
    requires multiset(Unstamped(r)) == multiset(Unstamped(ts))
    ensures Fresh(id, r)
  {
    forall k | 0 <= k < |r| ensures r[k].id != id {
      assert Unstamped(r)[k] in multiset(Unstamped(ts));
      var k' :| 0 <= k' < |ts| && Unstamped(ts)[k'] == Unstamped(r)[k];
      assert Unstamped(ts)[k'].id == ts[k'].id;
    }
  }
}
