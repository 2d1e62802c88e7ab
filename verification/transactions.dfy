/** Transactions, their signed amounts, weighted totals over a sequence of
    them, and the running-balance walk that stamps each transaction with the
    balance as of that transaction. */
module Transactions {
  import opened Seqs
  import opened Sorting
  import opened Calendar

  datatype Kind = Income | Expense

  /** One ledger entry. `balance` is the running balance the ledger stamped
      on it; every other field is fixed when the entry is created. An absent
      description is the empty string. The informational creation
      timestamp is not modelled. */
  datatype Transaction = Transaction(
    id: int,
    kind: Kind,
    category: string,
    amount: int,
    date: Date,
    description: string,
    balance: int)

  /** Income counts positive, anything else negative. */
  function SignedAmount(kind: Kind, amount: int): int {
    if kind == Income then amount else -amount
  }

  function Signed(t: Transaction): int {
    SignedAmount(t.kind, t.amount)
  }

  /** What a total adds up: the net signed flow, or the amounts of one type
      and one category. */
  datatype Weighting = Net | CategoryOf(kind: Kind, category: string)

  function Weight(t: Transaction, w: Weighting): int {
    match w
    case Net => Signed(t)
    case CategoryOf(k, c) => if t.kind == k && t.category == c then t.amount else 0
  }

  /** The sum of the weights of `ts`. */
  function Total(ts: seq<Transaction>, w: Weighting): int
    decreases |ts|
  {
    if |ts| == 0 then 0 else Total(ts[..|ts| - 1], w) + Weight(ts[|ts| - 1], w)
  }

  /** The sort key of `new Date(t.date)`. */
  function DayKey(t: Transaction): int {
    DayNumber(t.date)
  }

  /** A transaction with its stamped balance forgotten. */
  function Unstamp(t: Transaction): Transaction {
    t.(balance := 0)
  }

  function Unstamped(ts: seq<Transaction>): (r: seq<Transaction>)
    ensures |r| == |ts|
  {
    seq(|ts|, i requires 0 <= i < |ts| => Unstamp(ts[i]))
  }

  /** The running-balance walk: each transaction, in sequence order, adds
      its signed amount to the running balance and is stamped with the
      result. */
  function Walk(ts: seq<Transaction>, start: int): (r: seq<Transaction>)
    ensures |r| == |ts|
    decreases |ts|
  {
    if |ts| == 0 then []
    else
      var running := start + Signed(ts[0]);
      [ts[0].(balance := running)] + Walk(ts[1..], running)
  }

  /** The balance stamped on the last transaction, 0 for an empty sequence. */
  function LastBalance(ts: seq<Transaction>): int {
    if |ts| == 0 then 0 else ts[|ts| - 1].balance
  }

  /** Sorted by date, and each stamped balance is the signed
      sum of the transactions up to and including it. */
  ghost predicate Chronological(ts: seq<Transaction>) {
    && SortedBy(ts, DayKey)
    && forall i :: 0 <= i < |ts| ==> ts[i].balance == Total(ts[..i + 1], Net)
  }

  lemma {:induction false} TotalConcat(a: seq<Transaction>, b: seq<Transaction>, w: Weighting)
    ensures Total(a + b, w) == Total(a, w) + Total(b, w)
    decreases |b|
  {
    if |b| == 0 {
      assert a + b == a;
    } else {
      assert (a + b)[..|a + b| - 1] == a + b[..|b| - 1];
      TotalConcat(a, b[..|b| - 1], w);
    }
  }

  /** Removing the transaction at position `i` removes its weight. */
  lemma TotalRemoveAt(b: seq<Transaction>, i: int, w: Weighting)
    requires 0 <= i < |b|
    ensures Total(b, w) == Total(b[..i] + b[i + 1..], w) + Weight(b[i], w)
  {
    assert b == b[..i] + [b[i]] + b[i + 1..];
    TotalConcat(b[..i] + [b[i]], b[i + 1..], w);
    TotalConcat(b[..i], [b[i]], w);
    TotalConcat(b[..i], b[i + 1..], w);
    assert [b[i]][..0] == [];
  }

  lemma MultisetRemoveAt<T>(b: seq<T>, i: int)
    requires 0 <= i < |b|
    ensures multiset(b[..i] + b[i + 1..]) == multiset(b) - multiset{b[i]}
  {
    assert b == b[..i] + [b[i]] + b[i + 1..];
  }

  /** Totals do not depend on the order of the transactions. */
  lemma {:induction false} TotalPermutation(a: seq<Transaction>, b: seq<Transaction>, w: Weighting)
    requires multiset(a) == multiset(b)
    ensures Total(a, w) == Total(b, w)
    decreases |a|
  {
    if |a| == 0 {
      assert |b| == |multiset(b)| == 0;
    } else {
      var x := a[|a| - 1];
      MultisetRemoveAt(a, |a| - 1);
      assert a[..|a| - 1] + a[|a|..] == a[..|a| - 1];
      assert x in multiset(b);
      var i :| 0 <= i < |b| && b[i] == x;
      MultisetRemoveAt(b, i);
      TotalPermutation(a[..|a| - 1], b[..i] + b[i + 1..], w);
      TotalRemoveAt(b, i, w);
    }
  }

  /** Totals do not depend on stamped balances. */
  lemma {:induction false} TotalUnstamped(ts: seq<Transaction>, w: Weighting)
    ensures Total(Unstamped(ts), w) == Total(ts, w)
    decreases |ts|
  {
    if |ts| > 0 {
      assert Unstamped(ts)[..|ts| - 1] == Unstamped(ts[..|ts| - 1]);
      TotalUnstamped(ts[..|ts| - 1], w);
    }
  }

  lemma TotalRestamped(a: seq<Transaction>, b: seq<Transaction>, w: Weighting)
    requires Unstamped(a) == Unstamped(b)
    ensures Total(a, w) == Total(b, w)
  {
    TotalUnstamped(a, w);
    TotalUnstamped(b, w);
  }

  lemma SingleTotal(t: Transaction, w: Weighting)
    ensures Total([t], w) == Weight(t, w)
  {
    assert [t][..0] == [];
  }

  /** A prefix total splits off its first transaction. */
  lemma TotalPrefixCons(ts: seq<Transaction>, i: int, w: Weighting)
    requires 0 <= i < |ts|
    ensures Total(ts[..i + 1], w) == Weight(ts[0], w) + Total(ts[1..][..i], w)
  {
    assert ts[..i + 1] == [ts[0]] + ts[1..][..i];
    TotalConcat([ts[0]], ts[1..][..i], w);
    SingleTotal(ts[0], w);
  }

  lemma {:induction false} WalkAt(ts: seq<Transaction>, start: int, i: int)
    requires 0 <= i < |ts|
    ensures Walk(ts, start)[i].balance == start + Total(ts[..i + 1], Net)
    decreases i
  {
    var running := start + Signed(ts[0]);
    var rest := Walk(ts[1..], running);
    TotalPrefixCons(ts, i, Net);
    if i == 0 {
      assert ts[1..][..0] == [];
      assert Walk(ts, start)[0].balance == running;
    } else {
      WalkAt(ts[1..], running, i - 1);
      assert Walk(ts, start)[i] == rest[i - 1];
    }
  }

  /** The walk stamps the i-th transaction with `start` plus the signed sum of
      the first i+1 transactions, and finishes at `start` plus the signed sum
      of them all. */
  lemma WalkBalances(ts: seq<Transaction>, start: int)
    ensures forall i :: 0 <= i < |ts| ==> Walk(ts, start)[i].balance == start + Total(ts[..i + 1], Net)
    ensures |ts| > 0 ==> LastBalance(Walk(ts, start)) == start + Total(ts, Net)
  {
    forall i | 0 <= i < |ts| ensures Walk(ts, start)[i].balance == start + Total(ts[..i + 1], Net) {
      WalkAt(ts, start, i);
    }
    if |ts| > 0 {
      assert ts[..|ts|] == ts;
      WalkAt(ts, start, |ts| - 1);
    }
  }

  /** Each step of the walk adds one signed amount to the previous stamp. */
  lemma {:induction false} WalkStep(ts: seq<Transaction>, start: int, i: int)
    requires 0 <= i < |ts|
    ensures Walk(ts, start)[i].balance == (if i == 0 then start else Walk(ts, start)[i - 1].balance) + Signed(ts[i])
    decreases i
  {
    var running := start + Signed(ts[0]);
    var rest := Walk(ts[1..], running);
    var w := Walk(ts, start);
    assert w[0].balance == running;
    if i > 0 {
      WalkStep(ts[1..], running, i - 1);
      assert w[i] == rest[i - 1];
      if i > 1 {
        assert w[i - 1] == rest[i - 2];
      }
    }
  }

  /** Walking a date-sorted sequence from 0 yields a chronological one whose
      last stamp is the net total. */
  lemma WalkChronological(ts: seq<Transaction>)
    requires SortedBy(ts, DayKey)
    ensures Chronological(Walk(ts, 0))
    ensures LastBalance(Walk(ts, 0)) == Total(ts, Net)
  {
    var walked := Walk(ts, 0);
    WalkKeeps(ts, 0);
    WalkBalances(ts, 0);
    assert SortedBy(walked, DayKey) by {
      forall i, j | 0 <= i < j < |walked| ensures DayKey(walked[i]) <= DayKey(walked[j]) {
        assert DayKey(walked[i]) == DayKey(ts[i]) && DayKey(walked[j]) == DayKey(ts[j]);
      }
    }
    WalkUnstamped(ts, 0);
    forall i | 0 <= i < |walked| ensures walked[i].balance == Total(walked[..i + 1], Net) {
      WalkPrefixTotal(ts, i);
    }
  }

  lemma WalkPrefixTotal(ts: seq<Transaction>, i: int)
    requires 0 <= i < |ts|
    ensures Total(Walk(ts, 0)[..i + 1], Net) == Total(ts[..i + 1], Net)
  {
    var walked := Walk(ts, 0);
    WalkUnstamped(ts, 0);
    UnstampedPrefix(walked, ts, i + 1);
    TotalRestamped(walked[..i + 1], ts[..i + 1], Net);
  }

  lemma UnstampedPrefix(a: seq<Transaction>, b: seq<Transaction>, n: int)
    requires Unstamped(a) == Unstamped(b) && 0 <= n <= |a|
    ensures Unstamped(a[..n]) == Unstamped(b[..n])
  {
    forall i | 0 <= i < n ensures Unstamped(a[..n])[i] == Unstamped(b[..n])[i] {
      assert Unstamped(a[..n])[i] == Unstamp(a[i]) == Unstamped(a)[i];
      assert Unstamped(b[..n])[i] == Unstamp(b[i]) == Unstamped(b)[i];
    }
  }

  /** The walk forgets nothing but balances. */
  lemma WalkUnstamped(ts: seq<Transaction>, start: int)
    ensures Unstamped(Walk(ts, start)) == Unstamped(ts)
  {
    WalkKeeps(ts, start);
  }

  /** The walk changes each transaction's stamped balance and nothing else. */
  lemma {:induction false} WalkKeeps(ts: seq<Transaction>, start: int)
    ensures forall i :: 0 <= i < |ts| ==> Walk(ts, start)[i] == ts[i].(balance := Walk(ts, start)[i].balance)
    decreases |ts|
  {
    if |ts| > 0 {
      var running := start + Signed(ts[0]);
      WalkKeeps(ts[1..], running);
      assert forall i :: 1 <= i < |ts| ==> Walk(ts, start)[i] == Walk(ts[1..], running)[i - 1];
    }
  }

  /** In a chronological list the last stamped balance is the net total. */
  lemma ChronologicalLastBalance(ts: seq<Transaction>)
    requires Chronological(ts)
    ensures LastBalance(ts) == Total(ts, Net)
  {
    if |ts| > 0 {
      assert ts[..|ts|] == ts;
    }
  }

  lemma UnstampedConcat(a: seq<Transaction>, b: seq<Transaction>)
    ensures Unstamped(a + b) == Unstamped(a) + Unstamped(b)
  {
  }

  lemma {:induction false} UnstampedInsert(s: seq<Transaction>, x: Transaction)
    ensures Unstamped(Insert(s, x, DayKey)) == Insert(Unstamped(s), Unstamp(x), DayKey)
    decreases |s|
  {
    if |s| == 0 {
      assert Unstamped([x]) == [Unstamp(x)];
    } else {
      var us := Unstamped(s);
      assert us[0] == Unstamp(s[0]);
      if DayKey(x) < DayKey(s[0]) {
        UnstampedConcat([x], s);
        assert Unstamped([x]) == [Unstamp(x)];
      } else {
        UnstampedInsert(s[1..], x);
        UnstampedConcat([s[0]], Insert(s[1..], x, DayKey));
        assert Unstamped([s[0]]) == [Unstamp(s[0])];
        assert us[1..] == Unstamped(s[1..]);
      }
    }
  }

  /** Sorting by date commutes with forgetting balances, since the date is
      not a balance. */
  lemma {:induction false} UnstampedSortBy(ts: seq<Transaction>)
    ensures Unstamped(SortBy(ts, DayKey)) == SortBy(Unstamped(ts), DayKey)
    decreases |ts|
  {
    if |ts| > 0 {
      var p := ts[..|ts| - 1];
      UnstampedSortBy(p);
      UnstampedInsert(SortBy(p, DayKey), ts[|ts| - 1]);
      assert Unstamped(ts)[..|ts| - 1] == Unstamped(p);
    }
  }
}
