/** A stable sort by an integer key, the behaviour that ECMAScript 2019 and
    later guarantee for `Array.prototype.sort` with a numeric comparator
    `(a, b) => key(a) - key(b)`. */
module Sorting {
  import opened Seqs

  /** Keys never decrease from left to right. */
  predicate SortedBy<T>(s: seq<T>, key: T -> int) {
    forall i, j :: 0 <= i < j < |s| ==> key(s[i]) <= key(s[j])
  }

  /** The elements of `s` whose key is `k`, in their order in `s`. */
  function WithKey<T>(s: seq<T>, key: T -> int, k: int): seq<T> {
    Filter(s, x => key(x) == k)
  }

  /** `r` is `s` sorted by `key`, and elements with equal keys keep their
      relative order from `s`. */
  ghost predicate IsStableSortOf<T>(r: seq<T>, s: seq<T>, key: T -> int) {
    && |r| == |s|
    && SortedBy(r, key)
    && multiset(r) == multiset(s)
    && forall k :: WithKey(r, key, k) == WithKey(s, key, k)
  }

  /** Inserts `x` into `s` after every element whose key is not greater
      than `x`'s. */
  function Insert<T>(s: seq<T>, x: T, key: T -> int): seq<T>
    decreases |s|
  {
    if |s| == 0 then [x]
    else if key(x) < key(s[0]) then [x] + s
    else [s[0]] + Insert(s[1..], x, key)
  }

  /** Insertion sort that inserts the elements in their original order, so
      that an element is placed after every earlier element with the same
      key. */
  function SortBy<T>(s: seq<T>, key: T -> int): seq<T>
    decreases |s|
  {
    if |s| == 0 then []
    else Insert(SortBy(s[..|s| - 1], key), s[|s| - 1], key)
  }

  lemma {:induction false} WithKeyConcat<T>(a: seq<T>, b: seq<T>, key: T -> int, k: int)
    ensures WithKey(a + b, key, k) == WithKey(a, key, k) + WithKey(b, key, k)
  {
    FilterConcat(a, b, x => key(x) == k);
  }

  lemma WithKeySingle<T>(x: T, key: T -> int, k: int)
    ensures WithKey([x], key, k) == if key(x) == k then [x] else []
  {
    assert [x][1..] == [];
    assert Filter([x][1..], y => key(y) == k) == [];
  }

  lemma {:induction false} WithKeyAbove<T>(s: seq<T>, key: T -> int, k: int)
    requires forall i :: 0 <= i < |s| ==> key(s[i]) > k
    ensures WithKey(s, key, k) == []
  {
    FilterNone(s, x => key(x) == k);
  }

  /** Inserting adds exactly `x`. */
  lemma {:induction false} InsertMultiset<T>(s: seq<T>, x: T, key: T -> int)
    ensures |Insert(s, x, key)| == |s| + 1
    ensures multiset(Insert(s, x, key)) == multiset(s) + multiset{x}
    decreases |s|
  {
    if |s| > 0 && key(s[0]) <= key(x) {
      InsertMultiset(s[1..], x, key);
      assert s == [s[0]] + s[1..];
    }
  }

  /** Inserting into a sorted sequence keeps it sorted. */
  lemma {:induction false} InsertSorted<T>(s: seq<T>, x: T, key: T -> int)
    requires SortedBy(s, key)
    ensures SortedBy(Insert(s, x, key), key)
    decreases |s|
  {
    var r := Insert(s, x, key);
    if |s| > 0 && key(s[0]) <= key(x) {
      var s' := s[1..];
      var r' := Insert(s', x, key);
      InsertSorted(s', x, key);
      InsertMultiset(s', x, key);
      assert r == [s[0]] + r';
      forall j | 0 < j < |r| ensures key(r[0]) <= key(r[j]) {
        assert r[j] == r'[j - 1];
        assert r[j] in multiset(r');
        assert r[j] in multiset(s') || r[j] == x;
      }
    }
  }

  /** Inserting into a sorted sequence puts `x` after every element with the
      same key, so each key's elements keep their order. */
  lemma {:induction false} InsertWithKey<T>(s: seq<T>, x: T, key: T -> int, k: int)
    requires SortedBy(s, key)
    ensures WithKey(Insert(s, x, key), key, k) == WithKey(s, key, k) + (if key(x) == k then [x] else [])
    decreases |s|
  {
    if |s| == 0 {
      WithKeySingle(x, key, k);
      assert WithKey(s, key, k) == [];
    } else if key(x) < key(s[0]) {
      assert Insert(s, x, key) == [x] + s;
      WithKeyConcat([x], s, key, k);
      if key(x) == k {
        WithKeyAbove(s, key, k);
      }
      WithKeySingle(x, key, k);
    } else {
      var s' := s[1..];
      InsertWithKey(s', x, key, k);
      assert Insert(s, x, key) == [s[0]] + Insert(s', x, key);
      assert s == [s[0]] + s';
      WithKeyConcat([s[0]], Insert(s', x, key), key, k);
      WithKeyConcat([s[0]], s', key, k);
      WithKeySingle(s[0], key, k);
    }
  }

  /** `SortBy` is a stable sort. */
  lemma {:induction false} SortBySpec<T>(s: seq<T>, key: T -> int)
    ensures IsStableSortOf(SortBy(s, key), s, key)
    decreases |s|
  {
    if |s| > 0 {
      var p := s[..|s| - 1];
      var x := s[|s| - 1];
      assert s == p + [x];
      SortBySpec(p, key);
      assert SortBy(s, key) == Insert(SortBy(p, key), x, key);
      InsertMultiset(SortBy(p, key), x, key);
      InsertSorted(SortBy(p, key), x, key);
      forall k ensures WithKey(SortBy(s, key), key, k) == WithKey(s, key, k) {
        InsertWithKey(SortBy(p, key), x, key, k);
        WithKeyConcat(p, [x], key, k);
        WithKeySingle(x, key, k);
      }
    }
  }
}
