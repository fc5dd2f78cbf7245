/** `Array.prototype.sort` with a numeric comparator, as the dashboard uses
    it: a stable sort by a real-valued key, descending (`scoreB - scoreA`)
    or ascending (`scoreA - scoreB`). */
module StableSort {

  datatype Direction = Descending | Ascending

  /** An element with key `x` may stay before one with key `y`
      (the comparator does not return a positive number). */
  predicate InOrder(x: real, y: real, dir: Direction) {
    if dir == Descending then x >= y else x <= y
  }

  predicate Sorted<T>(s: seq<T>, key: T -> real, dir: Direction) {
    forall i, j :: 0 <= i < j < |s| ==> InOrder(key(s[i]), key(s[j]), dir)
  }

  /** The elements of `s` whose key is `k`, in their order in `s`. */
  function WithKey<T>(s: seq<T>, key: T -> real, k: real): seq<T> {
    if s == [] then []
    else WithKey(s[..|s| - 1], key, k) + (if key(s[|s| - 1]) == k then [s[|s| - 1]] else [])
  }

  /** Inserts the later element `x` into the sorted `t`, behind every element
      it does not strictly beat. */
  function Insert<T>(t: seq<T>, x: T, key: T -> real, dir: Direction): seq<T> {
    if t == [] || InOrder(key(t[|t| - 1]), key(x), dir) then t + [x]
    else Insert(t[..|t| - 1], x, key, dir) + [t[|t| - 1]]
  }

  /** Insertion sort from left to right: the stable sort of `s`. */
  function SortBy<T>(s: seq<T>, key: T -> real, dir: Direction): seq<T> {
    if s == [] then [] else Insert(SortBy(s[..|s| - 1], key, dir), s[|s| - 1], key, dir)
  }

  lemma {:induction false} InsertMultiset<T>(t: seq<T>, x: T, key: T -> real, dir: Direction)
    ensures multiset(Insert(t, x, key, dir)) == multiset(t) + multiset{x}
    decreases |t|
  {
    if t == [] || InOrder(key(t[|t| - 1]), key(x), dir) {
    } else {
      var t' := t[..|t| - 1];
      InsertMultiset(t', x, key, dir);
      assert t == t' + [t[|t| - 1]];
    }
  }

  /** The sort is a permutation of its input. */
  lemma {:induction false} SortByPermutation<T>(s: seq<T>, key: T -> real, dir: Direction)
    ensures multiset(SortBy(s, key, dir)) == multiset(s)
    ensures |SortBy(s, key, dir)| == |s|
    decreases |s|
  {
    if s != [] {
      var s' := s[..|s| - 1];
      SortByPermutation(s', key, dir);
      InsertMultiset(SortBy(s', key, dir), s[|s| - 1], key, dir);
      assert s == s' + [s[|s| - 1]];
    }
    assert |multiset(SortBy(s, key, dir))| == |multiset(s)|;
  }

  lemma {:induction false} InsertSorted<T>(t: seq<T>, x: T, key: T -> real, dir: Direction)
    requires Sorted(t, key, dir)
    ensures Sorted(Insert(t, x, key, dir), key, dir)
    decreases |t|
  {
    if t == [] || InOrder(key(t[|t| - 1]), key(x), dir) {
    } else {
      var t', last := t[..|t| - 1], t[|t| - 1];
      InsertSorted(t', x, key, dir);
      var u := Insert(t', x, key, dir);
      InsertMultiset(t', x, key, dir);
      forall i | 0 <= i < |u|
        ensures InOrder(key(u[i]), key(last), dir)
      {
        assert u[i] in multiset(u);
        if u[i] != x {
          assert u[i] in multiset(t');
          var k :| 0 <= k < |t'| && t'[k] == u[i];
          assert t[k] == u[i];
        }
      }
    }
  }

  /** The sort orders its output by key. */
  lemma {:induction false} SortBySorted<T>(s: seq<T>, key: T -> real, dir: Direction)
    ensures Sorted(SortBy(s, key, dir), key, dir)
    decreases |s|
  {
    if s != [] {
      SortBySorted(s[..|s| - 1], key, dir);
      InsertSorted(SortBy(s[..|s| - 1], key, dir), s[|s| - 1], key, dir);
    }
  }

  lemma {:induction false} InsertWithKey<T>(t: seq<T>, x: T, key: T -> real, dir: Direction, k: real)
    ensures WithKey(Insert(t, x, key, dir), key, k) == WithKey(t, key, k) + (if key(x) == k then [x] else [])
    decreases |t|
  {
    if t == [] || InOrder(key(t[|t| - 1]), key(x), dir) {
      assert (t + [x])[..|t|] == t;
    } else {
      var t', last := t[..|t| - 1], t[|t| - 1];
      var u := Insert(t', x, key, dir);
      InsertWithKey(t', x, key, dir, k);
      assert (u + [last])[..|u|] == u;
    }
  }

  /** Stability: records with equal keys keep their relative input order. */
  lemma {:induction false} SortByStable<T>(s: seq<T>, key: T -> real, dir: Direction, k: real)
    ensures WithKey(SortBy(s, key, dir), key, k) == WithKey(s, key, k)
    decreases |s|
  {
    if s != [] {
      SortByStable(s[..|s| - 1], key, dir, k);
      InsertWithKey(SortBy(s[..|s| - 1], key, dir), s[|s| - 1], key, dir, k);
    }
  }

  /** Where the shifting loop of `SortInPlace` leaves a gap, `Insert` puts `x`. */
  lemma {:induction false} InsertAt<T>(t: seq<T>, x: T, key: T -> real, dir: Direction, j: nat)
    requires j <= |t|
    requires j == 0 || InOrder(key(t[j - 1]), key(x), dir)
    requires forall m :: j <= m < |t| ==> !InOrder(key(t[m]), key(x), dir)
    ensures Insert(t, x, key, dir) == t[..j] + [x] + t[j..]
    decreases |t|
  {
    if j < |t| {
      var t' := t[..|t| - 1];
      InsertAt(t', x, key, dir, j);
      assert t'[..j] == t[..j];
      assert t'[j..] + [t[|t| - 1]] == t[j..];
    }
  }

  /** One pass of the insertion sort: `a[i]` slides left past every element
      of the sorted prefix `a[..i]` that it strictly beats. */
  method InsertStep<T>(a: array<T>, i: nat, key: T -> real, dir: Direction)
    requires i < a.Length
    modifies a
    ensures a[..i + 1] == Insert(old(a[..i]), old(a[i]), key, dir)
    ensures forall m :: i < m < a.Length ==> a[m] == old(a[m])
  {
    ghost var t := a[..i];
    var x := a[i];
    var j := i;
    while j > 0 && !InOrder(key(a[j - 1]), key(x), dir)
      invariant 0 <= j <= i
      invariant forall m :: 0 <= m < j ==> a[m] == t[m]
      invariant forall m :: j < m <= i ==> a[m] == t[m - 1]
      invariant forall m :: i < m < a.Length ==> a[m] == old(a[m])
      invariant forall m :: j <= m < i ==> !InOrder(key(t[m]), key(x), dir)
    {
      a[j] := a[j - 1];
      j := j - 1;
    }
    a[j] := x;
    InsertAt(t, x, key, dir, j);
    assert a[..i + 1] == t[..j] + [x] + t[j..];
  }

  /** The in-place sort: `a[..]` ends up as the stable sort of its old value. */
  method SortInPlace<T>(a: array<T>, key: T -> real, dir: Direction)
    modifies a
    ensures a[..] == SortBy(old(a[..]), key, dir)
  {
    ghost var s := a[..];
    var i := 0;
    while i < a.Length
      invariant 0 <= i <= a.Length
      invariant a[..i] == SortBy(s[..i], key, dir)
      invariant forall m :: i <= m < a.Length ==> a[m] == s[m]
    {
      InsertStep(a, i, key, dir);
      assert s[..i + 1][..i] == s[..i];
      i := i + 1;
    }
    assert s[..a.Length] == s;
  }
}
