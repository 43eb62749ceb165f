/** Sorting a sequence by an integer key, as the log does by date for display
    and by kilometrage before computing consumption. */
module Sorting {

  /** `s` is in non-decreasing order of `key`. */
  predicate SortedBy<T>(s: seq<T>, key: T -> int) {
    forall i, j :: 0 <= i < j < |s| ==> key(s[i]) <= key(s[j])
  }

  /** Every prefix of a sorted sequence is sorted. */
  lemma PrefixSorted<T>(s: seq<T>, key: T -> int, n: nat)
    requires n <= |s|
    requires SortedBy(s, key)
    ensures SortedBy(s[..n], key)
  {
    var front := s[..n];
    forall i, j | 0 <= i < j < |front|
      ensures key(front[i]) <= key(front[j])
    {
      assert front[i] == s[i] && front[j] == s[j];
    }
  }

  /** Inserts `x` into the sorted sequence `s`, after every element whose key
      is not greater than its own. */
  function InsertBy<T>(x: T, s: seq<T>, key: T -> int): (r: seq<T>)
    requires SortedBy(s, key)
    ensures |r| == |s| + 1
    ensures multiset(r) == multiset(s) + multiset{x}
    ensures SortedBy(r, key)
    decreases |s|
  {
    if s == [] || key(s[|s| - 1]) <= key(x) then s + [x]
    else
      var n := |s| - 1;
      var front := InsertBy(x, s[..n], key);
      assert s == s[..n] + [s[n]];
      BoundedByLast(front, s, x, key);
      front + [s[n]]
  }

  /** A permutation of a sorted sequence's front plus an element with a
      smaller key than its last: every key is at most the last one's. */
  lemma BoundedByLast<T>(front: seq<T>, s: seq<T>, x: T, key: T -> int)
    requires s != [] && SortedBy(s, key)
    requires key(x) < key(s[|s| - 1])
    requires multiset(front) == multiset(s[..|s| - 1]) + multiset{x}
    ensures forall i :: 0 <= i < |front| ==> key(front[i]) <= key(s[|s| - 1])
  {
    var n := |s| - 1;
    forall i | 0 <= i < |front|
      ensures key(front[i]) <= key(s[n])
    {
      assert front[i] in multiset(front);
      if front[i] != x {
        assert front[i] in multiset(s[..n]);
        var k :| 0 <= k < n && s[..n][k] == front[i];
        assert s[k] == front[i];
      }
    }
  }

  /** A sorted arrangement of `s`: same elements, same multiplicities, in
      non-decreasing key order. Equal keys keep their original order
      (`SortByIsStable`). */
  function SortBy<T>(s: seq<T>, key: T -> int): (r: seq<T>)
    ensures |r| == |s|
    ensures multiset(r) == multiset(s)
    ensures SortedBy(r, key)
    decreases |s|
  {
    if s == [] then []
    else
      var n := |s| - 1;
      assert s == s[..n] + [s[n]];
      InsertBy(s[n], SortBy(s[..n], key), key)
  }

  /** The elements of `s` whose key is `k`, in their order in `s`. */
  function WithKey<T>(s: seq<T>, key: T -> int, k: int): seq<T>
    decreases |s|
  {
    if s == [] then []
    else
      var n := |s| - 1;
      WithKey(s[..n], key, k) + (if key(s[n]) == k then [s[n]] else [])
  }

  lemma WithKeySnoc<T>(s: seq<T>, x: T, key: T -> int, k: int)
    ensures WithKey(s + [x], key, k) == WithKey(s, key, k) + (if key(x) == k then [x] else [])
  {
    assert (s + [x])[..|s|] == s;
  }

  /** Inserting `x` places it after every element with the same key, and
      keeps the elements of every other key in their order. */
  lemma {:induction false} InsertByIsStable<T>(x: T, s: seq<T>, key: T -> int, k: int)
    requires SortedBy(s, key)
    ensures WithKey(InsertBy(x, s, key), key, k)
      == WithKey(s, key, k) + (if key(x) == k then [x] else [])
    decreases |s|
  {
    if s == [] || key(s[|s| - 1]) <= key(x) {
      WithKeySnoc(s, x, key, k);
    } else {
      var n := |s| - 1;
      PrefixSorted(s, key, n);
      var front := InsertBy(x, s[..n], key);
      assert InsertBy(x, s, key) == front + [s[n]];
      InsertByIsStable(x, s[..n], key, k);
      InsertBeforeLastIsStable(front, s[..n], s[n], x, key, k);
      assert s[..n] + [s[n]] == s;
    }
  }

  /** The step of `InsertByIsStable` when `x` goes before the last element,
      whose key is greater than its own. */
  lemma InsertBeforeLastIsStable<T>(front: seq<T>, before: seq<T>, last: T, x: T, key: T -> int, k: int)
    requires key(x) < key(last)
    requires WithKey(front, key, k) == WithKey(before, key, k) + (if key(x) == k then [x] else [])
    ensures WithKey(front + [last], key, k)
      == WithKey(before + [last], key, k) + (if key(x) == k then [x] else [])
  {
    WithKeySnoc(front, last, key, k);
    WithKeySnoc(before, last, key, k);
  }

  /** The sort is stable: for every key, the elements with that key appear in
      the result in the same order as in the input. */
  lemma {:induction false} SortByIsStable<T>(s: seq<T>, key: T -> int, k: int)
    ensures WithKey(SortBy(s, key), key, k) == WithKey(s, key, k)
    decreases |s|
  {
    if s != [] {
      var n := |s| - 1;
      SortByIsStable(s[..n], key, k);
      InsertByIsStable(s[n], SortBy(s[..n], key), key, k);
    }
  }
}
