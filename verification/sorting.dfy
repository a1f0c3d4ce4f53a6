/** A stable sort by an integer key. Python's `list.sort(key=...)` and
    JavaScript's `Array.prototype.sort` with a numeric comparator are both
    stable, so their result is the unique key-sorted permutation that keeps
    equal-key elements in input order; insertion sort computes exactly that. */
module Sorting {

  predicate SortedBy<T>(xs: seq<T>, key: T -> int) {
    forall i, j :: 0 <= i < j < |xs| ==> key(xs[i]) <= key(xs[j])
  }

  /** The elements of `xs` whose key is `k`, in input order. */
  function WithKey<T>(xs: seq<T>, key: T -> int, k: int): seq<T> {
    if xs == [] then []
    else (if key(xs[0]) == k then [xs[0]] else []) + WithKey(xs[1..], key, k)
  }

  /** Puts `x` before the first element whose key is not smaller. */
  function Insert<T(==)>(x: T, xs: seq<T>, key: T -> int): (r: seq<T>)
    requires SortedBy(xs, key)
    ensures SortedBy(r, key)
    ensures multiset(r) == multiset(xs) + multiset{x}
    ensures |r| == |xs| + 1 && (r[0] == x || (xs != [] && r[0] == xs[0]))
  {
    if xs == [] || key(x) <= key(xs[0]) then [x] + xs
    else
      assert xs == [xs[0]] + xs[1..];
      [xs[0]] + Insert(x, xs[1..], key)
  }

  /** Insertion keeps the input order among equal keys: `x` goes in front of
      every element with its own key. */
  lemma {:induction false} InsertWithKey<T>(x: T, xs: seq<T>, key: T -> int, k: int)
    requires SortedBy(xs, key)
    ensures WithKey(Insert(x, xs, key), key, k) == (if key(x) == k then [x] else []) + WithKey(xs, key, k)
  {
    if xs == [] || key(x) <= key(xs[0]) {
      assert Insert(x, xs, key) == [x] + xs;
      assert ([x] + xs)[1..] == xs;
    } else {
      assert SortedBy(xs[1..], key);
      var tail := Insert(x, xs[1..], key);
      InsertWithKey(x, xs[1..], key, k);
      var r := [xs[0]] + tail;
      assert Insert(x, xs, key) == r;
      assert r[1..] == tail;
      assert WithKey(r, key, k) == (if key(xs[0]) == k then [xs[0]] else []) + WithKey(tail, key, k);
      assert WithKey(xs, key, k) == (if key(xs[0]) == k then [xs[0]] else []) + WithKey(xs[1..], key, k);
    }
  }

  /** Stable sort of `xs` by `key`. */
  function SortBy<T(==)>(xs: seq<T>, key: T -> int): (r: seq<T>)
    ensures SortedBy(r, key)
    ensures multiset(r) == multiset(xs)
    ensures |r| == |xs|
    ensures forall k :: WithKey(r, key, k) == WithKey(xs, key, k)
  {
    if xs == [] then []
    else
      assert xs == [xs[0]] + xs[1..];
      var sorted := SortBy(xs[1..], key);
      var r := Insert(xs[0], sorted, key);
      assert forall k :: WithKey(r, key, k) == WithKey(xs, key, k) by {
        forall k ensures WithKey(r, key, k) == WithKey(xs, key, k) {
          InsertWithKey(xs[0], sorted, key, k);
        }
      }
      r
  }

  /** Sorting an already sorted list changes nothing: it is why the second
      `sort` in the merge is the identity. */
  lemma {:induction false} SortSortedIsIdentity<T>(xs: seq<T>, key: T -> int)
    requires SortedBy(xs, key)
    ensures SortBy(xs, key) == xs
  {
    if xs != [] {
      SortSortedIsIdentity(xs[1..], key);
      assert xs == [xs[0]] + xs[1..];
    }
  }
}
