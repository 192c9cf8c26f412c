/**
 * Python's `sorted(xs, key=...)` on an integer key: a stable sort. Descending
 * order (`reverse=True`, which Python also keeps stable) is the ascending sort
 * on the negated key.
 */
module Sorting {
  import opened Base

  /** Inserts `x` after every element whose key is at most its own. */
  function Insert<T>(x: T, s: seq<T>, key: T -> int): (r: seq<T>)
    ensures |r| == |s| + 1
    ensures multiset(r) == multiset(s) + multiset{x}
  {
    if s == [] then [x]
    else if key(x) < key(s[0]) then [x] + s
    else
      assert s == [s[0]] + s[1..];
      [s[0]] + Insert(x, s[1..], key)
  }

  /** Insertion sort, taking the elements in their original order. */
  function SortBy<T>(s: seq<T>, key: T -> int): (r: seq<T>)
    ensures |r| == |s|
    ensures multiset(r) == multiset(s)
  {
    if s == [] then []
    else
      assert s == s[..|s| - 1] + [s[|s| - 1]];
      Insert(s[|s| - 1], SortBy(s[..|s| - 1], key), key)
  }

  ghost predicate SortedBy<T>(s: seq<T>, key: T -> int)
  {
    forall i, j :: 0 <= i < j < |s| ==> key(s[i]) <= key(s[j])
  }

  /** Inserting an element with key at least `b` among keys at least `b` keeps all keys at least `b`. */
  lemma {:induction false} InsertLowerBound<T>(x: T, s: seq<T>, key: T -> int, b: int)
    requires key(x) >= b && forall i :: 0 <= i < |s| ==> key(s[i]) >= b
    ensures forall i :: 0 <= i < |Insert(x, s, key)| ==> key(Insert(x, s, key)[i]) >= b
  {
    if s != [] && key(x) >= key(s[0]) {
      InsertLowerBound(x, s[1..], key, b);
    }
  }

  lemma {:induction false} InsertSorted<T>(x: T, s: seq<T>, key: T -> int)
    requires SortedBy(s, key)
    ensures SortedBy(Insert(x, s, key), key)
  {
    if s != [] && key(x) >= key(s[0]) {
      var tail := s[1..];
      assert SortedBy(tail, key);
      InsertSorted(x, tail, key);
      InsertLowerBound(x, tail, key, key(s[0]));
      ConsSorted(s[0], Insert(x, tail, key), key);
    }
  }

  /** A sorted sequence stays sorted behind a head whose key is at most all of its keys. */
  lemma ConsSorted<T>(h: T, t: seq<T>, key: T -> int)
    requires SortedBy(t, key) && forall i :: 0 <= i < |t| ==> key(t[i]) >= key(h)
    ensures SortedBy([h] + t, key)
  {
    var u := [h] + t;
    forall i, j | 0 <= i < j < |u| ensures key(u[i]) <= key(u[j]) {
      assert u[j] == t[j - 1];
      if i > 0 {
        assert u[i] == t[i - 1];
      }
    }
  }

  /** The result is in non-decreasing key order. */
  lemma {:induction false} SortBySorted<T>(s: seq<T>, key: T -> int)
    ensures SortedBy(SortBy(s, key), key)
  {
    if s != [] {
      SortBySorted(s[..|s| - 1], key);
      InsertSorted(s[|s| - 1], SortBy(s[..|s| - 1], key), key);
    }
  }

  /** The test "has key `k`". */
  function HasKey<T>(key: T -> int, k: int): T -> bool
  {
    (y: T) => key(y) == k
  }

  lemma {:induction false} FilterCons<T>(y: T, ys: seq<T>, p: T -> bool)
    ensures Filter([y] + ys, p) == (if p(y) then [y] else []) + Filter(ys, p)
  {
    if ys != [] {
      var init := ys[..|ys| - 1];
      FilterCons(y, init, p);
      assert ([y] + ys)[..|ys|] == [y] + init;
    }
  }

  lemma {:induction false} FilterNone<T>(s: seq<T>, p: T -> bool)
    requires forall i :: 0 <= i < |s| ==> !p(s[i])
    ensures Filter(s, p) == []
  {
    if s != [] {
      FilterNone(s[..|s| - 1], p);
    }
  }

  /** Inserting into a sorted sequence puts `x` after every element with the same key. */
  lemma {:induction false} InsertStable<T>(x: T, s: seq<T>, key: T -> int, k: int)
    requires SortedBy(s, key)
    ensures Filter(Insert(x, s, key), HasKey(key, k)) == Filter(s, HasKey(key, k)) + (if key(x) == k then [x] else [])
  {
    var p := HasKey(key, k);
    if s == [] {
      assert Filter([x], p) == Filter([], p) + (if p(x) then [x] else []);
    } else if key(x) < key(s[0]) {
      InsertStableFront(x, s, key, k);
    } else {
      var tail := s[1..];
      assert s == [s[0]] + tail;
      InsertStable(x, tail, key, k);
      var t := Insert(x, tail, key);
      assert Insert(x, s, key) == [s[0]] + t;
      FilterCons(s[0], t, p);
      FilterCons(s[0], tail, p);
      ConcatAssoc(if p(s[0]) then [s[0]] else [], Filter(tail, p), if key(x) == k then [x] else []);
    }
  }

  /** When `x` goes first, it has a smaller key than every element after it. */
  lemma InsertStableFront<T>(x: T, s: seq<T>, key: T -> int, k: int)
    requires SortedBy(s, key) && s != [] && key(x) < key(s[0])
    ensures Filter([x] + s, HasKey(key, k)) == Filter(s, HasKey(key, k)) + (if key(x) == k then [x] else [])
  {
    var p := HasKey(key, k);
    FilterCons(x, s, p);
    if key(x) == k {
      forall i | 0 <= i < |s| ensures !p(s[i]) {
        assert key(s[0]) <= key(s[i]);
      }
      FilterNone(s, p);
    }
  }

  /** The sort is stable: the elements of each key keep their original relative order. */
  lemma {:induction false} SortByStable<T>(s: seq<T>, key: T -> int, k: int)
    ensures Filter(SortBy(s, key), HasKey(key, k)) == Filter(s, HasKey(key, k))
  {
    if s != [] {
      var init := s[..|s| - 1];
      SortByStable(init, key, k);
      SortBySorted(init, key);
      InsertStable(s[|s| - 1], SortBy(init, key), key, k);
    }
  }

  /** The sum of `f` over a sequence. */
  function SumBy<T>(s: seq<T>, f: T -> int): int
  {
    if s == [] then 0 else SumBy(s[..|s| - 1], f) + f(s[|s| - 1])
  }

  lemma {:induction false} SumByCons<T>(y: T, ys: seq<T>, f: T -> int)
    ensures SumBy([y] + ys, f) == f(y) + SumBy(ys, f)
  {
    if ys != [] {
      SumByCons(y, ys[..|ys| - 1], f);
      assert ([y] + ys)[..|ys|] == [y] + ys[..|ys| - 1];
    }
  }

  lemma SumByAppend<T>(s: seq<T>, x: T, f: T -> int)
    ensures SumBy(s + [x], f) == SumBy(s, f) + f(x)
  {
    assert (s + [x])[..|s|] == s;
  }

  lemma {:induction false} InsertSum<T>(x: T, s: seq<T>, key: T -> int, f: T -> int)
    ensures SumBy(Insert(x, s, key), f) == SumBy(s, f) + f(x)
  {
    if s == [] {
      assert SumBy([x], f) == SumBy([], f) + f(x);
    } else if key(x) < key(s[0]) {
      SumByCons(x, s, f);
    } else {
      assert s == [s[0]] + s[1..];
      InsertSum(x, s[1..], key, f);
      SumByCons(s[0], Insert(x, s[1..], key), f);
      SumByCons(s[0], s[1..], f);
    }
  }

  /** Sorting does not change a sum over the elements. */
  lemma {:induction false} SortBySum<T>(s: seq<T>, key: T -> int, f: T -> int)
    ensures SumBy(SortBy(s, key), f) == SumBy(s, f)
  {
    if s != [] {
      SortBySum(s[..|s| - 1], key, f);
      InsertSum(s[|s| - 1], SortBy(s[..|s| - 1], key), key, f);
    }
  }
}
