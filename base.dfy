/** Small datatypes and sequence facts shared by every other module. */
module Base {

  /** Python's `Optional[...]`: a value or `None`. */
  datatype Option<+T> = None | Some(value: T)

  /** A computation that either succeeds or fails with a message (a raised exception). */
  datatype Result<+T> = Ok(value: T) | Err(message: string)

  /** No element occurs twice: a sequence used as an insertion-ordered set. */
  predicate NoDup<T(==)>(s: seq<T>)
  {
    forall i, j :: 0 <= i < j < |s| ==> s[i] != s[j]
  }

  /** Python's `set.add` on an insertion-ordered set: append `x` unless it is already there. */
  function AddUnique<T(==)>(s: seq<T>, x: T): (r: seq<T>)
    ensures NoDup(s) ==> NoDup(r)
    ensures x in s ==> r == s
    ensures x !in s ==> r == s + [x]
  {
    if x in s then s else s + [x]
  }

  /** A duplicate-free sequence has as many distinct elements as it has positions. */
  lemma {:induction false} NoDupCardinality<T>(s: seq<T>)
    requires NoDup(s)
    ensures |set x | x in s| == |s|
  {
    if s != [] {
      var init := s[..|s| - 1];
      var last := s[|s| - 1];
      NoDupCardinality(init);
      assert NoDup(init);
      assert last !in init by {
        forall i | 0 <= i < |init| ensures init[i] != last {
          assert s[i] == init[i];
        }
      }
      assert (set x | x in s) == (set x | x in init) + {last} by {
        assert s == init + [last];
      }
    }
  }

  lemma ConcatAssoc<T>(a: seq<T>, b: seq<T>, c: seq<T>)
    ensures (a + b) + c == a + (b + c)
  {
  }

  /** Extending a prefix by the next element. */
  lemma TakeNext<T>(s: seq<T>, n: nat)
    requires n < |s|
    ensures s[..n + 1] == s[..n] + [s[n]]
  {
  }

  /** A sequence equal to a prefix, extended by the next element, is the next prefix. */
  lemma ExtendPrefix<T>(s: seq<T>, seen: seq<T>, n: nat)
    requires n < |s| && seen == s[..n]
    ensures seen + [s[n]] == s[..n + 1]
  {
  }

  lemma PrefixOfPrefix<T>(s: seq<T>, n: nat)
    requires n < |s|
    ensures s[..n + 1][..n] == s[..n]
  {
  }

  /** A sequence that agrees with `b` position by position and then ends in `x` is `b + [x]`. */
  lemma SnocEqual<T>(a: seq<T>, b: seq<T>, x: T)
    requires |a| == |b| + 1 && a[|b|] == x
    requires forall i :: 0 <= i < |b| ==> a[i] == b[i]
    ensures a == b + [x]
  {
  }

  /** A prefix of a duplicate-free sequence is duplicate free. */
  lemma NoDupPrefix<T>(s: seq<T>, n: nat)
    requires NoDup(s) && n <= |s|
    ensures NoDup(s[..n])
  {
  }

  /** Python's `s[:n]` for any integer `n`: a negative `n` counts from the end. */
  function PySliceTo<T>(s: seq<T>, n: int): (r: seq<T>)
    ensures 0 <= n ==> |r| == if n < |s| then n else |s|
    ensures n < 0 ==> |r| == if |s| + n < 0 then 0 else |s| + n
    ensures r == s[..|r|]
  {
    if 0 <= n then (if n < |s| then s[..n] else s)
    else if |s| + n < 0 then [] else s[..|s| + n]
  }

  /** A list comprehension `[x for x in s if p(x)]`: the elements satisfying `p`, in order. */
  function Filter<T>(s: seq<T>, p: T -> bool): (r: seq<T>)
    ensures |r| <= |s|
    ensures forall i :: 0 <= i < |r| ==> p(r[i]) && r[i] in s
    ensures forall i :: 0 <= i < |s| && p(s[i]) ==> s[i] in r
  {
    if s == [] then []
    else Filter(s[..|s| - 1], p) + (if p(s[|s| - 1]) then [s[|s| - 1]] else [])
  }

  lemma FilterAppend<T>(s: seq<T>, x: T, p: T -> bool)
    ensures Filter(s + [x], p) == Filter(s, p) + (if p(x) then [x] else [])
  {
    assert (s + [x])[..|s|] == s;
  }

  /** A filter keeps a strictly increasing sequence strictly increasing. */
  lemma {:induction false} FilterKeepsIncreasing<T>(s: seq<T>, p: T -> bool, key: T -> int)
    requires forall i, j :: 0 <= i < j < |s| ==> key(s[i]) < key(s[j])
    ensures forall i, j :: 0 <= i < j < |Filter(s, p)| ==> key(Filter(s, p)[i]) < key(Filter(s, p)[j])
  {
    if s != [] {
      var init := s[..|s| - 1];
      var last := s[|s| - 1];
      FilterKeepsIncreasing(init, p, key);
      var f := Filter(init, p);
      forall i | 0 <= i < |f| ensures key(f[i]) < key(last) {
        var k :| 0 <= k < |init| && init[k] == f[i];
        assert s[k] == init[k];
      }
    }
  }

  /** Filtering by `p` and by its negation splits a sequence: the lengths add up and no element is lost. */
  lemma {:induction false} FilterPartition<T>(s: seq<T>, p: T -> bool, q: T -> bool)
    requires forall i :: 0 <= i < |s| ==> q(s[i]) == !p(s[i])
    ensures |Filter(s, p)| + |Filter(s, q)| == |s|
    ensures multiset(Filter(s, p)) + multiset(Filter(s, q)) == multiset(s)
  {
    if s != [] {
      var init := s[..|s| - 1];
      FilterPartition(init, p, q);
      assert s == init + [s[|s| - 1]];
    }
  }

  /**
   * Changing one element from satisfying `p` to not satisfying it removes
   * exactly one element from the filtered sequence.
   */
  lemma {:induction false} FilterLosesOne<T>(s: seq<T>, j: nat, x: T, p: T -> bool)
    requires j < |s| && p(s[j]) && !p(x)
    ensures |Filter(s[j := x], p)| + 1 == |Filter(s, p)|
  {
    var n := |s| - 1;
    var t := s[j := x];
    if j < n {
      assert t[..n] == s[..n][j := x] && t[n] == s[n];
      FilterLosesOne(s[..n], j, x, p);
    } else {
      assert t[..n] == s[..n];
    }
  }

  /** Changing one element from not satisfying `p` to satisfying it adds exactly one element. */
  lemma {:induction false} FilterGainsOne<T>(s: seq<T>, j: nat, x: T, p: T -> bool)
    requires j < |s| && !p(s[j]) && p(x)
    ensures |Filter(s[j := x], p)| == |Filter(s, p)| + 1
  {
    var n := |s| - 1;
    var t := s[j := x];
    if j < n {
      assert t[..n] == s[..n][j := x] && t[n] == s[n];
      FilterGainsOne(s[..n], j, x, p);
    } else {
      assert t[..n] == s[..n];
    }
  }
}
