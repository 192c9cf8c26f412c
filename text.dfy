/**
 * The string operations the condition manager relies on, written out:
 * `str.lower()` (on ASCII letters), `str.strip()` (on Python's whitespace),
 * the substring test `p in s`, `str.startswith`, and `" ".join(parts)`.
 */
module Text {

  /** Python's `str.isspace()` for one character: the code points `str.strip()` removes. */
  predicate IsSpace(c: char)
  {
    var n := c as int;
    (9 <= n <= 13) || (28 <= n <= 32) || n == 0x85 || n == 0xA0 || n == 0x1680
    || (0x2000 <= n <= 0x200A) || n == 0x2028 || n == 0x2029 || n == 0x202F
    || n == 0x205F || n == 0x3000
  }

  predicate IsUpper(c: char)
  {
    'A' <= c <= 'Z'
  }

  function LowerChar(c: char): (d: char)
    ensures !IsUpper(d)
    ensures IsSpace(d) <==> IsSpace(c)
    ensures !IsUpper(c) ==> d == c
  {
    if IsUpper(c) then (c as int + 32) as char else c
  }

  /** `s.lower()`, restricted to the ASCII letters A-Z. */
  function Lower(s: string): (r: string)
    ensures |r| == |s|
    ensures forall i :: 0 <= i < |s| ==> r[i] == LowerChar(s[i])
  {
    seq(|s|, i requires 0 <= i < |s| => LowerChar(s[i]))
  }

  /** No upper-case ASCII letter occurs in `s`. */
  predicate IsLower(s: string)
  {
    forall i :: 0 <= i < |s| ==> !IsUpper(s[i])
  }

  lemma LowerIsLower(s: string)
    ensures IsLower(Lower(s))
  {
  }

  lemma LowerOfLower(s: string)
    requires IsLower(s)
    ensures Lower(s) == s
  {
  }

  lemma LowerConcat(a: string, b: string)
    ensures Lower(a + b) == Lower(a) + Lower(b)
  {
    assert forall i :: 0 <= i < |a + b| ==> Lower(a + b)[i] == (Lower(a) + Lower(b))[i];
  }

  /** Lower-casing changes no character into or out of whitespace, at either end. */
  lemma LowerKeepsEnds(s: string)
    ensures s != [] ==> (IsSpace(Lower(s)[0]) <==> IsSpace(s[0]))
    ensures s != [] ==> (IsSpace(Lower(s)[|s| - 1]) <==> IsSpace(s[|s| - 1]))
  {
  }

  /** Leading whitespace removed (`str.lstrip()`). */
  function TrimLeft(s: string): (r: string)
    ensures |r| <= |s| && r == s[|s| - |r|..]
    ensures r == [] || !IsSpace(r[0])
    ensures forall i :: 0 <= i < |s| - |r| ==> IsSpace(s[i])
    decreases |s|
  {
    if s != [] && IsSpace(s[0]) then TrimLeft(s[1..]) else s
  }

  /** Trailing whitespace removed (`str.rstrip()`). */
  function TrimRight(s: string): (r: string)
    ensures |r| <= |s| && r == s[..|r|]
    ensures r == [] || !IsSpace(r[|r| - 1])
    ensures forall i :: |r| <= i < |s| ==> IsSpace(s[i])
    decreases |s|
  {
    if s != [] && IsSpace(s[|s| - 1]) then TrimRight(s[..|s| - 1]) else s
  }

  lemma TrimLeftDropsSpace(c: char, s: string)
    requires IsSpace(c)
    ensures TrimLeft([c] + s) == TrimLeft(s)
  {
    assert ([c] + s)[1..] == s;
  }

  lemma TrimLeftKeeps(s: string)
    requires s != [] && !IsSpace(s[0])
    ensures TrimLeft(s) == s
  {
  }

  lemma TrimRightDropsSpace(s: string, c: char)
    requires IsSpace(c)
    ensures TrimRight(s + [c]) == TrimRight(s)
  {
    assert (s + [c])[..|s|] == s;
  }

  lemma TrimRightKeeps(s: string)
    requires s != [] && !IsSpace(s[|s| - 1])
    ensures TrimRight(s) == s
  {
  }

  /** A string that neither starts nor ends with whitespace is its own strip. */
  lemma StripKeeps(w: string)
    requires w != [] && !IsSpace(w[0]) && !IsSpace(w[|w| - 1])
    ensures Strip(w) == w
  {
    TrimLeftKeeps(w);
    TrimRightKeeps(w);
  }

  /** One space on either side of such a string is stripped away. */
  lemma StripPaddedWord(w: string)
    requires w != [] && !IsSpace(w[0]) && !IsSpace(w[|w| - 1])
    ensures Strip([' '] + w + [' ']) == w
  {
    assert [' '] + w + [' '] == [' '] + (w + [' ']);
    TrimLeftDropsSpace(' ', w + [' ']);
    assert (w + [' '])[0] == w[0];
    TrimLeftKeeps(w + [' ']);
    TrimRightDropsSpace(w, ' ');
    TrimRightKeeps(w);
  }

  /** A stripped, lower-cased string is lower case and has no whitespace at either end. */
  lemma LowerStripClean(s: string)
    ensures IsLower(Lower(Strip(s)))
    ensures Lower(Strip(s)) == [] || (!IsSpace(Lower(Strip(s))[0]) && !IsSpace(Lower(Strip(s))[|Strip(s)| - 1]))
  {
    StripEnds(s);
    LowerIsLower(Strip(s));
    LowerKeepsEnds(Strip(s));
  }

  /** The number of whitespace characters `str.lstrip()` removes. */
  function LeadingSpaces(s: string): (k: nat)
    ensures k <= |s|
  {
    |s| - |TrimLeft(s)|
  }

  /** `s.strip()`: whitespace removed at both ends. */
  function Strip(s: string): string
  {
    TrimRight(TrimLeft(s))
  }

  /** `s.strip()` leaves the infix of `s` that starts after its leading whitespace. */
  lemma StripSlice(s: string)
    ensures LeadingSpaces(s) + |Strip(s)| <= |s|
    ensures Strip(s) == s[LeadingSpaces(s)..LeadingSpaces(s) + |Strip(s)|]
  {
    var l := TrimLeft(s);
    var r := TrimRight(l);
    var k := |s| - |l|;
    assert l == s[k..];
    assert r == l[..|r|];
    SliceOfSuffix(s, k, |r|);
  }

  /** The result of `s.strip()` neither starts nor ends with whitespace. */
  lemma StripEnds(s: string)
    ensures Strip(s) == [] || (!IsSpace(Strip(s)[0]) && !IsSpace(Strip(s)[|Strip(s)| - 1]))
  {
    var l := TrimLeft(s);
    var r := TrimRight(l);
    if r != [] {
      assert r[0] == l[0];
    }
  }

  /** Every character `s.strip()` drops is whitespace. */
  lemma StripDropsSpaces(s: string)
    ensures forall i :: 0 <= i < |s| && !(LeadingSpaces(s) <= i < LeadingSpaces(s) + |Strip(s)|) ==> IsSpace(s[i])
  {
    var l := TrimLeft(s);
    var r := TrimRight(l);
    var k := |s| - |l|;
    forall i | 0 <= i < |s| && !(k <= i < k + |r|) ensures IsSpace(s[i]) {
      if k <= i {
        assert l == s[k..];
        assert s[i] == l[i - k];
      }
    }
  }

  lemma SliceOfSuffix<T>(s: seq<T>, k: nat, n: nat)
    requires k + n <= |s|
    ensures s[k..][..n] == s[k..k + n]
  {
  }

  /** `p` occurs in `text` starting at position `i`. */
  predicate OccursAt(text: string, p: string, i: int)
  {
    0 <= i && i + |p| <= |text| && text[i..i + |p|] == p
  }

  /** Python's `p in text` for strings. */
  predicate Contains(text: string, p: string)
  {
    exists i :: 0 <= i <= |text| && OccursAt(text, p, i)
  }

  /** `text.startswith(p)`. */
  predicate StartsWith(text: string, p: string)
  {
    |p| <= |text| && text[..|p|] == p
  }

  lemma StartsWithContains(text: string, p: string)
    requires StartsWith(text, p)
    ensures Contains(text, p)
  {
    assert OccursAt(text, p, 0);
  }

  lemma ContainsSelf(s: string)
    ensures Contains(s, s)
  {
    assert OccursAt(s, s, 0);
  }

  lemma ContainsInLeft(a: string, b: string, p: string)
    requires Contains(a, p)
    ensures Contains(a + b, p)
  {
    var i :| 0 <= i <= |a| && OccursAt(a, p, i);
    assert (a + b)[i..i + |p|] == a[i..i + |p|];
    assert OccursAt(a + b, p, i);
  }

  lemma ContainsInRight(a: string, b: string, p: string)
    requires Contains(b, p)
    ensures Contains(a + b, p)
  {
    var i :| 0 <= i <= |b| && OccursAt(b, p, i);
    assert (a + b)[|a| + i..|a| + i + |p|] == b[i..i + |p|];
    assert OccursAt(a + b, p, |a| + i);
  }

  /** Being a substring is transitive. */
  lemma ContainsTransitive(text: string, q: string, p: string)
    requires Contains(text, q) && Contains(q, p)
    ensures Contains(text, p)
  {
    var i :| 0 <= i <= |text| && OccursAt(text, q, i);
    var j :| 0 <= j <= |q| && OccursAt(q, p, j);
    assert q == text[i..i + |q|];
    assert forall t :: 0 <= t < |p| ==> text[i + j + t] == q[j + t] == p[t];
    assert text[i + j..i + j + |p|] == p;
    assert OccursAt(text, p, i + j);
  }

  /** Lower-casing both sides preserves an occurrence. */
  lemma LowerContains(text: string, p: string)
    requires Contains(text, p)
    ensures Contains(Lower(text), Lower(p))
  {
    var i :| 0 <= i <= |text| && OccursAt(text, p, i);
    assert Lower(text)[i..i + |p|] == Lower(p);
    assert OccursAt(Lower(text), Lower(p), i);
  }

  /** `sep.join(parts)`, accumulated left to right. */
  function Join(sep: string, parts: seq<string>): string
  {
    if |parts| == 0 then ""
    else if |parts| == 1 then parts[0]
    else Join(sep, parts[..|parts| - 1]) + sep + parts[|parts| - 1]
  }

  /** Every part of a join is a substring of it. */
  lemma {:induction false} JoinContainsPart(sep: string, parts: seq<string>, k: nat)
    requires k < |parts|
    ensures Contains(Join(sep, parts), parts[k])
  {
    if |parts| == 1 {
      ContainsSelf(parts[0]);
    } else {
      var init := parts[..|parts| - 1];
      var last := parts[|parts| - 1];
      if k < |parts| - 1 {
        JoinContainsPart(sep, init, k);
        assert init[k] == parts[k];
        ContainsInLeft(Join(sep, init), sep + last, parts[k]);
        assert Join(sep, init) + (sep + last) == Join(sep, parts);
      } else {
        ContainsSelf(last);
        ContainsInRight(Join(sep, init) + sep, last, last);
      }
    }
  }

  /** A non-empty join starts with its first part. */
  lemma {:induction false} JoinStartsWithFirst(sep: string, parts: seq<string>)
    requires |parts| > 0
    ensures StartsWith(Join(sep, parts), parts[0])
  {
    if |parts| > 1 {
      var init := parts[..|parts| - 1];
      JoinStartsWithFirst(sep, init);
      assert init[0] == parts[0];
      assert Join(sep, parts) == Join(sep, init) + (sep + parts[|parts| - 1]);
      assert Join(sep, parts)[..|parts[0]|] == Join(sep, init)[..|parts[0]|];
    }
  }

  /** Python's `a < b` on strings: lexicographic by character code, a proper prefix first. */
  predicate LexLess(a: string, b: string)
  {
    && b != []
    && (a == [] || a[0] < b[0] || (a[0] == b[0] && LexLess(a[1..], b[1..])))
  }

  /** The order is irreflexive. */
  lemma {:induction false} LexLessIrreflexive(a: string)
    ensures !LexLess(a, a)
  {
    if a != [] {
      LexLessIrreflexive(a[1..]);
    }
  }
}
