/**
 * Character classes and the normalisation `reply.strip().lower()` applied to the
 * classifier's reply before any matching. Only ASCII is modelled: whitespace is
 * the ASCII whitespace of Python's `str.strip()` and of the regex class `\s`,
 * and lowercasing maps `A`..`Z` to `a`..`z` and leaves every other character alone.
 */
module Text {

  /** Python treats 9..13 (tab, newline, vertical tab, form feed, carriage return),
      28..31 (the information separators) and 32 (space) as ASCII whitespace. */
  predicate IsSpace(c: char) {
    (9 <= c as int <= 13) || (28 <= c as int <= 32)
  }

  predicate IsDigit(c: char) {
    '0' <= c <= '9'
  }

  predicate AllSpace(s: string) {
    forall i :: 0 <= i < |s| ==> IsSpace(s[i])
  }

  predicate AllDigits(s: string) {
    forall i :: 0 <= i < |s| ==> IsDigit(s[i])
  }

  /** No whitespace at either end. */
  predicate Trimmed(s: string) {
    s == [] || (!IsSpace(s[0]) && !IsSpace(s[|s| - 1]))
  }

  /** The word `w` occurs in `s` starting at `i`. */
  predicate OccursAt(s: string, w: string, i: nat) {
    i + |w| <= |s| && forall j :: 0 <= j < |w| ==> s[i + j] == w[j]
  }

  function ToLower(c: char): char {
    if 'A' <= c <= 'Z' then (c as int + 32) as char else c
  }

  /** `str.lower()`, restricted to ASCII letters. */
  function Lower(s: string): (r: string)
    ensures |r| == |s|
    ensures forall i {:trigger r[i]} :: 0 <= i < |s| ==> r[i] == ToLower(s[i])
  {
    if s == [] then [] else [ToLower(s[0])] + Lower(s[1..])
  }

  /** The end of the longest run of whitespace starting at `i` (as `\s*` matches it). */
  function SkipSpaces(s: string, i: nat): (k: nat)
    requires i <= |s|
    ensures i <= k <= |s|
    ensures forall m {:trigger IsSpace(s[m])} :: i <= m < k ==> IsSpace(s[m])
    ensures k == |s| || !IsSpace(s[k])
    decreases |s| - i
  {
    if i < |s| && IsSpace(s[i]) then SkipSpaces(s, i + 1) else i
  }

  /** The start of the longest run of whitespace ending at `j` and not reaching before `lo`. */
  function SkipSpacesBack(s: string, lo: nat, j: nat): (k: nat)
    requires lo <= j <= |s|
    ensures lo <= k <= j
    ensures forall m {:trigger IsSpace(s[m])} :: k <= m < j ==> IsSpace(s[m])
    ensures k == lo || !IsSpace(s[k - 1])
    decreases j
  {
    if lo < j && IsSpace(s[j - 1]) then SkipSpacesBack(s, lo, j - 1) else j
  }

  /** `\s*` from `i` stops at `k` when everything before `k` is whitespace and `k` is not. */
  lemma {:induction false} SkipSpacesStops(s: string, i: nat, k: nat)
    requires i <= k <= |s| && (forall j :: i <= j < k ==> IsSpace(s[j]))
    requires k == |s| || !IsSpace(s[k])
    ensures SkipSpaces(s, i) == k
    decreases k - i
  {
    if i < k {
      SkipSpacesStops(s, i + 1, k);
    }
  }

  /** `str.strip()`: what is left after removing whitespace at both ends. */
  function Strip(s: string): (r: string)
    ensures Trimmed(r)
  {
    var a := SkipSpaces(s, 0);
    s[a..SkipSpacesBack(s, a, |s|)]
  }

  /** `reply.strip().lower()`. */
  function Normalize(s: string): (r: string)
    ensures Trimmed(r)
  {
    Lower(Strip(s))
  }

  lemma LowerKeepsSpace(c: char)
    ensures IsSpace(ToLower(c)) == IsSpace(c)
  {
  }

  lemma {:induction false} LowerAppend(a: string, b: string)
    ensures Lower(a + b) == Lower(a) + Lower(b)
  {
    var l, r := Lower(a + b), Lower(a) + Lower(b);
    assert |l| == |r|;
    forall i | 0 <= i < |l| ensures l[i] == r[i] {
      if i < |a| {
        assert (a + b)[i] == a[i];
      } else {
        assert (a + b)[i] == b[i - |a|];
      }
    }
  }

  lemma {:induction false} LowerIdempotent(s: string)
    ensures Lower(Lower(s)) == Lower(s)
  {
    var l := Lower(s);
    assert forall i :: 0 <= i < |s| ==> Lower(l)[i] == l[i];
  }

  /** Stripping is determined by the trimmed core: whatever whitespace surrounds
      a trimmed string, `strip()` gives back exactly that string. */
  lemma {:induction false} StripCore(pre: string, core: string, post: string)
    requires AllSpace(pre) && AllSpace(post) && Trimmed(core)
    ensures Strip(pre + core + post) == core
  {
    var s := pre + core + post;
    var a := SkipSpaces(s, 0);
    var b := SkipSpacesBack(s, a, |s|);
    if core == [] {
      assert forall m :: 0 <= m < |s| ==> IsSpace(s[m]) by {
        assert s == pre + post;
      }
      assert a == |s|;
    } else {
      assert s[|pre|] == core[0];
      assert a == |pre|;
      assert s[|pre| + |core| - 1] == core[|core| - 1];
      assert b == |pre| + |core|;
      assert s[a..b] == core;
    }
  }

  /** Every string is its stripped core surrounded by whitespace. */
  lemma {:induction false} StripSplits(s: string) returns (pre: string, post: string)
    ensures AllSpace(pre) && AllSpace(post)
    ensures s == pre + Strip(s) + post
  {
    var a := SkipSpaces(s, 0);
    var b := SkipSpacesBack(s, a, |s|);
    pre, post := s[..a], s[b..];
    assert Strip(s) == s[a..b];
    SplitThree(s, a, b);
  }

  lemma {:induction false} SplitThree(s: string, a: nat, b: nat)
    requires a <= b <= |s|
    ensures s == s[..a] + s[a..b] + s[b..]
  {
    assert s[..a] + s[a..b] == s[..b];
    assert s[..b] + s[b..] == s;
  }

  /** Surrounding whitespace does not change the stripped text. */
  lemma {:induction false} StripIgnoresPadding(pre: string, s: string, post: string)
    requires AllSpace(pre) && AllSpace(post)
    ensures Strip(pre + s + post) == Strip(s)
  {
    var a, b := StripSplits(s);
    Regroup(pre, a, Strip(s), b, post);
    AllSpaceAppend(pre, a);
    AllSpaceAppend(b, post);
    StripCore(pre + a, Strip(s), b + post);
  }

  /** Surrounding whitespace does not change the normalised text. */
  lemma {:induction false} NormalizeIgnoresPadding(pre: string, s: string, post: string)
    requires AllSpace(pre) && AllSpace(post)
    ensures Normalize(pre + s + post) == Normalize(s)
  {
    StripIgnoresPadding(pre, s, post);
  }

  lemma {:induction false} Regroup(p: string, a: string, m: string, b: string, q: string)
    ensures p + (a + m + b) + q == (p + a) + m + (b + q)
  {
    assert p + (a + m + b) == (p + a) + m + b;
    assert (p + a) + m + b + q == (p + a) + m + (b + q);
  }

  lemma {:induction false} AllSpaceAppend(a: string, b: string)
    requires AllSpace(a) && AllSpace(b)
    ensures AllSpace(a + b)
  {
    forall i | 0 <= i < |a + b| ensures IsSpace((a + b)[i]) {
      if i < |a| {
        assert (a + b)[i] == a[i];
      } else {
        assert (a + b)[i] == b[i - |a|];
      }
    }
  }

  lemma {:induction false} LowerSpaces(s: string)
    ensures AllSpace(Lower(s)) == AllSpace(s)
  {
    forall i | 0 <= i < |s| ensures IsSpace(Lower(s)[i]) == IsSpace(s[i]) {
      LowerKeepsSpace(s[i]);
    }
  }

  /** Lowercasing and stripping commute, so the two orders give the same text. */
  lemma {:induction false} StripLower(s: string)
    ensures Strip(Lower(s)) == Lower(Strip(s))
  {
    var pre, post := StripSplits(s);
    var core := Strip(s);
    LowerAppend(pre + core, post);
    LowerAppend(pre, core);
    assert Lower(s) == Lower(pre) + Lower(core) + Lower(post);
    LowerSpaces(pre);
    LowerSpaces(post);
    if core != [] {
      LowerKeepsSpace(core[0]);
      LowerKeepsSpace(core[|core| - 1]);
    }
    StripCore(Lower(pre), Lower(core), Lower(post));
  }

  /** Texts equal up to ASCII letter case normalise to the same text. */
  lemma {:induction false} NormalizeIgnoresCase(s: string, t: string)
    requires Lower(s) == Lower(t)
    ensures Normalize(s) == Normalize(t)
  {
    StripLower(s);
    StripLower(t);
  }

  /** Normalising twice is normalising once. */
  lemma {:induction false} NormalizeIdempotent(s: string)
    ensures Normalize(Normalize(s)) == Normalize(s)
  {
    var n := Normalize(s);
    StripCore([], n, []);
    assert [] + n + [] == n;
    LowerIdempotent(Strip(s));
  }

  /** A trimmed text without upper-case letters is its own normal form. */
  lemma {:induction false} NormalizeFixes(s: string)
    requires Trimmed(s) && forall i :: 0 <= i < |s| ==> !('A' <= s[i] <= 'Z')
    ensures Normalize(s) == s
  {
    StripCore([], s, []);
    assert [] + s + [] == s;
    LowerFixes(s);
  }

  /** Text without upper-case letters is its own lower-case form. */
  lemma {:induction false} LowerFixes(s: string)
    requires forall i :: 0 <= i < |s| ==> !('A' <= s[i] <= 'Z')
    ensures Lower(s) == s
  {
    assert forall i :: 0 <= i < |s| ==> Lower(s)[i] == s[i];
  }
}
