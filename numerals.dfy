/**
 * The number pattern `[0-9]*\.?[0-9]+` of `parse_sentiment`, matched at a fixed
 * start the way Python's backtracking regex engine does, and the exact decimal
 * value of the matched text (what `float(...)` approximates).
 */
module Numerals {
  import opened Wrappers
  import opened Text

  /** The strings of the language `[0-9]*\.?[0-9]+`. */
  ghost predicate IsNumeral(t: string) {
    (|t| > 0 && AllDigits(t)) || (exists k :: 0 <= k < |t| - 1 && DotAt(t, k))
  }

  /** `t` is digits except for one dot, at index `k`. */
  ghost predicate DotAt(t: string, k: nat) {
    k < |t| && t[k] == '.' && forall j :: 0 <= j < |t| && j != k ==> IsDigit(t[j])
  }

  /** A matched number: the digits before the dot and the digits after it.
      A match without a dot (or whose dot is not followed by a digit) has no fraction. */
  datatype Numeral = Numeral(whole: string, fraction: string) {

    predicate Valid() {
      AllDigits(whole) && AllDigits(fraction) && (whole != [] || fraction != [])
    }

    /** The matched text. */
    function Spelling(): string {
      if fraction == [] then whole else whole + "." + fraction
    }
  }

  /** The number of consecutive digits starting at `i`. */
  function DigitRun(s: string, i: nat): (n: nat)
    requires i <= |s|
    ensures i + n <= |s|
    ensures forall m :: i <= m < i + n ==> IsDigit(s[m])
    ensures i + n == |s| || !IsDigit(s[i + n])
    decreases |s| - i
  {
    if i < |s| && IsDigit(s[i]) then 1 + DigitRun(s, i + 1) else 0
  }

  /** The match of `[0-9]*\.?[0-9]+` starting exactly at `i`, if any. `[0-9]*` takes
      every leading digit; `\.?[0-9]+` then takes a dot followed by at least one digit
      when there is one, and otherwise the engine backtracks and the match is the
      leading digits alone (so `5.` matches `5`). */
  function NumberAt(s: string, i: nat): (r: Option<Numeral>)
    requires i <= |s|
    ensures r.Some? ==> r.value.Valid()
  {
    var j := i + DigitRun(s, i);
    if j < |s| && s[j] == '.' && DigitRun(s, j + 1) > 0 then
      Some(Numeral(s[i..j], s[j + 1..j + 1 + DigitRun(s, j + 1)]))
    else if j > i then
      Some(Numeral(s[i..j], []))
    else
      None
  }

  /** The text of a match is what stands in `s` at the start position. */
  lemma {:induction false} NumberAtOccurs(s: string, i: nat)
    requires i <= |s|
    ensures NumberAt(s, i).Some? ==> OccursAt(s, NumberAt(s, i).value.Spelling(), i)
  {
    var j := i + DigitRun(s, i);
    if j < |s| && s[j] == '.' && DigitRun(s, j + 1) > 0 {
      var f := j + 1 + DigitRun(s, j + 1);
      assert NumberAt(s, i) == Some(Numeral(s[i..j], s[j + 1..f]));
      DotNumeralOccurs(s, i, j, f);
    } else if j > i {
      assert NumberAt(s, i) == Some(Numeral(s[i..j], []));
      SliceOccurs(s, i, j);
    }
  }

  /** A numeral with a fraction, cut out of `s` around the dot at `j`, stands at `i`. */
  lemma {:induction false} DotNumeralOccurs(s: string, i: nat, j: nat, f: nat)
    requires i <= j < f <= |s| && s[j] == '.'
    ensures OccursAt(s, Numeral(s[i..j], s[j + 1..f]).Spelling(), i)
  {
    var w, x := s[i..j], s[j + 1..f];
    var t := w + "." + x;
    forall d | 0 <= d < |t| ensures s[i + d] == t[d] {
      if d < |w| {
        assert t[d] == w[d];
      } else if d > |w| {
        assert t[d] == x[d - |w| - 1];
      }
    }
  }

  lemma SliceOccurs(s: string, i: nat, j: nat)
    requires i <= j <= |s|
    ensures OccursAt(s, Numeral(s[i..j], []).Spelling(), i)
  {
  }

  /** A match can start at `p` exactly when `p` holds a digit, or a dot followed by a digit. */
  lemma {:induction false} NumberStartsAt(s: string, p: nat)
    requires p <= |s|
    ensures NumberAt(s, p).Some? <==>
      (p < |s| && IsDigit(s[p])) || (p + 1 < |s| && s[p] == '.' && IsDigit(s[p + 1]))
  {
  }

  /** The matcher on the four shapes of number: "0.95" is taken whole, "12" is
      taken whole, "5." gives "5" (the dot needs a digit after it), and ".5" gives
      ".5" (no digit is needed before the dot). */
  lemma {:induction false} NumberAtExamples(a: string, b: string, c: string, d: string)
    requires a == "0.95" && b == "12" && c == "5." && d == ".5"
    ensures NumberAt(a, 0) == Some(Numeral("0", "95"))
    ensures NumberAt(b, 0) == Some(Numeral("12", []))
    ensures NumberAt(c, 0) == Some(Numeral("5", []))
    ensures NumberAt(d, 0) == Some(Numeral([], "5"))
  {
    assert DigitRun(a, 4) == 0 && DigitRun(a, 3) == 1 && DigitRun(a, 2) == 2;
    assert DigitRun(a, 1) == 0 && DigitRun(a, 0) == 1;
    assert DigitRun(b, 2) == 0 && DigitRun(b, 1) == 1 && DigitRun(b, 0) == 2;
    assert DigitRun(c, 2) == 0 && DigitRun(c, 1) == 0 && DigitRun(c, 0) == 1;
    assert DigitRun(d, 2) == 0 && DigitRun(d, 1) == 1 && DigitRun(d, 0) == 0;
    assert a[0..1] == "0" && a[2..4] == "95";
    assert b[0..2] == "12" && c[0..1] == "5";
    assert d[0..0] == [] && d[1..2] == "5";
  }

  /** Where the match at `i` ends. */
  function MatchEnd(i: nat, n: Numeral): nat {
    i + |n.Spelling()|
  }

  lemma {:induction false} ValidIsNumeral(n: Numeral)
    requires n.Valid()
    ensures IsNumeral(n.Spelling())
  {
    var t := n.Spelling();
    if n.fraction != [] {
      assert DotAt(t, |n.whole|);
    }
  }

  /** The length of the engine's match at `i` in terms of the two digit runs (0 when none). */
  lemma {:induction false} MatchLength(s: string, i: nat) returns (a: nat, b: nat, len: nat)
    requires i <= |s|
    ensures a == DigitRun(s, i)
    ensures i + a < |s| ==> b == DigitRun(s, i + a + 1)
    ensures len == if i + a < |s| && s[i + a] == '.' && b > 0 then a + 1 + b else a
    ensures len == if NumberAt(s, i).Some? then |NumberAt(s, i).value.Spelling()| else 0
  {
    a := DigitRun(s, i);
    b := if i + a < |s| then DigitRun(s, i + a + 1) else 0;
    if i + a < |s| && s[i + a] == '.' && b > 0 {
      len := a + 1 + b;
      assert NumberAt(s, i) == Some(Numeral(s[i..i + a], s[i + a + 1..i + a + 1 + b]));
    } else {
      len := a;
      if a > 0 {
        assert NumberAt(s, i) == Some(Numeral(s[i..i + a], []));
      }
    }
  }

  /** The engine's choice at a fixed start is the LONGEST prefix in the language:
      it is in the language, no longer prefix is, and when there is no match no
      prefix at all is. */
  lemma {:induction false} NumberAtLongest(s: string, i: nat)
    requires i <= |s|
    ensures NumberAt(s, i).Some? ==> IsNumeral(NumberAt(s, i).value.Spelling())
    ensures NumberAt(s, i).Some? ==>
      forall m :: MatchEnd(i, NumberAt(s, i).value) < m <= |s| ==> !IsNumeral(s[i..m])
    ensures NumberAt(s, i).None? ==> forall m :: i < m <= |s| ==> !IsNumeral(s[i..m])
  {
    var r := NumberAt(s, i);
    if r.Some? {
      ValidIsNumeral(r.value);
    }
    var a, b, len := MatchLength(s, i);
    forall m | i + len < m <= |s| ensures !IsNumeral(s[i..m]) {
      NoLongerNumeral(s, i, m, a, b, len);
    }
  }

  /** The core of `NumberAtLongest`: a prefix in the language that ends past the
      engine's match is impossible. */
  lemma {:induction false} NoLongerNumeral(s: string, i: nat, m: nat, a: nat, b: nat, len: nat)
    requires i <= |s| && i + len < m <= |s|
    requires a == DigitRun(s, i)
    requires i + a < |s| ==> b == DigitRun(s, i + a + 1)
    requires len == if i + a < |s| && s[i + a] == '.' && b > 0 then a + 1 + b else a
    ensures !IsNumeral(s[i..m])
  {
    var t := s[i..m];
    if k :| 0 <= k < |t| - 1 && DotAt(t, k) {
      DotAtDigit(t, k, a);
      DotAtDigit(t, k, k + 1);
      DotAtDigit(t, k, a + 1 + b);
    }
  }

  /** Every position of a `DotAt(t, k)` string other than `k` holds a digit. */
  lemma DotAtDigit(t: string, k: nat, j: nat)
    ensures DotAt(t, k) && j < |t| && j != k ==> IsDigit(t[j])
  {
  }

  /** A valid numeral is determined by its text. */
  lemma {:induction false} SpellingInjective(n: Numeral, n': Numeral)
    requires n.Valid() && n'.Valid() && n.Spelling() == n'.Spelling()
    ensures n == n'
  {
    var t := n.Spelling();
    DotPosition(n, |n'.whole|);
    DotPosition(n', |n.whole|);
    DotPosition(n, |n.whole|);
    DotPosition(n', |n'.whole|);
    if n.fraction != [] && n'.fraction != [] {
      assert n.whole == t[..|n.whole|] == n'.whole;
      assert n.fraction == t[|n.whole| + 1..] == n'.fraction;
    }
  }

  /** The only dot of a numeral's text is the one between whole and fraction. */
  lemma DotPosition(n: Numeral, j: int)
    ensures n.Valid() && 0 <= j < |n.Spelling()| ==>
      (n.Spelling()[j] == '.' <==> n.fraction != [] && j == |n.whole|)
  {
  }

  /** A numeral starts with a digit, or with a dot followed by a digit. */
  lemma {:induction false} SpellingStart(n: Numeral)
    requires n.Valid()
    ensures |n.Spelling()| > 0
    ensures IsDigit(n.Spelling()[0]) || (|n.Spelling()| > 1 && n.Spelling()[0] == '.' && IsDigit(n.Spelling()[1]))
  {
    if n.whole == [] {
      assert n.Spelling()[1] == n.fraction[0];
    } else {
      assert n.Spelling()[0] == n.whole[0];
    }
  }

  /** Where a numeral stands in the text, a match starts at that position. */
  lemma {:induction false} NumberStartsAtNumeral(s: string, k: nat, n: Numeral)
    requires n.Valid() && OccursAt(s, n.Spelling(), k)
    ensures NumberAt(s, k).Some?
  {
    SpellingStart(n);
    if |n.Spelling()| > 1 {
      assert s[k + 1] == n.Spelling()[1];
    }
    assert s[k] == n.Spelling()[0];
    NumberStartsAt(s, k);
  }

  /** A numeral that stands at `k` and runs to the end of the text is exactly the match at `k`. */
  lemma {:induction false} NumberAtWhole(s: string, k: nat, n: Numeral)
    requires n.Valid() && OccursAt(s, n.Spelling(), k) && k + |n.Spelling()| == |s|
    ensures NumberAt(s, k) == Some(n)
  {
    NumberStartsAtNumeral(s, k, n);
    NumberAtLongest(s, k);
    NumberAtOccurs(s, k);
    var n' := NumberAt(s, k).value;
    assert s[k..|s|] == n.Spelling();
    ValidIsNumeral(n);
    assert |n'.Spelling()| == |n.Spelling()|;
    assert n'.Spelling() == s[k..|s|];
    SpellingInjective(n', n);
  }

  /** Every character of a numeral is a digit or its dot. */
  lemma SpellingChar(n: Numeral, j: int)
    ensures n.Valid() && 0 <= j < |n.Spelling()| ==> IsDigit(n.Spelling()[j]) || n.Spelling()[j] == '.'
  {
  }

  /** The last character of a numeral is a digit. */
  lemma {:induction false} SpellingEndsInDigit(n: Numeral)
    requires n.Valid()
    ensures |n.Spelling()| > 0 && IsDigit(n.Spelling()[|n.Spelling()| - 1])
  {
    if n.fraction != [] {
      assert n.Spelling()[|n.Spelling()| - 1] == n.fraction[|n.fraction| - 1];
    }
  }

  /** The exact value of a decimal literal: `units / 10^scale`. */
  datatype Decimal = Decimal(units: nat, scale: nat)

  function Pow10(n: nat): (p: nat)
    ensures p >= 1
  {
    if n == 0 then 1 else 10 * Pow10(n - 1)
  }

  /** The value of a string of decimal digits, read most significant first. */
  function DigitsValue(d: string): (v: nat)
    requires AllDigits(d)
    ensures v < Pow10(|d|)
  {
    if d == [] then 0 else 10 * DigitsValue(d[..|d| - 1]) + (d[|d| - 1] as int - '0' as int)
  }

  lemma {:induction false} AllDigitsAppend(a: string, b: string)
    requires AllDigits(a) && AllDigits(b)
    ensures AllDigits(a + b)
  {
    forall i | 0 <= i < |a + b| ensures IsDigit((a + b)[i]) {
      if i < |a| {
        assert (a + b)[i] == a[i];
      } else {
        assert (a + b)[i] == b[i - |a|];
      }
    }
  }

  /** Reading digits `a` then digits `b` gives the value of `a` shifted left by
      `|b|` places plus the value of `b`. */
  lemma {:induction false} DigitsValueAppend(a: string, b: string)
    requires AllDigits(a) && AllDigits(b)
    ensures AllDigits(a + b)
    ensures DigitsValue(a + b) == DigitsValue(a) * Pow10(|b|) + DigitsValue(b)
    decreases |b|
  {
    AllDigitsAppend(a, b);
    if b == [] {
      assert a + b == a;
    } else {
      var b' := b[..|b| - 1];
      var d := b[|b| - 1] as int - '0' as int;
      assert (a + b)[..|a + b| - 1] == a + b';
      assert (a + b)[|a + b| - 1] == b[|b| - 1];
      DigitsValueAppend(a, b');
      var x, y, z := DigitsValue(a), Pow10(|b'|), DigitsValue(b');
      assert DigitsValue(a + b) == 10 * (x * y + z) + d;
      assert DigitsValue(b) == 10 * z + d;
      assert Pow10(|b|) == 10 * y;
      MulTen(x, y);
    }
  }

  lemma MulTen(x: int, y: int)
    ensures 10 * (x * y) == x * (10 * y)
  {
  }

  /** The value that `float(n.Spelling())` approximates: all the digits read as one
      integer, divided by ten to the number of fraction digits. */
  function Value(n: Numeral): (v: Decimal)
    requires n.Valid()
    ensures v.scale == |n.fraction|
    ensures v.units < Pow10(|n.whole| + |n.fraction|)
  {
    Decimal(DigitsValue(n.whole + n.fraction), |n.fraction|)
  }

  /** The value of a numeral is its whole part plus its fraction part over ten to
      the number of fraction digits: `units` is the whole part shifted left past
      the fraction digits, plus the fraction digits. */
  lemma {:induction false} ValueParts(n: Numeral)
    requires n.Valid()
    ensures Value(n).scale == |n.fraction|
    ensures Value(n).units == DigitsValue(n.whole) * Pow10(|n.fraction|) + DigitsValue(n.fraction)
  {
    DigitsValueAppend(n.whole, n.fraction);
  }

  /** Two decimals denote the same number, as `float` sees them: `0.5` and `0.50`
      are different decimals with the same value. */
  predicate SameValue(d: Decimal, e: Decimal) {
    d.units * Pow10(e.scale) == e.units * Pow10(d.scale)
  }

  /** A trailing zero in the fraction changes the decimal but not the number it denotes. */
  lemma {:induction false} TrailingZeroSameValue(n: Numeral)
    requires n.Valid()
    ensures Numeral(n.whole, n.fraction + "0").Valid()
    ensures SameValue(Value(n), Value(Numeral(n.whole, n.fraction + "0")))
    ensures Value(n) != Value(Numeral(n.whole, n.fraction + "0"))
  {
    var m := Numeral(n.whole, n.fraction + "0");
    var d := n.whole + n.fraction;
    assert "0"[..0] == [];
    assert DigitsValue("0") == 0;
    AllDigitsAppend(n.fraction, "0");
    assert m.whole + m.fraction == d + "0";
    DigitsValueAppend(d, "0");
    assert Value(m) == Decimal(DigitsValue(d) * 10, |n.fraction| + 1);
    ShiftSameValue(DigitsValue(d), |n.fraction|);
  }

  lemma ShiftSameValue(u: nat, s: nat)
    ensures SameValue(Decimal(u, s), Decimal(u * 10, s + 1))
  {
    var p := Pow10(s);
    assert Pow10(s + 1) == 10 * p;
    MulTen(u, p);
  }

  /** Whether the decimal lies in the nominal confidence range [0, 1]. */
  predicate AtMostOne(d: Decimal) {
    d.units <= Pow10(d.scale)
  }
}
