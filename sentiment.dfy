/**
 * `parse_sentiment`: turns the classifier's free-text reply into a category and a
 * confidence, by three ordered tiers on the normalised text:
 *   1. the leftmost match of `(positive|negative|neutral),\s*([0-9]*\.?[0-9]+)`;
 *   2. otherwise the category by keyword priority negative > positive > neutral,
 *      defaulting to neutral;
 *   3. and, in that case, the confidence from the leftmost number, defaulting to 0.5.
 */
module Sentiment {
  import opened Wrappers
  import opened Text
  import opened Numerals
  import opened Scan

  datatype Category = Positive | Negative | Neutral

  /** The word the source uses for a category: the regex alternative, the value
      `parse_sentiment` returns, and the key of the colour table. */
  function Label(c: Category): string {
    match c
    case Positive => "positive"
    case Negative => "negative"
    case Neutral => "neutral"
  }

  /** The alternation `(positive|negative|neutral)` at position `i`, its alternatives
      tried in that order. */
  function KeywordAt(s: string, i: nat): (r: Option<Category>)
    ensures r.Some? ==> OccursAt(s, Label(r.value), i)
    ensures r.None? ==> forall c :: !OccursAt(s, Label(c), i)
  {
    if OccursAt(s, "positive", i) then Some(Positive)
    else if OccursAt(s, "negative", i) then Some(Negative)
    else if OccursAt(s, "neutral", i) then Some(Neutral)
    else None
  }

  /** At most one keyword starts at any position, so the order of the alternatives
      never changes which one matches. */
  lemma {:induction false} KeywordsExclusive(s: string, i: nat, c: Category, d: Category)
    ensures OccursAt(s, Label(c), i) && OccursAt(s, Label(d), i) ==> c == d
  {
    if OccursAt(s, Label(c), i) && OccursAt(s, Label(d), i) {
      assert Label(c)[2] == s[i + 2] == Label(d)[2];
    }
  }

  /** An occurrence of the whole primary pattern at `p`: the keyword of `c`, a comma
      right after it, whitespace up to `k`, and the number `n` standing at `k`. */
  ghost predicate PatternAt(s: string, p: nat, c: Category, k: nat, n: Numeral) {
    var q := p + |Label(c)|;
    OccursAt(s, Label(c), p) && q < |s| && s[q] == ',' && q + 1 <= k <= |s| &&
    (forall j :: q + 1 <= j < k ==> IsSpace(s[j])) && n.Valid() && OccursAt(s, n.Spelling(), k)
  }

  /** The primary pattern occurs at `p` in some way. */
  ghost predicate MatchesAt(s: string, p: nat) {
    exists c, k, n :: PatternAt(s, p, c, k, n)
  }

  /** Where the number of a primary attempt at `p` with keyword `c` starts: after the
      comma and all the whitespace that follows it. */
  function NumberStart(s: string, p: nat, c: Category): nat
    requires p + |Label(c)| < |s|
  {
    SkipSpaces(s, p + |Label(c)| + 1)
  }

  /** The attempt of `re.search` to match the primary pattern starting at `p`: the
      keyword, a comma, `\s*` (which takes all the whitespace: a number never starts
      with whitespace, so backtracking into it cannot help), then the number. */
  function PrimaryAt(s: string, p: nat): (r: Option<(Category, Numeral)>)
    requires p <= |s|
    ensures r.Some? ==> r.value.1.Valid()
  {
    match KeywordAt(s, p)
    case None => None
    case Some(c) =>
      if p + |Label(c)| < |s| && s[p + |Label(c)|] == ',' then
        match NumberAt(s, NumberStart(s, p, c))
        case None => None
        case Some(n) => Some((c, n))
      else
        None
  }

  /** A successful attempt is an occurrence of the pattern, whose number is the
      engine's match at the first non-space after the comma. */
  lemma {:induction false} PrimaryAtSound(s: string, p: nat)
    requires p <= |s| && PrimaryAt(s, p).Some?
    ensures var (c, n) := PrimaryAt(s, p).value;
      p + |Label(c)| < |s| && NumberAt(s, NumberStart(s, p, c)) == Some(n) &&
      PatternAt(s, p, c, NumberStart(s, p, c), n)
  {
    var (c, n) := PrimaryAt(s, p).value;
    assert KeywordAt(s, p) == Some(c);
    NumberAtOccurs(s, NumberStart(s, p, c));
  }

  /** Every occurrence of the pattern at `p` makes the attempt at `p` succeed, with
      the same keyword and with the number starting at the same place. */
  lemma {:induction false} PrimaryAtComplete(s: string, p: nat, c: Category, k: nat, n: Numeral)
    requires p <= |s| && PatternAt(s, p, c, k, n)
    ensures PrimaryAt(s, p).Some? && PrimaryAt(s, p).value.0 == c
    ensures NumberStart(s, p, c) == k
  {
    KeywordsExclusive(s, p, c, KeywordAt(s, p).value);
    NumberAfterSpaces(s, p + |Label(c)| + 1, k, n);
  }

  /** After a run of whitespace that ends where a numeral stands, `\s*` stops exactly
      there and the number matcher succeeds. */
  lemma {:induction false} NumberAfterSpaces(s: string, i: nat, k: nat, n: Numeral)
    requires i <= k <= |s| && (forall j :: i <= j < k ==> IsSpace(s[j])) && n.Valid() && OccursAt(s, n.Spelling(), k)
    ensures SkipSpaces(s, i) == k && NumberAt(s, k).Some?
  {
    SpellingStart(n);
    assert s[k] == n.Spelling()[0];
    SkipSpacesStops(s, i, k);
    NumberStartsAtNumeral(s, k, n);
  }

  /** The primary attempt at `p` succeeds exactly when the pattern occurs at `p`. */
  lemma {:induction false} PrimaryAtIff(s: string, p: nat)
    requires p <= |s|
    ensures PrimaryAt(s, p).Some? <==> MatchesAt(s, p)
  {
    if PrimaryAt(s, p).Some? {
      PrimaryAtSound(s, p);
    }
    if MatchesAt(s, p) {
      var c: Category, k: nat, n: Numeral :| PatternAt(s, p, c, k, n);
      PrimaryAtComplete(s, p, c, k, n);
    }
  }

  /** A keyword followed by whitespace instead of the comma (as in "positive , 0.9")
      is no start of the primary pattern. */
  lemma {:induction false} CommaMustFollow(s: string, p: nat, c: Category)
    requires OccursAt(s, Label(c), p) && p + |Label(c)| < |s| && IsSpace(s[p + |Label(c)|])
    ensures PrimaryAt(s, p).None? && !MatchesAt(s, p)
  {
    KeywordsExclusive(s, p, c, KeywordAt(s, p).value);
    forall d, k, n ensures !PatternAt(s, p, d, k, n) {
      KeywordsExclusive(s, p, c, d);
    }
  }

  /** The outcome of the primary attempt at every start position, `0` to `|s|`. */
  function PrimaryAttempts(s: string): (a: seq<Option<(Category, Numeral)>>)
    ensures |a| == |s| + 1
    ensures forall p :: 0 <= p <= |s| ==> a[p] == PrimaryAt(s, p)
  {
    seq(|s| + 1, p requires 0 <= p <= |s| => PrimaryAt(s, p))
  }

  /** `re.search` of the primary pattern: the first position whose attempt succeeds. */
  function SearchPrimary(s: string): (r: Option<Found<(Category, Numeral)>>)
    ensures r.Some? ==> r.value.pos <= |s| && PrimaryAt(s, r.value.pos) == Some(r.value.value)
    ensures r.Some? ==> forall p :: 0 <= p < r.value.pos ==> PrimaryAt(s, p).None?
    ensures r.None? ==> forall p :: 0 <= p <= |s| ==> PrimaryAt(s, p).None?
  {
    FirstSome(PrimaryAttempts(s), 0)
  }

  /** The outcome of the number matcher at every start position, `0` to `|s|`. */
  function NumberAttempts(s: string): (a: seq<Option<Numeral>>)
    ensures |a| == |s| + 1
    ensures forall p :: 0 <= p <= |s| ==> a[p] == NumberAt(s, p)
  {
    seq(|s| + 1, p requires 0 <= p <= |s| => NumberAt(s, p))
  }

  /** The first element of `re.findall(r"[0-9]*\.?[0-9]+", s)`: the match at the
      first position where one starts. */
  function SearchNumber(s: string): (r: Option<Found<Numeral>>)
    ensures r.Some? ==> r.value.pos <= |s| && NumberAt(s, r.value.pos) == Some(r.value.value)
    ensures r.Some? ==> forall p :: 0 <= p < r.value.pos ==> NumberAt(s, p).None?
    ensures r.None? ==> forall p :: 0 <= p <= |s| ==> NumberAt(s, p).None?
  {
    FirstSome(NumberAttempts(s), 0)
  }

  /** The fallback number is absent exactly when the text has no digit at all. */
  lemma {:induction false} NoNumberIffNoDigit(s: string)
    ensures SearchNumber(s).None? <==> forall j :: 0 <= j < |s| ==> !IsDigit(s[j])
  {
    if SearchNumber(s).None? {
      forall j | 0 <= j < |s| ensures !IsDigit(s[j]) {
        NumberStartsAt(s, j);
      }
    } else {
      NumberStartsAt(s, SearchNumber(s).value.pos);
    }
  }

  /** Python's `w in s` for a keyword, looking at positions from `i` on. */
  function ContainsFrom(s: string, w: string, i: nat): (r: bool)
    ensures r <==> exists j: nat :: i <= j && OccursAt(s, w, j)
    decreases |s| - i
  {
    i + |w| <= |s| && (OccursAt(s, w, i) || ContainsFrom(s, w, i + 1))
  }

  /** The keyword of `c` occurs somewhere in `s`. */
  ghost predicate Mentions(s: string, c: Category) {
    exists j: nat :: OccursAt(s, Label(c), j)
  }

  /** Tier 2: "negative" wins over "positive", which wins over "neutral"; with no
      keyword at all the category is neutral. */
  function FallbackCategory(s: string): (c: Category)
    ensures Mentions(s, Negative) ==> c == Negative
    ensures !Mentions(s, Negative) && Mentions(s, Positive) ==> c == Positive
    ensures !Mentions(s, Negative) && !Mentions(s, Positive) ==> c == Neutral
  {
    if ContainsFrom(s, Label(Negative), 0) then Negative
    else if ContainsFrom(s, Label(Positive), 0) then Positive
    else if ContainsFrom(s, Label(Neutral), 0) then Neutral
    else Neutral
  }

  /** The result of `parse_sentiment`, with the confidence as an exact decimal. */
  datatype Analysis = Analysis(category: Category, confidence: Decimal)

  /** The confidence used when the text holds no number: 0.5. */
  const DefaultConfidence: Decimal := Decimal(5, 1)

  /** `parse_sentiment(reply)`. Total: every reply, the empty one included, gives a result. */
  function Parse(reply: string): (r: Analysis)
    ensures r.category == Neutral || Mentions(Normalize(reply), r.category)
    ensures r.confidence == DefaultConfidence || HasDigit(Normalize(reply))
  {
    var t := Normalize(reply);
    match SearchPrimary(t)
    case Some(m) =>
      PrimaryAtSound(t, m.pos);
      LastDigitAt(t, NumberStart(t, m.pos, m.value.0), m.value.1);
      Analysis(m.value.0, Value(m.value.1))
    case None =>
      var confidence := match SearchNumber(t)
        case Some(f) => (NumberStartsAt(t, f.pos); Value(f.value))
        case None => DefaultConfidence;
      Analysis(FallbackCategory(t), confidence)
  }

  /** Some character of `s` is a digit. */
  ghost predicate HasDigit(s: string) {
    exists j :: 0 <= j < |s| && IsDigit(s[j])
  }

  /** Tier 1: when the primary pattern occurs in the normalised reply, the result is
      the keyword of its leftmost occurrence and the value of the engine's number
      match at the first non-space after that occurrence's comma. An earlier keyword
      that is not followed by `,` and a number does not stand in the way. */
  lemma {:induction false} ParsePrimary(reply: string, p: nat, c: Category, k: nat, n: Numeral)
    requires p <= |Normalize(reply)| && PatternAt(Normalize(reply), p, c, k, n)
    requires forall q: nat :: q < p ==> !MatchesAt(Normalize(reply), q)
    ensures NumberAt(Normalize(reply), k).Some?
    ensures Parse(reply) == Analysis(c, Value(NumberAt(Normalize(reply), k).value))
  {
    SearchPrimaryLeftmost(Normalize(reply), p, c, k, n);
  }

  /** `re.search` returns the leftmost occurrence of the pattern. */
  lemma {:induction false} SearchPrimaryLeftmost(t: string, p: nat, c: Category, k: nat, n: Numeral)
    requires p <= |t| && PatternAt(t, p, c, k, n)
    requires forall q: nat :: q < p ==> !MatchesAt(t, q)
    ensures NumberAt(t, k).Some?
    ensures SearchPrimary(t) == Some(Found(p, (c, NumberAt(t, k).value)))
  {
    PrimaryAtComplete(t, p, c, k, n);
    PrimaryAtSound(t, p);
    var a := PrimaryAttempts(t);
    forall q | 0 <= q < p ensures a[q].None? {
      PrimaryAtIff(t, q);
    }
    FirstSomeAt(a, 0, p);
  }

  /** Without an occurrence of the pattern, `re.search` finds nothing. */
  lemma {:induction false} NoPrimary(t: string)
    requires forall p: nat :: p <= |t| ==> !MatchesAt(t, p)
    ensures SearchPrimary(t).None?
  {
    if SearchPrimary(t).Some? {
      PrimaryAtIff(t, SearchPrimary(t).value.pos);
    }
  }

  /** Tier 2: with no occurrence of the primary pattern, the category follows the
      keyword priority negative > positive > neutral, defaulting to neutral. */
  lemma {:induction false} ParseFallbackCategory(reply: string)
    requires forall p: nat :: p <= |Normalize(reply)| ==> !MatchesAt(Normalize(reply), p)
    ensures Mentions(Normalize(reply), Negative) ==> Parse(reply).category == Negative
    ensures !Mentions(Normalize(reply), Negative) && Mentions(Normalize(reply), Positive) ==>
      Parse(reply).category == Positive
    ensures !Mentions(Normalize(reply), Negative) && !Mentions(Normalize(reply), Positive) ==>
      Parse(reply).category == Neutral
  {
    NoPrimary(Normalize(reply));
  }

  /** Tier 3: with no occurrence of the primary pattern, the confidence is the value
      of the engine's number match at the leftmost position where a numeral stands. */
  lemma {:induction false} ParseFallbackNumber(reply: string, p: nat, n: Numeral)
    requires forall q: nat :: q <= |Normalize(reply)| ==> !MatchesAt(Normalize(reply), q)
    requires n.Valid() && OccursAt(Normalize(reply), n.Spelling(), p)
    requires forall q: nat, n': Numeral :: q < p && n'.Valid() ==> !OccursAt(Normalize(reply), n'.Spelling(), q)
    ensures NumberAt(Normalize(reply), p).Some?
    ensures Parse(reply).confidence == Value(NumberAt(Normalize(reply), p).value)
  {
    var t := Normalize(reply);
    NoPrimary(t);
    NumberStartsAtNumeral(t, p, n);
    var a := NumberAttempts(t);
    forall q | 0 <= q < p ensures a[q].None? {
      NumberAtOccurs(t, q);
    }
    FirstSomeAt(a, 0, p);
  }

  /** Tier 3, default: a normalised reply without any digit (and so without the
      primary pattern, which needs one) gets confidence 0.5 and the keyword category. */
  lemma {:induction false} ParseNoDigit(reply: string)
    requires forall j :: 0 <= j < |Normalize(reply)| ==> !IsDigit(Normalize(reply)[j])
    ensures Parse(reply).confidence == DefaultConfidence
    ensures Parse(reply).category == FallbackCategory(Normalize(reply))
  {
    var t := Normalize(reply);
    forall q: nat, c, k, n | q <= |t| ensures !PatternAt(t, q, c, k, n) {
      LastDigitAt(t, k, n);
    }
    NoPrimary(t);
    NoNumberIffNoDigit(t);
  }

  /** Where a numeral stands, its last character is a digit of the text. */
  lemma {:induction false} LastDigitAt(s: string, k: nat, n: Numeral)
    ensures n.Valid() && OccursAt(s, n.Spelling(), k) ==> IsDigit(s[k + |n.Spelling()| - 1])
  {
    if n.Valid() && OccursAt(s, n.Spelling(), k) {
      SpellingEndsInDigit(n);
      assert s[k + |n.Spelling()| - 1] == n.Spelling()[|n.Spelling()| - 1];
    }
  }

  /** A reply with neither a keyword nor a digit (the empty reply among them) is
      parsed as neutral with confidence 0.5. */
  lemma {:induction false} ParseDefault(reply: string)
    requires !Mentions(Normalize(reply), Negative) && !Mentions(Normalize(reply), Positive)
    requires forall j :: 0 <= j < |Normalize(reply)| ==> !IsDigit(Normalize(reply)[j])
    ensures Parse(reply) == Analysis(Neutral, DefaultConfidence)
  {
    ParseNoDigit(reply);
  }

  /** The empty reply is parsed as neutral with confidence 0.5. */
  lemma {:induction false} ParseEmpty()
    ensures Parse("") == Analysis(Neutral, DefaultConfidence)
  {
    StripCore([], [], []);
    ParseDefault("");
  }

  /** The reply the classifier is asked for: `<keyword>,<spaces><number>`, as in
      "negative, 0.95". */
  function WellFormed(c: Category, w: string, n: Numeral): string {
    Label(c) + "," + w + n.Spelling()
  }

  /** A well-formed classifier reply, surrounded by any whitespace, is parsed as
      exactly its keyword and number. */
  lemma {:induction false} ParseWellFormed(c: Category, w: string, n: Numeral, pre: string, post: string)
    requires AllSpace(pre) && AllSpace(w) && AllSpace(post) && n.Valid()
    ensures Parse(pre + WellFormed(c, w, n) + post) == Analysis(c, Value(n))
  {
    NormalizeWellFormed(c, w, n, pre, post);
    WellFormedSearch(c, w, n);
    ParseFound(pre + WellFormed(c, w, n) + post, 0, c, n);
  }

  /** The search finds the well-formed reply's own keyword and number at its start. */
  lemma {:induction false} WellFormedSearch(c: Category, w: string, n: Numeral)
    requires AllSpace(w) && n.Valid()
    ensures SearchPrimary(WellFormed(c, w, n)) == Some(Found(0, (c, n)))
  {
    var core := WellFormed(c, w, n);
    WellFormedPattern(c, w, n);
    var k := |Label(c)| + 1 + |w|;
    SearchPrimaryLeftmost(core, 0, c, k, n);
    NumberAtWhole(core, k, n);
  }

  /** Unfolds `Parse` at a found primary match; `ParseWellFormed` uses it to keep
      its own proof small. */
  lemma {:induction false} ParseFound(reply: string, p: nat, c: Category, n: Numeral)
    requires SearchPrimary(Normalize(reply)) == Some(Found(p, (c, n)))
    ensures Parse(reply) == Analysis(c, Value(n))
  {
  }

  /** The well-formed reply has no upper-case letter and no outer whitespace, so
      normalising it, padded or not, gives it back. */
  lemma {:induction false} NormalizeWellFormed(c: Category, w: string, n: Numeral, pre: string, post: string)
    requires AllSpace(pre) && AllSpace(w) && AllSpace(post) && n.Valid()
    ensures Normalize(pre + WellFormed(c, w, n) + post) == WellFormed(c, w, n)
  {
    var core := WellFormed(c, w, n);
    TrimmedWellFormed(c, w, n);
    NoUpperWellFormed(c, w, n);
    NormalizeFixes(core);
    NormalizeIgnoresPadding(pre, core, post);
  }

  lemma {:induction false} TrimmedWellFormed(c: Category, w: string, n: Numeral)
    requires n.Valid()
    ensures Trimmed(WellFormed(c, w, n))
  {
    var l, t := Label(c), n.Spelling();
    var core := l + "," + w + t;
    SpellingEndsInDigit(n);
    assert core[|core| - 1] == t[|t| - 1];
    assert core[0] == l[0];
  }

  lemma {:induction false} NoUpperWellFormed(c: Category, w: string, n: Numeral)
    requires AllSpace(w) && n.Valid()
    ensures forall i :: 0 <= i < |WellFormed(c, w, n)| ==> !('A' <= WellFormed(c, w, n)[i] <= 'Z')
  {
    var l, t := Label(c), n.Spelling();
    var core := l + "," + w + t;
    forall i | 0 <= i < |core| ensures !('A' <= core[i] <= 'Z') {
      if i < |l| {
        LabelLower(c, i);
        assert core[i] == l[i];
      } else if i == |l| {
        assert core[i] == ',';
      } else if i < |l| + 1 + |w| {
        assert core[i] == w[i - |l| - 1];
      } else {
        SpellingChar(n, i - |l| - 1 - |w|);
        assert core[i] == t[i - |l| - 1 - |w|];
      }
    }
  }

  /** The keywords are written in lower case. */
  lemma LabelLower(c: Category, i: int)
    ensures 0 <= i < |Label(c)| ==> 'a' <= Label(c)[i] <= 'z'
  {
  }

  /** The well-formed reply is an occurrence of the pattern at 0 whose number runs to the end. */
  lemma {:induction false} WellFormedPattern(c: Category, w: string, n: Numeral)
    requires AllSpace(w) && n.Valid()
    ensures |WellFormed(c, w, n)| == |Label(c)| + 1 + |w| + |n.Spelling()|
    ensures PatternAt(WellFormed(c, w, n), 0, c, |Label(c)| + 1 + |w|, n)
  {
    var l, t := Label(c), n.Spelling();
    var core := l + "," + w + t;
    var k := |l| + 1 + |w|;
    assert forall j :: 0 <= j < |l| ==> core[j] == l[j];
    assert forall j :: |l| + 1 <= j < k ==> core[j] == w[j - |l| - 1];
    assert forall j :: 0 <= j < |t| ==> core[k + j] == t[j];
  }

  /** Inputs that differ only in ASCII letter case are parsed alike. */
  lemma {:induction false} ParseIgnoresCase(reply: string, reply': string)
    requires Lower(reply) == Lower(reply')
    ensures Parse(reply) == Parse(reply')
  {
    NormalizeIgnoresCase(reply, reply');
  }

  /** Surrounding whitespace does not change the result. */
  lemma {:induction false} ParseIgnoresPadding(pre: string, reply: string, post: string)
    requires AllSpace(pre) && AllSpace(post)
    ensures Parse(pre + reply + post) == Parse(reply)
  {
    NormalizeIgnoresPadding(pre, reply, post);
  }

  /** Normalisation comes first: parsing the normalised text is parsing the reply. */
  lemma {:induction false} ParseNormalized(reply: string)
    ensures Parse(Normalize(reply)) == Parse(reply)
  {
    NormalizeIdempotent(reply);
  }
}
