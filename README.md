# Feedback sentiment analyser: a Dafny model of its parser, dispatch and session counters

The application sends customer feedback to a hosted classifier and parses the classifier's
free-text reply into a sentiment category (positive, negative or neutral) and a
confidence. `parse_sentiment` does this in ordered tiers:

1. It strips the reply and lowercases it.
2. It searches for the leftmost `(positive|negative|neutral),\s*([0-9]*\.?[0-9]+)`.
3. Failing that, it picks the category by keyword priority, negative before positive
   before neutral, with neutral as the default.
4. It takes the confidence from the first number in the text, with 0.5 as the default.

The category picks the colour in which the result is shown and the responder that
writes the reply. Each analysis then bumps the session counters: a total and one
count per category. The counters are shown as percentages of the total.

The model has eight modules:

- `Wrappers` holds `Option`.
- `Text` covers ASCII whitespace, `lower()`, `strip()` and the normalisation.
- `Numerals` holds the number matcher at a fixed start and the exact decimal value
  of the matched text.
- `Scan` is the leftmost search used by `re.search` and by the first element of
  `re.findall`.
- `Sentiment` is `parse_sentiment` itself: keyword alternation, the primary search,
  both fallbacks, and `Parse` with its lemmas.
- `Dispatch` holds the responder choice and the colour table.
- `Metrics` is a `SessionMetrics` class whose fields the session updates in place.
- `App` is one press of "Analyze Feedback", in the source's order.

Confidence is the exact decimal `units / 10^scale` of the matched digits, for example
`Decimal(95, 2)` for `0.95`. Percentages are exact `real`s.

Three behaviours of the code are worth stating:
- The confidence is not kept in [0, 1]: `positive, 7` gives 7 (`App.ParseNotClamped`).
- A reply from the responder is used as it is, even when empty. Only a call that
  raises ends the submission before the counters are touched.
- The primary pattern is searched for anywhere in the text, and the leftmost
  occurrence wins. The text does not have to consist of the pattern alone.

## Model

| member | source | states |
|---|---|---|
| `Text.Lower` | app.py:74 | `lower()` keeps the length and lowercases every ASCII letter, position by position |
| `Text.SkipSpaces` | app.py:80 | `\s*` stops at the first non-whitespace character, and everything it skipped is whitespace |
| `Text.Strip` | app.py:74 | the result of `strip()` has no whitespace at either end |
| `Text.StripSplits` | app.py:74 | every text is whitespace, then its `strip()` result, then whitespace |
| `Text.Normalize` | app.py:74 | the normalised text has no whitespace at either end |
| `Text.StripCore` | app.py:74 | a trimmed text surrounded by any whitespace strips back to exactly itself |
| `Text.StripLower` | app.py:74 | stripping and lowercasing commute |
| `Text.NormalizeIgnoresCase` | app.py:74 | texts equal up to ASCII case normalise to the same text |
| `Text.NormalizeIgnoresPadding` | app.py:74 | surrounding whitespace does not change the normalised text |
| `Text.NormalizeIdempotent` | app.py:74 | normalising twice is normalising once |
| `Numerals.DigitRun` | app.py:80 | `[0-9]*` takes the maximal run of digits at a position |
| `Numerals.NumberAt` | app.py:80 | the engine's match of `[0-9]*\.?[0-9]+` at a fixed start is a valid numeral |
| `Numerals.NumberAtOccurs` | app.py:80 | the matched text stands in the input at the start position |
| `Numerals.NumberStartsAt` | app.py:101 | a match starts at p iff p holds a digit, or a dot followed by a digit |
| `Numerals.NumberAtLongest` | app.py:80 | the match is in the pattern's language and is the longest prefix in it; with no match, no prefix is in the language |
| `Numerals.NumberAtExamples` | app.py:80 | "0.95" gives 0.95, "12" gives 12, "5." gives 5, ".5" gives .5 |
| `Numerals.SpellingInjective` | app.py:85 | a valid numeral is determined by its matched text |
| `Numerals.NumberAtWhole` | app.py:80 | a numeral that runs to the end of the text is exactly the match at its start |
| `Numerals.IsNumeral` | app.py:80 | the language of `[0-9]*\.?[0-9]+`, written declaratively: one or more digits, or digits with a single dot that is not last |
| `Numerals.DigitsValue` | app.py:85 | the value of n digits is below 10^n |
| `Numerals.DigitsValueAppend` | app.py:85 | the value of digits a then b is value(a) * 10^|b| + value(b) |
| `Numerals.Value` | app.py:85 | the decimal behind `float(...)` of the match has as many decimal places as the match has fraction digits, and no more digits than the match has digits |
| `Numerals.ValueParts` | app.py:85 | the match's value is its whole part shifted left past the fraction digits, plus its fraction digits, over 10 to the number of fraction digits |
| `Numerals.TrailingZeroSameValue` | app.py:85 | a trailing zero in the fraction gives a different decimal that denotes the same number, as `float` sees it |
| `Scan.FirstSome` | app.py:81 | the search returns the first successful attempt: all earlier attempts fail, and with no result every attempt fails |
| `Scan.FirstSomeAt` | app.py:81 | when position p is the first success, the search returns exactly p and its match |
| `Sentiment.KeywordAt` | app.py:80 | the alternation matches a keyword iff that keyword stands at the position |
| `Sentiment.KeywordsExclusive` | app.py:80 | at most one keyword starts at a position, so the order of the alternatives does not matter |
| `Sentiment.PatternAt` | app.py:80 | an occurrence of the primary pattern, written declaratively: a keyword, a comma right after it, whitespace, then a numeral |
| `Sentiment.MatchesAt` | app.py:80 | the primary pattern occurs at a position in some way |
| `Sentiment.PrimaryAt` | app.py:80 | an attempt at p succeeds only with a valid number |
| `Sentiment.PrimaryAtSound` | app.py:80 | a successful attempt is a keyword, a comma right after it, whitespace, then the engine's number match |
| `Sentiment.PrimaryAtComplete` | app.py:80 | every occurrence of the pattern at p makes the attempt at p succeed with that keyword and number start |
| `Sentiment.PrimaryAtIff` | app.py:80 | an attempt at p succeeds iff the pattern occurs at p |
| `Sentiment.CommaMustFollow` | app.py:80 | a keyword followed by whitespace instead of the comma (`positive , 0.9`) does not start the pattern |
| `Sentiment.SearchPrimary` | app.py:81 | `re.search` gives the first position whose attempt succeeds, or nothing when none does |
| `Sentiment.SearchPrimaryLeftmost` | app.py:81-86 | `re.search` returns the leftmost occurrence; earlier keywords without `,number` do not block it |
| `Sentiment.NoPrimary` | app.py:81-83 | with no occurrence of the pattern, the search finds nothing |
| `Sentiment.SearchNumber` | app.py:101-102 | the first `findall` result is the match at the first position where one starts |
| `Sentiment.NoNumberIffNoDigit` | app.py:101-102 | `findall` finds no number iff the text has no digit |
| `Sentiment.ContainsFrom` | app.py:90-94 | `w in s` is true iff w occurs somewhere in s |
| `Sentiment.FallbackCategory` | app.py:90-98 | "negative" wins over "positive", which wins over "neutral" or the neutral default |
| `Sentiment.Parse` | app.py:72-104 | `parse_sentiment` never fails; its category is neutral or a keyword found in the normalised reply, and its confidence is 0.5 or the reply has a digit (the tiers are pinned down by `ParsePrimary`, `ParseFallbackCategory`, `ParseFallbackNumber`, `ParseWellFormed`, `ParseIgnoresCase` and `ParseIgnoresPadding`) |
| `Sentiment.ParsePrimary` | app.py:72-86 | when the pattern occurs, the result is the keyword of its leftmost occurrence and the value of its number |
| `Sentiment.ParseFallbackCategory` | app.py:88-98 | without the pattern, the category follows the keyword priority with neutral as the default |
| `Sentiment.ParseFallbackNumber` | app.py:100-102 | without the pattern, the confidence is the value of the leftmost number in the normalised text |
| `Sentiment.ParseNoDigit` | app.py:100-102 | a normalised reply with no digit gets confidence 0.5 and the keyword category |
| `Sentiment.ParseDefault` | app.py:72-104 | a reply with no keyword and no digit parses as (neutral, 0.5) |
| `Sentiment.ParseEmpty` | app.py:72-104 | the empty reply parses as (neutral, 0.5) |
| `Sentiment.WellFormedSearch` | app.py:81 | the search finds a well-formed reply's own keyword and number at position 0 |
| `Sentiment.ParseWellFormed` | app.py:79-86 | `<keyword>,<spaces><number>` inside any whitespace parses as exactly that keyword and number |
| `Sentiment.ParseIgnoresCase` | app.py:74 | replies equal up to ASCII case parse alike |
| `Sentiment.ParseIgnoresPadding` | app.py:74 | surrounding whitespace does not change the result |
| `Sentiment.ParseNormalized` | app.py:74 | parsing the normalised reply is parsing the reply |
| `Dispatch.ResponderFor` | app.py:161-169 | "positive" and "negative" select their own responder; every other string selects the neutral one |
| `Dispatch.ResponderServesCategory` | app.py:161-169 | a category's label selects the responder written for that category, and different categories select different responders |
| `Dispatch.ColorOf` | app.py:149-155 | the lookup in `SentimentColors` gives green, red and blue for positive, negative and neutral |
| `Dispatch.ColorKeysAreLabels` | app.py:149-153 | the colour table's keys are exactly the three labels |
| `Dispatch.LabelHasColor` | app.py:149-155 | every category label is in the table, and different categories have different colours |
| `Dispatch.ParseHasColor` | app.py:133-155 | `sentiment_colors[sentiment]` never fails on a parsed result |
| `Metrics.Count` | app.py:188-193 | a category's count never exceeds the number of analyses recorded |
| `Metrics.CountSnoc` | app.py:188-193 | one more analysis adds one to its own category's count and nothing to the others |
| `Metrics.CountsSum` | app.py:187-193 | the three category counts add up to the number of analyses |
| `Metrics.Percentage` | app.py:200 | `count / total * 100` times the total is 100 times the count, and it lies in [0, 100] when 0 <= count <= total |
| `Metrics.SessionMetrics.constructor` | app.py:181 | a new session has no counters yet |
| `Metrics.SessionMetrics.Clear` | app.py:125-127 | "Clear" drops the counters, so the next analysis starts again at zero |
| `Metrics.SessionMetrics.Record` | app.py:181-193 | creates the counters at zero if absent, then adds 1 to the total and to the analysed category's count, leaving the other two unchanged |
| `Metrics.SessionMetrics.Percentages` | app.py:200-206 | each percentage is its count over the total times 100, lies in [0, 100], and the three add up to 100 |
| `Metrics.SumInvariant` | app.py:181-193 | the total always equals the sum of the three counts, each between 0 and the total |
| `Metrics.PercentagesSum` | app.py:200-206 | percentages of counts that make up the total add up to 100 |
| `App.Submit` | app.py:129-207 | nothing happens without a press and non-empty feedback; a raising call changes nothing; otherwise it parses the classifier reply, looks up the colour, asks the selected responder, records the category once, and shows the percentages |
| `App.StubbedNegative` | app.py:80-169 | the stub reply "negative, 0.95" parses as (negative, 95/100), is shown in red and goes to the negative responder |
| `App.ParseNotClamped` | app.py:85-86 | "positive, 7" parses with confidence 7, which is outside [0, 1] |
| `App.StubbedSubmission` | app.py:129-193 | in a fresh session, with the classifier answering "negative, 0.95", `Submit` shows negative with confidence 95/100 in red, asks the negative responder, and leaves total 1, negative 1, positive 0, neutral 0 |

## Left out

- The hosted-model agents and their `.run` calls (app.py:13-62, 132, 162-168) are not modelled. `App.Submit` takes the classifier and the responders as function parameters, and `None` stands for a call that raised.
- `get_response_content` (app.py:65-69) is left out. A reply is taken to be its content string already.
- The Streamlit page is left out: layout, widgets, spinners, the HTML and markdown output, `capitalize()`, the toast, the copy button and the debug expander. So are `load_dotenv` and the debug `print`. These are presentation and I/O. `st.rerun()` is modelled only by its effect: the counters are gone (`Clear`).
- `float(...)` rounding and the `:.2f` and `:.1f` formatting are left out. Confidences are exact decimals and percentages are exact reals.
- Unicode is left out. Lowercasing covers ASCII letters only, and whitespace for `strip()` and `\s` is ASCII whitespace (9-13 and 28-32, as Python counts it).
- Sessions running side by side are not modelled. Each `SessionMetrics` object stands for one session's store.
- Numerals.Value: the confidence is an exact decimal, and two decimals with different trailing zeros (`0.5` and `0.50`) are different values of `Decimal`, while `float` makes them the same number; so `Parse` tells apart replies that the program treats alike. `SameValue` is the equality `float` uses, and `TrailingZeroSameValue` relates the two.
