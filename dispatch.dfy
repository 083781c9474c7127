/**
 * What the category returned by `parse_sentiment` selects: the responder that
 * writes the reply, and the colour in which the result is shown. The responders
 * themselves are hosted-model calls; here a responder is only the role chosen.
 */
module Dispatch {
  import opened Sentiment

  /** The three reply-writing roles, each with its own tone. */
  datatype Responder = PositiveResponder | NegativeResponder | NeutralResponder

  /** The category whose tone a responder's instructions are written for. */
  function Serves(r: Responder): Category {
    match r
    case PositiveResponder => Positive
    case NegativeResponder => Negative
    case NeutralResponder => Neutral
  }

  /** The `if`/`elif`/`else` on the sentiment string: "positive" and "negative"
      select their own responder, and every other string falls to the neutral one. */
  function ResponderFor(sentiment: string): (r: Responder)
    ensures Serves(r) == Positive <==> sentiment == Label(Positive)
    ensures Serves(r) == Negative <==> sentiment == Label(Negative)
    ensures Serves(r) == Neutral <==> sentiment != Label(Positive) && sentiment != Label(Negative)
  {
    if sentiment == "positive" then PositiveResponder
    else if sentiment == "negative" then NegativeResponder
    else NeutralResponder
  }

  /** The label of a category selects the responder written for that category,
      and different categories select different responders. */
  lemma {:induction false} ResponderServesCategory(c: Category, d: Category)
    ensures Serves(ResponderFor(Label(c))) == c
    ensures c != d ==> ResponderFor(Label(c)) != ResponderFor(Label(d))
  {
    assert Label(Positive)[0] == 'p' && Label(Negative)[2] == 'g' && Label(Neutral)[2] == 'u';
  }

  /** The colour table, keyed by sentiment string. */
  const SentimentColors: map<string, string> :=
    map["positive" := "green", "negative" := "red", "neutral" := "blue"]

  /** `sentiment_colors[sentiment]`: a lookup that fails on a string outside the table. */
  function ColorOf(sentiment: string): (color: string)
    requires sentiment in SentimentColors
    ensures sentiment == Label(Positive) ==> color == "green"
    ensures sentiment == Label(Negative) ==> color == "red"
    ensures sentiment == Label(Neutral) ==> color == "blue"
  {
    SentimentColors[sentiment]
  }

  /** The table's keys are exactly the three category labels. */
  lemma {:induction false} ColorKeysAreLabels()
    ensures SentimentColors.Keys == {Label(Positive), Label(Negative), Label(Neutral)}
  {
  }

  /** Every category label is in the table, and each category has its own colour. */
  lemma {:induction false} LabelHasColor(c: Category, d: Category)
    ensures Label(c) in SentimentColors && Label(d) in SentimentColors
    ensures c != d ==> ColorOf(Label(c)) != ColorOf(Label(d))
  {
    ColorKeysAreLabels();
  }

  /** The lookup never fails on what `parse_sentiment` returns, and replies parsed
      to different categories are shown in different colours. */
  lemma {:induction false} ParseHasColor(reply: string, reply': string)
    ensures Label(Parse(reply).category) in SentimentColors
    ensures Parse(reply).category != Parse(reply').category ==>
      ColorOf(Label(Parse(reply).category)) != ColorOf(Label(Parse(reply').category))
  {
    var a, b := Parse(reply), Parse(reply');
    LabelHasColor(a.category, b.category);
  }
}
