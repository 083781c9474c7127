/**
 * One press of "Analyze Feedback": the classifier is asked about the feedback,
 * its reply is parsed, the result's colour is looked up, the responder chosen by
 * the category writes the reply, and only then are the session counters bumped
 * and their percentages computed. The two hosted-model calls are parameters:
 * `None` stands for a call that raised, which ends the run of the page before
 * anything after it happens.
 */
module App {
  import opened Wrappers
  import opened Numerals
  import opened Sentiment
  import opened Dispatch
  import opened Metrics

  /** What a press of the button leads to. */
  datatype Outcome =
    | NoSubmission
    | Failed
    | Shown(analysis: Analysis, color: string, responder: Responder, reply: string, breakdown: Breakdown)

  method Submit(m: SessionMetrics, pressed: bool, feedback: string,
                classify: string -> Option<string>,
                respond: (Responder, string) -> Option<string>) returns (o: Outcome)
    requires m.Valid()
    modifies m
    ensures m.Valid()
    ensures o == NoSubmission <==> !pressed || feedback == []
    ensures o.Failed? <==>
      pressed && feedback != [] &&
      (classify(feedback).None? || respond(ResponderFor(Label(Parse(classify(feedback).value).category)), feedback).None?)
    ensures !o.Shown? ==> unchanged(m)
    ensures o.Shown? ==>
      classify(feedback).Some? &&
      o.analysis == Parse(classify(feedback).value) &&
      o.color == ColorOf(Label(o.analysis.category)) &&
      o.responder == ResponderFor(Label(o.analysis.category)) &&
      respond(o.responder, feedback) == Some(o.reply) &&
      m.initialized && m.History == old(m.History) + [o.analysis.category] &&
      m.Shows(o.breakdown) &&
      o.breakdown.positive + o.breakdown.negative + o.breakdown.neutral == 100.0
  {
    if !pressed || feedback == [] {
      return NoSubmission;
    }
    var raw := classify(feedback);
    if raw.None? {
      return Failed;
    }
    var analysis := Parse(raw.value);
    var sentiment := Label(analysis.category);
    LabelHasColor(analysis.category, analysis.category);
    var color := ColorOf(sentiment);
    var responder := ResponderFor(sentiment);
    var reply := respond(responder, feedback);
    if reply.None? {
      return Failed;
    }
    m.Record(analysis.category);
    var breakdown := m.Percentages();
    o := Shown(analysis, color, responder, reply.value, breakdown);
  }

  /** The reply the classifier is asked to give, "negative, 0.95", is parsed as
      negative with confidence 95/100, shown in red and answered by the negative
      responder. */
  lemma {:induction false} StubbedNegative(reply: string)
    requires reply == "negative, 0.95"
    ensures Parse(reply) == Analysis(Negative, Decimal(95, 2))
    ensures ColorOf(Label(Parse(reply).category)) == "red"
    ensures ResponderFor(Label(Parse(reply).category)) == NegativeResponder
  {
    var n := Numeral("0", "95");
    assert reply == [] + WellFormed(Negative, " ", n) + [];
    ParseWellFormed(Negative, " ", n, [], []);
    ValueOfStub(n);
  }

  lemma {:induction false} ValueOfStub(n: Numeral)
    requires n == Numeral("0", "95")
    ensures n.Valid() && Value(n) == Decimal(95, 2)
  {
    var d := n.whole + n.fraction;
    assert d == "095";
    assert d[..2] == "09" && d[..2][..1] == "0" && d[..2][..1][..0] == [];
    assert DigitsValue(d[..2][..1]) == 0;
    assert DigitsValue(d[..2]) == 9;
  }

  /** The confidence of a primary match is not clamped: "positive, 7" has
      confidence 7, outside [0, 1]. */
  lemma {:induction false} ParseNotClamped(reply: string)
    requires reply == "positive, 7"
    ensures Parse(reply) == Analysis(Positive, Decimal(7, 0))
    ensures !AtMostOne(Parse(reply).confidence)
  {
    var n := Numeral("7", []);
    assert reply == [] + WellFormed(Positive, " ", n) + [];
    ParseWellFormed(Positive, " ", n, [], []);
    assert DigitsValue("7") == 7 by {
      assert "7"[..0] == [];
    }
  }

  /** The end-to-end run with the classifier stubbed to answer "negative, 0.95"
      and the responders answering: in a fresh session the feedback is shown as
      negative with confidence 95/100 in red, the negative responder writes the
      reply, and the session then has one analysis, a negative one. */
  method StubbedSubmission(feedback: string, stub: string, answer: string)
    returns (m: SessionMetrics, o: Outcome)
    requires feedback != [] && stub == "negative, 0.95"
    ensures o.Shown?
    ensures o.analysis == Analysis(Negative, Decimal(95, 2))
    ensures o.color == "red" && o.responder == NegativeResponder && o.reply == answer
    ensures m.total == 1 && m.negativeCount == 1 && m.positiveCount == 0 && m.neutralCount == 0
  {
    m := new SessionMetrics();
    StubbedNegative(stub);
    o := Submit(m, true, feedback, f => Some(stub), (r, f) => Some(answer));
  }
}
