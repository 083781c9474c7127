/**
 * The session statistics kept across submissions: a total and one counter per
 * category, created at zero on the first analysis of a session, bumped once per
 * analysis, shown as percentages of the total, and dropped by "Clear".
 */
module Metrics {
  import opened Sentiment

  /** How often `c` occurs in the recorded categories `h`. */
  function Count(h: seq<Category>, c: Category): (n: nat)
    ensures n <= |h|
  {
    if h == [] then 0 else Count(h[..|h| - 1], c) + (if h[|h| - 1] == c then 1 else 0)
  }

  /** Recording one more category adds one to its own count and nothing to the others. */
  lemma {:induction false} CountSnoc(h: seq<Category>, c: Category, d: Category)
    ensures Count(h + [c], d) == Count(h, d) + (if c == d then 1 else 0)
  {
    assert (h + [c])[..|h|] == h;
  }

  /** Every recorded analysis falls in exactly one of the three categories. */
  lemma {:induction false} CountsSum(h: seq<Category>)
    ensures Count(h, Positive) + Count(h, Negative) + Count(h, Neutral) == |h|
  {
    if h != [] {
      CountsSum(h[..|h| - 1]);
    }
  }

  /** `count / total * 100`, exactly. */
  function Percentage(count: int, total: int): (pct: real)
    requires total > 0
    ensures pct * total as real == 100.0 * count as real
    ensures 0 <= count <= total ==> 0.0 <= pct <= 100.0
  {
    var p := (count as real / total as real) * 100.0;
    assert p * total as real == 100.0 * count as real;
    p
  }

  /** The three percentages shown under the statistics heading. */
  datatype Breakdown = Breakdown(positive: real, negative: real, neutral: real)

  /** The counters of one session. `initialized` says whether they exist yet
      (the session store has no `total_feedbacks` until the first analysis);
      `History` is the sequence of categories recorded since they were created. */
  class SessionMetrics {
    var initialized: bool
    var total: int
    var positiveCount: int
    var negativeCount: int
    var neutralCount: int
    ghost var History: seq<Category>

    /** Once created, each counter is the number of recorded analyses it stands for. */
    ghost predicate Valid()
      reads this
    {
      if initialized then
        total == |History| &&
        positiveCount == Count(History, Positive) &&
        negativeCount == Count(History, Negative) &&
        neutralCount == Count(History, Neutral)
      else
        History == []
    }

    /** `b` holds each counter as a percentage of the total. */
    ghost predicate Shows(b: Breakdown)
      reads this
    {
      b.positive * total as real == 100.0 * positiveCount as real &&
      b.negative * total as real == 100.0 * negativeCount as real &&
      b.neutral * total as real == 100.0 * neutralCount as real
    }

    /** A new session: no counters yet. */
    constructor ()
      ensures Valid() && !initialized && History == []
    {
      initialized := false;
      History := [];
    }

    /** "Clear" empties the session store, so the counters are gone until the
        next analysis creates them again. */
    method Clear()
      modifies this
      ensures Valid() && !initialized && History == []
    {
      initialized := false;
      History := [];
    }

    /** One analysis of category `c`: create the counters at zero if the session
        has none, then add one to the total and one to the counter of `c`, leaving
        the other two alone. */
    method Record(c: Category)
      requires Valid()
      modifies this
      ensures Valid() && initialized
      ensures History == old(History) + [c]
      ensures total == (if old(initialized) then old(total) else 0) + 1
      ensures positiveCount == (if old(initialized) then old(positiveCount) else 0) + (if c == Positive then 1 else 0)
      ensures negativeCount == (if old(initialized) then old(negativeCount) else 0) + (if c == Negative then 1 else 0)
      ensures neutralCount == (if old(initialized) then old(neutralCount) else 0) + (if c == Neutral then 1 else 0)
    {
      if !initialized {
        initialized := true;
        total := 0;
        positiveCount := 0;
        negativeCount := 0;
        neutralCount := 0;
      }
      total := total + 1;
      if Label(c) == "positive" {
        positiveCount := positiveCount + 1;
      } else if Label(c) == "negative" {
        negativeCount := negativeCount + 1;
      } else {
        neutralCount := neutralCount + 1;
      }
      CountSnoc(History, c, Positive);
      CountSnoc(History, c, Negative);
      CountSnoc(History, c, Neutral);
      History := History + [c];
    }

    /** The percentage of each category among all analyses of the session. The
        counters must exist and the total be positive, which every call after
        `Record` meets; the three percentages lie in [0, 100] and, as exact
        rationals, add up to 100. (The program's floating-point quotients and their
        one-decimal display need not: three thirds show as 33.3% each.) */
    method Percentages() returns (b: Breakdown)
      requires Valid() && initialized && total > 0
      ensures Shows(b)
      ensures 0.0 <= b.positive <= 100.0 && 0.0 <= b.negative <= 100.0 && 0.0 <= b.neutral <= 100.0
      ensures b.positive + b.negative + b.neutral == 100.0
    {
      SumInvariant(this);
      b := Breakdown(
        Percentage(positiveCount, total),
        Percentage(negativeCount, total),
        Percentage(neutralCount, total));
      assert Shows(b);
      PercentagesSum(b, positiveCount, negativeCount, neutralCount, total);
    }
  }

  /** The counters always add up: the total is the sum of the three category
      counts, each of which lies between 0 and the total. */
  lemma {:induction false} SumInvariant(m: SessionMetrics)
    requires m.Valid() && m.initialized
    ensures m.total == m.positiveCount + m.negativeCount + m.neutralCount
    ensures 0 <= m.positiveCount <= m.total && 0 <= m.negativeCount <= m.total && 0 <= m.neutralCount <= m.total
  {
    CountsSum(m.History);
  }

  /** Percentages of counts that make up the whole total add up to 100. */
  lemma {:induction false} PercentagesSum(b: Breakdown, p: int, n: int, u: int, t: int)
    requires t > 0 && p + n + u == t
    requires b.positive * t as real == 100.0 * p as real
    requires b.negative * t as real == 100.0 * n as real
    requires b.neutral * t as real == 100.0 * u as real
    ensures b.positive + b.negative + b.neutral == 100.0
  {
    var s, r := b.positive + b.negative + b.neutral, t as real;
    assert s * r == b.positive * r + b.negative * r + b.neutral * r;
    assert (s - 100.0) * r == 0.0;
  }
}
