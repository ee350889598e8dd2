/** `InvestmentTool.analyze_investment`: extract the metrics, derive the
    profit margin, score it and turn the score into one recommendation.

    Python floats are modelled as exact reals; `round(x, 2)` rounds to the
    nearest hundredth with ties to even, as Python specifies for exact
    decimal values. */
module Investment {
  import opened Strings
  import opened Metrics

  // ---------------------------------------------------------------------
  // round(x, 2)
  // ---------------------------------------------------------------------

  /** `x` is a whole number of hundredths. */
  predicate IsCents(x: real) {
    (x * 100.0).Floor as real == x * 100.0
  }

  /** The integer nearest to `y`, ties going to the even one. */
  function RoundHalfEven(y: real): (n: int)
    ensures -0.5 <= n as real - y <= 0.5
    ensures n as real - y == 0.5 || n as real - y == -0.5 ==> n % 2 == 0
  {
    var f := y.Floor;
    var frac := y - f as real;
    if frac < 0.5 then f
    else if frac > 0.5 then f + 1
    else if f % 2 == 0 then f
    else f + 1
  }

  /** `round(x, 2)`. */
  function Round2(x: real): (r: real)
    ensures IsCents(r)
    ensures -0.005 <= r - x <= 0.005
  {
    var n := RoundHalfEven(x * 100.0);
    CentsOf(n);
    n as real / 100.0
  }

  lemma CentsOf(n: int)
    ensures IsCents(n as real / 100.0)
  {
    assert (n as real / 100.0) * 100.0 == n as real;
  }

  /** A value that already has at most two decimals is left unchanged. */
  lemma RoundCents(k: int)
    ensures Round2(k as real / 100.0) == k as real / 100.0
  {
    var y := (k as real / 100.0) * 100.0;
    assert y == k as real;
    assert y.Floor == k;
  }

  /** Halfway cases go to the even hundredth, as `round(0.125, 2) == 0.12`
      and `round(0.375, 2) == 0.38` in Python (both are exact binary values). */
  lemma RoundTiesToEven()
    ensures Round2(0.125) == 0.12
    ensures Round2(0.375) == 0.38
  {
    assert (0.125 * 100.0).Floor == 12;
    assert (0.375 * 100.0).Floor == 37;
  }

  // ---------------------------------------------------------------------
  // _calculate_investment_ratios
  // ---------------------------------------------------------------------

  /** The profit margin in percent, rounded to two decimals: present exactly
      when both metrics were found and the revenue is not zero (a zero
      revenue is falsy in Python). */
  function ProfitMargin(m: MetricSet): (r: Option<real>)
    ensures r.Some? <==> Revenue in m && NetIncome in m && m[Revenue] != 0.0
    ensures r.Some? ==> IsCents(r.value)
    ensures r.Some? ==> -0.005 <= r.value - m[NetIncome] / m[Revenue] * 100.0 <= 0.005
  {
    if Revenue in m && NetIncome in m && m[Revenue] != 0.0 then
      Some(Round2(m[NetIncome] / m[Revenue] * 100.0))
    else None
  }

  // ---------------------------------------------------------------------
  // _calculate_investment_score
  // ---------------------------------------------------------------------

  /** The bonus for a margin: the first threshold it strictly exceeds. */
  function MarginBonus(margin: real): int {
    if margin > 15.0 then 15
    else if margin > 10.0 then 10
    else if margin > 5.0 then 5
    else 0
  }

  /** `max(lo, min(hi, x))`. */
  function Clamp(x: int, lo: int, hi: int): (r: int)
    requires lo <= hi
    ensures lo <= r <= hi
    ensures lo <= x <= hi ==> r == x
  {
    if x < lo then lo else if x > hi then hi else x
  }

  /** The investment score: 50, plus the margin bonus, kept within 0..100.
      A missing margin counts as 0. Only four scores are possible, and the
      clamp never changes anything. */
  function Score(margin: Option<real>): (s: int)
    ensures 0 <= s <= 100
    ensures s == 50 || s == 55 || s == 60 || s == 65
    ensures s == 50 + MarginBonus(if margin.Some? then margin.value else 0.0)
  {
    var m := if margin.Some? then margin.value else 0.0;
    Clamp(50 + MarginBonus(m), 0, 100)
  }

  /** A larger margin never lowers the score. */
  lemma ScoreMonotone(a: real, b: real)
    requires a <= b
    ensures Score(Some(a)) <= Score(Some(b))
  {
  }

  /** No margin scores like a zero margin. */
  lemma ScoreWithoutMargin()
    ensures Score(None) == Score(Some(0.0)) == 50
  {
  }

  // ---------------------------------------------------------------------
  // _generate_recommendations
  // ---------------------------------------------------------------------

  datatype Rating = StrongBuy | Buy | Hold | Avoid

  /** The rating band of a score: 80 and up, 60 and up, 40 and up, below. */
  function RatingOf(score: int): (r: Rating)
    ensures r == StrongBuy <==> score >= 80
    ensures r == Buy <==> 60 <= score < 80
    ensures r == Hold <==> 40 <= score < 60
    ensures r == Avoid <==> score < 40
  {
    if score >= 80 then StrongBuy
    else if score >= 60 then Buy
    else if score >= 40 then Hold
    else Avoid
  }

  /** Better ratings come first. */
  function Rank(r: Rating): nat {
    match r
    case StrongBuy => 3
    case Buy => 2
    case Hold => 1
    case Avoid => 0
  }

  /** A higher score never gives a worse rating. */
  lemma RatingMonotone(a: int, b: int)
    requires a <= b
    ensures Rank(RatingOf(a)) <= Rank(RatingOf(b))
  {
  }

  /** The advice a message opens with. */
  function Label(r: Rating): string {
    match r
    case StrongBuy => "STRONG BUY"
    case Buy => "BUY"
    case Hold => "HOLD"
    case Avoid => "SELL/AVOID"
  }

  /** What a message says about the company. */
  function Appraisal(r: Rating): string {
    match r
    case StrongBuy => "excellent financial metrics"
    case Buy => "good financial health"
    case Hold => "average financial metrics"
    case Avoid => "concerning financial metrics"
  }

  /** The recommendation text of a rating, e.g. "BUY: Company shows good
      financial health". */
  function Message(r: Rating): string {
    Label(r) + ": Company shows " + Appraisal(r)
  }

  /** Each rating has its own message, so the message tells the rating. */
  lemma MessageInjective(a: Rating, b: Rating)
    requires Message(a) == Message(b)
    ensures a == b
  {
    MessageTag(a);
    MessageTag(b);
  }

  /** The second character of each label differs. */
  function Tag(r: Rating): char {
    match r
    case StrongBuy => 'T'
    case Buy => 'U'
    case Hold => 'O'
    case Avoid => 'E'
  }

  lemma MessageTag(r: Rating)
    ensures |Message(r)| > 1 && Message(r)[1] == Tag(r)
  {
    assert |Label(r)| > 1 && Label(r)[1] == Tag(r);
  }

  /** `_generate_recommendations`: exactly one message, that of the score's band. */
  function Recommendations(score: int): (r: seq<string>)
    ensures |r| == 1
    ensures r[0] == Message(RatingOf(score))
  {
    [Message(RatingOf(score))]
  }

  /** Since the score is always 50 to 65, only BUY and HOLD can ever be
      recommended, and BUY exactly when the rounded margin exceeds 10. */
  lemma OnlyBuyOrHold(margin: Option<real>)
    ensures RatingOf(Score(margin)) == Buy || RatingOf(Score(margin)) == Hold
    ensures RatingOf(Score(margin)) == Buy <==> margin.Some? && margin.value > 10.0
  {
  }

  // ---------------------------------------------------------------------
  // analyze_investment
  // ---------------------------------------------------------------------

  datatype Analysis =
    | Success(metrics: MetricSet, margin: Option<real>, score: int, recommendations: seq<string>)
    | Failure(error: string, message: string)

  /** `analyze_investment(text)`: the only exception the steps can raise is
      `float()` rejecting a capture, and it becomes an error result. */
  function AnalyzeInvestment(text: string): (r: Analysis)
    ensures r.Failure? <==> ExtractMetrics(text).ExtractionError?
    ensures r.Failure? ==> r.error == ExtractMetrics(text).message && r.message == "Investment analysis failed"
    ensures r.Success? ==> r.metrics == ExtractMetrics(text).metrics
    ensures r.Success? ==> r.margin == ProfitMargin(r.metrics) && r.score == Score(r.margin)
    ensures r.Success? ==> r.recommendations == Recommendations(r.score)
    ensures r.Success? ==> |r.recommendations| == 1
    ensures r.Success? ==> r.recommendations[0] in {Message(Buy), Message(Hold)}
  {
    match ExtractMetrics(text)
    case ExtractionError(e) => Failure(e, "Investment analysis failed")
    case Extracted(m) =>
      var margin := ProfitMargin(m);
      var score := Score(margin);
      OnlyBuyOrHold(margin);
      Success(m, margin, score, Recommendations(score))
  }

  /** Revenue 1200 and net income 180: the margin is exactly 15.0, which does
      not exceed 15, so the score is 60 and the advice is BUY. */
  lemma MarginOfFifteen()
    ensures ProfitMargin(map[Revenue := 1200.0, NetIncome := 180.0]) == Some(15.0)
    ensures Score(Some(15.0)) == 60
    ensures Recommendations(60) == [Message(Buy)]
  {
    var m := map[Revenue := 1200.0, NetIncome := 180.0];
    assert m[NetIncome] / m[Revenue] * 100.0 == 1500.0 / 100.0;
    RoundCents(1500);
  }
}
