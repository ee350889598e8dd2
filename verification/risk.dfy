/** `RiskTool.assess_risk`: a keyword flagger over the lower-cased text.

    Lower-casing is ASCII only. Python lower-cases every cased character,
    but no non-ASCII character lower-cases to a string that creates or
    breaks an occurrence of "debt", "volatile" or "uncertainty", so the
    flags come out the same. */
module Risk {
  import opened Strings

  datatype RiskItem = RiskItem(risk: string, severity: string)

  datatype RiskLevel = Low | Medium | High

  datatype Assessment = Assessment(
    financialRisks: seq<RiskItem>,
    marketRisks: seq<RiskItem>,
    level: RiskLevel,
    score: int,
    factors: seq<string>)

  const BaseScore := 50
  const DebtWeight := 10
  const VolatilityWeight := 5

  const DebtRisk := RiskItem("Debt levels need review", "medium")
  const VolatilityRisk := RiskItem("Market volatility", "medium")

  predicate MentionsDebt(text: string) {
    Contains(Lower(text), "debt")
  }

  /** Either word raises the one market flag; both together still raise it once. */
  predicate MentionsVolatility(text: string) {
    Contains(Lower(text), "volatile") || Contains(Lower(text), "uncertainty")
  }

  /** The level of a score: 70 and up is high, 40 and up medium, else low. */
  function LevelFor(score: int): (l: RiskLevel)
    ensures l == High <==> score >= 70
    ensures l == Medium <==> 40 <= score < 70
    ensures l == Low <==> score < 40
  {
    if score >= 70 then High else if score >= 40 then Medium else Low
  }

  /** `assess_risk(text)`. The debt flag adds a financial risk, 10 points and
      the factor "High debt levels"; the volatility flag adds a market risk,
      5 points and the factor "Market volatility"; the level follows the
      score. Nothing in it can raise, so its error branch is never taken. */
  function AssessRisk(text: string): (r: Assessment)
    ensures r.level == LevelFor(r.score)
    ensures r.financialRisks == (if MentionsDebt(text) then [DebtRisk] else [])
    ensures r.marketRisks == (if MentionsVolatility(text) then [VolatilityRisk] else [])
    ensures r.score == BaseScore + DebtWeight * |r.financialRisks| + VolatilityWeight * |r.marketRisks|
    ensures r.factors == (if MentionsDebt(text) then ["High debt levels"] else [])
                         + (if MentionsVolatility(text) then ["Market volatility"] else [])
  {
    var debt := MentionsDebt(text);
    var vol := MentionsVolatility(text);
    var financial := if debt then [DebtRisk] else [];
    var market := if vol then [VolatilityRisk] else [];
    var score := BaseScore + (if debt then DebtWeight else 0) + (if vol then VolatilityWeight else 0);
    var factors := (if debt then ["High debt levels"] else []) + (if vol then ["Market volatility"] else []);
    Assessment(financial, market, LevelFor(score), score, factors)
  }

  /** One factor per flagged risk, and the score stays between 50 and 65,
      so the level is always medium: "high" and "low" cannot occur. */
  lemma AlwaysMedium(text: string)
    ensures |AssessRisk(text).factors| == |AssessRisk(text).financialRisks| + |AssessRisk(text).marketRisks|
    ensures 50 <= AssessRisk(text).score <= 65
    ensures AssessRisk(text).level == Medium
  {
  }

  /** ASCII lower-casing twice is lower-casing once. */
  lemma LowerIdempotent(s: string)
    ensures Lower(Lower(s)) == Lower(s)
  {
    assert forall i :: 0 <= i < |s| ==> ToLower(ToLower(s[i])) == ToLower(s[i]);
  }

  /** The flags ignore case: the assessment of a text equals that of its
      lower-cased form. */
  lemma IgnoresCase(text: string)
    ensures AssessRisk(Lower(text)) == AssessRisk(text)
  {
    LowerIdempotent(text);
  }

  /** Adding text around a document never removes a flag: every risk and
      factor of `text` is still reported, and the score does not fall. */
  lemma MoreTextNoFewerRisks(a: string, text: string, b: string)
    ensures MentionsDebt(text) ==> MentionsDebt(a + text + b)
    ensures MentionsVolatility(text) ==> MentionsVolatility(a + text + b)
    ensures AssessRisk(text).score <= AssessRisk(a + text + b).score
    ensures forall f :: f in AssessRisk(text).factors ==> f in AssessRisk(a + text + b).factors
  {
    LowerConcat(a, text);
    LowerConcat(a + text, b);
    var lt := Lower(text);
    assert Lower(a + text + b) == Lower(a) + lt + Lower(b);
    if Contains(lt, "debt") {
      ContainsInContext(Lower(a), lt, Lower(b), "debt");
    }
    if Contains(lt, "volatile") {
      ContainsInContext(Lower(a), lt, Lower(b), "volatile");
    }
    if Contains(lt, "uncertainty") {
      ContainsInContext(Lower(a), lt, Lower(b), "uncertainty");
    }
  }

  /** A word found inside the lower-cased text, in whatever ASCII case it
      was written. */
  lemma WordInContext(a: string, kw: string, b: string, word: string)
    requires Lower(kw) == word
    ensures Contains(Lower(a + kw + b), word)
  {
    LowerConcat(a, kw);
    LowerConcat(a + kw, b);
    assert OccursAt(word, word, 0);
    ContainsInContext(Lower(a), word, Lower(b), word);
  }

  /** A text that mentions "Debt" and "uncertainty" anywhere scores 65: both
      flags, both factors in that order, and still only a medium level. */
  lemma DebtAndUncertainty(a: string, debt: string, b: string, unc: string, c: string)
    requires Lower(debt) == "debt" && Lower(unc) == "uncertainty"
    ensures var r := AssessRisk(a + debt + b + unc + c);
      && r.score == 65
      && r.level == Medium
      && r.factors == ["High debt levels", "Market volatility"]
  {
    var t := a + debt + b + unc + c;
    assert t == a + debt + (b + unc + c);
    WordInContext(a, debt, b + unc + c, "debt");
    assert t == (a + debt + b) + unc + c;
    WordInContext(a + debt + b, unc, c, "uncertainty");
  }
}
