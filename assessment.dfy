/**
 * The assessment attached to a scored resume: a fixed four-tier classification of the similarity
 * score, shown beside the explanation the language model wrote. When that model fails, the
 * assessment is the score as a percentage and the explanation a fixed apology.
 */
module Assessment {
  import opened Wrappers
  import opened Numbers

  datatype Tier = Excellent | Good | Fair | Limited

  /** The if/elif chain on the similarity score: exactly one tier, by half-open score bands. */
  function TierOf(score: real): (t: Tier)
    ensures t == Excellent <==> score >= 0.8
    ensures t == Good <==> 0.6 <= score < 0.8
    ensures t == Fair <==> 0.4 <= score < 0.6
    ensures t == Limited <==> score < 0.4
  {
    if score >= 0.8 then Excellent
    else if score >= 0.6 then Good
    else if score >= 0.4 then Fair
    else Limited
  }

  /** The order of the tiers, from Limited (0) to Excellent (3). */
  function Level(t: Tier): nat {
    match t
    case Limited => 0
    case Fair => 1
    case Good => 2
    case Excellent => 3
  }

  /** A higher score never earns a lower tier. */
  lemma TierMonotone(a: real, b: real)
    requires a <= b
    ensures Level(TierOf(a)) <= Level(TierOf(b))
  {
  }

  function TierText(t: Tier): (s: string)
    ensures s != []
  {
    match t
    case Excellent => "Excellent match - Strong alignment with job requirements"
    case Good => "Good match - Significant alignment with key requirements"
    case Fair => "Fair match - Some relevant skills and experience"
    case Limited => "Limited match - Minimal alignment with requirements"
  }

  /** The four tier texts are distinct, so the text tells the tier. */
  lemma TierTextInjective(a: Tier, b: Tier)
    requires TierText(a) == TierText(b)
    ensures a == b
  {
  }

  const AnalysisUnavailable: string := "Unable to generate AI analysis at this time."

  datatype Analysis = Analysis(assessment: string, detailedAnalysis: string)

  /**
   * `analyze_resume_match`: `explanation` is what the language-model call returned, or None when
   * it raised; the tier is computed only after that call succeeded.
   */
  function AnalyzeResumeMatch(score: real, explanation: Option<string>): (a: Analysis)
    ensures a.assessment != []
    ensures explanation.Some? ==> a.detailedAnalysis == explanation.value
    ensures explanation.Some? ==> (a.assessment == TierText(Excellent) <==> score >= 0.8)
    ensures explanation.Some? ==> (a.assessment == TierText(Good) <==> 0.6 <= score < 0.8)
    ensures explanation.Some? ==> (a.assessment == TierText(Fair) <==> 0.4 <= score < 0.6)
    ensures explanation.Some? ==> (a.assessment == TierText(Limited) <==> score < 0.4)
    ensures explanation.None? ==>
      && a.detailedAnalysis == AnalysisUnavailable
      && |a.assessment| >= 11 && a.assessment[..7] == "Score: " && a.assessment[|a.assessment| - 1] == '%'
      && PercentTenths(a.assessment[7..]) == (score * 1000.0 + 0.5).Floor
  {
    match explanation
    case Some(text) => Analysis(TierText(TierOf(score)), text)
    case None =>
      var percent := FormatPercent1(score);
      FormatPercent1Value(score);
      assert ("Score: " + percent)[7..] == percent;
      Analysis("Score: " + percent, AnalysisUnavailable)
  }
}
