/** `analyzeCode`: the basic pass, then the advanced insights appended,
    the whole list grouped, and the summary recomputed from the grouped
    list. The score and the rewritten code come from the basic pass alone. */
module Analyzer {
  import opened Wrappers
  import opened Schema
  import Rules
  import BasicAnalysis
  import Insights
  import Grouping

  /** `analyzeCode(code, language)` */
  function AnalyzeCode(code: string, language: string): (r: AnalysisResult)
    ensures 0 <= r.qualityScore <= BasicAnalysis.BaseScore
    ensures r.qualityScore == BasicAnalysis.CreateBasicAnalysis(code, language).qualityScore
    ensures r.optimizedCode == BasicAnalysis.CreateBasicAnalysis(code, language).optimizedCode
    ensures r.optimizedCode.Some?
            <==> Rules.IsJsFamily(language) && BasicAnalysis.CreateBasicAnalysis(code, language).issues != []
    ensures r.issues
            == Grouping.Grouped(BasicAnalysis.CreateBasicAnalysis(code, language).issues
                                + Insights.GenerateAdvancedInsights(code, language))
    ensures r.summary.totalIssues == |r.issues|
    ensures r.summary.errorCount + r.summary.warningCount + r.summary.suggestionCount
            + r.summary.optimizationCount == r.summary.totalIssues
    ensures r.summary.errorCount == CountKind(r.issues, Error)
    ensures r.summary.warningCount == CountKind(r.issues, Warning)
    ensures r.summary.suggestionCount == CountKind(r.issues, Suggestion)
    ensures r.summary.optimizationCount == CountKind(r.issues, Optimization)
    ensures |r.issues|
            <= |BasicAnalysis.CreateBasicAnalysis(code, language).issues|
               + |Insights.GenerateAdvancedInsights(code, language)|
  {
    var basic := BasicAnalysis.CreateBasicAnalysis(code, language);
    var issues := Grouping.Grouped(basic.issues + Insights.GenerateAdvancedInsights(code, language));
    AnalysisResult(basic.qualityScore, issues, basic.optimizedCode, Summarize(issues))
  }

  /** A score below the base always comes with at least one reported issue. */
  lemma LostPointsAreReported(code: string, language: string)
    ensures AnalyzeCode(code, language).qualityScore < BasicAnalysis.BaseScore
            ==> AnalyzeCode(code, language).issues != []
  {
    var basic := BasicAnalysis.CreateBasicAnalysis(code, language);
    var all := basic.issues + Insights.GenerateAdvancedInsights(code, language);
    Grouping.GroupedEmptyIff(all);
  }

  /** Every reported issue, grouped or not, names line 0 or a line of the
      snippet. */
  lemma ReportedLinesInRange(code: string, language: string)
    ensures forall k | 0 <= k < |AnalyzeCode(code, language).issues| ::
              AnalyzeCode(code, language).issues[k].line <= |Rules.Lines(code)|
  {
    var basic := BasicAnalysis.CreateBasicAnalysis(code, language);
    var insights := Insights.GenerateAdvancedInsights(code, language);
    GroupedLinesBounded(basic.issues, insights, |Rules.Lines(code)|);
  }

  /** Grouping two lists whose lines are bounded keeps the bound. */
  lemma GroupedLinesBounded(xs: seq<Issue>, ys: seq<Issue>, bound: nat)
    requires forall u | 0 <= u < |xs| :: xs[u].line <= bound
    requires forall i | i in ys :: i.line <= bound
    ensures forall k | 0 <= k < |Grouping.Grouped(xs + ys)| :: Grouping.Grouped(xs + ys)[k].line <= bound
  {
    var all := xs + ys;
    forall u | 0 <= u < |all| ensures all[u].line <= bound {
      if u >= |xs| {
        assert all[u] == ys[u - |xs|] && ys[u - |xs|] in ys;
      }
    }
    Grouping.GroupedLinesBounded(all, bound);
  }
}
