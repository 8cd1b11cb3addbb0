/** The records shared between the analysis engine, the store and the
    client: issues, results with their summary counts, the persisted
    analysis record, and the constraints on an analysis request. */
module Schema {
  import opened Wrappers

  /** The closed set of issue types. */
  datatype IssueType = Error | Warning | Suggestion | Optimization

  /** The closed set of severities, independent of the type. */
  datatype Severity = High | Medium | Low

  /** One finding. `line` is 1-based, or 0 when the issue is about the whole
      snippet rather than one line. `kind` is the record's `type` field. */
  datatype Issue = Issue(
    kind: IssueType,
    severity: Severity,
    line: nat,
    message: string,
    category: string)

  /** Issue counts: the total and one count per type. */
  datatype Summary = Summary(
    totalIssues: nat,
    errorCount: nat,
    warningCount: nat,
    suggestionCount: nat,
    optimizationCount: nat)

  /** What one analysis returns; `None` is an absent `optimizedCode`. */
  datatype AnalysisResult = AnalysisResult(
    qualityScore: int,
    issues: seq<Issue>,
    optimizedCode: Option<string>,
    summary: Summary)

  /** A stored analysis. Every column but `optimizedCode` and `createdAt` is
      declared not-null; `None` stands for a null column value, and
      `createdAt` is a timestamp in milliseconds. */
  datatype CodeAnalysis = CodeAnalysis(
    id: nat,
    code: string,
    language: string,
    qualityScore: int,
    issues: seq<Issue>,
    optimizedCode: Option<string>,
    createdAt: Option<int>)

  /** The wire name of an issue type. */
  function KindName(t: IssueType): (name: string)
    ensures name in {"error", "warning", "suggestion", "optimization"}
  {
    match t
    case Error => "error"
    case Warning => "warning"
    case Suggestion => "suggestion"
    case Optimization => "optimization"
  }

  /** The wire name of a severity. */
  function SeverityName(s: Severity): (name: string)
    ensures name in {"high", "medium", "low"}
  {
    match s
    case High => "high"
    case Medium => "medium"
    case Low => "low"
  }

  /** Distinct types have distinct wire names, so the string form is a
      faithful encoding of the closed set. */
  lemma KindNameInjective(a: IssueType, b: IssueType)
    ensures KindName(a) == KindName(b) ==> a == b
  {
  }

  /** Different severities never share a name. */
  lemma SeverityNameInjective(a: Severity, b: Severity)
    ensures SeverityName(a) == SeverityName(b) ==> a == b
  {
  }

  // ----------------------------------------------------------- summaries

  /** `issues.filter(i => i.type === t).length` */
  function CountKind(issues: seq<Issue>, t: IssueType): nat
  {
    if |issues| == 0 then 0
    else (if issues[0].kind == t then 1 else 0) + CountKind(issues[1..], t)
  }

  /** The issues' types, in order. */
  function KindsOf(issues: seq<Issue>): (ks: seq<IssueType>)
    ensures |ks| == |issues|
    ensures forall k | 0 <= k < |issues| :: ks[k] == issues[k].kind
  {
    seq(|issues|, k requires 0 <= k < |issues| => issues[k].kind)
  }

  /** `issues.filter(i => i.type === t).length`: the count is the number
      of times `t` occurs among the issues' types. */
  lemma {:induction false} CountKindIsMultiplicity(issues: seq<Issue>, t: IssueType)
    ensures CountKind(issues, t) == multiset(KindsOf(issues))[t]
  {
    if |issues| > 0 {
      assert KindsOf(issues) == [issues[0].kind] + KindsOf(issues[1..]);
      CountKindIsMultiplicity(issues[1..], t);
    }
  }

  /** Because the set of types is closed, the four per-type counts add up
      to the number of issues. */
  lemma {:induction false} KindCountsAddUp(issues: seq<Issue>)
    ensures CountKind(issues, Error) + CountKind(issues, Warning)
            + CountKind(issues, Suggestion) + CountKind(issues, Optimization)
            == |issues|
  {
    if |issues| > 0 {
      KindCountsAddUp(issues[1..]);
    }
  }

  /** The summary of an issue list: its length and its per-type counts. */
  function Summarize(issues: seq<Issue>): (s: Summary)
    ensures s.totalIssues == |issues|
    ensures s.errorCount + s.warningCount + s.suggestionCount + s.optimizationCount
            == s.totalIssues
    ensures s.errorCount == CountKind(issues, Error)
    ensures s.warningCount == CountKind(issues, Warning)
    ensures s.suggestionCount == CountKind(issues, Suggestion)
    ensures s.optimizationCount == CountKind(issues, Optimization)
  {
    KindCountsAddUp(issues);
    Summary(|issues|,
            CountKind(issues, Error),
            CountKind(issues, Warning),
            CountKind(issues, Suggestion),
            CountKind(issues, Optimization))
  }

  // ------------------------------------------------------------ requests

  /** The languages an analysis request may name. */
  const Languages: set<string> := {"javascript", "python", "typescript", "java"}

  /** An analysis request the validation layer accepts: non-empty code and
      one of the four languages. */
  predicate ValidRequest(code: string, language: string): (b: bool)
    ensures b ==> code != []
    ensures b ==> language == "javascript" || language == "typescript"
                  || language == "python" || language == "java"
  {
    |code| >= 1 && language in Languages
  }
}
