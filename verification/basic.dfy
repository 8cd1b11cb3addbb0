/** `createBasicAnalysis`: the per-line rule scan gated by language, the
    whole-source checks, the quality score, and the optimized code. */
module BasicAnalysis {
  import opened Wrappers
  import opened Text
  import opened Schema
  import opened Rules
  import Rewriter

  /** The score before any rule fires. */
  const BaseScore: int := 85

  /** The hits of the per-line `rules` on `lines[from..]`, whose line
      numbers start at `from + 1`, line by line. */
  function ScanLines(rules: seq<RuleId>, lines: seq<string>, from: nat,
                     code: string, language: string): (hits: seq<Hit>)
    requires from <= |lines|
    ensures forall h | h in hits :: from < h.line <= |lines|
    decreases |lines| - from
  {
    if from == |lines| then []
    else
      HitsOnLine(rules, lines[from], from + 1, code, language)
      + ScanLines(rules, lines, from + 1, code, language)
  }

  /** Every hit the scan finds is a hit of its own line. */
  lemma {:induction false} ScanLinesSound(rules: seq<RuleId>, lines: seq<string>, from: nat,
                                          code: string, language: string, h: Hit)
    requires from <= |lines|
    requires h in ScanLines(rules, lines, from, code, language)
    ensures 1 <= h.line <= |lines|
    ensures h in HitsOnLine(rules, lines[h.line - 1], h.line, code, language)
    decreases |lines| - from
  {
    var here := HitsOnLine(rules, lines[from], from + 1, code, language);
    var rest := ScanLines(rules, lines, from + 1, code, language);
    assert ScanLines(rules, lines, from, code, language) == here + rest;
    if h !in here {
      ScanLinesSound(rules, lines, from + 1, code, language, h);
    }
  }

  /** Hits whose line numbers never decrease. */
  predicate LinesAscending(hits: seq<Hit>) {
    forall a, b | 0 <= a < b < |hits| :: hits[a].line <= hits[b].line
  }

  /** Hits of one line followed by ascending hits of later lines are
      ascending. */
  lemma AscendingAfterLine(here: seq<Hit>, rest: seq<Hit>, line: nat)
    requires forall h | h in here :: h.line == line
    requires forall h | h in rest :: line < h.line
    requires LinesAscending(rest)
    ensures LinesAscending(here + rest)
  {
    var hits := here + rest;
    forall a, b | 0 <= a < b < |hits| ensures hits[a].line <= hits[b].line {
      if b < |here| {
        assert hits[a] == here[a] && here[a] in here;
        assert hits[b] == here[b] && here[b] in here;
      } else if a < |here| {
        assert hits[a] == here[a] && here[a] in here;
        assert hits[b] == rest[b - |here|] && rest[b - |here|] in rest;
      } else {
        assert hits[a] == rest[a - |here|] && hits[b] == rest[b - |here|];
      }
    }
  }

  /** The scan reports lines in ascending order. */
  lemma {:induction false} ScanLinesOrdered(rules: seq<RuleId>, lines: seq<string>, from: nat,
                                            code: string, language: string)
    requires from <= |lines|
    ensures LinesAscending(ScanLines(rules, lines, from, code, language))
    decreases |lines| - from
  {
    if from < |lines| {
      ScanLinesOrdered(rules, lines, from + 1, code, language);
      AscendingAfterLine(HitsOnLine(rules, lines[from], from + 1, code, language),
                         ScanLines(rules, lines, from + 1, code, language), from + 1);
    }
  }

  /** Conversely, every hit of a scanned line is in the scan. */
  lemma {:induction false} ScanLinesComplete(rules: seq<RuleId>, lines: seq<string>, from: nat,
                                             code: string, language: string, k: nat)
    requires from <= k < |lines|
    ensures forall h | h in HitsOnLine(rules, lines[k], k + 1, code, language) ::
              h in ScanLines(rules, lines, from, code, language)
    decreases k - from
  {
    var here := HitsOnLine(rules, lines[from], from + 1, code, language);
    var rest := ScanLines(rules, lines, from + 1, code, language);
    assert ScanLines(rules, lines, from, code, language) == here + rest;
    if from < k {
      ScanLinesComplete(rules, lines, from + 1, code, language, k);
      assert forall h | h in HitsOnLine(rules, lines[k], k + 1, code, language) :: h in rest;
    }
  }

  /** The hits of the whole-source checks, reported on line 0. */
  function WholeSourceHits(code: string): (hits: seq<Hit>)
    ensures forall h | h in hits :: h.line == 0 && FamilyOf(h.rule) == WholeSource
  {
    (if FiresOnSource(IncompleteErrorHandling, code) then [Hit(IncompleteErrorHandling, 0)] else [])
    + (if FiresOnSource(LargeFunctions, code) then [Hit(LargeFunctions, 0)] else [])
  }

  /** Every hit of the basic pass, in discovery order: the per-line hits
      line by line, then the whole-source hits on the reserved line 0. */
  function BasicHits(code: string, language: string): (hits: seq<Hit>)
    ensures forall h | h in hits :: h.line == 0 ==> FamilyOf(h.rule) == WholeSource
  {
    ScanLines(LineRules, Lines(code), 0, code, language) + WholeSourceHits(code)
  }

  /** The sum of the penalties of `hits`. */
  function TotalPenalty(hits: seq<Hit>): (total: nat)
    ensures total >= 2 * |hits|
  {
    if |hits| == 0 then 0 else PenaltyOf(hits[0].rule) + TotalPenalty(hits[1..])
  }

  /** The quality score: the base score less every penalty, no lower
      than 0. */
  function Score(hits: seq<Hit>): (score: int)
    ensures 0 <= score <= BaseScore
    ensures score == BaseScore <==> hits == []
  {
    var s := BaseScore - TotalPenalty(hits);
    if s < 0 then 0 else s
  }

  /** Penalties add up over concatenation. */
  lemma {:induction false} TotalPenaltyAppend(a: seq<Hit>, b: seq<Hit>)
    ensures TotalPenalty(a + b) == TotalPenalty(a) + TotalPenalty(b)
    decreases |a|
  {
    if |a| > 0 {
      assert (a + b)[0] == a[0];
      assert (a + b)[1..] == a[1..] + b;
      TotalPenaltyAppend(a[1..], b);
    } else {
      assert a + b == b;
    }
  }

  /** More hits never raise the score. */
  lemma ScoreNeverIncreases(a: seq<Hit>, b: seq<Hit>)
    ensures Score(a + b) <= Score(a)
    ensures b != [] && Score(a) > 0 ==> Score(a + b) < Score(a)
  {
    TotalPenaltyAppend(a, b);
  }

  /** The issue list of a hit list. */
  function IssuesOf(hits: seq<Hit>): (issues: seq<Issue>)
    ensures |issues| == |hits|
    ensures forall k | 0 <= k < |hits| :: issues[k] == IssueOf(hits[k])
  {
    seq(|hits|, k requires 0 <= k < |hits| => IssueOf(hits[k]))
  }

  /** The result the basic pass assembles from its hits. */
  function Assemble(hits: seq<Hit>, code: string, language: string): (r: AnalysisResult)
    ensures 0 <= r.qualityScore <= BaseScore
    ensures r.qualityScore == BaseScore <==> r.issues == []
    ensures r.optimizedCode.Some? <==> IsJsFamily(language) && r.issues != []
    ensures r.optimizedCode.Some? ==> r.optimizedCode.value == Rewriter.OptimizeJavaScript(code)
    ensures r.summary.totalIssues == |r.issues|
    ensures |r.issues| == |hits|
    ensures forall k | 0 <= k < |hits| :: r.issues[k].line == hits[k].line
    ensures r.issues == IssuesOf(hits)
    ensures r.qualityScore == Score(hits)
  {
    var issues := IssuesOf(hits);
    var optimized :=
      if |issues| > 0 && IsJsFamily(language) then Some(Rewriter.OptimizeJavaScript(code)) else None;
    AnalysisResult(Score(hits), issues, optimized, Summarize(issues))
  }

  /** `createBasicAnalysis(code, language)` */
  function CreateBasicAnalysis(code: string, language: string): (r: AnalysisResult)
    ensures 0 <= r.qualityScore <= BaseScore
    ensures r.qualityScore == BaseScore <==> r.issues == []
    ensures r.optimizedCode.Some? <==> IsJsFamily(language) && r.issues != []
    ensures r.optimizedCode.Some? ==> r.optimizedCode.value == Rewriter.OptimizeJavaScript(code)
    ensures r.summary.totalIssues == |r.issues|
    ensures forall k | 0 <= k < |r.issues| :: r.issues[k].line <= |Lines(code)|
    ensures r.issues == IssuesOf(BasicHits(code, language))
    ensures r.qualityScore == Score(BasicHits(code, language))
  {
    var hits := BasicHits(code, language);
    BasicHitLinesBounded(code, language);
    Assemble(hits, code, language)
  }

  // -------------------------------------------------------------- properties

  /** No hit names a line past the end of the snippet. */
  lemma BasicHitLinesBounded(code: string, language: string)
    ensures forall k | 0 <= k < |BasicHits(code, language)| ::
              BasicHits(code, language)[k].line <= |Lines(code)|
  {
    var scan := ScanLines(LineRules, Lines(code), 0, code, language);
    var whole := WholeSourceHits(code);
    assert forall h | h in scan :: h.line <= |Lines(code)|;
    assert forall h | h in whole :: h.line <= |Lines(code)|;
    ConcatLinesBounded(scan, whole, |Lines(code)|);
  }

  /** Two hit lists whose lines are bounded make one. */
  lemma ConcatLinesBounded(a: seq<Hit>, b: seq<Hit>, bound: nat)
    requires forall h | h in a :: h.line <= bound
    requires forall h | h in b :: h.line <= bound
    ensures forall k | 0 <= k < |a + b| :: (a + b)[k].line <= bound
  {
    forall k | 0 <= k < |a + b| ensures (a + b)[k].line <= bound {
      if k < |a| {
        assert (a + b)[k] == a[k] && a[k] in a;
      } else {
        assert (a + b)[k] == b[k - |a|] && b[k - |a|] in b;
      }
    }
  }

  /** Per-line hits carry a line number of the snippet, whole-source hits
      carry 0, and every hit passed its language gate. */
  lemma BasicHitsWellPlaced(code: string, language: string)
    ensures forall h | h in BasicHits(code, language) ::
              && Applies(language, h.rule)
              && (FamilyOf(h.rule) == WholeSource ==> h.line == 0)
              && (FamilyOf(h.rule) != WholeSource ==> 1 <= h.line <= |Lines(code)|)
  {
    var lines := Lines(code);
    var scan := ScanLines(LineRules, lines, 0, code, language);
    var whole := WholeSourceHits(code);
    forall h | h in scan
      ensures Applies(language, h.rule) && FamilyOf(h.rule) != WholeSource && 1 <= h.line <= |lines|
    {
      ScanLinesSound(LineRules, lines, 0, code, language, h);
      LineRulesArePerLine(h.rule);
    }
    forall h | h in whole ensures Applies(language, h.rule) && h.line == 0 {
      assert FamilyOf(h.rule) == WholeSource;
    }
    assert BasicHits(code, language) == scan + whole;
  }

  /** The per-line rules are exactly the checks that are not whole-source
      checks. */
  lemma LineRulesArePerLine(id: RuleId)
    ensures id in LineRules <==> FamilyOf(id) != WholeSource
  {
  }

  /** A per-line rule reports line `n` exactly when its language gate is
      open and it triggers on the n-th line. */
  lemma LineRuleHitIff(code: string, language: string, id: RuleId, n: nat)
    requires FamilyOf(id) != WholeSource && 1 <= n <= |Lines(code)|
    ensures Hit(id, n) in BasicHits(code, language)
            <==> Applies(language, id) && FiresOnLine(id, Lines(code)[n - 1], n, code)
  {
    var line := Lines(code)[n - 1];
    assert Hit(id, n) in HitsOnLine(LineRules, line, n, code, language)
           <==> Applies(language, id) && FiresOnLine(id, line, n, code) by {
      LineRulesArePerLine(id);
      HitsOnLineIff(LineRules, line, n, code, language, id);
    }
    ReportedOnLineIff(code, language, id, n);
  }

  /** A check's hit on a line of the snippet is reported exactly when it
      is among the hits of that line. */
  lemma ReportedOnLineIff(code: string, language: string, id: RuleId, n: nat)
    requires 1 <= n <= |Lines(code)|
    ensures Hit(id, n) in BasicHits(code, language)
            <==> Hit(id, n) in HitsOnLine(LineRules, Lines(code)[n - 1], n, code, language)
  {
    var lines := Lines(code);
    var scan := ScanLines(LineRules, lines, 0, code, language);
    ScanHitIffLineHit(lines, code, language, id, n);
    assert Hit(id, n) !in WholeSourceHits(code);
    assert BasicHits(code, language) == scan + WholeSourceHits(code);
  }

  /** The scan of all lines holds a hit naming line `n` exactly when that
      line's checks produce it. */
  lemma ScanHitIffLineHit(lines: seq<string>, code: string, language: string, id: RuleId, n: nat)
    requires 1 <= n <= |lines|
    ensures Hit(id, n) in ScanLines(LineRules, lines, 0, code, language)
            <==> Hit(id, n) in HitsOnLine(LineRules, lines[n - 1], n, code, language)
  {
    var h := Hit(id, n);
    if h in HitsOnLine(LineRules, lines[n - 1], n, code, language) {
      ScanLinesComplete(LineRules, lines, 0, code, language, n - 1);
    }
    if h in ScanLines(LineRules, lines, 0, code, language) {
      ScanLinesSound(LineRules, lines, 0, code, language, h);
    }
  }

  /** For JavaScript and TypeScript, the loose-equality warning is reported
      on a line exactly when the line contains `==` but neither `===` nor
      `!=`; for any other language it is never reported. */
  lemma LooseEqualityReportedIff(code: string, language: string, n: nat)
    requires 1 <= n <= |Lines(code)|
    ensures Hit(LooseEquality, n) in BasicHits(code, language)
            <==> && IsJsFamily(language)
                 && Contains(Lines(code)[n - 1], "==")
                 && !Contains(Lines(code)[n - 1], "===")
                 && !Contains(Lines(code)[n - 1], "!=")
  {
    LineRuleHitIff(code, language, LooseEquality, n);
    LooseEqualityCondition(Lines(code)[n - 1], n, code);
  }

  /** Every rule that fires for an accepted request belongs to the request
      language's family or to no language. */
  lemma ValidRequestHitsItsFamily(code: string, language: string)
    requires ValidRequest(code, language)
    ensures forall h | h in BasicHits(code, language) ::
              || FamilyOf(h.rule) == RequestFamily(language)
              || FamilyOf(h.rule) == AnyLanguage
              || FamilyOf(h.rule) == WholeSource
  {
    BasicHitsWellPlaced(code, language);
    forall h | h in BasicHits(code, language)
      ensures || FamilyOf(h.rule) == RequestFamily(language)
              || FamilyOf(h.rule) == AnyLanguage
              || FamilyOf(h.rule) == WholeSource
    {
      RequestGatesIff(language, h.rule);
    }
  }

  /** No JavaScript/TypeScript rule fires for Python or Java code. */
  lemma NoJsRulesOutsideJs(code: string, language: string)
    requires language == "python" || language == "java"
    ensures forall h | h in BasicHits(code, language) :: FamilyOf(h.rule) != JsFamily
  {
    BasicHitsWellPlaced(code, language);
    forall h | h in BasicHits(code, language) ensures FamilyOf(h.rule) != JsFamily {
      assert Applies(language, h.rule);
    }
  }

  /** A whole-source check is reported, on line 0, exactly when it
      triggers. */
  lemma WholeSourceHitIff(code: string, language: string, id: RuleId)
    requires FamilyOf(id) == WholeSource
    ensures Hit(id, 0) in BasicHits(code, language) <==> FiresOnSource(id, code)
  {
    var scan := ScanLines(LineRules, Lines(code), 0, code, language);
    assert Hit(id, 0) !in scan;
  }
}
