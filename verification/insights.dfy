/** `generateAdvancedInsights` and its helpers: a cyclomatic-complexity
    estimate, a documentation check and per-line performance hints. These
    only add issues; they take no part in the quality score. */
module Insights {
  import opened Wrappers
  import opened Text
  import opened Schema
  import Rules

  // ------------------------------------------------------------ complexity

  /** `s[a..b]` is all white space. */
  predicate AllSpace(s: string, a: nat, b: nat)
    requires a <= b <= |s|
  {
    forall k | a <= k < b :: IsSpace(s[k])
  }

  /** The regular expression `kws[0]\s*kws[1]\s*...\s*\(` matches `s[i..j]`
      (any split of the white space runs). */
  predicate PatternMatch(s: string, i: nat, j: nat, kws: seq<string>): (b: bool)
    ensures b ==> i < j <= |s| && s[j - 1] == '('
    decreases |kws|
  {
    && i <= j <= |s|
    && if |kws| == 0 then j == i + 1 && s[i] == '('
       else
         && OccursAt(s, kws[0], i)
         && exists m | i + |kws[0]| <= m <= j ::
              AllSpace(s, i + |kws[0]|, m) && PatternMatch(s, m, j, kws[1..])
  }

  /** End of the match of `kws[0]\s*kws[1]\s*...\s*\(` at `i`, if any,
      taking each `\s*` greedily. */
  function KeywordsParenAt(s: string, i: nat, kws: seq<string>): (r: Option<nat>)
    requires i <= |s|
    ensures r.Some? ==> i < r.value <= |s|
    decreases |kws|
  {
    if |kws| == 0 then
      if i < |s| && s[i] == '(' then Some(i + 1) else None
    else if OccursAt(s, kws[0], i) then
      KeywordsParenAt(s, SkipSpaces(s, i + |kws[0]|), kws[1..])
    else None
  }

  /** Keywords that start with a character other than white space. */
  predicate SolidKeywords(kws: seq<string>) {
    forall k | 0 <= k < |kws| :: |kws[k]| > 0 && !IsSpace(kws[k][0])
  }

  /** A white space run followed by a non-space character is exactly what
      the greedy skip consumes. */
  lemma SkipSpacesStopsAt(s: string, a: nat, m: nat)
    requires a <= m < |s| && AllSpace(s, a, m) && !IsSpace(s[m])
    ensures SkipSpaces(s, a) == m
    decreases m - a
  {
    if a < m {
      SkipSpacesStopsAt(s, a + 1, m);
    }
  }

  /** The greedy matcher finds exactly the matches of the regular
      expression: no backtracking into a `\s*` can help, because what
      follows it never begins with white space. */
  lemma {:induction false} KeywordsParenAtIff(s: string, i: nat, j: nat, kws: seq<string>)
    requires i <= |s| && SolidKeywords(kws)
    ensures KeywordsParenAt(s, i, kws) == Some(j) <==> PatternMatch(s, i, j, kws)
    decreases |kws|
  {
    if |kws| > 0 && OccursAt(s, kws[0], i) {
      var a := i + |kws[0]|;
      var m := SkipSpaces(s, a);
      assert SolidKeywords(kws[1..]) by {
        forall k | 0 <= k < |kws[1..]| ensures |kws[1..][k]| > 0 && !IsSpace(kws[1..][k][0]) {
          assert kws[1..][k] == kws[k + 1];
        }
      }
      KeywordsParenAtIff(s, m, j, kws[1..]);
      if PatternMatch(s, i, j, kws) {
        var m' :| a <= m' <= j && AllSpace(s, a, m') && PatternMatch(s, m', j, kws[1..]);
        PatternStartsSolid(s, m', j, kws[1..]);
        SkipSpacesStopsAt(s, a, m');
      }
      if KeywordsParenAt(s, i, kws) == Some(j) {
        assert AllSpace(s, a, m) && PatternMatch(s, m, j, kws[1..]);
      }
    }
  }

  /** A match begins with a non-space character. */
  lemma PatternStartsSolid(s: string, i: nat, j: nat, kws: seq<string>)
    requires SolidKeywords(kws) && PatternMatch(s, i, j, kws)
    ensures i < |s| && !IsSpace(s[i])
  {
    if |kws| > 0 {
      assert s[i..i + |kws[0]|][0] == s[i];
    }
  }

  /** Number of matches a global scan for the pattern finds from `i` on. */
  function CountKeywordsParen(s: string, i: nat, kws: seq<string>): (c: nat)
    requires i <= |s|
    ensures c <= |s| - i
    decreases |s| - i
  {
    if i == |s| then 0
    else
      match KeywordsParenAt(s, i, kws)
      case Some(j) => 1 + CountKeywordsParen(s, j, kws)
      case None => CountKeywordsParen(s, i + 1, kws)
  }

  /** The scan finds nothing exactly when the pattern matches nowhere. */
  lemma {:induction false} CountKeywordsParenZeroIff(s: string, i: nat, kws: seq<string>)
    requires i <= |s|
    ensures CountKeywordsParen(s, i, kws) == 0
            <==> forall k | i <= k < |s| :: KeywordsParenAt(s, k, kws).None?
    decreases |s| - i
  {
    if i < |s| {
      if KeywordsParenAt(s, i, kws).None? {
        CountKeywordsParenZeroIff(s, i + 1, kws);
        assert (forall k | i <= k < |s| :: KeywordsParenAt(s, k, kws).None?)
               <==> (forall k | i + 1 <= k < |s| :: KeywordsParenAt(s, k, kws).None?);
      } else {
        assert !KeywordsParenAt(s, i, kws).None?;
      }
    }
  }

  /** The total number of matches of every pattern in `patterns`. */
  function PatternCounts(code: string, patterns: seq<seq<string>>): nat {
    if |patterns| == 0 then 0
    else CountKeywordsParen(code, 0, patterns[0]) + PatternCounts(code, patterns[1..])
  }

  /** No pattern matches anywhere, so the counts add up to nothing. */
  lemma {:induction false} PatternCountsZero(code: string, patterns: seq<seq<string>>)
    requires forall p, k | 0 <= p < |patterns| && 0 <= k < |code| ::
               KeywordsParenAt(code, k, patterns[p]).None?
    ensures PatternCounts(code, patterns) == 0
  {
    if |patterns| > 0 {
      CountKeywordsParenZeroIff(code, 0, patterns[0]);
      PatternCountsZero(code, patterns[1..]);
    }
  }

  /** The keyword sequences of the `keyword\s*\(` patterns: `if`, `else if`,
      `while`, `for`, `switch`, `catch`. */
  const ComplexityKeywords: seq<seq<string>> :=
    [["if"], ["else", "if"], ["while"], ["for"], ["switch"], ["catch"]]

  /** `calculateComplexity`: 1 plus the number of matches of every branch
      pattern, `&&` and `||` included. */
  function Complexity(code: string): (c: nat)
    ensures c >= 1
  {
    1 + PatternCounts(code, ComplexityKeywords) + Count(code, "&&") + Count(code, "||")
  }

  /** Code with no branch construct at all has the minimal complexity 1. */
  lemma ComplexityOfStraightLineCode(code: string)
    requires forall p, k | 0 <= p < |ComplexityKeywords| && 0 <= k < |code| ::
               KeywordsParenAt(code, k, ComplexityKeywords[p]).None?
    requires !Contains(code, "&&") && !Contains(code, "||")
    ensures Complexity(code) == 1
  {
    NothingCounted(code, ComplexityKeywords);
  }

  /** No keyword pattern and no logical operator matches, so every count
      the complexity adds up is zero. */
  lemma NothingCounted(code: string, patterns: seq<seq<string>>)
    requires forall p, k | 0 <= p < |patterns| && 0 <= k < |code| ::
               KeywordsParenAt(code, k, patterns[p]).None?
    requires !Contains(code, "&&") && !Contains(code, "||")
    ensures PatternCounts(code, patterns) == 0
    ensures Count(code, "&&") == 0 && Count(code, "||") == 0
  {
    PatternCountsZero(code, patterns);
    CountPositiveIffContains(code, "&&");
    CountPositiveIffContains(code, "||");
  }

  /** A branch construct raises the complexity above 1. */
  lemma {:induction false} BranchRaisesComplexity(code: string, p: nat, k: nat)
    requires p < |ComplexityKeywords| && k < |code|
    requires KeywordsParenAt(code, k, ComplexityKeywords[p]).Some?
    ensures Complexity(code) > 1
  {
    CountKeywordsParenZeroIff(code, 0, ComplexityKeywords[p]);
    PatternCountsAtLeast(code, ComplexityKeywords, p);
  }

  /** Every pattern's count is part of the total. */
  lemma {:induction false} PatternCountsAtLeast(code: string, patterns: seq<seq<string>>, p: nat)
    requires p < |patterns|
    ensures PatternCounts(code, patterns) >= CountKeywordsParen(code, 0, patterns[p])
  {
    if p > 0 {
      PatternCountsAtLeast(code, patterns[1..], p - 1);
    }
  }

  // --------------------------------------------------------- documentation

  /** `checkDocumentation`: a doc or line comment marker for the language;
      an unknown language counts as undocumented. */
  function HasDocumentation(code: string, language: string): (b: bool)
    ensures b ==> language in Languages
    ensures language in Languages && language != "python"
            ==> (b <==> Contains(code, "/**") || Contains(code, "//"))
    ensures language == "python" ==> (b <==> Contains(code, "\"\"\"") || Contains(code, "#"))
  {
    if Rules.IsJsFamily(language) then Contains(code, "/**") || Contains(code, "//")
    else if language == "python" then Contains(code, "\"\"\"") || Contains(code, "#")
    else if language == "java" then Contains(code, "/**") || Contains(code, "//")
    else false
  }

  // ----------------------------------------------------------- performance

  /** The per-line performance checks, in the order they run on a line. */
  datatype PerfRule = CachedLength | CachedQuery | StringJoin

  const PerfRules: seq<PerfRule> := [CachedLength, CachedQuery, StringJoin]

  /** Whether a check fires on a line: two substrings, behind a language
      gate. */
  predicate PerfFires(rule: PerfRule, line: string, language: string): (b: bool)
    ensures b ==> Rules.IsJsFamily(language) || language == "python"
  {
    match rule
    case CachedLength => Rules.IsJsFamily(language) && Contains(line, "for") && Contains(line, ".length")
    case CachedQuery =>
      Rules.IsJsFamily(language) && Contains(line, "document.") && Contains(line, "querySelector")
    case StringJoin => language == "python" && Contains(line, "+=") && Contains(line, "\"")
  }

  function PerfSeverity(rule: PerfRule): Severity {
    match rule
    case CachedLength => Low
    case CachedQuery | StringJoin => Medium
  }

  function PerfMessage(rule: PerfRule): string {
    match rule
    case CachedLength => "Consider caching array length in loop for better performance"
    case CachedQuery => "Consider caching DOM queries to avoid repeated lookups"
    case StringJoin => "Consider using join() for string concatenation in loops"
  }

  /** The issue a check reports on line `line`. */
  function PerfIssue(rule: PerfRule, line: nat): Issue {
    Issue(Optimization, PerfSeverity(rule), line, PerfMessage(rule), "Performance")
  }

  /** A performance hint: an optimization in the Performance category. */
  predicate IsPerformanceHint(i: Issue) {
    i.kind == Optimization && i.category == "Performance"
  }

  /** Distinct checks report distinct issues, so a reported issue names the
      check and the line that produced it. */
  lemma PerfIssueInjective(a: PerfRule, m: nat, b: PerfRule, n: nat)
    ensures PerfIssue(a, m) == PerfIssue(b, n) ==> a == b && m == n
  {
    if {a, b} == {CachedQuery, StringJoin} {
      PerfMessagesDistinct();
    }
  }

  /** The two medium-severity checks differ in their messages; the severity
      alone tells the low-severity one apart. */
  lemma PerfMessagesDistinct()
    ensures PerfMessage(CachedQuery) != PerfMessage(StringJoin)
  {
  }

  /** The hints `rules` produce on one line. */
  function LineHints(rules: seq<PerfRule>, line: string, lineNum: nat, language: string)
    : (issues: seq<Issue>)
    ensures forall i | i in issues :: i.line == lineNum && IsPerformanceHint(i)
  {
    if |rules| == 0 then []
    else
      (if PerfFires(rules[0], line, language) then [PerfIssue(rules[0], lineNum)] else [])
      + LineHints(rules[1..], line, lineNum, language)
  }

  /** A check's hint is among a line's hints exactly when the check is one
      of `rules` and fires on the line. */
  lemma {:induction false} LineHintsIff(
    rules: seq<PerfRule>, line: string, lineNum: nat, language: string, rule: PerfRule)
    ensures PerfIssue(rule, lineNum) in LineHints(rules, line, lineNum, language)
            <==> rule in rules && PerfFires(rule, line, language)
  {
    if |rules| > 0 {
      var fires := PerfFires(rules[0], line, language);
      var head := if fires then [PerfIssue(rules[0], lineNum)] else [];
      var tail := LineHints(rules[1..], line, lineNum, language);
      assert LineHints(rules, line, lineNum, language) == head + tail;
      HeadHintIff(rule, rules[0], lineNum, fires);
      LineHintsIff(rules[1..], line, lineNum, language, rule);
      assert rule in rules <==> rule == rules[0] || rule in rules[1..];
    }
  }

  /** The hint of one check, if it fires, is the given check's hint exactly
      when the two checks are the same. */
  lemma HeadHintIff(rule: PerfRule, first: PerfRule, lineNum: nat, fires: bool)
    ensures PerfIssue(rule, lineNum) in (if fires then [PerfIssue(first, lineNum)] else [])
            <==> rule == first && fires
  {
    PerfIssueInjective(rule, lineNum, first, lineNum);
    InOptionalSingleton(PerfIssue(rule, lineNum), PerfIssue(first, lineNum), fires);
  }

  /** Membership in a list of at most one element. */
  lemma InOptionalSingleton<T>(x: T, y: T, present: bool)
    ensures x in (if present then [y] else []) <==> present && x == y
  {
  }

  /** A line on which no check fires has no hints. */
  lemma {:induction false} LineHintsNone(rules: seq<PerfRule>, line: string, lineNum: nat, language: string)
    requires forall r | r in rules :: !PerfFires(r, line, language)
    ensures LineHints(rules, line, lineNum, language) == []
  {
    if |rules| > 0 {
      LineHintsNone(rules[1..], line, lineNum, language);
    }
  }

  /** The performance hints for one line. */
  function LinePerformanceIssues(line: string, lineNum: nat, language: string): (issues: seq<Issue>)
    ensures forall i | i in issues :: i.line == lineNum && IsPerformanceHint(i)
  {
    LineHints(PerfRules, line, lineNum, language)
  }

  /** The performance hints of `lines[from..]`, whose line numbers start at
      `from + 1`. */
  function PerformanceIssuesFrom(lines: seq<string>, from: nat, language: string)
    : (issues: seq<Issue>)
    requires from <= |lines|
    ensures forall i | i in issues :: from < i.line <= |lines| && IsPerformanceHint(i)
    decreases |lines| - from
  {
    if from == |lines| then []
    else
      LinePerformanceIssues(lines[from], from + 1, language)
      + PerformanceIssuesFrom(lines, from + 1, language)
  }

  /** Every hint of a scanned line is in the scan. */
  lemma {:induction false} PerformanceIssuesComplete(
    lines: seq<string>, from: nat, language: string, k: nat, i: Issue)
    requires from <= k < |lines|
    requires i in LinePerformanceIssues(lines[k], k + 1, language)
    ensures i in PerformanceIssuesFrom(lines, from, language)
    decreases k - from
  {
    if from < k {
      PerformanceIssuesComplete(lines, from + 1, language, k, i);
    }
  }

  /** Every hint in the scan is a hint of the line it names. */
  lemma {:induction false} PerformanceIssuesSound(
    lines: seq<string>, from: nat, language: string, i: Issue)
    requires from <= |lines|
    requires i in PerformanceIssuesFrom(lines, from, language)
    ensures 1 <= i.line <= |lines|
    ensures i in LinePerformanceIssues(lines[i.line - 1], i.line, language)
    decreases |lines| - from
  {
    if i !in LinePerformanceIssues(lines[from], from + 1, language) {
      PerformanceIssuesSound(lines, from + 1, language, i);
    }
  }

  /** `findPerformanceIssues(code, language)` */
  function FindPerformanceIssues(code: string, language: string): (issues: seq<Issue>)
    ensures forall i | i in issues :: 1 <= i.line <= |Rules.Lines(code)| && IsPerformanceHint(i)
  {
    PerformanceIssuesFrom(Rules.Lines(code), 0, language)
  }

  /** A check's hint is reported on line `n` exactly when the check fires
      on that line; for instance the loop-length hint needs JavaScript or
      TypeScript and a line containing both `for` and `.length`. */
  lemma PerfReportedIff(code: string, language: string, rule: PerfRule, n: nat)
    requires 1 <= n <= |Rules.Lines(code)|
    ensures PerfIssue(rule, n) in FindPerformanceIssues(code, language)
            <==> PerfFires(rule, Rules.Lines(code)[n - 1], language)
  {
    PerfReportedOnLineIff(Rules.Lines(code), language, rule, n);
  }

  /** `PerfReportedIff` over the split lines. */
  lemma PerfReportedOnLineIff(lines: seq<string>, language: string, rule: PerfRule, n: nat)
    requires 1 <= n <= |lines|
    ensures PerfIssue(rule, n) in PerformanceIssuesFrom(lines, 0, language)
            <==> PerfFires(rule, lines[n - 1], language)
  {
    LineHintsIff(PerfRules, lines[n - 1], n, language, rule);
    if PerfFires(rule, lines[n - 1], language) {
      PerformanceIssuesComplete(lines, 0, language, n - 1, PerfIssue(rule, n));
    } else {
      PerfNotReported(lines, language, rule, n);
    }
  }

  /** A hint missing from its line's hints is missing from the scan. */
  lemma PerfNotReported(lines: seq<string>, language: string, rule: PerfRule, n: nat)
    requires 1 <= n <= |lines|
    requires PerfIssue(rule, n) !in LineHints(PerfRules, lines[n - 1], n, language)
    ensures PerfIssue(rule, n) !in PerformanceIssuesFrom(lines, 0, language)
  {
    if PerfIssue(rule, n) in PerformanceIssuesFrom(lines, 0, language) {
      PerformanceIssuesSound(lines, 0, language, PerfIssue(rule, n));
    }
  }

  /** Only JavaScript, TypeScript and Python code gets performance hints. */
  lemma {:induction false} NoPerformanceHintsElsewhere(lines: seq<string>, from: nat, language: string)
    requires from <= |lines|
    ensures !Rules.IsJsFamily(language) && language != "python"
            ==> PerformanceIssuesFrom(lines, from, language) == []
    decreases |lines| - from
  {
    if from < |lines| && !Rules.IsJsFamily(language) && language != "python" {
      NoPerformanceHintsElsewhere(lines, from + 1, language);
      LineHintsNone(PerfRules, lines[from], from + 1, language);
    }
  }

  // --------------------------------------------------------------- insights

  function ComplexityIssue(complexity: nat): Issue {
    Issue(Optimization, Medium, 0,
          "Code complexity is high (" + NatToString(complexity)
          + "). Consider breaking into smaller functions.",
          "Code Complexity")
  }

  const DocumentationIssue: Issue :=
    Issue(Suggestion, Low, 0,
          "Consider adding documentation comments to improve code maintainability.",
          "Documentation")

  /** The complexity hint, given when the complexity exceeds 10. */
  function ComplexityHints(code: string): (hints: seq<Issue>)
    ensures forall i | i in hints :: i.kind == Optimization && i.line == 0
  {
    if Complexity(code) > 10 then [ComplexityIssue(Complexity(code))] else []
  }

  /** The documentation hint, given when the comment markers are missing. */
  function DocumentationHints(code: string, language: string): (hints: seq<Issue>)
    ensures forall i | i in hints :: i.kind == Suggestion && i.line == 0
  {
    if !HasDocumentation(code, language) then [DocumentationIssue] else []
  }

  /** `generateAdvancedInsights(code, language)`: the complexity hint, the
      documentation hint, then the performance hints. */
  function GenerateAdvancedInsights(code: string, language: string): (insights: seq<Issue>)
    ensures forall i | i in insights ::
              && (i.kind == Optimization || i.kind == Suggestion)
              && i.line <= |Rules.Lines(code)|
  {
    ComplexityHints(code) + DocumentationHints(code, language) + FindPerformanceIssues(code, language)
  }

  /** The complexity warning is given exactly when the complexity exceeds
      10, and the documentation suggestion exactly when the language's
      comment markers are missing. */
  lemma InsightsIff(code: string, language: string)
    ensures ComplexityIssue(Complexity(code)) in GenerateAdvancedInsights(code, language)
            <==> Complexity(code) > 10
    ensures DocumentationIssue in GenerateAdvancedInsights(code, language)
            <==> !HasDocumentation(code, language)
    ensures forall i | i in FindPerformanceIssues(code, language) ::
              i in GenerateAdvancedInsights(code, language)
    ensures forall i | i in GenerateAdvancedInsights(code, language)
                       && i != ComplexityIssue(Complexity(code)) && i != DocumentationIssue ::
              i in FindPerformanceIssues(code, language)
  {
    var c := Complexity(code);
    var perf := FindPerformanceIssues(code, language);
    assert ComplexityIssue(c) !in perf;
    assert DocumentationIssue !in perf;
    assert ComplexityIssue(c) != DocumentationIssue;
  }
}
