/** The rule catalogue of the basic analysis: every rule's trigger, the
    issue it reports and the score penalty it costs, and which language
    family it belongs to. */
module Rules {
  import opened Wrappers
  import opened Text
  import opened Schema

  /** Every rule of the basic pass, in the order the source evaluates them. */
  datatype RuleId =
    // JavaScript and TypeScript, per line
    | VarDeclaration | LooseEquality | ConsoleStatement | FunctionSpacing
    | ArrowFunction | TryWithoutCatch | UnsafeEval
    // Python, per line
    | LateImport | FunctionNaming | BareExcept | StringFormatting
    | DictionaryAccess | MissingDatetimeImport | MutationDuringIteration
    | ListComprehension
    // Java, per line
    | ClassNaming | MethodNaming
    // any language, per line
    | LongLine | MagicNumber | TodoComment
    // whole source
    | IncompleteErrorHandling | LargeFunctions

  datatype Family = JsFamily | PythonFamily | JavaFamily | AnyLanguage | WholeSource

  /** A rule firing: the rule and the line it reports (0 for the whole
      source). */
  datatype Hit = Hit(rule: RuleId, line: nat)

  /** The per-line rules in evaluation order. */
  const LineRules: seq<RuleId> := [
    VarDeclaration, LooseEquality, ConsoleStatement, FunctionSpacing,
    ArrowFunction, TryWithoutCatch, UnsafeEval,
    LateImport, FunctionNaming, BareExcept, StringFormatting,
    DictionaryAccess, MissingDatetimeImport, MutationDuringIteration,
    ListComprehension,
    ClassNaming, MethodNaming,
    LongLine, MagicNumber, TodoComment]

  function FamilyOf(id: RuleId): Family {
    match id
    case VarDeclaration | LooseEquality | ConsoleStatement | FunctionSpacing
      | ArrowFunction | TryWithoutCatch | UnsafeEval => JsFamily
    case LateImport | FunctionNaming | BareExcept | StringFormatting
      | DictionaryAccess | MissingDatetimeImport | MutationDuringIteration
      | ListComprehension => PythonFamily
    case ClassNaming | MethodNaming => JavaFamily
    case LongLine | MagicNumber | TodoComment => AnyLanguage
    case IncompleteErrorHandling | LargeFunctions => WholeSource
  }

  /** The JavaScript/TypeScript family of languages. */
  predicate IsJsFamily(language: string) {
    language == "javascript" || language == "typescript"
  }

  /** Whether a rule's language gate is open for `language`. */
  predicate Applies(language: string, id: RuleId) {
    match FamilyOf(id)
    case JsFamily => IsJsFamily(language)
    case PythonFamily => language == "python"
    case JavaFamily => language == "java"
    case AnyLanguage | WholeSource => true
  }

  /** The family of language-specific rules an accepted request language
      belongs to. */
  function RequestFamily(language: string): (f: Family)
    requires language in Languages
    ensures f != AnyLanguage && f != WholeSource
    ensures forall id | FamilyOf(id) == f :: Applies(language, id)
  {
    if IsJsFamily(language) then JsFamily
    else if language == "python" then PythonFamily
    else JavaFamily
  }

  /** For an accepted request language, a rule's gate is open exactly when
      the rule belongs to that language's family or to no language. */
  lemma RequestGatesIff(language: string, id: RuleId)
    requires language in Languages
    ensures Applies(language, id)
            <==> FamilyOf(id) == RequestFamily(language)
                 || FamilyOf(id) == AnyLanguage || FamilyOf(id) == WholeSource
  {
  }

  // -------------------------------------------------- issue descriptors

  /** The issue type a rule reports. Every error is of high severity. */
  function KindOf(id: RuleId): (k: IssueType)
    ensures k == Error ==> SeverityOf(id) == High
  {
    match id
    case VarDeclaration | FunctionSpacing | LateImport | StringFormatting
      | DictionaryAccess | LongLine | MagicNumber => Suggestion
    case LooseEquality | ConsoleStatement | FunctionNaming | BareExcept
      | MutationDuringIteration | ClassNaming | MethodNaming | TodoComment => Warning
    case ArrowFunction | ListComprehension | LargeFunctions => Optimization
    case TryWithoutCatch | UnsafeEval | MissingDatetimeImport
      | IncompleteErrorHandling => Error
  }

  /** The severity a rule reports. A higher severity never costs fewer
      points: a high one costs 12 or more, a medium one 5 to 10 and a low
      one at most 5. */
  function SeverityOf(id: RuleId): (s: Severity)
    ensures s == High <==> PenaltyOf(id) >= 12
    ensures s == Medium ==> 5 <= PenaltyOf(id) <= 10
    ensures s == Low ==> PenaltyOf(id) <= 5
  {
    match id
    case TryWithoutCatch | UnsafeEval | BareExcept | MissingDatetimeImport
      | IncompleteErrorHandling => High
    case VarDeclaration | LooseEquality | LateImport | FunctionNaming
      | MutationDuringIteration | ClassNaming | MethodNaming | MagicNumber
      | LargeFunctions => Medium
    case ConsoleStatement | FunctionSpacing | ArrowFunction | StringFormatting
      | DictionaryAccess | ListComprehension | LongLine | TodoComment => Low
  }

  /** The message a rule reports. */
  function MessageOf(id: RuleId): string {
    match id
    case VarDeclaration => "Consider using let or const instead of var for better scoping"
    case LooseEquality => "Use strict equality (===) instead of loose equality (==)"
    case ConsoleStatement => "Remove console statements in production code"
    case FunctionSpacing => "Add space after function keyword for better readability"
    case ArrowFunction => "Consider using arrow function for concise syntax"
    case TryWithoutCatch => "Try block should have corresponding catch block"
    case UnsafeEval => "Avoid eval() and innerHTML for security reasons"
    case LateImport => "Imports should be at the top of the file (PEP 8)"
    case FunctionNaming => "Function names should be lowercase with underscores (snake_case)"
    case BareExcept => "Avoid bare except clauses, specify exception type"
    case StringFormatting => "Consider using f-strings or .format() for string formatting"
    case DictionaryAccess => "Consider using .get() method for safer dictionary access"
    case MissingDatetimeImport => "Missing import for datetime module"
    case MutationDuringIteration => "Modifying dictionary/list structure during iteration can cause issues"
    case ListComprehension => "Consider using list comprehension for better performance"
    case ClassNaming => "Class names should start with uppercase (PascalCase)"
    case MethodNaming => "Method names should start with lowercase (camelCase)"
    case LongLine => "Line exceeds 120 characters, consider breaking it up"
    case MagicNumber => "Consider extracting magic numbers into named constants"
    case TodoComment => "TODO/FIXME comment found - consider addressing"
    case IncompleteErrorHandling => "Error handling appears incomplete"
    case LargeFunctions => "Functions appear to be quite large, consider breaking them down"
  }

  /** The category a rule reports. Error handling is only ever reported
      with high severity, and the Java conventions only by Java rules. */
  function CategoryOf(id: RuleId): (c: string)
    ensures c == "Error Handling" ==> SeverityOf(id) == High
    ensures c == "Java Conventions" ==> FamilyOf(id) == JavaFamily
  {
    match id
    case VarDeclaration | ArrowFunction => "Modern JavaScript"
    case LooseEquality | DictionaryAccess => "Best Practices"
    case ConsoleStatement | TodoComment => "Code Quality"
    case FunctionSpacing | LongLine => "Code Style"
    case TryWithoutCatch | BareExcept | IncompleteErrorHandling => "Error Handling"
    case UnsafeEval => "Security"
    case LateImport | FunctionNaming => "PEP 8 Style"
    case StringFormatting => "Modern Python"
    case MissingDatetimeImport => "Import Error"
    case MutationDuringIteration => "Data Safety"
    case ListComprehension => "Performance"
    case ClassNaming | MethodNaming => "Java Conventions"
    case MagicNumber => "Maintainability"
    case LargeFunctions => "Code Organization"
  }

  /** The amount a firing rule subtracts from the quality score. */
  function PenaltyOf(id: RuleId): (p: nat)
    ensures p >= 2
  {
    match id
    case VarDeclaration | LateImport | FunctionNaming | ClassNaming | MethodNaming => 8
    case LooseEquality | MutationDuringIteration | LargeFunctions => 10
    case ConsoleStatement | ArrowFunction | StringFormatting | DictionaryAccess
      | TodoComment => 3
    case FunctionSpacing | LongLine => 2
    case TryWithoutCatch | IncompleteErrorHandling => 15
    case UnsafeEval | MissingDatetimeImport => 20
    case BareExcept => 12
    case ListComprehension | MagicNumber => 5
  }

  /** The issue a hit reports. */
  function IssueOf(h: Hit): (issue: Issue)
    ensures issue.line == h.line
  {
    Issue(KindOf(h.rule), SeverityOf(h.rule), h.line, MessageOf(h.rule), CategoryOf(h.rule))
  }

  // ------------------------------------------------- regular expressions

  /** `/p[c]/.test(s)` where `[c]` is the character class `cls`: `p`
      occurs somewhere followed by a character of the class. */
  predicate OccursBefore(s: string, p: string, cls: char -> bool) {
    exists i: nat | i <= |s| :: OccursAt(s, p, i) && i + |p| < |s| && cls(s[i + |p|])
  }

  /** `\b` in `s` at position `k`: exactly one side is a word character. */
  predicate WordBoundary(s: string, k: nat)
    requires k <= |s|
  {
    (k > 0 && IsWordChar(s[k - 1])) != (k < |s| && IsWordChar(s[k]))
  }

  /** `\b\d{2,}\b` matches `s[i..j]`. */
  predicate NumberMatch(s: string, i: nat, j: nat) {
    && i + 2 <= j <= |s|
    && WordBoundary(s, i) && WordBoundary(s, j)
    && forall k | i <= k < j :: IsDigit(s[k])
  }

  /** End of the run of digits starting at `i`. */
  function DigitRunEnd(s: string, i: nat): (j: nat)
    requires i <= |s|
    ensures i <= j <= |s|
    ensures forall k | i <= k < j :: IsDigit(s[k])
    ensures j == |s| || !IsDigit(s[j])
    decreases |s| - i
  {
    if i < |s| && IsDigit(s[i]) then DigitRunEnd(s, i + 1) else i
  }

  /** A number match starting at `i` can only end where the digits end:
      inside a run of digits there is no word boundary. */
  lemma NumberMatchEndsAtRunEnd(s: string, i: nat, j: nat)
    requires i <= |s|
    ensures NumberMatch(s, i, j) ==> j == DigitRunEnd(s, i)
  {
    var e := DigitRunEnd(s, i);
    if i + 2 <= j < e {
      assert IsDigit(s[j]) && IsDigit(s[j - 1]);
      assert !WordBoundary(s, j);
    } else if e < j <= |s| {
      assert !IsDigit(s[e]);
    }
  }

  /** The first match of `/\b(\d{2,})\b/` at or after `i`, as the bounds of
      the captured digits: the leftmost start, and at a given start the
      only possible end. */
  function FirstNumberFrom(s: string, i: nat): (r: Option<(nat, nat)>)
    requires i <= |s|
    ensures r.Some? ==> i <= r.value.0 && NumberMatch(s, r.value.0, r.value.1)
    ensures r.Some? ==> forall k, j | i <= k < r.value.0 :: !NumberMatch(s, k, j)
    ensures r.None? ==> forall k, j | i <= k :: !NumberMatch(s, k, j)
    decreases |s| - i
  {
    if i == |s| then None
    else
      var j := DigitRunEnd(s, i);
      if j >= i + 2 && WordBoundary(s, i) && WordBoundary(s, j) then Some((i, j))
      else
        NoNumberMatchAt(s, i);
        FirstNumberFrom(s, i + 1)
  }

  /** When the test of `FirstNumberFrom` fails at `i`, no match starts
      at `i`. */
  lemma NoNumberMatchAt(s: string, i: nat)
    requires i < |s|
    requires !(DigitRunEnd(s, i) >= i + 2 && WordBoundary(s, i) && WordBoundary(s, DigitRunEnd(s, i)))
    ensures forall j :: !NumberMatch(s, i, j)
  {
    forall j ensures !NumberMatch(s, i, j) {
      NumberMatchEndsAtRunEnd(s, i, j);
    }
  }

  /** The text of the first `\b\d{2,}\b` match on a line, if any. */
  function FirstNumber(line: string): Option<string> {
    match FirstNumberFrom(line, 0)
    case Some((i, j)) => Some(line[i..j])
    case None => None
  }

  // --------------------------------------------------------- triggers

  /** The magic-number test: only the first number on the line is looked
      at, and the line must not look like a comment or a `range(`/`print(`
      call. */
  predicate MagicNumberOnLine(line: string): (b: bool)
    ensures b ==> exists i: nat, j: nat :: NumberMatch(line, i, j) && line[i..j] !in {"10", "100", "1000"}
  {
    && FirstNumber(line).Some?
    && !Contains(line, "//") && !Contains(line, "#")
    && !Contains(line, "range(") && !Contains(line, "print(")
    && FirstNumber(line).value !in {"10", "100", "1000"}
  }

  /** The number of `/function|def /g` matches: at each position the first
      alternative is tried before the second. */
  function CountFunctionKeywords(s: string): (c: nat)
    ensures 4 * c <= |s|
    decreases |s|
  {
    if |s| == 0 then 0
    else if StartsWith(s, "function") then 1 + CountFunctionKeywords(s[|"function"|..])
    else if StartsWith(s, "def ") then 1 + CountFunctionKeywords(s[|"def "|..])
    else CountFunctionKeywords(s[1..])
  }

  /** The lines of a snippet, `code.split('\n')`. */
  function Lines(code: string): (lines: seq<string>)
    ensures |lines| >= 1
  {
    Split(code, '\n')
  }

  /** Whether per-line rule `id` triggers on `line` (line number `lineNum`)
      of the snippet `code`; the language gate is `Applies`. */
  predicate FiresOnLine(id: RuleId, line: string, lineNum: nat, code: string): (b: bool)
    ensures b ==> id != IncompleteErrorHandling && id != LargeFunctions
  {
    var trimmed := Trim(line);
    match id
    case VarDeclaration => Contains(line, "var ")
    case LooseEquality =>
      Contains(line, "==") && !Contains(line, "===") && !Contains(line, "!=")
      && !Contains(line, "!==")
    case ConsoleStatement =>
      Contains(line, "console.log") || Contains(line, "console.warn")
      || Contains(line, "console.error")
    case FunctionSpacing => Contains(line, "function(") && !Contains(line, "function (")
    case ArrowFunction =>
      Contains(line, "function(") && Contains(line, "return ") && Count(line, "return") == 1
    case TryWithoutCatch => Contains(line, "try {") && !Contains(code, "catch")
    case UnsafeEval => Contains(line, "eval(") || Contains(line, "innerHTML")
    case LateImport => StartsWith(trimmed, "import ") && lineNum > 10
    case FunctionNaming => StartsWith(trimmed, "def ") && OccursBefore(trimmed, "def ", IsAsciiUpper)
    case BareExcept => Contains(trimmed, "except:") && !Contains(trimmed, "except Exception:")
    case StringFormatting => Contains(line, "print(") && Contains(line, "+")
    case DictionaryAccess =>
      Contains(line, "['") && Contains(line, "']") && !Contains(line, "=") && !Contains(line, "if ")
    case MissingDatetimeImport =>
      Contains(line, "datetime.now()") && !Contains(code, "import datetime")
      && !Contains(code, "from datetime")
    case MutationDuringIteration =>
      Contains(line, "for ") && Contains(line, " in ")
      && (Contains(line, "del ") || Contains(line, ".pop(") || Contains(line, ".remove("))
    case ListComprehension =>
      Contains(line, "for ") && Contains(line, "append(") && Contains(code, "results = []")
    case ClassNaming => StartsWith(trimmed, "class ") && OccursBefore(trimmed, "class ", IsAsciiLower)
    case MethodNaming =>
      Contains(trimmed, "public ") && OccursBefore(trimmed, "public ", IsAsciiUpper)
      && !Contains(trimmed, "class")
    case LongLine => Utf16Length(line) > 120
    case MagicNumber => MagicNumberOnLine(line)
    case TodoComment => Contains(line, "TODO") || Contains(line, "FIXME")
    case IncompleteErrorHandling | LargeFunctions => false
  }

  /** Whether whole-source rule `id` triggers on the snippet `code`; the
      source is scanned lower-cased here. */
  predicate FiresOnSource(id: RuleId, code: string): (b: bool)
    ensures b ==> id == IncompleteErrorHandling || id == LargeFunctions
    ensures code == [] ==> !b
  {
    match id
    case IncompleteErrorHandling =>
      var lower := ToLower(code);
      Contains(lower, "try") && !Contains(lower, "catch") && !Contains(lower, "except")
    case LargeFunctions =>
      // `lineCount / functionCount > 50` in exact division, for a positive count
      var functions := CountFunctionKeywords(ToLower(code));
      functions > 0 && |Lines(code)| > 50 * functions
    case _ => false
  }

  /** The loose-equality test's exclusion of `!==` adds nothing to its
      exclusion of `!=`: it fires exactly when the line has `==` but no `===`
      and no `!=`. */
  lemma LooseEqualityCondition(line: string, lineNum: nat, code: string)
    ensures FiresOnLine(LooseEquality, line, lineNum, code)
            <==> Contains(line, "==") && !Contains(line, "===") && !Contains(line, "!=")
  {
    if Contains(line, "!==") {
      assert OccursAt("!==", "!=", 0);
      ContainsTransitive(line, "!==", "!=");
    }
  }

  /** The hits of the rules `rules` on one line, in the order of `rules`. */
  function HitsOnLine(rules: seq<RuleId>, line: string, lineNum: nat, code: string, language: string)
    : (hits: seq<Hit>)
    ensures forall h | h in hits :: h.line == lineNum && h.rule in rules && Applies(language, h.rule)
  {
    if |rules| == 0 then []
    else
      (if Applies(language, rules[0]) && FiresOnLine(rules[0], line, lineNum, code)
       then [Hit(rules[0], lineNum)] else [])
      + HitsOnLine(rules[1..], line, lineNum, code, language)
  }

  /** A rule hits a line exactly when it is one of `rules`, its language
      gate is open and it triggers on the line. */
  lemma {:induction false} HitsOnLineIff(
    rules: seq<RuleId>, line: string, lineNum: nat, code: string, language: string, id: RuleId)
    ensures Hit(id, lineNum) in HitsOnLine(rules, line, lineNum, code, language)
            <==> id in rules && Applies(language, id) && FiresOnLine(id, line, lineNum, code)
  {
    if |rules| > 0 {
      HitsOnLineIff(rules[1..], line, lineNum, code, language, id);
      assert id in rules <==> id == rules[0] || id in rules[1..];
    }
  }
}
