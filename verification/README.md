# Code-review analysis engine and in-memory store, in Dafny

This project models the server core of a code-review web service. The
service takes a code snippet and its language, runs a rule-based analysis
and returns:

- a quality score;
- a list of issues;
- for JavaScript and TypeScript, a mechanically rewritten version of the code;
- summary counts.

An in-memory store keeps users and past analyses.

The modules follow the program's structure:

| module | models |
|---|---|
| `Wrappers` | `undefined` and `null` as `Option` |
| `Text` | the JavaScript string primitives the engine relies on: `includes`, `split`, `join`, `trim`, `toLowerCase`, global `match` counts and global `replace` |
| `Sorting` | `Array.prototype.sort` with a numeric comparator, a stable sort by an integer key |
| `Schema` | the shared records: issues, results, stored analyses, the request predicate |
| `Rules` | the catalogue of `createBasicAnalysis` rules: triggers, language gates, issue descriptors, penalties |
| `BasicAnalysis` | `createBasicAnalysis`: the per-line scan, the whole-source checks, the score and the optimized code |
| `Insights` | `generateAdvancedInsights`, `calculateComplexity`, `checkDocumentation`, `findPerformanceIssues` |
| `Grouping` | `groupSimilarIssues` |
| `Rewriter` | `generateOptimizedJavaScript` |
| `Analyzer` | `analyzeCode` |
| `Storage` | `MemStorage` as a state machine over an immutable `Store` value |

## Modelling choices

- Every operation is a pure function of its inputs. The asynchronous
  `Promise` wrappers are dropped. `createCodeAnalysis` takes the creation
  time `now` as a parameter, in milliseconds.
- A rule is a `RuleId` and a firing is a `Hit(rule, line)`. Each rule's
  type, severity, message, category and penalty are functions of the id,
  with the constants of the source.
- The score is `max(0, 85 - sum of penalties)`. This equals the source's
  subtract-as-you-go followed by `Math.max(0, ·)`.
- Where the source uses a regular expression, the model writes out that
  expression's semantics:
  - `\b\d{2,}\b`: the first match is the leftmost one.
  - `keyword\s*(`: the greedy matcher `KeywordsParenAt` is proved equal to
    the backtracking definition `PatternMatch`.
  - `/function|def /g`: the first alternative is tried first.
  - `console\.log\([^)]*\);?\s*\n?`: `[^)]*` runs to the first `)`, and
    `\s*` leaves nothing for `\n?`.
  - A global `match` or `replace` scans left to right for non-overlapping
    matches.
- `groupSimilarIssues` is stated twice:
  - `Grouped` is the declarative definition: one merged issue per distinct
    key, in first-seen order.
  - `GroupSimilarIssues` is the two-pass `Map` algorithm. It is proved to
    compute `Grouped`.
- The merged issue takes its type, severity, category and message prefix
  from the first member of its group, in input order. Its line is the least
  line of the group.
- Grouping is not idempotent in general. A merged issue's message gains
  the suffix ` (lines 1 and 2)`, and that new message can equal the message
  of another group, so a second grouping merges the two
  (`RegroupingCanMerge`). Separately, the key `message + "-" + category`
  can be the same for different fields (`KeysCanCollide`). When all keys
  differ, grouping is the identity (`GroupedDistinctKeys`).
- A line's `length` is counted as JavaScript counts it, in UTF-16 code
  units: a character above U+FFFF counts twice (`Utf16Length`).
- The store's ids come from counters that start at 1. `Valid` states which
  ids are in use: exactly those below each counter, each record filed under
  its own id. The creators do not require it, because the source has no
  precondition; they preserve it.

## Model

| member | source | states |
|---|---|---|
| Schema.KindName | shared/schema.ts:30 | an issue type's wire name is one of "error", "warning", "suggestion", "optimization" |
| Schema.KindNameInjective | shared/schema.ts:30 | different issue types have different wire names |
| Schema.SeverityName | shared/schema.ts:31 | a severity's wire name is one of "high", "medium", "low" |
| Schema.SeverityNameInjective | shared/schema.ts:31 | different severities have different wire names |
| Schema.KindCountsAddUp | server/services/ai-analysis.ts:18-24 | the four per-type filter counts add up to the number of issues |
| Schema.Summarize | server/services/ai-analysis.ts:504-510 | `totalIssues` is the number of issues; each per-type count is the number of issues of that type; the four counts add up to the total |
| Schema.CountKindIsMultiplicity | server/services/ai-analysis.ts:506-509 | a per-type `filter(...).length` equals the number of times the type occurs among the issues' types |
| Schema.ValidRequest | shared/schema.ts:20-23 | an accepted request has non-empty code and one of the four languages javascript, typescript, python, java |
| Rules.RequestFamily | shared/schema.ts:20-23 | each accepted language belongs to one language-specific family, and it opens the gate of every rule of that family |
| Rules.RequestGatesIff | server/services/ai-analysis.ts:204-459 | for an accepted language, a rule's gate is open exactly when the rule is of that language's family or of no language |
| Rules.PenaltyOf | server/services/ai-analysis.ts:219-488 | every rule firing costs at least 2 points |
| Rules.KindOf | server/services/ai-analysis.ts:211-489 | every rule reported as an error is of high severity |
| Rules.SeverityOf | server/services/ai-analysis.ts:211-489 | a higher severity never costs fewer points: high severity costs 12 or more, medium 5 to 10, low at most 5 |
| Rules.MessageOf | server/services/ai-analysis.ts:211-489 | the message text of each rule, a lookup table with no contract of its own; `IssueOf` puts it into the reported issue |
| Rules.CategoryOf | server/services/ai-analysis.ts:211-489 | the `Error Handling` category is only reported with high severity, and `Java Conventions` only by Java rules |
| Rules.IssueOf | server/services/ai-analysis.ts:212-218 | the issue a firing reports carries the firing's line number |
| Rules.DigitRunEnd | server/services/ai-analysis.ts:435 | the end of the maximal run of digits from a position: everything before it is a digit and the character at it is not |
| Rules.NumberMatchEndsAtRunEnd | server/services/ai-analysis.ts:435 | a `\b\d{2,}\b` match that starts at a position ends exactly where the digit run ends |
| Rules.NoNumberMatchAt | server/services/ai-analysis.ts:435 | no `\b\d{2,}\b` match starts at a position whose run is shorter than two digits or not bounded by word boundaries |
| Rules.MagicNumberOnLine | server/services/ai-analysis.ts:435-438 | a flagged line holds a `\b\d{2,}\b` match other than 10, 100 and 1000 |
| Rules.FirstNumberFrom | server/services/ai-analysis.ts:435 | the leftmost `\b\d{2,}\b` match: it is a match and no match starts earlier; when there is none, no match exists anywhere |
| Rules.Lines | server/services/ai-analysis.ts:199 | `split('\n')` always yields at least one line |
| Rules.FiresOnLine | server/services/ai-analysis.ts:204-459 | no whole-source check (incomplete error handling, large functions) ever fires on a single line |
| Rules.CountFunctionKeywords | server/services/ai-analysis.ts:478 | each `/function\|def /g` match uses at least four characters, so the count is at most a quarter of the text length |
| Rules.FiresOnSource | server/services/ai-analysis.ts:462-489 | only the two whole-source checks fire on the whole snippet, and neither fires on empty code |
| Rules.LooseEqualityCondition | server/services/ai-analysis.ts:223 | the loose-equality test fires exactly when the line has `==` but neither `===` nor `!=`; the extra `!==` test is redundant |
| Rules.HitsOnLine | server/services/ai-analysis.ts:204-459 | each hit on a line names that line and a listed rule whose language gate is open |
| Rules.HitsOnLineIff | server/services/ai-analysis.ts:204-459 | a rule hits a line exactly when it is listed, its language gate is open and its trigger holds on the line |
| Text.Count | server/services/ai-analysis.ts:121-125 | the matches of a global scan do not overlap, so their number times the pattern length is at most the text length |
| Text.CountPositiveIffContains | server/services/ai-analysis.ts:121-125 | a global match finds at least one occurrence exactly when the pattern occurs (`includes`) |
| Text.ReplaceAll | server/services/ai-analysis.ts:519-523 | a global replace of a pattern by itself leaves the text unchanged |
| Text.ReplaceAllLength | server/services/ai-analysis.ts:519-523 | a global replace changes the length by the number of matches times the difference in length between the replacement and the pattern |
| Text.ReplaceAllKeepsSuffixAtFront | server/services/ai-analysis.ts:519-523 | if the replacement cannot recreate the pattern, a tail of the pattern at the front of the output was already at the front of the input |
| Text.ReplaceAllRemoves | server/services/ai-analysis.ts:519-523 | when the replacement cannot recreate the pattern, no occurrence is left after a global replace |
| Text.Split | server/services/ai-analysis.ts:199 | splitting yields at least one part |
| Text.SplitThenJoin | server/services/ai-analysis.ts:199 | joining the parts of `split(sep)` with `sep` gives back the string |
| Text.JoinThenSplit | server/services/ai-analysis.ts:199 | splitting a join of at least one separator-free part gives back the parts |
| Text.SplitPartsHaveNoSeparator | server/services/ai-analysis.ts:199 | no part contains the separator |
| Text.SplitCount | server/services/ai-analysis.ts:199 | the number of lines is the number of separators plus one |
| Text.SplitPrefix | server/services/ai-analysis.ts:199 | a separator-free prefix joins the first part of the rest |
| Text.SkipSpacesBack | server/services/ai-analysis.ts:206 | scanning back over trailing white space: everything passed over is white space and the character before the stop is not |
| Text.Trim | server/services/ai-analysis.ts:206 | the trimmed line sits in the line with only white space before and after it, and neither begins nor ends with white space |
| Text.TrimUnique | server/services/ai-analysis.ts:206 | any white-space-framed middle of a line that neither begins nor ends with white space is the trimmed line |
| Text.ReplaceAllAbsent | server/services/ai-analysis.ts:519-523 | a global replace that finds no match leaves the string unchanged |
| Text.FirstCharAbsent | server/services/ai-analysis.ts:519-523 | a string without the first character of a pattern does not contain the pattern |
| Text.NoMatchAcrossPair | server/services/ai-analysis.ts:519-523 | for a two-character pattern, no match straddles the boundary of a concatenation unless the left part ends with the first character and the right part starts with the second |
| Text.ReplaceAllSplit | server/services/ai-analysis.ts:519-523 | when no match straddles the boundary, a global replace of a concatenation is the concatenation of the replaces of the two parts |
| Text.SkipSpaces | server/services/ai-analysis.ts:111-116 | `\s*` taken greedily: everything skipped is white space and the next character is not |
| Text.ToLower | server/services/ai-analysis.ts:463 | lower-casing keeps the length, maps each ASCII upper-case letter to its lower-case letter and keeps every other character |
| Text.Utf16Length | server/services/ai-analysis.ts:423 | a line's `length` counts one unit per character and a second for each character above U+FFFF |
| Text.Utf16LengthIsCountIff | server/services/ai-analysis.ts:423 | `length` equals the number of characters exactly when no character lies above U+FFFF |
| Text.Utf16LengthAppend | server/services/ai-analysis.ts:423 | the `length` of a concatenation is the sum of the lengths |
| Text.NatToString | server/services/ai-analysis.ts:54-58 | a number's decimal form is non-empty digits with no leading zero |
| Text.ParseNatToString | server/services/ai-analysis.ts:54-58 | reading a number's decimal form back gives the number |
| Text.NatToStringInjective | server/services/ai-analysis.ts:54-58 | different line numbers print differently |
| Sorting.Insert | server/storage.ts:72 | inserting into a key-sorted sequence keeps it sorted, adds exactly the element and grows the length by one |
| Sorting.SortBy | server/storage.ts:72 | the sort's result ascends by key and is a permutation of the input |
| Sorting.SortByKeepsElements | server/storage.ts:72 | every element of the sorted result is an input element |
| Sorting.SortByLosesNothing | server/storage.ts:72 | every input element is in the sorted result |
| Sorting.SortedFirstIsLeast | server/services/ai-analysis.ts:50 | the first sorted element is an input element with the least key |
| Sorting.SortedPrefixIsLeast | server/storage.ts:71-73 | any prefix of the sorted result holds the least keys: whatever it leaves out has a key no lower than anything it keeps |
| Sorting.WithKey | server/storage.ts:72 | the elements with a given key, in order: never longer than the input, all with that key |
| Sorting.InsertWithKey | server/storage.ts:72 | inserting into a sorted sequence puts the element in front of every element with its key and keeps the order of each key's elements |
| Sorting.SortByIsStable | server/storage.ts:72 | the sort is stable: for every key, the elements with that key keep their input order |
| Sorting.WithKeyOfPrefix | server/storage.ts:73 | the elements with a key in a prefix are a prefix of the elements with that key in the whole |
| Sorting.FirstBy | server/storage.ts:71-73 | sort then `slice(0, n)`: `min(n, length)` elements, ascending by key, each input element used at most as often as it occurs |
| Sorting.FirstByIsStable | server/storage.ts:71-73 | among the kept elements, those with equal keys come in input order and are the first ones of that key |
| Sorting.FirstByIsLeast | server/storage.ts:71-73 | whatever the slice leaves out has a key no lower than anything it keeps |
| Rewriter.IndexOf | server/services/ai-analysis.ts:522 | `[^)]*` stops at the first `)`: the index holds `)` and nothing between holds one; when there is none, no `)` follows |
| Rewriter.ConsoleLogEnd | server/services/ai-analysis.ts:522 | a match exists at the front exactly when the text starts with `console.log(` and a `)` follows; it runs through the first `)`, takes a `;` right after it if there is one, then all the white space that follows and no more |
| Rewriter.ReplaceVar | server/services/ai-analysis.ts:519 | after the first step no `var ` is left, and each match lengthens the text by two characters |
| Rewriter.EarlyStepsKeep | server/services/ai-analysis.ts:519-521 | text with no `var `, `==` or `!=` passes the first three steps unchanged |
| Rewriter.PlainCharKept | server/services/ai-analysis.ts:522 | a character other than `c` cannot begin a match, so step 4 keeps it |
| Rewriter.CallDeleted | server/services/ai-analysis.ts:522 | a call `console.log(a);` whose argument text has no `)`, followed by no white space, is deleted and nothing else |
| Rewriter.RejoinedVarSurvives | server/services/ai-analysis.ts:519-523 | the full rewrite can output a `var `: deleting a call joins `va` and `r x` after step 1 has already run |
| Rewriter.ReplaceLooseEquality | server/services/ai-analysis.ts:520 | the second step adds one character per `==` its scan matches |
| Rewriter.ReplaceLooseInequality | server/services/ai-analysis.ts:521 | the third step adds one character per `!=` its scan matches, and leaves text without `!=` unchanged |
| Rewriter.ReplaceAllKeepsFirst | server/services/ai-analysis.ts:519-523 | a global replace keeps the first character when no match can start there or the replacement starts with the same character |
| Rewriter.StrictEqualityAtFront | server/services/ai-analysis.ts:520 | a `===` at the front of the text comes out of the second step as `====` |
| Rewriter.StrictEqualityBecomesFourEquals | server/services/ai-analysis.ts:520 | anywhere in the text, a `===` not preceded by `=` comes out of the second step as `====`, right after the rewritten text before it |
| Rewriter.StrictInequalityAtFront | server/services/ai-analysis.ts:520-521 | a `!==` at the front of the text comes out of the second and third steps as `!====` |
| Rewriter.StrictInequalityBecomesFiveCharacters | server/services/ai-analysis.ts:520-521 | anywhere in the text, whatever precedes it, a `!==` comes out of the second and third steps as `!====`, right after the rewritten text before it |
| Rewriter.SpaceAfterFunction | server/services/ai-analysis.ts:523 | after the fifth step no `function(` is left, and each match adds one character |
| Rewriter.OptimizeJavaScript | server/services/ai-analysis.ts:515-526 | the optimized code contains no `function(` |
| Rewriter.RemoveConsoleLogs | server/services/ai-analysis.ts:522 | removing `console.log` calls never lengthens the code, code that opens with a matching call gets strictly shorter, and code without `console.log(` is unchanged |
| BasicAnalysis.ScanLines | server/services/ai-analysis.ts:204-459 | every hit of the per-line scan names a line of the scanned part of the snippet |
| BasicAnalysis.ScanLinesSound | server/services/ai-analysis.ts:204-459 | every hit of the per-line scan is a hit of the very line it names |
| BasicAnalysis.ScanLinesOrdered | server/services/ai-analysis.ts:204-205 | the per-line scan reports hits in ascending line order |
| BasicAnalysis.ScanLinesComplete | server/services/ai-analysis.ts:204-459 | every hit of a scanned line is in the scan |
| BasicAnalysis.WholeSourceHits | server/services/ai-analysis.ts:462-489 | the whole-source checks report on line 0 and only whole-source rules |
| BasicAnalysis.WholeSourceHitIff | server/services/ai-analysis.ts:466-489 | a whole-source check is reported on line 0 exactly when it triggers on the snippet |
| BasicAnalysis.TotalPenalty | server/services/ai-analysis.ts:201-489 | the total penalty is at least 2 points per hit |
| BasicAnalysis.TotalPenaltyAppend | server/services/ai-analysis.ts:201-489 | penalties add up over concatenation |
| BasicAnalysis.Score | server/services/ai-analysis.ts:201-492 | the score lies in 0..85 and is 85 exactly when nothing fired |
| BasicAnalysis.ScoreNeverIncreases | server/services/ai-analysis.ts:201-492 | more hits never raise the score, and lower a positive score |
| BasicAnalysis.IssuesOf | server/services/ai-analysis.ts:212-218 | one issue per hit, in order, each describing its hit |
| BasicAnalysis.Assemble | server/services/ai-analysis.ts:491-511 | the score lies in 0..85 and is 85 exactly when there are no issues; optimized code is present exactly for a JavaScript-family language with issues, and is then the rewriter's output; issues keep the hits' lines; the issues are exactly one issue per hit in order, and the score is 85 less the penalties, floored at 0 |
| BasicAnalysis.CreateBasicAnalysis | server/services/ai-analysis.ts:198-512 | the basic result: the issues are those of the basic hit list in order and the score is its penalised score, so every fact about `BasicHits` is a fact about the result; also the score bounds and full-score iff, the optimized-code iff, the summary total, and every issue on line 0 or a line of the snippet |
| BasicAnalysis.BasicHits | server/services/ai-analysis.ts:201-489 | the hits of the per-line checks line by line, then those of the whole-source checks; line 0 holds only whole-source checks |
| BasicAnalysis.BasicHitLinesBounded | server/services/ai-analysis.ts:204-489 | no hit names a line past the end of the snippet |
| BasicAnalysis.BasicHitsWellPlaced | server/services/ai-analysis.ts:204-489 | every hit passed its language gate; whole-source hits are on line 0 and all others on a line of the snippet |
| BasicAnalysis.LineRulesArePerLine | server/services/ai-analysis.ts:204-460 | the per-line rules are exactly the rules that are not whole-source checks |
| BasicAnalysis.ReportedOnLineIff | server/services/ai-analysis.ts:204-460 | a rule's hit on line n is reported exactly when it is among the hits of line n |
| BasicAnalysis.ScanHitIffLineHit | server/services/ai-analysis.ts:204-460 | the scan of all lines holds a rule's hit on line n exactly when line n's checks produce it |
| BasicAnalysis.LineRuleHitIff | server/services/ai-analysis.ts:204-460 | a per-line rule is reported on line n exactly when its language gate is open and it triggers on the n-th line |
| BasicAnalysis.LooseEqualityReportedIff | server/services/ai-analysis.ts:209-232 | the loose-equality warning is on line n exactly when the language is JavaScript or TypeScript and the line has `==` but neither `===` nor `!=` |
| BasicAnalysis.ValidRequestHitsItsFamily | server/services/ai-analysis.ts:204-489 | for an accepted request, every rule that fires is of the request language's family or of no language |
| BasicAnalysis.NoJsRulesOutsideJs | server/services/ai-analysis.ts:209 | Python and Java code never gets a JavaScript-only issue |
| BasicAnalysis.AscendingAfterLine | server/services/ai-analysis.ts:204-205 | hits of one line followed by ascending hits of later lines ascend |
| Insights.KeywordsParenAt | server/services/ai-analysis.ts:111-116 | a `keyword\s*(` match ends after it starts and within the text |
| Insights.PatternMatch | server/services/ai-analysis.ts:111-116 | a match of `kw1\s*kw2\s*...\s*\(` is non-empty, lies in the text and ends with `(` |
| Insights.KeywordsParenAtIff | server/services/ai-analysis.ts:111-116 | the greedy matcher finds exactly the matches of the regular expression `kw1\s*kw2\s*...\s*\(` |
| Insights.CountKeywordsParen | server/services/ai-analysis.ts:121-125 | a pattern's global match count never exceeds the number of characters scanned |
| Insights.CountKeywordsParenZeroIff | server/services/ai-analysis.ts:121-125 | a pattern's match count is 0 exactly when it matches nowhere |
| Insights.PatternCountsZero | server/services/ai-analysis.ts:120-126 | when no keyword pattern matches anywhere, their counts add up to 0 |
| Insights.PatternCountsAtLeast | server/services/ai-analysis.ts:120-126 | each pattern's count is part of the total |
| Insights.Complexity | server/services/ai-analysis.ts:109-130 | the complexity is at least 1 |
| Insights.ComplexityOfStraightLineCode | server/services/ai-analysis.ts:109-130 | code with no branch keyword before `(` and no `&&` or `\|\|` has complexity exactly 1 |
| Insights.BranchRaisesComplexity | server/services/ai-analysis.ts:109-130 | any branch-keyword match raises the complexity above 1 |
| Insights.NothingCounted | server/services/ai-analysis.ts:120-126 | no keyword match and no logical operator make every counted term 0 |
| Insights.HasDocumentation | server/services/ai-analysis.ts:132-143 | a language outside the four accepted ones never counts as documented; for every one but Python it is exactly the presence of `/**` or `//`, and for Python exactly the presence of `"""` or `#` |
| Insights.PerfIssueInjective | server/services/ai-analysis.ts:153-185 | a performance issue names the check and the line that produced it |
| Insights.PerfMessagesDistinct | server/services/ai-analysis.ts:165-185 | the two medium-severity performance checks have different messages |
| Insights.PerfFires | server/services/ai-analysis.ts:152-185 | a performance check fires only for JavaScript, TypeScript or Python |
| Insights.LineHints | server/services/ai-analysis.ts:148-188 | every hint of a line is a Performance optimization on that line |
| Insights.LineHintsIff | server/services/ai-analysis.ts:148-188 | a check's hint is among a line's hints exactly when the check is listed and fires on the line |
| Insights.HeadHintIff | server/services/ai-analysis.ts:148-188 | one check's optional hint is a given check's hint exactly when it fires and the checks are the same |
| Insights.LineHintsNone | server/services/ai-analysis.ts:148-188 | a line on which no check fires has no hints |
| Insights.LinePerformanceIssues | server/services/ai-analysis.ts:148-188 | every hint of a line is a Performance optimization on that line |
| Insights.PerformanceIssuesFrom | server/services/ai-analysis.ts:145-191 | every hint of the scan is a Performance optimization on a scanned line |
| Insights.PerformanceIssuesComplete | server/services/ai-analysis.ts:145-191 | every hint of a scanned line is in the scan |
| Insights.PerformanceIssuesSound | server/services/ai-analysis.ts:145-191 | every hint of the scan is a hint of the line it names |
| Insights.FindPerformanceIssues | server/services/ai-analysis.ts:145-191 | every performance issue is a Performance optimization on a line of the snippet |
| Insights.PerfReportedIff | server/services/ai-analysis.ts:145-191 | a check's hint is reported on line n exactly when the check fires on the n-th line |
| Insights.PerfReportedOnLineIff | server/services/ai-analysis.ts:145-191 | the same, over the split lines |
| Insights.PerfNotReported | server/services/ai-analysis.ts:145-191 | a hint missing from its line's hints is not reported |
| Insights.NoPerformanceHintsElsewhere | server/services/ai-analysis.ts:152-178 | code in a language other than JavaScript, TypeScript or Python gets no performance hints |
| Insights.ComplexityHints | server/services/ai-analysis.ts:78-88 | the complexity hint is an optimization on line 0 |
| Insights.DocumentationHints | server/services/ai-analysis.ts:90-100 | the documentation hint is a suggestion on line 0 |
| Insights.GenerateAdvancedInsights | server/services/ai-analysis.ts:74-107 | every insight is an optimization or a suggestion on line 0 or a line of the snippet |
| Insights.InsightsIff | server/services/ai-analysis.ts:78-99 | the complexity hint is given exactly when the complexity exceeds 10, and the documentation hint exactly when the language's comment markers are missing; every performance hint is among the insights, and every insight other than those two hints is a performance hint |
| Grouping.Key | server/services/ai-analysis.ts:35 | the key is one character longer than message and category together, with the dash right after the message |
| Grouping.KeyDeterminesParts | server/services/ai-analysis.ts:35 | when neither category contains a dash, two issues share a key exactly when they share message and category |
| Grouping.KeysUpTo | server/services/ai-analysis.ts:32-41 | there are no more distinct keys than issues |
| Grouping.KeysDistinct | server/services/ai-analysis.ts:32-41 | no key is listed twice |
| Grouping.MembersUpTo | server/services/ai-analysis.ts:32-41 | a group has no more members than there are issues |
| Grouping.MembersNonEmptyIff | server/services/ai-analysis.ts:32-41 | a key has members exactly when it is listed |
| Grouping.KeysOfPrefix | server/services/ai-analysis.ts:32-41 | a key keeps its place as more issues are seen (first-seen order) |
| Grouping.KeysCover | server/services/ai-analysis.ts:34-40 | every issue's key is listed |
| Grouping.MembersSound | server/services/ai-analysis.ts:34-40 | every group member is an input issue with the group's key |
| Grouping.MembersComplete | server/services/ai-analysis.ts:34-40 | every input issue is in the group of its key |
| Grouping.NoMembers | server/services/ai-analysis.ts:34-40 | a key no issue carries has no members |
| Grouping.OnlyMember | server/services/ai-analysis.ts:34-40 | a key carried by one issue only has that issue as its only member |
| Grouping.FirstMemberIsFirstSeen | server/services/ai-analysis.ts:34-40 | a group's first member is the first input issue with its key |
| Grouping.GroupSizesStep | server/services/ai-analysis.ts:34-40 | one more issue grows exactly the group of its key |
| Grouping.GroupSizesOfCover | server/services/ai-analysis.ts:34-40 | the groups of any distinct covering key list add up to the number of issues |
| Grouping.GroupSizesOfNothing | server/services/ai-analysis.ts:34-40 | no issues, no group members |
| Grouping.GroupSizesAddUp | server/services/ai-analysis.ts:32-41 | the groups partition the input: their sizes add up to the number of issues |
| Grouping.LinesOf | server/services/ai-analysis.ts:50 | the group's line numbers, member by member |
| Grouping.Decimals | server/services/ai-analysis.ts:55-57 | each line number written in decimal, in order |
| Grouping.SortedLines | server/services/ai-analysis.ts:50 | the group's line numbers rearranged into ascending order |
| Grouping.LineInfo | server/services/ai-analysis.ts:52-60 | the suffix is a space and a parenthesised note, and it lists lines exactly when the group has at most five members |
| Grouping.Merge | server/services/ai-analysis.ts:47-66 | a single member passes through unchanged; a merged issue has the first member's type, severity and category, and its message starts with the first member's message |
| Grouping.MergeLine | server/services/ai-analysis.ts:50-64 | a merged issue carries the least line of its group, which is one of the members' lines |
| Grouping.MergeTwo | server/services/ai-analysis.ts:54-55 | two members: the message gets " (lines a and b)" with the smaller line first |
| Grouping.MergeFew | server/services/ai-analysis.ts:56-57 | three to five members: the message gets " (lines ...)" listing the lines in ascending order, comma-separated |
| Grouping.MergeMany | server/services/ai-analysis.ts:58-59 | six or more members: the message gets " (N occurrences)" |
| Grouping.LeastOfAscending | server/services/ai-analysis.ts:50-64 | the head of an ascending rearrangement is one of the numbers and no greater than any |
| Grouping.TwoAscending | server/services/ai-analysis.ts:54-55 | two numbers in ascending order are their minimum and maximum |
| Grouping.MembersOfKeys | server/services/ai-analysis.ts:44-68 | every listed key's group is non-empty |
| Grouping.Grouped | server/services/ai-analysis.ts:30-71 | one merged issue per distinct key, in first-seen order, each merging that key's non-empty group |
| Grouping.GroupedFields | server/services/ai-analysis.ts:47-66 | a grouped issue takes type, severity, category and message prefix from the first input issue with its key, and its line is no greater than any of their lines |
| Grouping.GroupedLinesFromInput | server/services/ai-analysis.ts:30-71 | grouping never invents a line number |
| Grouping.GroupedLinesBounded | server/services/ai-analysis.ts:30-71 | a bound on the input's line numbers bounds the grouped ones |
| Grouping.GroupedEmptyIff | server/services/ai-analysis.ts:30-71 | grouping yields nothing exactly when there is nothing to group |
| Grouping.GroupedDistinctKeys | server/services/ai-analysis.ts:30-71 | when no two issues share a key, grouping returns the input unchanged |
| Grouping.KeysAreInputKeys | server/services/ai-analysis.ts:32-41 | with distinct keys the key list is the input's key list |
| Grouping.KeysCanCollide | server/services/ai-analysis.ts:35 | two issues with different messages and categories can share a key and be merged |
| Grouping.RegroupWitnessGroups | server/services/ai-analysis.ts:32-41 | three issues `m`@1, `m`@2 and `m (lines 1 and 2)`@3 of one category form two groups: the first two, and the third |
| Grouping.RegroupWitnessMerge | server/services/ai-analysis.ts:54-55 | merging `m`@1 and `m`@2 gives the message `m (lines 1 and 2)` in the same category |
| Grouping.RegroupFirstPass | server/services/ai-analysis.ts:30-71 | grouping those three issues yields two issues that share a key |
| Grouping.SharedKeyOfTwo | server/services/ai-analysis.ts:30-71 | two issues with one key group into one |
| Grouping.RegroupingCanMerge | server/services/ai-analysis.ts:30-71 | grouping is not idempotent: those three issues group into two, and grouping again gives one |
| Grouping.CollectStep | server/services/ai-analysis.ts:34-40 | one step of the first pass keeps the map equal to the groups of the issues seen so far |
| Grouping.CollectGroups | server/services/ai-analysis.ts:32-41 | the first pass lists the distinct keys in first-seen order and maps each to its group |
| Grouping.MergeGroups | server/services/ai-analysis.ts:44-68 | the second pass merges every key's group, in key order |
| Grouping.GroupSimilarIssues | server/services/ai-analysis.ts:30-71 | the two-pass `Map` algorithm computes exactly the declarative grouping |
| Analyzer.AnalyzeCode | server/services/ai-analysis.ts:7-27 | the issues are the grouping of the basic issues followed by the advanced insights; score and optimized code come from the basic pass; the summary's total is the number of grouped issues, each per-type count is the number of grouped issues of that type, and grouping never adds issues |
| Analyzer.LostPointsAreReported | server/services/ai-analysis.ts:7-27 | a score below 85 always comes with at least one reported issue |
| Analyzer.ReportedLinesInRange | server/services/ai-analysis.ts:7-27 | every reported issue, grouped or not, is on line 0 or a line of the snippet |
| Analyzer.GroupedLinesBounded | server/services/ai-analysis.ts:12-15 | grouping two lists whose lines are bounded keeps the bound |
| Storage.Init | server/storage.ts:22-27 | the new store is empty and satisfies the id invariant |
| Storage.GetUser | server/storage.ts:29-31 | a user is found exactly when its id is in use, and is the stored record |
| Storage.FindUser | server/storage.ts:33-37 | the first user at or after an id with the name, in insertion order; none means no such user there |
| Storage.GetUserByUsername | server/storage.ts:33-37 | the earliest created user with that name; absent exactly when no user has it |
| Storage.CreateUser | server/storage.ts:39-44 | the user is filed under the next user id, that counter advances, analyses are untouched, and the id invariant is kept with a fresh id |
| Storage.StoredCode | server/storage.ts:58 | `optimizedCode \|\| null`: absent or empty becomes null, anything else is kept |
| Storage.CreateCodeAnalysis | server/storage.ts:46-63 | the record carries the caller's fields, the stored rewrite and the time, and is filed under the next analysis id; that counter advances, users are untouched, and the invariant is kept with a fresh id |
| Storage.GetCodeAnalysis | server/storage.ts:65-67 | an analysis is found exactly when its id is in use, and is the stored record |
| Storage.GetAfterCreate | server/storage.ts:46-67 | a record just created reads back; every other id and every user reads as before |
| Storage.NeverAssignedIsAbsent | server/storage.ts:51-67 | id 0 and ids the counter has not reached read as absent |
| Storage.CreateAll | server/storage.ts:46-63 | a run of creations keeps the invariant and advances the counter once per call |
| Storage.NthCreateGetsIdN | server/storage.ts:46-63 | the k-th creation files its data, stamped with its time, under the k-th id from the counter on, and it stays there |
| Storage.LaterCreatesKeep | server/storage.ts:46-63 | later creations leave an existing record alone |
| Storage.InOrder | server/storage.ts:70 | the stored analyses in insertion order, which is ascending id |
| Storage.RecencyKey | server/storage.ts:72 | `createdAt?.getTime() \|\| 0`: the key is 0 exactly when there is no time or the time is 0, and otherwise is the time |
| Storage.GetRecentAnalyses | server/storage.ts:69-74 | at most `limit` (default 10) stored analyses, newest first, each stored analysis at most once |
| Storage.RecentTiesKeepInsertionOrder | server/storage.ts:69-74 | analyses created at the same time come out in insertion order, and they are the first ones of that time |
| Storage.RecentAreNewest | server/storage.ts:69-74 | every analysis the limit cuts off is no newer than every analysis returned |

## Left out

- HTTP routes, request parsing and error responses (`server/routes.ts`) are
  not part of this model. The request predicate they apply is modelled as
  `Schema.ValidRequest`.
- The client and its components are not modelled. They only display
  results.
- The unused Hugging Face API constants (server/services/ai-analysis.ts:3-5)
  are not modelled. No code path reads them.
- `async` and `Promise` are not modelled: every operation completes
  synchronously and cannot fail.
- The clock is not modelled. `new Date()` becomes the `now` parameter of
  `createCodeAnalysis`, and `getTime()` is that number of milliseconds.
- JavaScript numbers are doubles. The model uses unbounded integers, so id
  counters beyond 2^53 and line counts beyond 2^53 are not modelled.
- `Text.ToLower` lowers only ASCII letters. `toLowerCase` also maps
  non-ASCII letters, which the rules never look for.
- Text.Utf16Length: a Dafny `char` is a Unicode scalar value, so a string
  holding a lone UTF-16 surrogate, which JavaScript allows, cannot be
  written down in the model.
- Rules.MessageOf: no property of the message texts is stated. They are
  copied from the source and reach the issues only through `IssueOf`.
- `\b`, `\d` and `[A-Z]` are ASCII classes in JavaScript too. `\s` and
  `trim()` use the full JavaScript white-space set.
- Storage.CreateUser: the source copies any object and adds an id. The
  model fixes the user record to a username and a password.
- Storage.GetRecentAnalyses: the limit is a natural number. A negative or
  fractional limit passed to `slice` is not modelled.
- `generateOptimizedJavaScript` takes the issue list but never reads it.
  The model's `OptimizeJavaScript` takes only the code.
- Rewriter.ReplaceVar: the contract covers only the first step.
  The whole rewrite can still output `var `, because step 4 deletes text
  and joins what surrounds it (`RejoinedVarSurvives`).
