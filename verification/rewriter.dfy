/** The optimized-code rewriter for JavaScript and TypeScript: five global
    textual substitutions applied in a fixed order, each to the output of
    the previous one. */
module Rewriter {
  import opened Wrappers
  import opened Text

  /** Step 1: `var ` becomes `const `. No `var ` is left, since `const `
      contains no `v` and cannot finish a `var ` begun before it; each match
      lengthens the text by two characters. */
  function ReplaceVar(s: string): (r: string)
    ensures !Contains(r, "var ")
    ensures |r| == |s| + 2 * Count(s, "var ")
  {
    DifferAt("const ", "var ", 0);
    NoOverlapInside("var ", "const ");
    ReplaceAllRemoves(s, "var ", "const ");
    ReplaceAllLength(s, "var ", "const ");
    ReplaceAll(s, "var ", "const ")
  }

  /** Step 2: `==` becomes `===`, including the `==` inside an existing
      `===` or `!==`; each match the scan finds adds one character. */
  function ReplaceLooseEquality(s: string): (r: string)
    ensures |r| == |s| + Count(s, "==")
  {
    ReplaceAllLength(s, "==", "===");
    ReplaceAll(s, "==", "===")
  }

  /** Step 3: `!=` becomes `!==`; each match the scan finds adds one
      character, and text without `!=` passes unchanged. */
  function ReplaceLooseInequality(s: string): (r: string)
    ensures |r| == |s| + Count(s, "!=")
    ensures !Contains(s, "!=") ==> r == s
  {
    ReplaceAllLength(s, "!=", "!==");
    assert !Contains(s, "!=") ==> ReplaceAll(s, "!=", "!==") == s by {
      if !Contains(s, "!=") {
        ReplaceAllAbsent(s, "!=", "!==");
      }
    }
    ReplaceAll(s, "!=", "!==")
  }

  /** Step 5: `function(` becomes `function (`, after which no `function(`
      is left: the space stops the replacement from forming a new one. */
  function SpaceAfterFunction(s: string): (r: string)
    ensures !Contains(r, "function(")
    ensures |r| == |s| + Count(s, "function(")
  {
    DifferAt("function (", "function(", 8);
    NoOverlapInside("function(", "function (");
    ReplaceAllRemoves(s, "function(", "function (");
    ReplaceAllLength(s, "function(", "function (");
    ReplaceAll(s, "function(", "function (")
  }

  /** The first index at or after `from` holding `c`. */
  function IndexOf(s: string, c: char, from: nat): (r: Option<nat>)
    requires from <= |s|
    ensures r.Some? ==> from <= r.value < |s| && s[r.value] == c
    ensures r.Some? ==> forall k | from <= k < r.value :: s[k] != c
    ensures r.None? ==> forall k | from <= k < |s| :: s[k] != c
    decreases |s| - from
  {
    if from == |s| then None
    else if s[from] == c then Some(from)
    else IndexOf(s, c, from + 1)
  }

  /** End of a match of `/console\.log\([^)]*\);?\s*\n?/` at the front of
      `s`: `[^)]*` runs to the first `)`, which must exist; then an optional
      `;`; then `\s*` takes all following white space, which leaves nothing
      for `\n?`. */
  function ConsoleLogEnd(s: string): (r: Option<nat>)
    ensures r.Some? ==> |"console.log("| < r.value <= |s|
    ensures r.Some? <==> StartsWith(s, "console.log(") && IndexOf(s, ')', |"console.log("|).Some?
    ensures r.Some? ==>
              var close := IndexOf(s, ')', |"console.log("|).value;
              && close < r.value
              && (close + 1 < |s| && s[close + 1] == ';' ==> close + 2 <= r.value)
              && (close + 1 < r.value ==> s[close + 1] == ';' || IsSpace(s[close + 1]))
              && (forall k | close + 1 < k < r.value :: IsSpace(s[k]))
              && (r.value == |s| || !IsSpace(s[r.value]))
  {
    if !StartsWith(s, "console.log(") then None
    else
      match IndexOf(s, ')', |"console.log("|)
      case None => None
      case Some(k) =>
        var afterSemicolon := if k + 1 < |s| && s[k + 1] == ';' then k + 2 else k + 1;
        Some(SkipSpaces(s, afterSemicolon))
  }

  /** Step 4: every `console.log(...)` call found by a left-to-right scan is
      deleted together with an optional `;` and the white space after it.
      It only deletes: the text never grows, a text that opens with a call
      shrinks, and text without a `console.log(` passes through unchanged. */
  function RemoveConsoleLogs(s: string): (r: string)
    ensures |r| <= |s|
    ensures !Contains(s, "console.log(") ==> r == s
    ensures ConsoleLogEnd(s).Some? ==> |r| < |s|
    decreases |s|
  {
    if |s| == 0 then s
    else
      ContainsFrontOrTail(s, "console.log(");
      match ConsoleLogEnd(s)
      case Some(e) => RemoveConsoleLogs(s[e..])
      case None =>
        assert s == [s[0]] + s[1..];
        [s[0]] + RemoveConsoleLogs(s[1..])
  }

  /** `generateOptimizedJavaScript`: the five steps in order. The last step
      leaves no `function(` in the result. */
  function OptimizeJavaScript(code: string): (r: string)
    ensures !Contains(r, "function(")
  {
    SpaceAfterFunction(RemoveConsoleLogs(ReplaceLooseInequality(ReplaceLooseEquality(ReplaceVar(code)))))
  }

  // ------------------------------------------------------------ properties

  /** A global replacement keeps the first character when either no match
      can start there or the replacement starts with that same character. */
  lemma ReplaceAllKeepsFirst(s: string, p: string, r: string)
    requires p != "" && |s| > 0
    requires s[0] != p[0] || (|r| > 0 && r[0] == s[0])
    ensures |ReplaceAll(s, p, r)| > 0 && ReplaceAll(s, p, r)[0] == s[0]
  {
    if |s| >= |p| {
      assert s[0..|p|][0] == s[0];
    }
  }

  /** A first character that cannot begin a match is copied, and the
      replacement carries on after it. */
  lemma KeepsUnmatchedFront(c: char, u: string, p: string, r: string)
    requires p != "" && c != p[0]
    ensures ReplaceAll([c] + u, p, r) == [c] + ReplaceAll(u, p, r)
  {
    var s := [c] + u;
    assert s[1..] == u;
    if |s| >= |p| {
      assert s[0..|p|][0] == c;
    }
  }

  /** A `===` at the front of the text comes out of step 2 as `====`. */
  lemma StrictEqualityAtFront(t: string)
    ensures StartsWith(ReplaceLooseEquality("===" + t), "====")
  {
    var s := "===" + t;
    assert s[0..2] == "==";
    assert s[2..] == "=" + t;
    ReplaceAllKeepsFirst("=" + t, "==", "===");
    var out := ReplaceLooseEquality(s);
    assert out == "===" + ReplaceLooseEquality("=" + t);
    assert out[0..4] == "====";
  }

  /** Step 2 does not skip an existing strict equality: a `===` that does
      not follow another `=` comes out as `====`, right after the rewritten
      text before it. */
  lemma StrictEqualityBecomesFourEquals(p: string, t: string)
    requires p == [] || p[|p| - 1] != '='
    ensures OccursAt(ReplaceLooseEquality(p + "===" + t), "====", |ReplaceLooseEquality(p)|)
  {
    var b := "===" + t;
    assert p + "===" + t == p + b;
    NoMatchAcrossPair(p, b, "==");
    ReplaceAllSplit(p, b, "==", "===");
    StrictEqualityAtFront(t);
    OccursAfter(ReplaceLooseEquality(p), ReplaceLooseEquality(b), "====");
  }

  /** A `!==` at the front of the text comes out of steps 2 and 3 as
      `!====`. */
  lemma StrictInequalityAtFront(t: string)
    ensures StartsWith(ReplaceLooseInequality(ReplaceLooseEquality("!==" + t)), "!====")
  {
    var x := ReplaceLooseEquality(t);
    NotEqualsAtFrontStep2(t);
    NotEqualsAtFrontStep3(x);
  }

  /** Step 2 on a leading `!==`: the `==` in it gains a third `=`. */
  lemma NotEqualsAtFrontStep2(t: string)
    ensures ReplaceLooseEquality("!==" + t) == "!===" + ReplaceLooseEquality(t)
  {
    var s := "!==" + t;
    assert s[0..2][0] == '!';
    assert s[1..] == "==" + t;
    assert ("==" + t)[0..2] == "==";
    assert ("==" + t)[2..] == t;
    assert ReplaceLooseEquality("==" + t) == "===" + ReplaceLooseEquality(t);
    assert ReplaceLooseEquality(s) == ['!'] + ReplaceLooseEquality(s[1..]);
  }

  /** Step 3 on a leading `!===`: the `!=` becomes `!==`, followed by the
      remaining `==`. */
  lemma NotEqualsAtFrontStep3(x: string)
    ensures StartsWith(ReplaceLooseInequality("!===" + x), "!====")
  {
    var tail := ['='] + (['='] + x);
    KeepsUnmatchedFront('=', x, "!=", "!==");
    KeepsUnmatchedFront('=', ['='] + x, "!=", "!==");
    var s := "!=" + tail;
    assert s == "!===" + x;
    assert s[0..2] == "!=" && s[2..] == tail;
    var out := ReplaceLooseInequality(s);
    assert out == "!==" + (['='] + (['='] + ReplaceLooseInequality(x)));
    assert out[0..5] == "!====";
  }

  /** Steps 2 and 3 together turn every `!==` into `!====`, right after the
      rewritten text before it, whatever that text ends with. */
  lemma StrictInequalityBecomesFiveCharacters(p: string, t: string)
    ensures OccursAt(ReplaceLooseInequality(ReplaceLooseEquality(p + "!==" + t)), "!====",
                     |ReplaceLooseInequality(ReplaceLooseEquality(p))|)
  {
    var b := "!==" + t;
    assert p + "!==" + t == p + b;
    assert b[0] == '!';
    NoMatchAcrossPair(p, b, "==");
    ReplaceAllSplit(p, b, "==", "===");
    var a2 := ReplaceLooseEquality(p);
    var b2 := ReplaceLooseEquality(b);
    ReplaceAllKeepsFirst(b, "==", "===");
    NoMatchAcrossPair(a2, b2, "!=");
    ReplaceAllSplit(a2, b2, "!=", "!==");
    StrictInequalityAtFront(t);
    OccursAfter(ReplaceLooseInequality(a2), ReplaceLooseInequality(b2), "!====");
  }

  // ------------------------------------------------ a `var ` step 1 never saw

  /** Text with no `var `, `==` or `!=` passes steps 1 to 3 unchanged. */
  lemma EarlyStepsKeep(s: string)
    requires !Contains(s, "var ") && !Contains(s, "==") && !Contains(s, "!=")
    ensures ReplaceLooseInequality(ReplaceLooseEquality(ReplaceVar(s))) == s
  {
    ReplaceAllAbsent(s, "var ", "const ");
    ReplaceAllAbsent(s, "==", "===");
    ReplaceAllAbsent(s, "!=", "!==");
  }

  /** A character other than `c` cannot begin a call, so step 4 keeps it. */
  lemma PlainCharKept(c: char, t: string)
    requires c != 'c'
    ensures RemoveConsoleLogs([c] + t) == [c] + RemoveConsoleLogs(t)
  {
    var s := [c] + t;
    assert s[0] != "console.log("[0];
    assert ConsoleLogEnd(s).None?;
    assert s[1..] == t;
  }

  /** A call `console.log(a);` whose argument text holds no `)` is
      deleted, with its `;`, when no white space follows it. */
  lemma CallDeleted(a: string, t: string)
    requires ')' !in a
    requires t == [] || !IsSpace(t[0])
    ensures RemoveConsoleLogs("console.log(" + a + ");" + t) == RemoveConsoleLogs(t)
  {
    var s := "console.log(" + a + ");" + t;
    CallEnd(a, t);
    assert s[|"console.log("| + |a| + 2..] == t;
  }

  /** The match of a call `console.log(a);` with no white space after it
      ends right after its `;`. */
  lemma CallEnd(a: string, t: string)
    requires ')' !in a
    requires t == [] || !IsSpace(t[0])
    ensures ConsoleLogEnd("console.log(" + a + ");" + t) == Some(|"console.log("| + |a| + 2)
  {
    var s := "console.log(" + a + ");" + t;
    var n := |"console.log("| + |a|;
    assert s[..|"console.log("|] == "console.log(";
    assert forall k | |"console.log("| <= k < n :: s[k] == a[k - |"console.log("|];
    assert s[n] == ')' && s[n + 1] == ';';
    assert IndexOf(s, ')', |"console.log("|) == Some(n);
    assert s[n + 2..] == t;
    assert SkipSpaces(s, n + 2) == n + 2;
  }

  /** Step 4 deletes a call and joins the text around it, which step 1 has
      already passed: `va`, `console.log();`, `r x` comes out as `var x`. */
  function RejoinWitness(): string { "va" + "console.log();" + "r x" }

  /** The input holds no `var `, yet the rewritten code does: the full
      rewrite does not keep step 1's promise. */
  lemma RejoinedVarSurvives()
    ensures !Contains(RejoinWitness(), "var ")
    ensures Contains(OptimizeJavaScript(RejoinWitness()), "var ")
  {
    WitnessHasNoVar();
    WitnessRewrite();
    assert OccursAt("var x", "var ", 0);
  }

  /** The five steps turn the witness into `var x`. */
  lemma WitnessRewrite()
    ensures OptimizeJavaScript(RejoinWitness()) == "var x"
  {
    var w := RejoinWitness();
    WitnessHasNoVar();
    WitnessLacksEquals();
    EarlyStepsKeep(w);
    WitnessRemoval();
    ShortTextKept("var x");
  }

  /** Text shorter than `function(` passes step 5 unchanged. */
  lemma ShortTextKept(s: string)
    requires |s| < |"function("|
    ensures SpaceAfterFunction(s) == s
  {
  }

  /** The only `v` of the witness starts `vaco`. */
  lemma WitnessHasNoVar()
    ensures !Contains(RejoinWitness(), "var ")
  {
    var t := "aconsole.log();r x";
    assert RejoinWitness() == ['v'] + t;
    assert 'v' !in t;
    assert (['v'] + t)[2] != "var "[2];
    FrontOnlyCandidate('v', t, "var ");
  }

  /** If `p` can only begin at the front of `[c] + t` and does not, it does
      not occur. */
  lemma FrontOnlyCandidate(c: char, t: string, p: string)
    requires p != "" && p[0] !in t && !StartsWith([c] + t, p)
    ensures !Contains([c] + t, p)
  {
    ContainsFrontOrTail([c] + t, p);
    assert ([c] + t)[1..] == t;
    FirstCharAbsent(t, p);
  }

  /** The witness has no `=` and no `!`. */
  lemma WitnessLacksEquals()
    ensures !Contains(RejoinWitness(), "==") && !Contains(RejoinWitness(), "!=")
  {
    assert '=' !in RejoinWitness() && '!' !in RejoinWitness();
    FirstCharAbsent(RejoinWitness(), "==");
    FirstCharAbsent(RejoinWitness(), "!=");
  }

  /** Step 4 on the witness keeps `va`, deletes `console.log();` and keeps
      `r x`. */
  lemma WitnessRemoval()
    ensures RemoveConsoleLogs(RejoinWitness()) == "var x"
  {
    assert RejoinWitness() == ['v'] + (['a'] + ("console.log();" + "r x"));
    assert "r x"[0] == 'r';
    CallDeleted("", "r x");
    assert "console.log(" + "" + ");" == "console.log();";
    FirstCharAbsent("r x", "console.log(");
    PlainCharKept('a', "console.log();" + "r x");
    PlainCharKept('v', ['a'] + ("console.log();" + "r x"));
    SpelledVarX();
  }

  /** The joined text, spelled out. */
  lemma SpelledVarX()
    ensures ['v'] + (['a'] + "r x") == "var x"
  {
  }
}
