/** String primitives with the JavaScript meaning the analysis engine relies
    on: `includes`, `startsWith`, `split('\n')`, `join`, `trim`,
    `toLowerCase`, global `replace` and `match` with a literal pattern, and
    decimal formatting of line numbers. */
module Text {

  // ------------------------------------------------------------- searching

  /** `p` occurs in `s` starting at index `i`. */
  predicate OccursAt(s: string, p: string, i: nat) {
    i + |p| <= |s| && s[i..i + |p|] == p
  }

  /** `s.includes(p)` */
  predicate Contains(s: string, p: string) {
    exists i: nat | i <= |s| :: OccursAt(s, p, i)
  }

  /** `s.startsWith(p)` */
  predicate StartsWith(s: string, p: string) {
    OccursAt(s, p, 0)
  }

  /** An occurrence of `p` in `s` is either at the front or in `s[1..]`. */
  lemma ContainsFrontOrTail(s: string, p: string)
    requires |s| > 0
    ensures Contains(s, p) <==> StartsWith(s, p) || Contains(s[1..], p)
  {
    if Contains(s, p) && !StartsWith(s, p) {
      var i: nat :| i <= |s| && OccursAt(s, p, i);
      assert s[1..][i - 1..i - 1 + |p|] == s[i..i + |p|];
      assert OccursAt(s[1..], p, i - 1);
    }
    if Contains(s[1..], p) {
      var j: nat :| j <= |s[1..]| && OccursAt(s[1..], p, j);
      assert s[1..][j..j + |p|] == s[j + 1..j + 1 + |p|];
      assert OccursAt(s, p, j + 1);
    }
  }

  /** Containment is transitive: whatever contains `q` contains every
      substring of `q`. */
  lemma ContainsTransitive(s: string, q: string, p: string)
    requires Contains(s, q) && Contains(q, p)
    ensures Contains(s, p)
  {
    var i: nat :| i <= |s| && OccursAt(s, q, i);
    var j: nat :| j <= |q| && OccursAt(q, p, j);
    forall k | 0 <= k < |p| ensures s[i + j + k] == p[k] {
      assert p[k] == q[j + k] == s[i + j + k];
    }
    assert s[i + j..i + j + |p|] == p;
    assert OccursAt(s, p, i + j);
  }

  /** Past the end of `a`, occurrences in `a + b` are occurrences in `b`. */
  lemma OccursAtAfter(a: string, b: string, p: string, i: nat)
    requires i >= |a|
    ensures OccursAt(a + b, p, i) <==> OccursAt(b, p, i - |a|)
  {
    if i + |p| <= |a + b| {
      assert (a + b)[i..i + |p|] == b[i - |a|..i - |a| + |p|];
    }
  }

  /** An occurrence starting inside `a` overlaps the rest of `a`. */
  lemma OccursAtInside(a: string, b: string, p: string, i: nat)
    requires i < |a|
    requires !Overlapping(a[i..], p)
    ensures !OccursAt(a + b, p, i)
  {
    var u := a + b;
    if i + |p| <= |u| {
      if |a| - i >= |p| {
        assert u[i..i + |p|] == a[i..][0..|p|];
      } else {
        var w := u[i..i + |p|];
        assert forall k | 0 <= k < |a| - i :: w[k] == a[i..][k];
        assert w[..|a| - i] == a[i..];
        assert p[..|a| - i] != a[i..];
      }
    }
  }

  /** Number of matches a global scan for `p` finds (`s.match(/p/g)`, or
      `s.split(p).length - 1`): the scan takes the leftmost occurrence and
      resumes after it, so the matches never overlap. */
  function Count(s: string, p: string): (c: nat)
    requires p != ""
    ensures c * |p| <= |s|
    decreases |s|
  {
    if |s| < |p| then 0
    else if StartsWith(s, p) then 1 + Count(s[|p|..], p)
    else Count(s[1..], p)
  }

  /** A global scan finds a match exactly when the pattern occurs at all. */
  lemma {:induction false} CountPositiveIffContains(s: string, p: string)
    requires p != ""
    ensures Count(s, p) > 0 <==> Contains(s, p)
    decreases |s|
  {
    if |s| < |p| {
    } else if StartsWith(s, p) {
      assert OccursAt(s, p, 0);
    } else {
      CountPositiveIffContains(s[1..], p);
      ContainsFrontOrTail(s, p);
    }
  }

  // ------------------------------------------------------------ replacing

  /** `s.replace(/p/g, r)` for a literal pattern `p`: every match of the
      left-to-right scan of `Count` is replaced by `r`. */
  function ReplaceAll(s: string, p: string, r: string): (res: string)
    requires p != ""
    ensures r == p ==> res == s
    decreases |s|
  {
    if |s| < |p| then s
    else if StartsWith(s, p) then r + ReplaceAll(s[|p|..], p, r)
    else [s[0]] + ReplaceAll(s[1..], p, r)
  }

  /** Each match changes the length by `|r| - |p|`, and nothing else does. */
  lemma {:induction false} ReplaceAllLength(s: string, p: string, r: string)
    requires p != ""
    ensures |ReplaceAll(s, p, r)| == |s| + Count(s, p) * (|r| - |p|)
    decreases |s|
  {
    if |s| < |p| {
    } else if StartsWith(s, p) {
      ReplaceAllLength(s[|p|..], p, r);
      MulSucc(Count(s[|p|..], p), |r| - |p|);
    } else {
      ReplaceAllLength(s[1..], p, r);
    }
  }

  lemma MulSucc(c: int, d: int)
    ensures (1 + c) * d == d + c * d
  {
  }

  /** One of `a`, `b` is a prefix of the other. */
  predicate Overlapping(a: string, b: string) {
    StartsWith(a, b) || StartsWith(b, a)
  }

  /** Conditions under which text put in by replacing `p` with `r` can never
      be part of a new occurrence of `p`: `r` is non-empty, `r` cannot
      continue a partial match of `p`, and no occurrence of `p` can begin
      inside `r`. */
  predicate ReplacementCannotRecreate(p: string, r: string) {
    && |r| > 0
    && (forall k | 1 <= k < |p| :: r[0] != p[k])
    && (forall j | 0 <= j < |r| :: !Overlapping(r[j..], p))
  }

  /** Strings that differ at a common index do not overlap. */
  lemma DifferAt(a: string, b: string, k: nat)
    requires k < |a| && k < |b| && a[k] != b[k]
    ensures !Overlapping(a, b)
  {
    if |a| <= |b| {
      assert b[0..|a|][k] == b[k];
    } else {
      assert a[0..|b|][k] == a[k];
    }
  }

  /** A sufficient test for the last condition: `p` does not overlap `r`
      itself, and the first character of `p` does not occur later in `r`. */
  lemma NoOverlapInside(p: string, r: string)
    requires p != "" && !Overlapping(r, p) && p[0] !in r[1..]
    ensures forall j | 0 <= j < |r| :: !Overlapping(r[j..], p)
  {
    forall j | 0 < j < |r| ensures !Overlapping(r[j..], p) {
      assert r[j] == r[1..][j - 1];
      assert r[j..][0] == r[j] != p[0];
      if |r[j..]| <= |p| {
        assert p[0..|r[j..]|][0] == p[0];
      } else {
        assert r[j..][0..|p|][0] == r[j];
      }
    }
  }

  /** Under those conditions a proper suffix of `p` at the front of the
      output was already at the front of the input. */
  lemma {:induction false} ReplaceAllKeepsSuffixAtFront(t: string, p: string, r: string, k: nat)
    requires p != "" && ReplacementCannotRecreate(p, r)
    requires 1 <= k < |p|
    ensures StartsWith(ReplaceAll(t, p, r), p[k..]) ==> StartsWith(t, p[k..])
    decreases |t|
  {
    var u := ReplaceAll(t, p, r);
    var w := p[k..];
    if |t| < |p| {
    } else if StartsWith(t, p) {
      assert u == r + ReplaceAll(t[|p|..], p, r);
      assert u[0] == r[0] != p[k] == w[0];
      if |w| <= |u| {
        assert u[0..|w|][0] == u[0];
      }
    } else {
      var rest := ReplaceAll(t[1..], p, r);
      assert u == [t[0]] + rest;
      if StartsWith(u, w) {
        if k + 1 < |p| {
          ReplaceAllKeepsSuffixAtFront(t[1..], p, r, k + 1);
          assert w == [p[k]] + p[k + 1..];
          assert rest[0..|p[k + 1..]|] == u[1..|w|];
          assert t[0..|w|] == [t[0]] + t[1..][0..|p[k + 1..]|];
        } else {
          assert |w| == 1;
        }
      }
    }
  }

  /** After a global replacement that cannot recreate its pattern, the
      pattern no longer occurs. */
  lemma {:induction false} ReplaceAllRemoves(t: string, p: string, r: string)
    requires p != "" && ReplacementCannotRecreate(p, r)
    ensures !Contains(ReplaceAll(t, p, r), p)
    decreases |t|
  {
    var u := ReplaceAll(t, p, r);
    if |t| < |p| {
    } else if StartsWith(t, p) {
      var rest := ReplaceAll(t[|p|..], p, r);
      ReplaceAllRemoves(t[|p|..], p, r);
      assert u == r + rest;
      forall i: nat | i <= |u| ensures !OccursAt(u, p, i) {
        if i >= |r| {
          OccursAtAfter(r, rest, p, i);
        } else {
          OccursAtInside(r, rest, p, i);
        }
      }
    } else {
      var rest := ReplaceAll(t[1..], p, r);
      ReplaceAllRemoves(t[1..], p, r);
      assert u == [t[0]] + rest;
      forall i: nat | i <= |u| ensures !OccursAt(u, p, i) {
        if i >= 1 {
          OccursAtAfter([t[0]], rest, p, i);
        } else {
          FrontNotRecreated(t, p, r);
        }
      }
    }
  }

  /** The step of `ReplaceAllRemoves` for the front of an unmatched input. */
  lemma FrontNotRecreated(t: string, p: string, r: string)
    requires p != "" && ReplacementCannotRecreate(p, r)
    requires |t| >= |p| && !StartsWith(t, p)
    ensures !StartsWith([t[0]] + ReplaceAll(t[1..], p, r), p)
  {
    var rest := ReplaceAll(t[1..], p, r);
    var u := [t[0]] + rest;
    if |p| == 1 {
      assert t[0..1] != p;
    } else if |p| <= |u| {
      ReplaceAllKeepsSuffixAtFront(t[1..], p, r, 1);
      assert t[0..|p|] == [t[0]] + t[1..][0..|p[1..]|];
      assert u[0..|p|] == [t[0]] + rest[0..|p[1..]|];
      assert p == [p[0]] + p[1..];
    }
  }

  /** A global replace that finds no match returns the string unchanged. */
  lemma {:induction false} ReplaceAllAbsent(s: string, p: string, r: string)
    requires p != "" && !Contains(s, p)
    ensures ReplaceAll(s, p, r) == s
    decreases |s|
  {
    if |s| >= |p| {
      ContainsFrontOrTail(s, p);
      ReplaceAllAbsent(s[1..], p, r);
      assert s == [s[0]] + s[1..];
    }
  }

  /** A string without the first character of `p` does not contain `p`. */
  lemma FirstCharAbsent(s: string, p: string)
    requires p != "" && p[0] !in s
    ensures !Contains(s, p)
  {
    forall i: nat | i <= |s| ensures !OccursAt(s, p, i) {
      if i + |p| <= |s| {
        assert s[i..i + |p|][0] == s[i];
      }
    }
  }

  /** No occurrence of `p` in `a + b` begins in `a` and ends in `b`. */
  predicate NoMatchAcross(a: string, b: string, p: string) {
    forall i | 0 <= i < |a| < i + |p| :: !OccursAt(a + b, p, i)
  }

  /** Dropping a front part of `a` keeps the boundary free of matches. */
  lemma NoMatchAcrossDrop(a: string, b: string, p: string, k: nat)
    requires k <= |a| && NoMatchAcross(a, b, p)
    ensures NoMatchAcross(a[k..], b, p)
  {
    var rest := a[k..];
    assert (a + b)[k..] == rest + b;
    forall i | 0 <= i < |rest| < i + |p| ensures !OccursAt(rest + b, p, i) {
      assert !OccursAt(a + b, p, i + k);
      if i + |p| <= |rest + b| {
        assert (rest + b)[i..i + |p|] == (a + b)[i + k..i + k + |p|];
      }
    }
  }

  /** For a two-character pattern, the boundary of `a + b` is free of
      matches unless `a` ends with the first character and `b` starts with
      the second. */
  lemma NoMatchAcrossPair(a: string, b: string, p: string)
    requires |p| == 2
    requires a == [] || b == [] || a[|a| - 1] != p[0] || b[0] != p[1]
    ensures NoMatchAcross(a, b, p)
  {
    forall i | 0 <= i < |a| < i + |p| ensures !OccursAt(a + b, p, i) {
      assert i == |a| - 1;
    }
  }

  /** Text that starts `b` occurs in `a + b` right after `a`. */
  lemma OccursAfter(a: string, b: string, q: string)
    requires StartsWith(b, q)
    ensures OccursAt(a + b, q, |a|)
  {
    assert (a + b)[|a|..|a| + |q|] == b[0..|q|];
  }

  /** A global replace works on the two halves of `a + b` separately when
      no occurrence of `p` begun in `a` runs on into `b`. */
  lemma {:induction false} ReplaceAllSplit(a: string, b: string, p: string, r: string)
    requires p != "" && NoMatchAcross(a, b, p)
    ensures ReplaceAll(a + b, p, r) == ReplaceAll(a, p, r) + ReplaceAll(b, p, r)
    decreases |a|
  {
    var s := a + b;
    if |a| == 0 {
      assert s == b;
    } else if StartsWith(a, p) {
      assert s[0..|p|] == a[0..|p|];
      assert s[|p|..] == a[|p|..] + b;
      NoMatchAcrossDrop(a, b, p, |p|);
      ReplaceAllSplit(a[|p|..], b, p, r);
    } else if |s| >= |p| {
      if |a| >= |p| {
        assert s[0..|p|] == a[0..|p|];
      } else {
        assert !OccursAt(s, p, 0);
      }
      assert s[1..] == a[1..] + b;
      NoMatchAcrossDrop(a, b, p, 1);
      ReplaceAllSplit(a[1..], b, p, r);
      assert a == [a[0]] + a[1..];
    }
  }

  // ------------------------------------------------------ splitting, joining

  /** `s.split(sep)` for a one-character separator: the empty string gives
      one empty part, and a trailing separator gives a trailing empty part. */
  function Split(s: string, sep: char): (parts: seq<string>)
    ensures |parts| >= 1
    decreases |s|
  {
    if |s| == 0 then [""]
    else
      var rest := Split(s[1..], sep);
      if s[0] == sep then [""] + rest
      else [[s[0]] + rest[0]] + rest[1..]
  }

  /** `parts.join(sep)` */
  function Join(parts: seq<string>, sep: string): string
  {
    if |parts| == 0 then ""
    else if |parts| == 1 then parts[0]
    else parts[0] + sep + Join(parts[1..], sep)
  }

  /** Splitting loses nothing: joining the parts gives the text back. */
  lemma {:induction false} SplitThenJoin(s: string, sep: char)
    ensures Join(Split(s, sep), [sep]) == s
    decreases |s|
  {
    if |s| > 0 {
      var rest := Split(s[1..], sep);
      SplitThenJoin(s[1..], sep);
      if s[0] == sep {
        var parts := [""] + rest;
        assert parts[1..] == rest;
        assert Join(parts, [sep]) == "" + [sep] + Join(rest, [sep]);
      } else {
        var parts := [[s[0]] + rest[0]] + rest[1..];
        if |rest| > 1 {
          assert parts[1..] == rest[1..];
          assert Join(rest, [sep]) == rest[0] + [sep] + Join(rest[1..], [sep]);
          assert Join(parts, [sep]) == [s[0]] + rest[0] + [sep] + Join(rest[1..], [sep]);
        }
      }
      assert s == [s[0]] + s[1..];
    }
  }

  /** No part contains the separator. */
  lemma {:induction false} SplitPartsHaveNoSeparator(s: string, sep: char)
    ensures forall k | 0 <= k < |Split(s, sep)| :: sep !in Split(s, sep)[k]
    decreases |s|
  {
    if |s| > 0 {
      var rest := Split(s[1..], sep);
      SplitPartsHaveNoSeparator(s[1..], sep);
      if s[0] != sep {
        var parts := [[s[0]] + rest[0]] + rest[1..];
        forall k | 0 <= k < |parts| ensures sep !in parts[k] {
          if k > 0 { assert parts[k] == rest[k]; }
        }
      }
    }
  }

  /** There is one more part than there are separators. */
  lemma {:induction false} SplitCount(s: string, sep: char)
    ensures |Split(s, sep)| == multiset(s)[sep] + 1
    decreases |s|
  {
    if |s| > 0 {
      SplitCount(s[1..], sep);
      assert s == [s[0]] + s[1..];
      assert multiset(s) == multiset{s[0]} + multiset(s[1..]);
    }
  }

  /** Splitting a part free of the separator followed by more text extends
      the first part of the rest. */
  lemma {:induction false} SplitPrefix(a: string, t: string, sep: char)
    requires sep !in a
    ensures Split(a + t, sep) == [a + Split(t, sep)[0]] + Split(t, sep)[1..]
    decreases |a|
  {
    var st := Split(t, sep);
    if |a| == 0 {
      assert a + t == t;
      assert a + st[0] == st[0];
      assert st == [st[0]] + st[1..];
    } else {
      assert (a + t)[1..] == a[1..] + t;
      assert (a + t)[0] == a[0] != sep;
      SplitPrefix(a[1..], t, sep);
      var rest := Split(a[1..] + t, sep);
      assert rest[0] == a[1..] + st[0];
      assert rest[1..] == st[1..];
      assert Split(a + t, sep) == [[a[0]] + rest[0]] + rest[1..];
      assert [a[0]] + (a[1..] + st[0]) == a + st[0];
    }
  }

  /** The other round trip: parts free of the separator are recovered by
      splitting their join. */
  lemma {:induction false} JoinThenSplit(parts: seq<string>, sep: char)
    requires |parts| >= 1
    requires forall k | 0 <= k < |parts| :: sep !in parts[k]
    ensures Split(Join(parts, [sep]), sep) == parts
    decreases |parts|
  {
    if |parts| == 1 {
      SplitPrefix(parts[0], "", sep);
      assert parts[0] + "" == parts[0];
    } else {
      var tail := Join(parts[1..], [sep]);
      JoinThenSplit(parts[1..], sep);
      assert Join(parts, [sep]) == parts[0] + ([sep] + tail);
      SplitPrefix(parts[0], [sep] + tail, sep);
      assert ([sep] + tail)[0] == sep;
      assert ([sep] + tail)[1..] == tail;
      assert Split([sep] + tail, sep) == [""] + parts[1..];
      assert parts[0] + "" == parts[0];
      assert parts == [parts[0]] + parts[1..];
    }
  }

  // ------------------------------------------------------------- trimming

  /** The characters JavaScript's `trim()` removes and a regular expression's
      `\s` matches: the white space and line terminator characters,
      including every space separator of the Unicode standard. */
  predicate IsSpace(c: char) {
    var n := c as int;
    n == 0x09 || n == 0x0A || n == 0x0B || n == 0x0C || n == 0x0D || n == 0x20
    || n == 0xA0 || n == 0x1680 || (0x2000 <= n <= 0x200A) || n == 0x2028
    || n == 0x2029 || n == 0x202F || n == 0x205F || n == 0x3000 || n == 0xFEFF
  }

  /** Index just past the white space starting at `i` (what a greedy `\s*`
      consumes). */
  function SkipSpaces(s: string, i: nat): (j: nat)
    requires i <= |s|
    ensures i <= j <= |s|
    ensures forall k | i <= k < j :: IsSpace(s[k])
    ensures j == |s| || !IsSpace(s[j])
    decreases |s| - i
  {
    if i < |s| && IsSpace(s[i]) then SkipSpaces(s, i + 1) else i
  }

  /** Index where the white space ending at `j` begins, scanning back no
      further than `lo`. */
  function SkipSpacesBack(s: string, lo: nat, j: nat): (b: nat)
    requires lo <= j <= |s|
    ensures lo <= b <= j
    ensures forall k | b <= k < j :: IsSpace(s[k])
    ensures b == lo || !IsSpace(s[b - 1])
    decreases j
  {
    if lo < j && IsSpace(s[j - 1]) then SkipSpacesBack(s, lo, j - 1) else j
  }

  /** `r` sits at index `a` of `s` with only white space before and after
      it. */
  predicate Surrounds(s: string, r: string, a: nat) {
    && a + |r| <= |s| && s[a..a + |r|] == r
    && (forall k | 0 <= k < a :: IsSpace(s[k]))
    && (forall k | a + |r| <= k < |s| :: IsSpace(s[k]))
  }

  /** `s.trim()`: the middle of `s` left after removing white space at both
      ends. */
  function Trim(s: string): (r: string)
    ensures exists a: nat :: Surrounds(s, r, a)
    ensures r == [] || (!IsSpace(r[0]) && !IsSpace(r[|r| - 1]))
  {
    var a := SkipSpaces(s, 0);
    var b := SkipSpacesBack(s, a, |s|);
    assert Surrounds(s, s[a..b], a);
    s[a..b]
  }

  /** `trim()` is determined by what it promises: any white-space-framed
      middle that neither begins nor ends with white space is the trimmed
      string. */
  lemma TrimUnique(s: string, m: string, a: nat)
    requires Surrounds(s, m, a)
    requires m == [] || (!IsSpace(m[0]) && !IsSpace(m[|m| - 1]))
    ensures Trim(s) == m
  {
    var i := SkipSpaces(s, 0);
    if m == [] {
      assert forall k | 0 <= k < |s| :: IsSpace(s[k]);
      assert i == |s|;
    } else {
      assert s[a] == m[0];
      assert i == a;
      assert s[a + |m| - 1] == m[|m| - 1];
      assert SkipSpacesBack(s, a, |s|) == a + |m|;
    }
  }

  // --------------------------------------------------------- character classes

  predicate IsDigit(c: char) { '0' <= c <= '9' }

  predicate IsAsciiUpper(c: char) { 'A' <= c <= 'Z' }

  predicate IsAsciiLower(c: char) { 'a' <= c <= 'z' }

  /** A word character of a regular expression's `\b`: `[A-Za-z0-9_]`. */
  predicate IsWordChar(c: char) {
    IsDigit(c) || IsAsciiUpper(c) || IsAsciiLower(c) || c == '_'
  }

  /** `toLowerCase()` restricted to ASCII letters. */
  function ToLower(s: string): (r: string)
    ensures |r| == |s|
    ensures forall k | 0 <= k < |s| :: !IsAsciiUpper(r[k])
    ensures forall k | 0 <= k < |s| ::
              && (IsAsciiUpper(s[k]) ==> IsAsciiLower(r[k]) && r[k] as int == s[k] as int + 32)
              && (!IsAsciiUpper(s[k]) ==> r[k] == s[k])
  {
    seq(|s|, k requires 0 <= k < |s| =>
      if IsAsciiUpper(s[k]) then (s[k] as int + 32) as char else s[k])
  }

  /** A character outside the Basic Multilingual Plane, which JavaScript
      stores as a surrogate pair of two UTF-16 code units. */
  predicate IsAstral(c: char) { c as int > 0xFFFF }

  /** `s.length` in JavaScript: the number of UTF-16 code units, so an
      astral character counts twice. */
  function Utf16Length(s: string): (n: nat)
    ensures |s| <= n <= 2 * |s|
  {
    if |s| == 0 then 0
    else (if IsAstral(s[0]) then 2 else 1) + Utf16Length(s[1..])
  }

  /** JavaScript's length agrees with the character count exactly when no
      character is astral. */
  lemma {:induction false} Utf16LengthIsCountIff(s: string)
    ensures Utf16Length(s) == |s| <==> forall k | 0 <= k < |s| :: !IsAstral(s[k])
  {
    if |s| > 0 {
      Utf16LengthIsCountIff(s[1..]);
      assert forall k | 1 <= k < |s| :: s[1..][k - 1] == s[k];
    }
  }

  /** Code units add up over concatenation. */
  lemma {:induction false} Utf16LengthAppend(a: string, b: string)
    ensures Utf16Length(a + b) == Utf16Length(a) + Utf16Length(b)
  {
    if |a| > 0 {
      assert (a + b)[1..] == a[1..] + b;
      Utf16LengthAppend(a[1..], b);
    } else {
      assert a + b == b;
    }
  }

  // ----------------------------------------------------------- numbers

  /** The decimal digit character of `d`. */
  function DigitChar(d: nat): (c: char)
    requires d < 10
    ensures IsDigit(c)
  {
    ('0' as int + d) as char
  }

  /** Value of a decimal digit character. */
  function DigitValue(c: char): (d: nat)
    requires IsDigit(c)
    ensures d < 10
  {
    c as int - '0' as int
  }

  predicate AllDigits(s: string) {
    forall k | 0 <= k < |s| :: IsDigit(s[k])
  }

  /** `String(n)` for a non-negative integer: its decimal digits. */
  function NatToString(n: nat): (s: string)
    ensures |s| >= 1 && AllDigits(s)
    ensures |s| > 1 ==> s[0] != '0'
    decreases n
  {
    if n < 10 then [DigitChar(n)]
    else NatToString(n / 10) + [DigitChar(n % 10)]
  }

  /** The number a string of decimal digits denotes. */
  function ParseDigits(s: string): nat
    requires AllDigits(s)
    decreases |s|
  {
    if |s| == 0 then 0
    else 10 * ParseDigits(s[..|s| - 1]) + DigitValue(s[|s| - 1])
  }

  /** Formatting a number and reading it back gives the number. */
  lemma {:induction false} ParseNatToString(n: nat)
    ensures ParseDigits(NatToString(n)) == n
    decreases n
  {
    var s := NatToString(n);
    if n >= 10 {
      ParseNatToString(n / 10);
      assert s[..|s| - 1] == NatToString(n / 10);
    }
  }

  /** Distinct numbers are written differently. */
  lemma NatToStringInjective(m: nat, n: nat)
    ensures NatToString(m) == NatToString(n) ==> m == n
  {
    ParseNatToString(m);
    ParseNatToString(n);
  }
}
