/** `groupSimilarIssues`: issues sharing the string key
    `message + "-" + category` collapse into one issue that records where
    they occurred. Groups come out in the order their key was first seen. */
module Grouping {
  import opened Text
  import opened Schema
  import Sorting

  /** The grouping key. Type and severity are not part of it. */
  function Key(i: Issue): (k: string)
    ensures |k| == |i.message| + 1 + |i.category|
    ensures k[|i.message|] == '-'
  {
    i.message + "-" + i.category
  }

  /** When neither category contains a dash, the key tells message and
      category apart: two issues share a key exactly when they share both. */
  lemma KeyDeterminesParts(a: Issue, b: Issue)
    requires '-' !in a.category && '-' !in b.category
    ensures Key(a) == Key(b) <==> a.message == b.message && a.category == b.category
  {
    if Key(a) == Key(b) {
      var k := Key(a);
      assert a.category == k[|a.message| + 1..] == b.category;
      assert a.message == k[..|a.message|] == b.message;
    }
  }

  // ----------------------------------------------------------- partition

  /** The distinct keys of the first `n` issues, in the order they are
      first seen. */
  function KeysUpTo(issues: seq<Issue>, n: nat): (keys: seq<string>)
    requires n <= |issues|
    ensures |keys| <= n
  {
    if n == 0 then []
    else
      var keys := KeysUpTo(issues, n - 1);
      if Key(issues[n - 1]) in keys then keys else keys + [Key(issues[n - 1])]
  }

  /** No key is listed twice. */
  lemma {:induction false} KeysDistinct(issues: seq<Issue>, n: nat)
    requires n <= |issues|
    ensures forall a, b | 0 <= a < b < |KeysUpTo(issues, n)| ::
              KeysUpTo(issues, n)[a] != KeysUpTo(issues, n)[b]
  {
    if n > 0 {
      KeysDistinct(issues, n - 1);
    }
  }

  /** The first `n` issues with key `k`, in input order. */
  function MembersUpTo(issues: seq<Issue>, n: nat, k: string): (ms: seq<Issue>)
    requires n <= |issues|
    ensures |ms| <= n
  {
    if n == 0 then []
    else MembersUpTo(issues, n - 1, k) + (if Key(issues[n - 1]) == k then [issues[n - 1]] else [])
  }

  /** A key has members exactly when it is listed. */
  lemma {:induction false} MembersNonEmptyIff(issues: seq<Issue>, n: nat, k: string)
    requires n <= |issues|
    ensures |MembersUpTo(issues, n, k)| > 0 <==> k in KeysUpTo(issues, n)
  {
    if n > 0 {
      MembersNonEmptyIff(issues, n - 1, k);
    }
  }

  /** The distinct keys of `issues`, in the order they are first seen. */
  function Keys(issues: seq<Issue>): seq<string> {
    KeysUpTo(issues, |issues|)
  }

  /** The issues with key `k`, in input order. */
  function Members(issues: seq<Issue>, k: string): seq<Issue> {
    MembersUpTo(issues, |issues|, k)
  }

  /** Keys seen among the first `m` issues keep their place among the
      first `n`: the key list is in first-seen order. */
  lemma {:induction false} KeysOfPrefix(issues: seq<Issue>, m: nat, n: nat)
    requires m <= n <= |issues|
    ensures |KeysUpTo(issues, m)| <= |KeysUpTo(issues, n)|
    ensures forall t | 0 <= t < |KeysUpTo(issues, m)| ::
              KeysUpTo(issues, m)[t] == KeysUpTo(issues, n)[t]
  {
    if m < n {
      KeysOfPrefix(issues, m, n - 1);
    }
  }

  /** Every issue's key is listed. */
  lemma {:induction false} KeysCover(issues: seq<Issue>, n: nat, u: nat)
    requires u < n <= |issues|
    ensures Key(issues[u]) in KeysUpTo(issues, n)
  {
    if u < n - 1 {
      KeysCover(issues, n - 1, u);
    }
  }

  /** Every member of a group is an input issue with the group's key. */
  lemma {:induction false} MembersSound(issues: seq<Issue>, n: nat, k: string)
    requires n <= |issues|
    ensures forall t | 0 <= t < |MembersUpTo(issues, n, k)| ::
              MembersUpTo(issues, n, k)[t] in issues[..n]
              && Key(MembersUpTo(issues, n, k)[t]) == k
  {
    if n > 0 {
      MembersSound(issues, n - 1, k);
      assert issues[..n] == issues[..n - 1] + [issues[n - 1]];
    }
  }

  /** Every input issue belongs to the group of its key. */
  lemma {:induction false} MembersComplete(issues: seq<Issue>, n: nat, u: nat)
    requires u < n <= |issues|
    ensures issues[u] in MembersUpTo(issues, n, Key(issues[u]))
  {
    if u < n - 1 {
      MembersComplete(issues, n - 1, u);
    }
  }

  /** A key none of the first `n` issues carries has no members. */
  lemma {:induction false} NoMembers(issues: seq<Issue>, n: nat, k: string)
    requires n <= |issues|
    requires forall u | 0 <= u < n :: Key(issues[u]) != k
    ensures MembersUpTo(issues, n, k) == []
  {
    if n > 0 {
      NoMembers(issues, n - 1, k);
    }
  }

  /** The first member of a group is the first issue with that key. */
  lemma {:induction false} FirstMemberIsFirstSeen(issues: seq<Issue>, n: nat, k: string, t: nat)
    requires t < n <= |issues| && Key(issues[t]) == k
    requires forall u | 0 <= u < t :: Key(issues[u]) != k
    ensures |MembersUpTo(issues, n, k)| > 0 && MembersUpTo(issues, n, k)[0] == issues[t]
  {
    if t < n - 1 {
      FirstMemberIsFirstSeen(issues, n - 1, k, t);
    } else {
      NoMembers(issues, n - 1, k);
    }
  }

  /** The total size of the groups of the first `n` issues named by `keys`. */
  function GroupSizes(issues: seq<Issue>, n: nat, keys: seq<string>): nat
    requires n <= |issues|
  {
    if |keys| == 0 then 0
    else GroupSizes(issues, n, keys[..|keys| - 1]) + |MembersUpTo(issues, n, keys[|keys| - 1])|
  }

  /** One more issue grows exactly the group of its key, if that key is
      listed. */
  lemma {:induction false} GroupSizesStep(issues: seq<Issue>, n: nat, keys: seq<string>)
    requires 0 < n <= |issues|
    requires forall a, b | 0 <= a < b < |keys| :: keys[a] != keys[b]
    ensures GroupSizes(issues, n, keys)
            == GroupSizes(issues, n - 1, keys) + (if Key(issues[n - 1]) in keys then 1 else 0)
  {
    if |keys| > 0 {
      var k := Key(issues[n - 1]);
      var front := keys[..|keys| - 1];
      GroupSizesStep(issues, n, front);
      assert k in keys <==> k in front || k == keys[|keys| - 1];
      assert k in front ==> k != keys[|keys| - 1];
    }
  }

  /** Grouping partitions the input: the group sizes add up to the number
      of issues. */
  lemma GroupSizesAddUp(issues: seq<Issue>, n: nat)
    requires n <= |issues|
    ensures GroupSizes(issues, n, KeysUpTo(issues, n)) == n
  {
    KeysDistinct(issues, n);
    forall u | 0 <= u < n ensures Key(issues[u]) in KeysUpTo(issues, n) {
      KeysCover(issues, n, u);
    }
    GroupSizesOfCover(issues, n, KeysUpTo(issues, n));
  }

  /** The groups of any list of distinct keys that covers the first `n`
      issues add up to `n`. */
  lemma {:induction false} GroupSizesOfCover(issues: seq<Issue>, n: nat, keys: seq<string>)
    requires n <= |issues|
    requires forall a, b | 0 <= a < b < |keys| :: keys[a] != keys[b]
    requires forall u | 0 <= u < n :: Key(issues[u]) in keys
    ensures GroupSizes(issues, n, keys) == n
  {
    if n == 0 {
      GroupSizesOfNothing(issues, keys);
    } else {
      assert GroupSizes(issues, n - 1, keys) == n - 1 by {
        GroupSizesOfCover(issues, n - 1, keys);
      }
      assert GroupSizes(issues, n, keys) == GroupSizes(issues, n - 1, keys) + 1 by {
        assert Key(issues[n - 1]) in keys;
        GroupSizesStep(issues, n, keys);
      }
    }
  }

  /** No issues, no group members. */
  lemma {:induction false} GroupSizesOfNothing(issues: seq<Issue>, keys: seq<string>)
    ensures GroupSizes(issues, 0, keys) == 0
  {
    if |keys| > 0 {
      GroupSizesOfNothing(issues, keys[..|keys| - 1]);
    }
  }

  // ------------------------------------------------------------- merging

  /** The line numbers of a group, in member order. */
  function LinesOf(group: seq<Issue>): (ls: seq<nat>)
    ensures |ls| == |group|
    ensures forall t | 0 <= t < |group| :: ls[t] == group[t].line
  {
    if |group| == 0 then [] else [group[0].line] + LinesOf(group[1..])
  }

  /** The line numbers written in decimal. */
  function Decimals(ls: seq<nat>): (ds: seq<string>)
    ensures |ds| == |ls|
    ensures forall t | 0 <= t < |ls| :: ds[t] == NatToString(ls[t])
  {
    if |ls| == 0 then [] else [NatToString(ls[0])] + Decimals(ls[1..])
  }

  /** `lines` ascends. */
  predicate Ascending(ls: seq<nat>) {
    forall a, b | 0 <= a < b < |ls| :: ls[a] <= ls[b]
  }

  /** The line numbers of a group, ascending. */
  function SortedLines(group: seq<Issue>): (ls: seq<nat>)
    ensures Ascending(ls)
    ensures multiset(ls) == multiset(LinesOf(group))
    ensures |ls| == |group|
  {
    Sorting.SortBy(LinesOf(group), (x: nat) => x as int)
  }

  /** The suffix naming where a group of two or more occurred. */
  function LineInfo(ls: seq<nat>): (r: string)
    requires |ls| >= 2
    ensures StartsWith(r, " (") && r[|r| - 1] == ')'
    ensures StartsWith(r, " (lines ") <==> |ls| <= 5
  {
    if |ls| == 2 then
      var r := " (lines " + (NatToString(ls[0]) + " and " + NatToString(ls[1]) + ")");
      assert r[0..8] == " (lines ";
      r
    else if |ls| <= 5 then
      var r := " (lines " + (Join(Decimals(ls), ", ") + ")");
      assert r[0..8] == " (lines ";
      r
    else
      var n := NatToString(|ls|);
      var r := " (" + (n + " occurrences)");
      assert r[2] == n[0] && IsDigit(n[0]);
      assert r[0..2] == " (";
      r
  }

  /** The least and the greatest of two numbers. */
  function Min(a: nat, b: nat): nat { if a <= b then a else b }
  function Max(a: nat, b: nat): nat { if a <= b then b else a }

  /** One group collapsed into one issue: a single member passes through;
      otherwise the first member's fields with the group's least line and a
      suffix naming the lines or the number of occurrences. */
  function Merge(group: seq<Issue>): (r: Issue)
    requires |group| >= 1
    ensures |group| == 1 ==> r == group[0]
    ensures r.kind == group[0].kind && r.severity == group[0].severity
    ensures r.category == group[0].category
    ensures StartsWith(r.message, group[0].message)
  {
    if |group| == 1 then group[0]
    else
      var ls := SortedLines(group);
      var r := group[0].(line := ls[0], message := group[0].message + LineInfo(ls));
      assert OccursAt(r.message, group[0].message, 0);
      r
  }

  /** A merged issue carries the least line of its group. */
  lemma MergeLine(group: seq<Issue>)
    requires |group| >= 1
    ensures Merge(group).line in LinesOf(group)
    ensures forall t | 0 <= t < |group| :: Merge(group).line <= group[t].line
  {
    if |group| > 1 {
      LeastOfAscending(SortedLines(group), LinesOf(group));
    }
  }

  /** Two members: the message names both lines, the smaller first. */
  lemma MergeTwo(group: seq<Issue>)
    requires |group| == 2
    ensures Merge(group).message
            == group[0].message
               + (" (lines " + (NatToString(Min(group[0].line, group[1].line))
                  + " and " + NatToString(Max(group[0].line, group[1].line)) + ")"))
  {
    var ls := SortedLines(group);
    TwoAscending(ls, LinesOf(group));
    assert Merge(group).message == group[0].message + LineInfo(ls);
  }

  /** Three to five members: the message lists every line in ascending
      order, separated by commas. */
  lemma MergeFew(group: seq<Issue>)
    requires 3 <= |group| <= 5
    ensures exists ls: seq<nat> | Ascending(ls) && multiset(ls) == multiset(LinesOf(group)) ::
              Merge(group).message == group[0].message + (" (lines " + (Join(Decimals(ls), ", ") + ")"))
  {
    var ls := SortedLines(group);
    assert Merge(group).message == group[0].message + LineInfo(ls);
  }

  /** More than five members: the message counts the occurrences. */
  lemma MergeMany(group: seq<Issue>)
    requires |group| > 5
    ensures Merge(group).message == group[0].message + (" (" + (NatToString(|group|) + " occurrences)"))
  {
  }

  /** The head of an ascending rearrangement is one of the numbers and no
      greater than any of them. */
  lemma LeastOfAscending(ls: seq<nat>, xs: seq<nat>)
    requires |ls| > 0 && Ascending(ls) && multiset(ls) == multiset(xs)
    ensures ls[0] in xs
    ensures forall t | 0 <= t < |xs| :: ls[0] <= xs[t]
  {
    assert ls[0] in multiset(xs);
    forall t | 0 <= t < |xs| ensures ls[0] <= xs[t] {
      assert xs[t] in multiset(ls);
      var u :| 0 <= u < |ls| && ls[u] == xs[t];
    }
  }

  /** Two numbers in ascending order are their minimum and maximum. */
  lemma TwoAscending(ls: seq<nat>, xs: seq<nat>)
    requires Ascending(ls) && multiset(ls) == multiset(xs)
    ensures |xs| == 2 ==> |ls| == 2 && ls[0] == Min(xs[0], xs[1]) && ls[1] == Max(xs[0], xs[1])
  {
    if |xs| != 2 {
      return;
    }
    assert |ls| == |multiset(ls)| == |multiset(xs)| == 2;
    assert xs == [xs[0], xs[1]];
    assert ls == [ls[0], ls[1]];
    assert ls[0] in multiset(xs) && ls[1] in multiset(xs);
    if xs[0] != xs[1] {
      assert multiset(ls)[ls[0]] == 1;
      assert ls[0] != ls[1];
    }
  }

  // ------------------------------------------------------------ grouping

  /** Every listed key has members. */
  lemma MembersOfKeys(issues: seq<Issue>)
    ensures forall j | 0 <= j < |Keys(issues)| :: |Members(issues, Keys(issues)[j])| > 0
  {
    forall j | 0 <= j < |Keys(issues)| ensures |Members(issues, Keys(issues)[j])| > 0 {
      MembersNonEmptyIff(issues, |issues|, Keys(issues)[j]);
    }
  }

  /** `groupSimilarIssues` as a definition: one merged issue per distinct
      key, in first-seen order. */
  function Grouped(issues: seq<Issue>): (r: seq<Issue>)
    ensures |r| == |Keys(issues)| <= |issues|
    ensures forall j | 0 <= j < |r| ::
              && |Members(issues, Keys(issues)[j])| > 0
              && r[j] == Merge(Members(issues, Keys(issues)[j]))
  {
    var keys := Keys(issues);
    MembersOfKeys(issues);
    seq(|keys|, j requires 0 <= j < |keys| => Merge(Members(issues, keys[j])))
  }

  /** Every grouped issue takes its type, severity and category from the
      first input issue with its key, and its line is the least line of the
      issues with that key. */
  lemma GroupedFields(issues: seq<Issue>, j: nat, t: nat)
    requires j < |Keys(issues)| && t < |issues|
    requires Key(issues[t]) == Keys(issues)[j]
    requires forall u | 0 <= u < t :: Key(issues[u]) != Keys(issues)[j]
    ensures Grouped(issues)[j].kind == issues[t].kind
    ensures Grouped(issues)[j].severity == issues[t].severity
    ensures Grouped(issues)[j].category == issues[t].category
    ensures StartsWith(Grouped(issues)[j].message, issues[t].message)
    ensures forall u | 0 <= u < |issues| && Key(issues[u]) == Keys(issues)[j] ::
              Grouped(issues)[j].line <= issues[u].line
  {
    var k := Keys(issues)[j];
    FirstMemberIsFirstSeen(issues, |issues|, k, t);
    MergeLine(Members(issues, k));
    forall u | 0 <= u < |issues| && Key(issues[u]) == k
      ensures Grouped(issues)[j].line <= issues[u].line
    {
      MembersComplete(issues, |issues|, u);
    }
  }

  /** Grouping never invents a line number: every grouped issue carries
      the line of some input issue. */
  lemma GroupedLinesFromInput(issues: seq<Issue>)
    ensures forall j | 0 <= j < |Grouped(issues)| :: Grouped(issues)[j].line in LinesOf(issues)
  {
    var g := Grouped(issues);
    forall j | 0 <= j < |g| ensures g[j].line in LinesOf(issues) {
      var ms := Members(issues, Keys(issues)[j]);
      MembersSound(issues, |issues|, Keys(issues)[j]);
      MergeLine(ms);
      assert issues[..|issues|] == issues;
      var t :| 0 <= t < |ms| && g[j].line == LinesOf(ms)[t];
      var u :| 0 <= u < |issues| && issues[u] == ms[t];
      assert LinesOf(issues)[u] == g[j].line;
    }
  }

  /** A bound on the input's line numbers bounds the grouped ones. */
  lemma GroupedLinesBounded(issues: seq<Issue>, bound: nat)
    requires forall u | 0 <= u < |issues| :: issues[u].line <= bound
    ensures forall j | 0 <= j < |Grouped(issues)| :: Grouped(issues)[j].line <= bound
  {
    GroupedLinesFromInput(issues);
    var lines := LinesOf(issues);
    assert forall x | x in lines :: x <= bound;
  }

  /** Grouping empties the list exactly when the list is empty. */
  lemma GroupedEmptyIff(issues: seq<Issue>)
    ensures Grouped(issues) == [] <==> issues == []
  {
    if |issues| > 0 {
      KeysCover(issues, |issues|, 0);
    }
  }

  /** When no two issues share a key, grouping changes nothing. */
  lemma {:induction false} GroupedDistinctKeys(issues: seq<Issue>)
    requires forall a, b | 0 <= a < b < |issues| :: Key(issues[a]) != Key(issues[b])
    ensures Grouped(issues) == issues
  {
    KeysAreInputKeys(issues, |issues|);
    forall j | 0 <= j < |issues| ensures Members(issues, Key(issues[j])) == [issues[j]] {
      OnlyMember(issues, |issues|, Key(issues[j]), j);
    }
  }

  /** With distinct keys the key list is the input's key list. */
  lemma {:induction false} KeysAreInputKeys(issues: seq<Issue>, n: nat)
    requires n <= |issues|
    requires forall a, b | 0 <= a < b < |issues| :: Key(issues[a]) != Key(issues[b])
    ensures |KeysUpTo(issues, n)| == n
    ensures forall j | 0 <= j < n :: KeysUpTo(issues, n)[j] == Key(issues[j])
  {
    if n > 0 {
      KeysAreInputKeys(issues, n - 1);
    }
  }

  /** A key carried by exactly one issue has a group of one. */
  lemma {:induction false} OnlyMember(issues: seq<Issue>, n: nat, k: string, j: nat)
    requires j < n <= |issues| && Key(issues[j]) == k
    requires forall u | 0 <= u < n && u != j :: Key(issues[u]) != k
    ensures MembersUpTo(issues, n, k) == [issues[j]]
  {
    if j < n - 1 {
      OnlyMember(issues, n - 1, k, j);
    } else {
      NoMembers(issues, n - 1, k);
    }
  }

  /** Because the key joins two free strings with a dash, issues with
      different messages and categories can share a key and be merged. */
  lemma KeysCanCollide()
    ensures var a := Issue(Warning, Low, 1, "a-b", "c");
            var b := Issue(Error, High, 2, "a", "b-c");
            a.message != b.message && Key(a) == Key(b) && |Grouped([a, b])| == 1
  {
    var a := Issue(Warning, Low, 1, "a-b", "c");
    var b := Issue(Error, High, 2, "a", "b-c");
    assert Key(a) == "a-b-c" == Key(b);
    assert [a, b][..1] == [a];
    assert Keys([a]) == [Key(a)];
  }

  /** Three issues: two that merge into "m (lines 1 and 2)", and a third
      that already carries that message. */
  function RegroupWitness(): seq<Issue> {
    [Issue(Warning, Low, 1, "m", "c"), Issue(Warning, Low, 2, "m", "c"),
     Issue(Warning, Low, 3, "m (lines 1 and 2)", "c")]
  }

  /** The witness has two groups: the first two issues, and the third. */
  lemma RegroupWitnessGroups()
    ensures var x := RegroupWitness();
            && Keys(x) == ["m-c", "m (lines 1 and 2)-c"]
            && Members(x, "m-c") == x[..2]
            && Members(x, "m (lines 1 and 2)-c") == [x[2]]
  {
    var x := RegroupWitness();
    assert Key(x[0]) == "m-c" == Key(x[1]);
    assert Key(x[2]) == "m (lines 1 and 2)-c";
    assert KeysUpTo(x, 1) == ["m-c"];
    assert KeysUpTo(x, 2) == ["m-c"];
    assert MembersUpTo(x, 1, "m-c") == [x[0]];
    assert MembersUpTo(x, 2, "m-c") == [x[0], x[1]];
    assert MembersUpTo(x, 2, Key(x[2])) == [];
  }

  /** The first two witness issues merge into the third one's message. */
  lemma RegroupWitnessMerge()
    ensures Merge(RegroupWitness()[..2]).message == "m (lines 1 and 2)"
    ensures Merge(RegroupWitness()[..2]).category == "c"
  {
    var x := RegroupWitness();
    var pair := x[..2];
    MergeTwo(pair);
    assert pair[0].message == "m" && pair[0].line == 1 && pair[1].line == 2;
    assert NatToString(1) == "1" && NatToString(2) == "2";
    LinesOneAndTwo();
  }

  /** The suffix for lines 1 and 2, spelled out. */
  lemma LinesOneAndTwo()
    ensures "m" + (" (lines " + ("1" + " and " + "2" + ")")) == "m (lines 1 and 2)"
  {
  }

  /** Grouping the witness once gives two issues with the same key. */
  lemma RegroupFirstPass()
    ensures |Grouped(RegroupWitness())| == 2
    ensures Key(Grouped(RegroupWitness())[0]) == Key(Grouped(RegroupWitness())[1])
  {
    var x := RegroupWitness();
    RegroupWitnessGroups();
    RegroupWitnessMerge();
    var g := Grouped(x);
    assert g[0] == Merge(x[..2]);
    assert g[1] == Merge([x[2]]);
  }

  /** Grouping is not idempotent: a merged message can equal the message of
      another input issue, and grouping the result again merges the two. */
  lemma RegroupingCanMerge()
    ensures |Grouped(RegroupWitness())| == 2
    ensures |Grouped(Grouped(RegroupWitness()))| == 1
  {
    RegroupFirstPass();
    SharedKeyOfTwo(Grouped(RegroupWitness()));
  }

  /** Two issues with one key have one key between them. */
  lemma SharedKeyOfTwo(g: seq<Issue>)
    requires |g| == 2 && Key(g[0]) == Key(g[1])
    ensures |Grouped(g)| == 1
  {
    assert KeysUpTo(g, 1) == [Key(g[0])];
  }

  /** The map after `issue` is appended to the group under its key. */
  function AddToGroup(groups: map<string, seq<Issue>>, issue: Issue): map<string, seq<Issue>> {
    var k := Key(issue);
    groups[k := (if k in groups then groups[k] else []) + [issue]]
  }

  /** The key list after `issue` is seen. */
  function AddKey(keys: seq<string>, groups: map<string, seq<Issue>>, issue: Issue): seq<string> {
    if Key(issue) in groups then keys else keys + [Key(issue)]
  }

  /** The first pass has seen the first `n` issues. */
  predicate Collected(issues: seq<Issue>, n: nat, keys: seq<string>, groups: map<string, seq<Issue>>) {
    && n <= |issues|
    && keys == KeysUpTo(issues, n)
    && (forall k | k in keys :: k in groups && groups[k] == MembersUpTo(issues, n, k))
    && (forall k | k in groups :: k in keys)
  }

  /** One step of the first pass keeps the groups equal to the members of
      the issues seen so far. */
  lemma CollectStep(issues: seq<Issue>, n: nat, keys: seq<string>, groups: map<string, seq<Issue>>)
    requires n < |issues| && Collected(issues, n, keys, groups)
    ensures Collected(issues, n + 1, AddKey(keys, groups, issues[n]), AddToGroup(groups, issues[n]))
  {
    var k := Key(issues[n]);
    var keys' := AddKey(keys, groups, issues[n]);
    var groups' := AddToGroup(groups, issues[n]);
    MembersNonEmptyIff(issues, n, k);
    assert (if k in groups then groups[k] else []) == MembersUpTo(issues, n, k);
    assert keys' == KeysUpTo(issues, n + 1);
    forall k' | k' in keys' ensures k' in groups' && groups'[k'] == MembersUpTo(issues, n + 1, k') {
      assert MembersUpTo(issues, n + 1, k')
             == MembersUpTo(issues, n, k') + (if k == k' then [issues[n]] else []);
    }
  }

  /** The first pass of the Map-based algorithm: every issue is appended
      to the group under its key, and a new key is remembered in insertion
      order. */
  method CollectGroups(issues: seq<Issue>) returns (keys: seq<string>, groups: map<string, seq<Issue>>)
    ensures keys == Keys(issues)
    ensures forall k | k in keys :: k in groups && groups[k] == Members(issues, k)
  {
    keys := [];
    groups := map[];
    var n := 0;
    while n < |issues|
      invariant Collected(issues, n, keys, groups)
    {
      CollectStep(issues, n, keys, groups);
      keys := AddKey(keys, groups, issues[n]);
      groups := AddToGroup(groups, issues[n]);
      n := n + 1;
    }
    assert n == |issues|;
  }

  /** Applies `f` to every element, in order. */
  method MapEach<A, B>(xs: seq<A>, f: A --> B) returns (ys: seq<B>)
    requires forall t | 0 <= t < |xs| :: f.requires(xs[t])
    ensures |ys| == |xs|
    ensures forall t | 0 <= t < |xs| :: ys[t] == f(xs[t])
  {
    ys := [];
    var j := 0;
    while j < |xs|
      invariant 0 <= j <= |xs| && |ys| == j
      invariant forall t | 0 <= t < j :: ys[t] == f(xs[t])
    {
      ys := ys + [f(xs[j])];
      j := j + 1;
    }
  }

  /** The second pass: merges the group of every key, in key order. */
  method MergeGroups(keys: seq<string>, groups: map<string, seq<Issue>>) returns (out: seq<Issue>)
    requires forall k | k in keys :: k in groups && |groups[k]| > 0
    ensures |out| == |keys|
    ensures forall j | 0 <= j < |keys| :: out[j] == Merge(groups[keys[j]])
  {
    var lists := seq(|keys|, t requires 0 <= t < |keys| => assert keys[t] in keys; groups[keys[t]]);
    assert forall t | 0 <= t < |lists| :: |lists[t]| >= 1 by {
      forall t | 0 <= t < |lists| ensures |lists[t]| >= 1 {
        assert keys[t] in keys;
      }
    }
    out := MapEach(lists, Merge);
  }

  /** `groupSimilarIssues(issues)`: collect the groups, then merge each one
      in key insertion order. */
  method GroupSimilarIssues(issues: seq<Issue>) returns (out: seq<Issue>)
    ensures out == Grouped(issues)
  {
    var keys, groups := CollectGroups(issues);
    MembersOfKeys(issues);
    out := MergeGroups(keys, groups);
    forall j | 0 <= j < |keys| ensures out[j] == Grouped(issues)[j] {
      assert keys[j] in keys;
    }
  }
}
