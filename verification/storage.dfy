/** `MemStorage`: the in-memory store of users and analyses as a state
    machine. Each kind of record has its own id counter starting at 1; a
    record's id is the counter's value when it was created, so the maps'
    insertion order is ascending id order. */
module Storage {
  import opened Wrappers
  import opened Schema
  import Sorting

  /** A user record. The source accepts any object with a `username`;
      the model fixes it to a username and a password. */
  datatype NewUser = NewUser(username: string, password: string)
  datatype User = User(id: nat, username: string, password: string)

  /** What a caller hands to `createCodeAnalysis`. */
  datatype AnalysisData = AnalysisData(
    code: string,
    language: string,
    qualityScore: int,
    issues: seq<Issue>,
    optimizedCode: Option<string>)

  datatype Store = Store(
    users: map<nat, User>,
    analyses: map<nat, CodeAnalysis>,
    currentUserId: nat,
    currentAnalysisId: nat)

  /** The store's invariant: the ids in use are exactly those below each
      counter, and every record is filed under its own id. */
  predicate Valid(s: Store) {
    && s.currentUserId >= 1
    && s.currentAnalysisId >= 1
    && (forall id | id in s.users :: 1 <= id < s.currentUserId && s.users[id].id == id)
    && (forall id: nat | 1 <= id < s.currentUserId :: id in s.users)
    && (forall id | id in s.analyses :: 1 <= id < s.currentAnalysisId && s.analyses[id].id == id)
    && (forall id: nat | 1 <= id < s.currentAnalysisId :: id in s.analyses)
  }

  /** The empty store built by the constructor. */
  function Init(): (s: Store)
    ensures Valid(s)
    ensures s.users == map[] && s.analyses == map[]
  {
    Store(map[], map[], 1, 1)
  }

  // --------------------------------------------------------------- users

  /** `getUser(id)` */
  function GetUser(s: Store, id: nat): (r: Option<User>)
    ensures r.Some? <==> id in s.users
    ensures r.Some? ==> r.value == s.users[id]
  {
    if id in s.users then Some(s.users[id]) else None
  }

  /** The first user at or after id `from` named `username`, in insertion
      order. */
  function FindUser(s: Store, username: string, from: nat): (r: Option<User>)
    requires Valid(s) && from >= 1
    ensures r.Some? ==> && r.value.id in s.users && s.users[r.value.id] == r.value
                        && from <= r.value.id && r.value.username == username
                        && forall id | from <= id < r.value.id :: s.users[id].username != username
    ensures r.None? ==> forall id | from <= id < s.currentUserId :: s.users[id].username != username
    decreases s.currentUserId - from
  {
    if from >= s.currentUserId then None
    else if s.users[from].username == username then Some(s.users[from])
    else FindUser(s, username, from + 1)
  }

  /** `getUserByUsername(username)`: the earliest created user with that
      name, if any. */
  function GetUserByUsername(s: Store, username: string): (r: Option<User>)
    requires Valid(s)
    ensures r.Some? ==> && r.value.id in s.users && s.users[r.value.id] == r.value
                        && r.value.username == username
                        && forall id | id in s.users && id < r.value.id :: s.users[id].username != username
    ensures r.None? <==> forall id | id in s.users :: s.users[id].username != username
  {
    FindUser(s, username, 1)
  }

  /** `createUser(user)`: files the user under the next user id. */
  function CreateUser(s: Store, u: NewUser): (res: (Store, User))
    ensures var (s', user) := res;
            && (Valid(s) ==> Valid(s') && user.id !in s.users)
            && user == User(s.currentUserId, u.username, u.password)
            && s'.users == s.users[user.id := user]
            && s'.currentUserId == s.currentUserId + 1
            && s'.analyses == s.analyses
            && s'.currentAnalysisId == s.currentAnalysisId
  {
    var user := User(s.currentUserId, u.username, u.password);
    (s.(users := s.users[user.id := user], currentUserId := s.currentUserId + 1), user)
  }

  // ------------------------------------------------------------ analyses

  /** `optimizedCode || null`: an absent or empty rewrite is stored as
      null, anything else verbatim. */
  function StoredCode(code: Option<string>): (r: Option<string>)
    ensures r.None? <==> code.None? || code.value == ""
    ensures r.Some? ==> r == code
  {
    if code.Some? && code.value != "" then code else None
  }

  /** `createCodeAnalysis(data)` at time `now`: files the record under the
      next analysis id. */
  function CreateCodeAnalysis(s: Store, d: AnalysisData, now: int): (res: (Store, CodeAnalysis))
    ensures var (s', r) := res;
            && (Valid(s) ==> Valid(s') && r.id !in s.analyses)
            && r.id == s.currentAnalysisId
            && r.code == d.code && r.language == d.language
            && r.qualityScore == d.qualityScore && r.issues == d.issues
            && r.optimizedCode == StoredCode(d.optimizedCode)
            && r.createdAt == Some(now)
            && s'.analyses == s.analyses[r.id := r]
            && s'.currentAnalysisId == s.currentAnalysisId + 1
            && s'.users == s.users && s'.currentUserId == s.currentUserId
  {
    var r := CodeAnalysis(s.currentAnalysisId, d.code, d.language, d.qualityScore, d.issues,
                          StoredCode(d.optimizedCode), Some(now));
    (s.(analyses := s.analyses[r.id := r], currentAnalysisId := s.currentAnalysisId + 1), r)
  }

  /** `getCodeAnalysis(id)` */
  function GetCodeAnalysis(s: Store, id: nat): (r: Option<CodeAnalysis>)
    ensures r.Some? <==> id in s.analyses
    ensures r.Some? ==> r.value == s.analyses[id]
  {
    if id in s.analyses then Some(s.analyses[id]) else None
  }

  /** Reading back a record just created returns it; every other id reads
      as before, and the users are untouched. */
  lemma GetAfterCreate(s: Store, d: AnalysisData, now: int, id: nat)
    requires Valid(s)
    ensures var (s', r) := CreateCodeAnalysis(s, d, now);
            && GetCodeAnalysis(s', r.id) == Some(r)
            && (id != r.id ==> GetCodeAnalysis(s', id) == GetCodeAnalysis(s, id))
            && GetUser(s', id) == GetUser(s, id)
  {
  }

  /** An id the counter has not reached, or 0, was never assigned. */
  lemma NeverAssignedIsAbsent(s: Store, id: nat)
    requires Valid(s)
    ensures id == 0 || id >= s.currentAnalysisId ==> GetCodeAnalysis(s, id) == None
  {
  }

  /** Running `createCodeAnalysis` over `ds`, one call per element, with
      the call times `times`. */
  function CreateAll(s: Store, ds: seq<AnalysisData>, times: seq<int>): (s': Store)
    requires |times| == |ds|
    ensures Valid(s) ==> Valid(s')
    ensures s'.currentAnalysisId == s.currentAnalysisId + |ds|
    decreases |ds|
  {
    if |ds| == 0 then s
    else CreateAll(CreateCodeAnalysis(s, ds[0], times[0]).0, ds[1..], times[1..])
  }

  /** The record `createCodeAnalysis(d)` files under `id` at time `now`. */
  function RecordOf(id: nat, d: AnalysisData, now: int): CodeAnalysis {
    CodeAnalysis(id, d.code, d.language, d.qualityScore, d.issues, StoredCode(d.optimizedCode), Some(now))
  }

  /** The `k`-th call (counting from 1) files its data, stamped with its
      call time, under the `k`-th id from the counter on. */
  lemma {:induction false} NthCreateGetsIdN(s: Store, ds: seq<AnalysisData>, times: seq<int>, k: nat)
    requires |times| == |ds|
    requires 1 <= k <= |ds|
    ensures s.currentAnalysisId + k - 1 in CreateAll(s, ds, times).analyses
    ensures CreateAll(s, ds, times).analyses[s.currentAnalysisId + k - 1]
            == RecordOf(s.currentAnalysisId + k - 1, ds[k - 1], times[k - 1])
    decreases |ds|
  {
    var s1 := CreateCodeAnalysis(s, ds[0], times[0]).0;
    assert CreateAll(s, ds, times) == CreateAll(s1, ds[1..], times[1..]);
    if k == 1 {
      assert s1.analyses[s.currentAnalysisId] == RecordOf(s.currentAnalysisId, ds[0], times[0]);
      LaterCreatesKeep(s1, ds[1..], times[1..], s.currentAnalysisId);
    } else {
      NthCreateGetsIdN(s1, ds[1..], times[1..], k - 1);
      assert ds[1..][k - 2] == ds[k - 1] && times[1..][k - 2] == times[k - 1];
    }
  }

  /** Later creations leave an existing record alone. */
  lemma {:induction false} LaterCreatesKeep(s: Store, ds: seq<AnalysisData>, times: seq<int>, id: nat)
    requires |times| == |ds| && id in s.analyses && id < s.currentAnalysisId
    ensures id in CreateAll(s, ds, times).analyses
    ensures CreateAll(s, ds, times).analyses[id] == s.analyses[id]
    decreases |ds|
  {
    if |ds| > 0 {
      LaterCreatesKeep(CreateCodeAnalysis(s, ds[0], times[0]).0, ds[1..], times[1..], id);
    }
  }

  // ------------------------------------------------------ recent analyses

  /** The stored analyses in insertion order, which is ascending id. */
  function InOrder(s: Store): (rs: seq<CodeAnalysis>)
    requires Valid(s)
    ensures |rs| == s.currentAnalysisId - 1
    ensures forall k | 0 <= k < |rs| :: rs[k] == s.analyses[k + 1]
  {
    seq(s.currentAnalysisId - 1, k requires 0 <= k < s.currentAnalysisId - 1 => s.analyses[k + 1])
  }

  /** `createdAt?.getTime() || 0`: a missing timestamp sorts as 0. */
  function RecencyKey(r: CodeAnalysis): (k: int)
    ensures k == 0 <==> r.createdAt.None? || r.createdAt == Some(0)
    ensures k != 0 ==> r.createdAt == Some(k)
  {
    match r.createdAt
    case None => 0
    case Some(t) => t
  }

  /** The comparator `b - a` on recency keys as an ascending sort key. */
  function NewestFirst(r: CodeAnalysis): int {
    -RecencyKey(r)
  }

  /** The limit used when the caller gives none. */
  const DefaultRecentLimit: nat := 10

  /** `getRecentAnalyses(limit)`: the stored analyses newest first (a stable
      sort, so equal times stay in insertion order), cut to `limit`. */
  function GetRecentAnalyses(s: Store, limit: Option<nat>): (r: seq<CodeAnalysis>)
    requires Valid(s)
    ensures var n := if limit.Some? then limit.value else DefaultRecentLimit;
            |r| == if n <= s.currentAnalysisId - 1 then n else s.currentAnalysisId - 1
    ensures forall a, b | 0 <= a < b < |r| :: RecencyKey(r[a]) >= RecencyKey(r[b])
    ensures forall k | 0 <= k < |r| :: r[k] in InOrder(s)
    ensures multiset(r) <= multiset(InOrder(s))
  {
    var n := if limit.Some? then limit.value else DefaultRecentLimit;
    Sorting.FirstBy(InOrder(s), NewestFirst, n)
  }

  /** Analyses created at the same time come out in insertion order: for
      every time (as its newest-first key `v`), the returned analyses with
      that time are the first ones stored with that time, in storage order. */
  lemma RecentTiesKeepInsertionOrder(s: Store, limit: Option<nat>, v: int)
    requires Valid(s)
    ensures Sorting.IsPrefix(Sorting.WithKey(GetRecentAnalyses(s, limit), NewestFirst, v),
                             Sorting.WithKey(InOrder(s), NewestFirst, v))
  {
    var n := if limit.Some? then limit.value else DefaultRecentLimit;
    Sorting.FirstByIsStable(InOrder(s), NewestFirst, v, n);
  }

  /** What the cut drops is no newer than anything it keeps. */
  lemma RecentAreNewest(s: Store, limit: Option<nat>)
    requires Valid(s)
    ensures forall x, y | x in GetRecentAnalyses(s, limit) && y in InOrder(s)
                          && y !in GetRecentAnalyses(s, limit) ::
              RecencyKey(y) <= RecencyKey(x)
  {
    var n := if limit.Some? then limit.value else DefaultRecentLimit;
    var r := GetRecentAnalyses(s, limit);
    Sorting.FirstByIsLeast(InOrder(s), NewestFirst, n);
    forall x, y | x in r && y in InOrder(s) && y !in r
      ensures RecencyKey(y) <= RecencyKey(x)
    {
      assert NewestFirst(x) <= NewestFirst(y);
    }
  }
}
