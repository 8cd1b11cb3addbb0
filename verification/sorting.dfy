/** `Array.prototype.sort` with a numeric comparator `(a, b) => key(a) - key(b)`:
    a stable sort into ascending key order, written as an insertion sort. */
module Sorting {

  /** Keys ascend along `s`. */
  predicate SortedBy<T>(s: seq<T>, key: T -> int) {
    forall i, j | 0 <= i < j < |s| :: key(s[i]) <= key(s[j])
  }

  /** Inserts `x` in front of the first element whose key is not below
      `key(x)`. */
  function Insert<T>(x: T, s: seq<T>, key: T -> int): (r: seq<T>)
    requires SortedBy(s, key)
    ensures SortedBy(r, key)
    ensures multiset(r) == multiset(s) + multiset{x}
    ensures |r| == |s| + 1
    ensures forall k | 0 <= k < |r| :: key(x) <= key(r[k]) || (|s| > 0 && key(s[0]) <= key(r[k]))
  {
    if |s| == 0 || key(x) <= key(s[0]) then [x] + s
    else
      var rest := Insert(x, s[1..], key);
      InsertBehind(x, s, key, rest);
      [s[0]] + rest
  }

  /** The step of `Insert` that keeps the head: `x` goes into the tail. */
  lemma InsertBehind<T>(x: T, s: seq<T>, key: T -> int, rest: seq<T>)
    requires |s| > 0 && key(s[0]) < key(x) && SortedBy(s, key)
    requires SortedBy(rest, key) && multiset(rest) == multiset(s[1..]) + multiset{x}
    requires |rest| == |s|
    requires forall k | 0 <= k < |rest| :: key(x) <= key(rest[k]) || (|s| > 1 && key(s[1]) <= key(rest[k]))
    ensures SortedBy([s[0]] + rest, key)
    ensures multiset([s[0]] + rest) == multiset(s) + multiset{x}
    ensures forall k | 0 <= k < |rest| + 1 :: key(s[0]) <= key(([s[0]] + rest)[k])
  {
    assert s == [s[0]] + s[1..];
    assert forall k | 0 <= k < |rest| :: key(s[0]) <= key(rest[k]);
    SortedCons(s[0], rest, key);
  }

  /** An element no greater than any of a sorted sequence sorts in front
      of it. */
  lemma SortedCons<T>(y: T, s: seq<T>, key: T -> int)
    requires SortedBy(s, key)
    requires forall k | 0 <= k < |s| :: key(y) <= key(s[k])
    ensures SortedBy([y] + s, key)
  {
    var r := [y] + s;
    forall i, j | 0 <= i < j < |r| ensures key(r[i]) <= key(r[j]) {
      assert r[j] == s[j - 1];
      if i > 0 {
        assert r[i] == s[i - 1];
      }
    }
  }

  /** Sorts by ascending key; elements with equal keys keep their order. */
  function SortBy<T>(s: seq<T>, key: T -> int): (r: seq<T>)
    ensures SortedBy(r, key)
    ensures multiset(r) == multiset(s)
    ensures |r| == |s|
  {
    if |s| == 0 then []
    else
      assert s == [s[0]] + s[1..];
      Insert(s[0], SortBy(s[1..], key), key)
  }

  /** `a` is a prefix of `b`. */
  ghost predicate IsPrefix<T>(a: seq<T>, b: seq<T>) {
    |a| <= |b| && a == b[..|a|]
  }

  /** The elements of `s` whose key is `v`, in their order in `s`. */
  function WithKey<T>(s: seq<T>, key: T -> int, v: int): (r: seq<T>)
    ensures |r| <= |s|
    ensures forall k | 0 <= k < |r| :: key(r[k]) == v
  {
    if |s| == 0 then []
    else (if key(s[0]) == v then [s[0]] else []) + WithKey(s[1..], key, v)
  }

  /** `Insert` puts `x` in front of every element with the same key. */
  lemma {:induction false} InsertWithKey<T>(x: T, s: seq<T>, key: T -> int, v: int)
    requires SortedBy(s, key)
    ensures WithKey(Insert(x, s, key), key, v)
            == (if key(x) == v then [x] else []) + WithKey(s, key, v)
  {
    var r := Insert(x, s, key);
    if |s| == 0 || key(x) <= key(s[0]) {
      assert r == [x] + s;
      WithKeyCons(x, s, key, v);
    } else {
      var rest := Insert(x, s[1..], key);
      assert r == [s[0]] + rest;
      InsertWithKey(x, s[1..], key, v);
      WithKeyBehind(x, s[0], s[1..], rest, key, v);
      assert [s[0]] + s[1..] == s;
    }
  }

  /** The step of `InsertWithKey` past a head `h` with a smaller key than
      `x`: `h` stays in front of whatever `x` contributes. */
  lemma WithKeyBehind<T>(x: T, h: T, t: seq<T>, rest: seq<T>, key: T -> int, v: int)
    requires key(h) < key(x)
    requires WithKey(rest, key, v) == (if key(x) == v then [x] else []) + WithKey(t, key, v)
    ensures WithKey([h] + rest, key, v) == (if key(x) == v then [x] else []) + WithKey([h] + t, key, v)
  {
    WithKeyCons(h, rest, key, v);
    WithKeyCons(h, t, key, v);
  }

  /** Keeping the elements with key `v` of a sequence with a head `y`. */
  lemma WithKeyCons<T>(y: T, s: seq<T>, key: T -> int, v: int)
    ensures WithKey([y] + s, key, v) == (if key(y) == v then [y] else []) + WithKey(s, key, v)
  {
    assert ([y] + s)[1..] == s;
  }

  /** The sort is stable: for every key, the elements with that key come
      out in the order they went in. */
  lemma {:induction false} SortByIsStable<T>(s: seq<T>, key: T -> int, v: int)
    ensures WithKey(SortBy(s, key), key, v) == WithKey(s, key, v)
  {
    if |s| > 0 {
      SortByIsStable(s[1..], key, v);
      InsertWithKey(s[0], SortBy(s[1..], key), key, v);
    }
  }

  /** Keeping the elements with one key commutes with taking a prefix: the
      kept elements of a prefix are a prefix of the kept elements. */
  lemma {:induction false} WithKeyOfPrefix<T>(s: seq<T>, key: T -> int, v: int, m: nat)
    requires m <= |s|
    ensures WithKey(s[..m], key, v) <= WithKey(s, key, v)
  {
    if m > 0 {
      assert s[..m][0] == s[0] && s[..m][1..] == s[1..][..m - 1];
      WithKeyOfPrefix(s[1..], key, v, m - 1);
    }
  }

  /** Sorting only rearranges: every element of the result is an input
      element. */
  lemma SortByKeepsElements<T>(s: seq<T>, key: T -> int)
    ensures forall k | 0 <= k < |SortBy(s, key)| :: SortBy(s, key)[k] in s
  {
    var r := SortBy(s, key);
    forall k | 0 <= k < |r| ensures r[k] in s {
      assert r[k] in multiset(r);
    }
  }

  /** Sorting loses nothing: every input element is in the result. */
  lemma SortByLosesNothing<T>(s: seq<T>, key: T -> int)
    ensures forall k | 0 <= k < |s| :: s[k] in SortBy(s, key)
  {
    var r := SortBy(s, key);
    forall k | 0 <= k < |s| ensures s[k] in r {
      assert s[k] in multiset(s);
    }
  }

  /** The first element of a sorted permutation has the least key. */
  lemma SortedFirstIsLeast<T>(s: seq<T>, key: T -> int)
    requires |s| > 0
    ensures forall k | 0 <= k < |s| :: key(SortBy(s, key)[0]) <= key(s[k])
    ensures SortBy(s, key)[0] in s
  {
    var r := SortBy(s, key);
    forall k | 0 <= k < |s| ensures key(r[0]) <= key(s[k]) {
      assert s[k] in multiset(r);
      var m :| 0 <= m < |r| && r[m] == s[k];
    }
    assert r[0] in multiset(s);
  }

  /** A prefix of the sorted sequence holds the least keys: whatever the
      prefix leaves out has a key no lower than anything it keeps. */
  lemma SortedPrefixIsLeast<T>(s: seq<T>, key: T -> int, m: nat)
    requires m <= |s|
    ensures forall x, y | x in SortBy(s, key)[..m] && y in s && y !in SortBy(s, key)[..m] ::
              key(x) <= key(y)
  {
    var r := SortBy(s, key);
    var p := r[..m];
    SortByLosesNothing(s, key);
    forall x, y | x in p && y in s && y !in p ensures key(x) <= key(y) {
      var a :| 0 <= a < m && p[a] == x;
      var b :| 0 <= b < |r| && r[b] == y;
      forall i | 0 <= i < m ensures r[i] != y {
        assert p[i] == r[i] && p[i] in p;
      }
      assert m <= b;
    }
  }

  /** The first `n` elements after sorting (`sort` then `slice(0, n)`). */
  function FirstBy<T>(s: seq<T>, key: T -> int, n: nat): (r: seq<T>)
    ensures |r| == if n <= |s| then n else |s|
    ensures SortedBy(r, key)
    ensures multiset(r) <= multiset(s)
    ensures forall k | 0 <= k < |r| :: r[k] in s
  {
    var sorted := SortBy(s, key);
    var m := if n <= |sorted| then n else |sorted|;
    SortByKeepsElements(s, key);
    SortedPrefix(sorted, key, m);
    sorted[..m]
  }

  /** A prefix of a sorted sequence is sorted and drawn from it. */
  lemma SortedPrefix<T>(t: seq<T>, key: T -> int, m: nat)
    requires SortedBy(t, key) && m <= |t|
    ensures SortedBy(t[..m], key)
    ensures multiset(t[..m]) <= multiset(t)
    ensures forall k | 0 <= k < m :: t[..m][k] in t
  {
    assert t == t[..m] + t[m..];
  }

  /** Cutting the sorted sequence keeps stability: for every key, the kept
      elements with that key are the first ones of the input with that
      key, in input order. */
  lemma FirstByIsStable<T>(s: seq<T>, key: T -> int, v: int, n: nat)
    ensures IsPrefix(WithKey(FirstBy(s, key, n), key, v), WithKey(s, key, v))
  {
    var sorted := SortBy(s, key);
    var m := if n <= |sorted| then n else |sorted|;
    WithKeyOfPrefix(sorted, key, v, m);
    SortByIsStable(s, key, v);
  }

  /** What the cut drops has a key no lower than anything it keeps. */
  lemma FirstByIsLeast<T>(s: seq<T>, key: T -> int, n: nat)
    ensures forall x, y | x in FirstBy(s, key, n) && y in s && y !in FirstBy(s, key, n) ::
              key(x) <= key(y)
  {
    var m := if n <= |s| then n else |s|;
    SortedPrefixIsLeast(s, key, m);
  }
}
