/** Generic facts about sequences used by the selection, dispatch and merge steps. */
module Sequences {

  /** `a` can be obtained from `b` by deleting elements, keeping the order of the rest. */
  predicate IsSubsequence<T(==)>(a: seq<T>, b: seq<T>)
    decreases |b|
  {
    if |a| == 0 then true
    else if |b| == 0 then false
    else if a[0] == b[0] then IsSubsequence(a[1..], b[1..])
    else IsSubsequence(a, b[1..])
  }

  predicate NoDuplicates<T(==)>(s: seq<T>) {
    forall i, j :: 0 <= i < j < |s| ==> s[i] != s[j]
  }

  /** `s[i]` is the last occurrence of its value in `s`. */
  predicate LastOccurrence<T(==)>(s: seq<T>, i: nat)
    requires i < |s|
  {
    forall j :: i < j < |s| ==> s[j] != s[i]
  }

  /** Python's `list(filter(p, s))`: the elements satisfying `p`, each as often as in `s`,
      in their original order. */
  function Filter<T(==,!new)>(s: seq<T>, p: T -> bool): (r: seq<T>)
    ensures forall x :: x in r <==> x in s && p(x)
    ensures IsSubsequence(r, s)
  {
    if |s| == 0 then []
    else
      var rest := Filter(s[1..], p);
      assert s == [s[0]] + s[1..];
      if p(s[0]) then
        [s[0]] + rest
      else
        assert |rest| > 0 ==> rest[0] in rest && rest[0] != s[0];
        rest
  }

  /** Filtering keeps each element that satisfies `p` exactly as often as it occurs,
      and drops every other element entirely. */
  lemma {:induction false} FilterMultiplicity<T(!new)>(s: seq<T>, p: T -> bool)
    ensures forall x :: multiset(Filter(s, p))[x] == if p(x) then multiset(s)[x] else 0
  {
    if |s| > 0 {
      FilterMultiplicity(s[1..], p);
      assert s == [s[0]] + s[1..];
    }
  }

  /** The values of `s` with repetitions dropped, each kept at its first position. */
  function Distinct<T(==,!new)>(s: seq<T>): (r: seq<T>)
    ensures forall x :: x in r <==> x in s
    ensures NoDuplicates(r)
    decreases |s|
  {
    if |s| == 0 then []
    else
      var n := |s| - 1;
      var d := Distinct(s[..n]);
      assert s == s[..n] + [s[n]];
      if s[n] in s[..n] then d else d + [s[n]]
  }

  /** The position of the first occurrence of `x` in `s`. */
  function FirstIndex<T(==)>(s: seq<T>, x: T): (i: nat)
    requires x in s
    ensures i < |s| && s[i] == x && x !in s[..i]
  {
    if s[0] == x then 0
    else
      assert x in s[1..] by { assert s == [s[0]] + s[1..]; }
      var k := FirstIndex(s[1..], x);
      assert s[..k + 1] == [s[0]] + s[1..][..k];
      k + 1
  }

  /** A value that occurs in a prefix has its first occurrence there. */
  lemma FirstIndexOfPrefix<T>(s: seq<T>, m: nat, x: T)
    requires m <= |s| && x in s[..m]
    ensures FirstIndex(s, x) == FirstIndex(s[..m], x)
  {
    var a := FirstIndex(s, x);
    var b := FirstIndex(s[..m], x);
    assert forall k :: 0 <= k < a ==> s[k] != x by {
      forall k | 0 <= k < a ensures s[k] != x { assert s[..a][k] == s[k]; }
    }
    assert forall k :: 0 <= k < b ==> s[k] != x by {
      forall k | 0 <= k < b ensures s[k] != x { assert s[..m][..b][k] == s[k]; }
    }
    assert s[b] == x;
  }

  /** `Distinct` lists the values in the order of their first occurrences. */
  lemma {:induction false} DistinctKeepsFirstOrder<T(!new)>(s: seq<T>, i: nat, j: nat)
    requires i < j < |Distinct(s)|
    ensures Distinct(s)[i] in s && Distinct(s)[j] in s
    ensures FirstIndex(s, Distinct(s)[i]) < FirstIndex(s, Distinct(s)[j])
    decreases |s|
  {
    var n := |s| - 1;
    var d := Distinct(s[..n]);
    var r := Distinct(s);
    assert r[i] in r && r[j] in r;
    if j < |d| {
      assert r[i] == d[i] && r[j] == d[j];
      assert d[i] in d && d[j] in d;
      DistinctKeepsFirstOrder(s[..n], i, j);
      FirstIndexOfPrefix(s, n, d[i]);
      FirstIndexOfPrefix(s, n, d[j]);
    } else {
      assert s[n] !in s[..n] && r[j] == s[n] && r[i] == d[i];
      assert d[i] in d;
      FirstIndexOfPrefix(s, n, d[i]);
      assert s[..n + 1] == s;
      assert FirstIndex(s, s[n]) == n;
    }
  }
}
