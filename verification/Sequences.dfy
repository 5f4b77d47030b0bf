/** Sequences without repetition, and regrouping. */
module Sequences {
  ghost predicate Distinct(s: seq<nat>) {
    forall i, j :: 0 <= i < j < |s| ==> s[i] != s[j]
  }

  function Below(bound: nat): (s: set<nat>)
    ensures |s| == bound && forall v: nat :: v in s <==> v < bound
  {
    if bound == 0 then {} else Below(bound - 1) + {bound - 1}
  }

  lemma Regroup<T>(a: seq<T>, b: seq<T>, c: seq<T>)
    ensures (a + b) + c == a + (b + c)
  {
  }

  /** A sequence without repetition is no longer than one that has all its members. */
  lemma {:induction false} NoLonger(a: seq<int>, b: seq<int>)
    requires (forall i, j :: 0 <= i < j < |a| ==> a[i] != a[j]) && forall x :: x in a ==> x in b
    ensures |a| <= |b|
  {
    if a != [] {
      var n, x := |a| - 1, a[|a| - 1];
      assert x in a;
      var k :| 0 <= k < |b| && b[k] == x;
      var rest := b[..k] + b[k + 1..];
      forall y | y in a[..n] ensures y in rest {
        assert y in b && y != x;
        var j :| 0 <= j < |b| && b[j] == y;
        assert y == if j < k then rest[j] else rest[j - 1];
      }
      NoLonger(a[..n], rest);
    }
  }
}
