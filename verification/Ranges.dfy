/** Inclusive ranges, what they cover, their normal form, and their enumeration. */
module Ranges {
  datatype Range = Range(start: int, end: int)

  predicate In(r: Range, x: int) {
    r.start <= x <= r.end
  }

  ghost predicate Covers(rs: seq<Range>, x: int) {
    exists i :: 0 <= i < |rs| && In(rs[i], x)
  }

  ghost predicate SameCover(a: seq<Range>, b: seq<Range>) {
    forall x :: Covers(a, x) <==> Covers(b, x)
  }

  predicate Proper(rs: seq<Range>) {
    forall i :: 0 <= i < |rs| ==> rs[i].start <= rs[i].end
  }

  /** Sorted, pairwise disjoint and not even adjacent. */
  predicate Normal(rs: seq<Range>) {
    && Proper(rs)
    && forall i, j :: 0 <= i < j < |rs| ==> rs[i].end + 1 < rs[j].start
  }

  predicate Before(a: Range, b: Range) {
    a.start < b.start || (a.start == b.start && a.end <= b.end)
  }

  predicate Sorted(rs: seq<Range>) {
    forall i, j :: 0 <= i < j < |rs| ==> Before(rs[i], rs[j])
  }

  // ----- the normal form is determined by what is covered

  lemma CoversHeadTail(rs: seq<Range>, x: int)
    requires rs != []
    ensures Covers(rs, x) <==> In(rs[0], x) || Covers(rs[1..], x)
  {
    if Covers(rs, x) {
      var i :| 0 <= i < |rs| && In(rs[i], x);
      if i > 0 {
        assert In(rs[1..][i - 1], x);
      }
    }
    if Covers(rs[1..], x) {
      var i :| 0 <= i < |rs[1..]| && In(rs[1..][i], x);
      assert In(rs[i + 1], x);
    }
  }

  lemma TailCovers(rs: seq<Range>, x: int)
    requires Normal(rs) && rs != []
    ensures Covers(rs[1..], x) <==> Covers(rs, x) && x > rs[0].end
  {
    CoversHeadTail(rs, x);
    if Covers(rs[1..], x) {
      var i :| 0 <= i < |rs[1..]| && In(rs[1..][i], x);
      assert rs[0].end + 1 < rs[i + 1].start;
    }
  }

  /** The first range of a normal form: starts at the least covered point and ends before a gap. */
  lemma FirstRange(rs: seq<Range>)
    requires Normal(rs) && rs != []
    ensures forall x :: Covers(rs, x) ==> x >= rs[0].start
    ensures forall x :: In(rs[0], x) ==> Covers(rs, x)
    ensures !Covers(rs, rs[0].end + 1)
  {
    forall x | Covers(rs, x) ensures x >= rs[0].start && x != rs[0].end + 1 {
      var i :| 0 <= i < |rs| && In(rs[i], x);
      if i > 0 {
        assert rs[0].end + 1 < rs[i].start;
      }
    }
  }

  lemma StartIsCovered(rs: seq<Range>)
    requires Proper(rs)
    ensures rs != [] ==> Covers(rs, rs[0].start)
  {
    assert rs != [] ==> In(rs[0], rs[0].start);
  }

  lemma {:induction false} NormalFormUnique(a: seq<Range>, b: seq<Range>)
    requires Normal(a) && Normal(b) && SameCover(a, b)
    ensures a == b
  {
    if a == [] {
      StartIsCovered(b);
    } else {
      StartIsCovered(a);
      FirstRange(a);
      FirstRange(b);
      StartIsCovered(b);
      assert a[0].start == b[0].start;
      SameFirstEnd(a, b);
      forall x ensures Covers(a[1..], x) <==> Covers(b[1..], x) {
        TailCovers(a, x);
        TailCovers(b, x);
      }
      NormalFormUnique(a[1..], b[1..]);
      assert a == [a[0]] + a[1..] && b == [b[0]] + b[1..];
    }
  }

  lemma SameFirstEnd(a: seq<Range>, b: seq<Range>)
    requires Normal(a) && Normal(b) && SameCover(a, b) && a != [] && b != []
    requires a[0].start == b[0].start
    ensures a[0].end == b[0].end
  {
    FirstRange(a);
    FirstRange(b);
    if a[0].end < b[0].end {
      assert In(b[0], a[0].end + 1);
    } else if b[0].end < a[0].end {
      assert In(a[0], b[0].end + 1);
    }
  }

  // ----- enumeration

  function Points(r: Range): (s: seq<int>)
    ensures |s| == (if r.start <= r.end then r.end - r.start + 1 else 0)
    ensures forall i :: 0 <= i < |s| ==> s[i] == r.start + i
  {
    seq(if r.start <= r.end then r.end - r.start + 1 else 0, i => r.start + i)
  }

  /** Every point of the first `n` ranges, range by range and ascending within each. */
  function Enum(rs: seq<Range>, n: nat): (s: seq<int>)
    requires n <= |rs|
  {
    if n == 0 then [] else Enum(rs, n - 1) + Points(rs[n - 1])
  }

  lemma {:induction false} EnumPrefix(rs: seq<Range>, n: nat, k: nat)
    requires n <= k <= |rs|
    ensures Enum(rs, n) <= Enum(rs, k)
  {
    if n < k {
      EnumPrefix(rs, n, k - 1);
    }
  }

  /** The point at offset `x` of range `n` sits right after all points of the ranges before. */
  lemma EnumAt(rs: seq<Range>, n: nat, x: int)
    requires n < |rs| && In(rs[n], x)
    ensures var i := |Enum(rs, n)| + (x - rs[n].start);
            i < |Enum(rs, |rs|)| && Enum(rs, |rs|)[i] == x
  {
    EnumPrefix(rs, n + 1, |rs|);
    assert Enum(rs, n + 1) == Enum(rs, n) + Points(rs[n]);
  }

  lemma {:induction false} EnumMember(rs: seq<Range>, n: nat, x: int)
    requires n <= |rs|
    ensures x in Enum(rs, n) <==> exists i :: 0 <= i < n && In(rs[i], x)
  {
    if n > 0 {
      EnumMember(rs, n - 1, x);
      if In(rs[n - 1], x) {
        assert Points(rs[n - 1])[x - rs[n - 1].start] == x;
      }
    }
  }

  /** On a normal form the enumeration is the strictly ascending list of the covered points. */
  lemma EnumAscends(rs: seq<Range>)
    requires Normal(rs)
    ensures forall i, j :: 0 <= i < j < |Enum(rs, |rs|)| ==> Enum(rs, |rs|)[i] < Enum(rs, |rs|)[j]
    ensures forall x :: x in Enum(rs, |rs|) <==> Covers(rs, x)
  {
    EnumAscendsUpTo(rs, |rs|);
    forall x ensures x in Enum(rs, |rs|) <==> Covers(rs, x) {
      EnumMember(rs, |rs|, x);
    }
  }

  lemma {:induction false} EnumAscendsUpTo(rs: seq<Range>, n: nat)
    requires Normal(rs) && n <= |rs|
    ensures forall i, j :: 0 <= i < j < |Enum(rs, n)| ==> Enum(rs, n)[i] < Enum(rs, n)[j]
  {
    if n > 0 {
      EnumAscendsUpTo(rs, n - 1);
      var s, p := Enum(rs, n - 1), Points(rs[n - 1]);
      forall i | 0 <= i < |s| ensures s[i] < rs[n - 1].start {
        EnumMember(rs, n - 1, s[i]);
        assert s[i] in s;
      }
    }
  }

  // ----- a cursor that can be resumed

  /**
   Where an iteration over the first |rs| ranges stands, as an index into their enumeration:
   not begun, at point `x` of range `n`, or behind the last range.
   */
  ghost predicate CursorAt(rs: seq<Range>, n: nat, begun: bool, x: int, pos: nat) {
    if n >= |rs| then pos == |Enum(rs, |rs|)|
    else if !begun then n == 0 && pos == 0
    else In(rs[n], x) && pos == |Enum(rs, n)| + (x - rs[n].start)
  }

  /** The point under the cursor is the enumerated one; `n2` and `y` are where the cursor goes from there. */
  lemma CursorMoves(rs: seq<Range>, n: nat, x: int, pos: nat, n2: nat, y: int)
    requires Proper(rs) && n < |rs| && CursorAt(rs, n, true, x, pos)
    requires n2 == if x < rs[n].end then n else n + 1
    requires n2 < |rs| ==> y == if x < rs[n].end then x + 1 else rs[n2].start
    ensures pos < |Enum(rs, |rs|)| && Enum(rs, |rs|)[pos] == x
    ensures CursorAt(rs, n2, true, y, pos + 1)
  {
    EnumAt(rs, n, x);
    assert Enum(rs, n + 1) == Enum(rs, n) + Points(rs[n]);
  }
}
