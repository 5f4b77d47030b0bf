/** Port sets: lib/net/ports.c, sorting and merging on demand, and the resumable iterator. */
module Ports {
  import opened Ranges
  import opened Compress

  // ----- qsort with rangecmp

  function Insert(rs: seq<Range>, r: Range): (t: seq<Range>)
    requires Sorted(rs)
    ensures Sorted(t) && multiset(t) == multiset(rs) + multiset{r} && |t| == |rs| + 1
  {
    if rs == [] || Before(rs[|rs| - 1], r) then rs + [r]
    else
      var n := |rs| - 1;
      assert rs == rs[..n] + [rs[n]];
      var t := Insert(rs[..n], r);
      SortedAppends(t, rs[n], rs[..n], r);
      t + [rs[n]]
  }

  lemma SortedAppends(t: seq<Range>, last: Range, rs: seq<Range>, r: Range)
    requires Sorted(t) && multiset(t) == multiset(rs) + multiset{r}
    requires Before(r, last) && forall i :: 0 <= i < |rs| ==> Before(rs[i], last)
    ensures Sorted(t + [last])
  {
    forall i | 0 <= i < |t| ensures Before(t[i], last) {
      assert t[i] in multiset(t);
      assert t[i] in multiset(rs) || t[i] == r;
    }
  }

  function SortRanges(rs: seq<Range>): (t: seq<Range>)
    ensures Sorted(t) && multiset(t) == multiset(rs) && |t| == |rs|
  {
    if rs == [] then []
    else
      var n := |rs| - 1;
      assert rs == rs[..n] + [rs[n]];
      Insert(SortRanges(rs[..n]), rs[n])
  }

  lemma PermutationCovers(a: seq<Range>, b: seq<Range>)
    requires multiset(a) == multiset(b)
    ensures SameCover(a, b) && (Proper(a) ==> Proper(b))
  {
    forall x ensures Covers(a, x) <==> Covers(b, x) {
      PermutationCoversOne(a, b, x);
      PermutationCoversOne(b, a, x);
    }
    forall i | 0 <= i < |b| ensures b[i] in a {
      assert b[i] in multiset(b);
    }
  }

  lemma PermutationCoversOne(a: seq<Range>, b: seq<Range>, x: int)
    requires multiset(a) == multiset(b)
    ensures Covers(a, x) ==> Covers(b, x)
  {
    if Covers(a, x) {
      var i :| 0 <= i < |a| && In(a[i], x);
      assert a[i] in multiset(b);
      var j :| 0 <= j < |b| && b[j] == a[i];
      assert In(b[j], x);
    }
  }

  method SortInPlace(a: array<Range>, n: nat)
    requires n <= a.Length && Proper(a[..n])
    modifies a
    ensures a[..n] == SortRanges(old(a[..n]))
    ensures Sorted(a[..n]) && Proper(a[..n]) && SameCover(a[..n], old(a[..n]))
  {
    var sorted := SortRanges(a[..n]);
    PermutationCovers(a[..n], sorted);
    forall i | 0 <= i < n {
      a[i] := sorted[i];
    }
    assert a[..n] == sorted;
  }

  lemma SameCoverThrough(a: seq<Range>, b: seq<Range>, c: seq<Range>)
    requires SameCover(a, b) && SameCover(b, c)
    ensures SameCover(a, c)
  {
  }

  /**
   _undirtify on the first `n` entries: the normal form comes first, and all `n` entries together
   still cover the same ports, so the same entries can be sorted and merged again.
   */
  method Normalize(a: array<Range>, n: nat, ghost form: seq<Range>) returns (m: nat)
    requires 0 < n <= a.Length && Proper(a[..n]) && Normal(form) && SameCover(a[..n], form)
    modifies a
    ensures m <= n && a[..m] == form
    ensures Proper(a[..n]) && SameCover(a[..n], form)
  {
    ghost var e0 := a[..n];
    SortInPlace(a, n);
    ghost var e1 := a[..n];
    SameCoverThrough(e1, e0, form);
    m := CompressRanges(a, n);
    SameCoverThrough(a[..m], e1, form);
    SameCoverThrough(a[..n], e1, form);
    NormalFormUnique(a[..m], form);
  }

  // ----- the normal form every set of ranges has

  lemma {:induction false} MergeRest(s: seq<Range>, done: seq<Range>, k: nat) returns (f: seq<Range>)
    requires Sorted(s) && Proper(s) && Merged(s, done, k)
    ensures Normal(f) && SameCover(f, s)
    decreases |s| - k
  {
    if k == |s| {
      assert s[..k] == s;
      f := done;
    } else if done[|done| - 1].end + 1 >= s[k].start {
      MergedJoins(s, done, k);
      f := MergeRest(s, done[|done| - 1 := Joined(done[|done| - 1], s[k])], k + 1);
    } else {
      MergedSplits(s, done, k);
      f := MergeRest(s, done + [s[k]], k + 1);
    }
  }

  lemma NormalFormExists(rs: seq<Range>) returns (f: seq<Range>)
    requires Proper(rs)
    ensures Normal(f) && SameCover(f, rs)
  {
    if rs == [] {
      f := [];
    } else {
      var s := SortRanges(rs);
      PermutationCovers(rs, s);
      MergedStarts(s);
      f := MergeRest(s, [s[0]], 1);
    }
  }

  // ----- the port set

  /** The ports in ascending order. */
  ghost function Listing(form: seq<Range>): (s: seq<int>) {
    Enum(form, |form|)
  }

  /** Sorted, disjoint and non-adjacent ranges of ports. */
  ghost predicate PortForm(form: seq<Range>) {
    Normal(form) && forall i :: 0 <= i < |form| ==> 0 <= form[i].start <= form[i].end < 65536
  }

  class PortRanges {
    var ranges: array<Range>
    var nranges: nat
    var currRange: nat
    var currPort: int
    var dirty: bool
    ghost var form: seq<Range>  // the normal form of the set
    ghost var pos: nat          // how many of its ports this cycle has returned

    /** The first `n` entries cover exactly the set. */
    ghost predicate Holds(n: nat)
      reads this, ranges
    {
      n <= ranges.Length && Proper(ranges[..n]) && SameCover(ranges[..n], form)
    }

    ghost predicate Valid()
      reads this, ranges
    {
      && Holds(nranges) && PortForm(form)
      && (dirty ==> nranges > 0 && form != [] && currRange == 0 && currPort == 0)
      && (!dirty ==> ranges[..nranges] == form)
      && CursorAt(form, currRange, Begun(), currPort, pos)
    }

    /** Range 0 and port 0 mean that the cycle has not begun, or begins with port 0. */
    predicate Begun()
      reads this
    {
      currRange != 0 || currPort != 0
    }

    /** What port_ranges_from_str leaves for the ranges it read. */
    constructor (rs: seq<Range>)
      requires Proper(rs) && forall i :: 0 <= i < |rs| ==> 0 <= rs[i].start <= rs[i].end < 65536
      ensures Valid() && fresh(ranges) && Normal(form) && SameCover(form, rs) && pos == 0
    {
      ranges := new Range[|rs|](i requires 0 <= i < |rs| => rs[i]);
      nranges, currRange, currPort, dirty := |rs|, 0, 0, rs != [];
      ghost var f := NormalFormExists(rs);
      PortFormOf(rs, f);
      form, pos := f, 0;
      new;
      assert ranges[..nranges] == rs;
    }

    /** A copy of a port set that has not been iterated: it shares the array. */
    method Load(a: array<Range>, n: nat, ghost f: seq<Range>)
      requires n <= a.Length && Proper(a[..n]) && SameCover(a[..n], f) && PortForm(f) && (n == 0 <==> f == [])
      modifies this
      ensures Valid() && ranges == a && nranges == n && form == f && pos == 0
    {
      ranges, nranges, currRange, currPort, dirty := a, n, 0, 0, n > 0;
      form, pos := f, 0;
    }

    method Undirtify()
      requires Valid() && dirty
      modifies this, ranges
      ensures Valid() && !dirty && form == old(form) && pos == old(pos) && ranges == old(ranges)
      ensures Holds(old(nranges)) && currRange == 0 && currPort == 0
    {
      nranges := Normalize(ranges, nranges, form);
      dirty := false;
    }

    /** port_ranges_next: the ports of the set in ascending order, each once, then the end. */
    method Next() returns (ok: bool, out: int)
      requires Valid()
      modifies this, ranges
      ensures Valid() && !dirty && form == old(form) && ranges == old(ranges)
      ensures ok <==> old(pos) < |Listing(form)|
      ensures ok ==> out == Listing(form)[old(pos)] && pos == old(pos) + 1
      ensures !ok ==> pos == 0
      ensures old(dirty) ==> Holds(old(nranges))
      ensures !old(dirty) ==> ranges[..] == old(ranges[..]) && nranges == old(nranges)
    {
      if dirty {
        Undirtify();
      }
      ok, out := Take();
    }

    method Take() returns (ok: bool, out: int)
      requires Valid() && !dirty
      modifies `currRange, `currPort, `pos
      ensures Valid()
      ensures ok <==> old(pos) < |Listing(form)|
      ensures ok ==> out == Listing(form)[old(pos)] && pos == old(pos) + 1
      ensures !ok ==> pos == 0
    {
      assert |form| == nranges;
      if currRange >= nranges {
        currRange, currPort, pos := 0, 0, 0;
        return false, 0;
      }
      if currRange == 0 && currPort == 0 {
        currPort := ranges[0].start;
      }
      out := currPort;
      currRange, currPort := Step(ranges, nranges, form, currRange, currPort, pos);
      pos := pos + 1;
      ok := true;
    }
  }

  /** The cursor's move. The start of the range behind the last one is not loaded: it would never be used. */
  method Step(ranges: array<Range>, nranges: nat, ghost form: seq<Range>, range: nat, port: int, ghost pos: nat)
    returns (range': nat, port': int)
    requires nranges <= ranges.Length && ranges[..nranges] == form && PortForm(form)
    requires range < nranges && CursorAt(form, range, true, port, pos)
    ensures pos < |Listing(form)| && Listing(form)[pos] == port
    ensures CursorAt(form, range', true, port', pos + 1) && (range' != 0 || port' != 0)
  {
    assert ranges[range] == form[range];
    range', port' := range, port;
    if ranges[range].end > port {
      port' := port + 1;
    } else {
      range' := range + 1;
      if range' < nranges {
        port' := ranges[range'].start;
      }
    }
    CursorMoves(form, range, port, pos, range', port');
  }

  lemma PortFormOf(rs: seq<Range>, f: seq<Range>)
    requires Proper(rs) && (forall i :: 0 <= i < |rs| ==> 0 <= rs[i].start <= rs[i].end < 65536)
    requires Normal(f) && SameCover(f, rs)
    ensures PortForm(f) && (rs == [] <==> f == [])
  {
    StartIsCovered(rs);
    StartIsCovered(f);
    forall i | 0 <= i < |f| ensures 0 <= f[i].start <= f[i].end < 65536 {
      assert In(f[i], f[i].start) && In(f[i], f[i].end);
      assert Covers(f, f[i].start) && Covers(rs, f[i].start);
      assert Covers(f, f[i].end) && Covers(rs, f[i].end);
    }
  }
}
