/** Address blocks of lib/net/ip.c: the in-place merge, whose `last + 1` wraps, and the iterator. */
module Ip {
  import opened Addresses
  import opened Compress
  import opened Ports
  import opened Ranges
  import opened Wrappers

  predicate IsBlock(b: Range) {
    SameFamily(b.start, b.end) && b.start <= b.end
  }

  predicate Blocks(rs: seq<Range>) {
    forall i :: 0 <= i < |rs| ==> IsBlock(rs[i])
  }

  /** The test of compress_blocks for joining `next` to `curr`. */
  predicate Touches(curr: Range, next: Range)
    requires IsBlock(curr)
  {
    SameFamily(curr.start, next.start) && AddTo(curr.end, 1) >= next.start
  }

  /** A block that ends at its family's highest address comes before one that does not start at the lowest. */
  predicate Wraps(a: Range, b: Range) {
    a.end == AllOnes(a.end) && SameFamily(a.start, b.start) && b.start > Zero(b.start)
  }

  /** No two of the first `k` sorted blocks meet the wrapping `last + 1`. */
  predicate Clear(s: seq<Range>, k: nat)
    requires k <= |s|
  {
    forall i, j :: 0 <= i < j < k ==> !Wraps(s[i], s[j])
  }

  /** `done` covers what the first `k` of the sorted blocks `s` do, and its last block is the one to grow. */
  ghost predicate Grown(s: seq<Range>, done: seq<Range>, k: nat) {
    && done != [] && 0 < k <= |s| && Blocks(done) && SameCover(done, s[..k])
    && SameFamily(done[|done| - 1].start, s[k - 1].start)
    && (forall i :: k <= i < |s| ==> done[|done| - 1].start <= s[i].start)
  }

  /** `last` ends where one of the first `k` blocks does, at the highest address if any of its family does. */
  ghost predicate EndsLast(s: seq<Range>, last: Range, k: nat) {
    && k <= |s| && (exists i :: 0 <= i < k && s[i].end == last.end)
    && forall i :: 0 <= i < k && SameFamily(s[i].start, last.start) && s[i].end == AllOnes(s[i].end) ==>
        last.end == s[i].end
  }

  ghost predicate MergedBlocks(s: seq<Range>, done: seq<Range>, k: nat) {
    && Grown(s, done, k)
    && (Clear(s, k) ==> Merged(s, done, k) && EndsLast(s, done[|done| - 1], k))
    && (!Clear(s, k) ==> !Normal(done))
  }

  lemma MergedBlocksStarts(s: seq<Range>)
    requires s != [] && Sorted(s) && Blocks(s)
    ensures MergedBlocks(s, [s[0]], 1)
  {
    assert s[..1] == [s[0]];
    MergedStarts(s);
  }

  lemma TouchingMeets(a: Range, b: Range)
    requires IsBlock(a) && IsBlock(b) && a.start <= b.start
    ensures Touches(a, b) ==> b.start <= a.end + 1 && !(a.end == AllOnes(a.end) && b.start > Zero(b.start))
    ensures !Touches(a, b) && b.start <= a.end + 1 ==> Wraps(a, b)
    ensures b.start > a.end + 1 ==> !Touches(a, b)
  {
    SuccessorWraps(a.end);
  }

  lemma ClearJoins(s: seq<Range>, done: seq<Range>, k: nat)
    requires Sorted(s) && Blocks(s) && MergedBlocks(s, done, k) && k < |s|
    requires Touches(done[|done| - 1], s[k])
    ensures Clear(s, k + 1) <==> Clear(s, k)
  {
    TouchingMeets(done[|done| - 1], s[k]);
    if Clear(s, k) {
      forall i | 0 <= i < k ensures !Wraps(s[i], s[k]) {
        assert SameFamily(s[i].start, s[k].start) ==> SameFamily(s[i].start, done[|done| - 1].start);
      }
    }
  }

  lemma AbnormalStays(done: seq<Range>, r: Range, b: Range)
    requires done != [] && Blocks(done) && !Normal(done) && r.start == done[|done| - 1].start <= r.end
    ensures !Normal(done[|done| - 1 := r]) && !Normal(done + [b])
  {
    var i, j :| 0 <= i < j < |done| && !(done[i].end + 1 < done[j].start);
    var t, u := done[|done| - 1 := r], done + [b];
    assert !(t[i].end + 1 < t[j].start);
    assert u[i] == done[i] && u[j] == done[j];
  }

  lemma GrownJoins(s: seq<Range>, done: seq<Range>, k: nat)
    requires Sorted(s) && Blocks(s) && Grown(s, done, k) && k < |s| && Touches(done[|done| - 1], s[k])
    ensures Grown(s, done[|done| - 1 := Joined(done[|done| - 1], s[k])], k + 1)
  {
    var n := |done| - 1;
    var r := Joined(done[n], s[k]);
    TouchingMeets(done[n], s[k]);
    assert done == done[..n] + [done[n]] && done[n := r] == done[..n] + [r] && s[..k + 1] == s[..k] + [s[k]];
    JoinCovers(done[..n], done[n], s[k], s[..k]);
  }

  lemma EndsLastJoins(s: seq<Range>, last: Range, k: nat)
    requires Blocks(s) && k < |s| && IsBlock(last) && EndsLast(s, last, k) && SameFamily(last.start, s[k].start)
    ensures EndsLast(s, Joined(last, s[k]), k + 1)
  {
    var i :| 0 <= i < k && s[i].end == last.end;
    assert s[if s[k].end > last.end then k else i].end == Joined(last, s[k]).end;
  }

  lemma EndsLastSplits(s: seq<Range>, last: Range, k: nat)
    requires Blocks(s) && Sorted(s) && 0 < k < |s| && IsBlock(last) && EndsLast(s, last, k)
    requires SameFamily(last.start, s[k - 1].start) && last.start <= s[k].start && !Touches(last, s[k])
    requires Clear(s, k)
    ensures Clear(s, k + 1) <==> s[k].start > last.end + 1
  {
    TouchingMeets(last, s[k]);
    if s[k].start > last.end + 1 {
      forall i | 0 <= i < k ensures !Wraps(s[i], s[k]) {
        assert SameFamily(s[i].start, s[k].start) ==> SameFamily(s[i].start, s[k - 1].start);
      }
    } else {
      var i :| 0 <= i < k && s[i].end == last.end;
      assert Wraps(s[i], s[k]);
    }
  }

  lemma MergedBlocksJoins(s: seq<Range>, done: seq<Range>, k: nat)
    requires Sorted(s) && Blocks(s) && MergedBlocks(s, done, k) && k < |s|
    requires Touches(done[|done| - 1], s[k])
    ensures MergedBlocks(s, done[|done| - 1 := Joined(done[|done| - 1], s[k])], k + 1)
  {
    var last := done[|done| - 1];
    ClearJoins(s, done, k);
    TouchingMeets(last, s[k]);
    GrownJoins(s, done, k);
    if Clear(s, k) {
      EndsLastJoins(s, last, k);
      MergedJoins(s, done, k);
    } else {
      AbnormalStays(done, Joined(last, s[k]), s[k]);
    }
  }

  lemma GrownSplits(s: seq<Range>, done: seq<Range>, k: nat)
    requires Sorted(s) && Blocks(s) && Grown(s, done, k) && k < |s|
    ensures Grown(s, done + [s[k]], k + 1)
  {
    assert s[..k + 1] == s[..k] + [s[k]];
    AppendCovers(done, s[..k], s[k]);
  }

  lemma EndsAnew(s: seq<Range>, k: nat)
    requires Sorted(s) && Blocks(s) && k < |s| && Clear(s, k + 1)
    ensures EndsLast(s, s[k], k + 1)
  {
    forall i | 0 <= i < k && SameFamily(s[i].start, s[k].start) && s[i].end == AllOnes(s[i].end)
      ensures s[k].end == s[i].end
    {
      assert !Wraps(s[i], s[k]) && Before(s[i], s[k]);
    }
  }

  lemma MergedBlocksSplits(s: seq<Range>, done: seq<Range>, k: nat)
    requires Sorted(s) && Blocks(s) && MergedBlocks(s, done, k) && k < |s|
    requires !Touches(done[|done| - 1], s[k])
    ensures MergedBlocks(s, done + [s[k]], k + 1)
  {
    var last, d := done[|done| - 1], done + [s[k]];
    GrownSplits(s, done, k);
    if Clear(s, k) {
      EndsLastSplits(s, last, k);
      if Clear(s, k + 1) {
        MergedSplits(s, done, k);
        EndsAnew(s, k);
      } else {
        assert !(d[|done| - 1].end + 1 < d[|done|].start);
      }
    } else {
      AbnormalStays(done, last, s[k]);
      var i, j :| 0 <= i < j < k && Wraps(s[i], s[j]);
    }
  }

  // ----- in the array

  /** How the blocks stand in the array when the loop head is reached. */
  ghost predicate Standing(e: seq<Range>, s: seq<Range>, g: State, curr: nat, next: nat) {
    curr < next <= |e| && g.taken <= |s| && Holds(e, s, g, curr, next) == true
  }

  ghost predicate Holds(e: seq<Range>, s: seq<Range>, g: State, curr: nat, next: nat) {
    forall k: nat :: OpenIn(OfBlockArrays, k) ==>
      && Sorted(s) && Blocks(s) && g.taken <= |s| && MergedBlocks(s, g.done, g.taken)
      && e == g.done + g.gap + s[g.taken..] && curr + 1 == |g.done| && next == |g.done| + |g.gap|
  }

  lemma HoldsThen(e: seq<Range>, s: seq<Range>, g: State, curr: nat, next: nat)
    requires Sorted(s) && Blocks(s) && g.taken <= |s| && MergedBlocks(s, g.done, g.taken)
    requires e == g.done + g.gap + s[g.taken..] && curr + 1 == |g.done| && next == |g.done| + |g.gap|
    ensures Standing(e, s, g, curr, next) == true
  {
  }

  lemma StandingStarts(s: seq<Range>) returns (g: State)
    requires s != [] && Sorted(s) && Blocks(s)
    ensures Standing(s, s, g, 0, 1)
  {
    MergedBlocksStarts(s);
    g := State([s[0]], [], 1, []);
    assert s == [s[0]] + [] + s[1..];
  }

  lemma StandingReads(e: seq<Range>, s: seq<Range>, g: State, curr: nat, next: nat)
    requires Standing(e, s, g, curr, next) && next < |e|
    ensures curr < |g.done| && g.taken < |s| && e[curr] == g.done[curr] && e[next] == s[g.taken]
    ensures IsBlock(e[curr]) && IsBlock(e[next])
  {
    assert OpenIn(OfBlockArrays, 0);
  }

  lemma JoinsTo(e: seq<Range>, s: seq<Range>, done: seq<Range>, gap: seq<Range>, k: nat, curr: nat, r: Range,
                e': seq<Range>)
    requires Sorted(s) && Blocks(s) && k < |s| && MergedBlocks(s, done, k) && |done| == curr + 1
    requires Touches(done[curr], s[k]) && r == Joined(done[curr], s[k])
    requires e == done + gap + s[k..] && e' == e[curr := r]
    ensures Standing(e', s, State(done[curr := r], gap + [s[k]], k + 1, []), curr, |done| + |gap| + 1) == true
  {
    MergedBlocksJoins(s, done, k);
    EntryJoins(done, gap, s, k, r);
    HoldsThen(e', s, State(done[curr := r], gap + [s[k]], k + 1, []), curr, |done| + |gap| + 1);
  }

  lemma StandingJoins(e: seq<Range>, s: seq<Range>, g: State, curr: nat, next: nat) returns (g': State)
    requires Standing(e, s, g, curr, next) && next < |e| && IsBlock(e[curr]) && Touches(e[curr], e[next])
    ensures Standing(e[curr := Joined(e[curr], e[next])], s, g', curr, next + 1) == true
    ensures g'.taken == g.taken + 1 <= |s|
  {
    assert OpenIn(OfBlockArrays, 0);
    StandingReads(e, s, g, curr, next);
    var r := Joined(e[curr], e[next]);
    JoinsTo(e, s, g.done, g.gap, g.taken, curr, r, e[curr := r]);
    g' := State(g.done[curr := r], g.gap + [s[g.taken]], g.taken + 1, []);
  }

  lemma EntryJoins(done: seq<Range>, gap: seq<Range>, s: seq<Range>, k: nat, r: Range)
    requires done != [] && k < |s|
    ensures (done + gap + s[k..])[|done| - 1 := r] == done[|done| - 1 := r] + (gap + [s[k]]) + s[k + 1..]
  {
    assert s[k..] == [s[k]] + s[k + 1..];
  }

  lemma GapCloses(done: seq<Range>, gap: seq<Range>, s: seq<Range>, k: nat)
    requires k < |s|
    ensures var e := done + gap + s[k..];
            e[..|done|] + e[|done| + |gap|..] == done + [s[k]] + [] + s[k + 1..]
  {
    var e := done + gap + s[k..];
    assert e[..|done|] == done && e[|done| + |gap|..] == s[k..] == [s[k]] + s[k + 1..];
  }

  lemma SplitsTo(e: seq<Range>, s: seq<Range>, done: seq<Range>, gap: seq<Range>, k: nat, e': seq<Range>)
    requires Sorted(s) && Blocks(s) && k < |s| && MergedBlocks(s, done, k) && done != []
    requires e == done + gap + s[k..] && e' == e[..|done|] + e[|done| + |gap|..]
    requires !Touches(done[|done| - 1], s[k])
    ensures Standing(e', s, State(done + [s[k]], [], k + 1, []), |done|, |done| + 1) == true
  {
    MergedBlocksSplits(s, done, k);
    GapCloses(done, gap, s, k);
    HoldsThen(e', s, State(done + [s[k]], [], k + 1, []), |done|, |done| + 1);
  }

  lemma StandingSplits(e: seq<Range>, s: seq<Range>, g: State, curr: nat, next: nat) returns (g': State)
    requires Standing(e, s, g, curr, next) && next < |e| && IsBlock(e[curr]) && !Touches(e[curr], e[next])
    ensures Standing(e[..curr + 1] + e[next..], s, g', curr + 1, curr + 2) == true
    ensures g'.taken == g.taken + 1 <= |s|
  {
    assert OpenIn(OfBlockArrays, 0);
    StandingReads(e, s, g, curr, next);
    SplitsTo(e, s, g.done, g.gap, g.taken, e[..curr + 1] + e[next..]);
    g' := State(g.done + [s[g.taken]], [], g.taken + 1, []);
  }

  lemma StandingEnds(e: seq<Range>, s: seq<Range>, g: State, curr: nat)
    requires Standing(e, s, g, curr, |e|)
    ensures Blocks(e[..curr + 1]) && SameCover(e[..curr + 1], s) && (Normal(e[..curr + 1]) <==> Clear(s, |s|))
  {
    assert OpenIn(OfBlockArrays, 0);
    assert s[..g.taken] == s;
    assert e[..curr + 1] == g.done;
  }

  method Touch(a: array<Range>, n: nat, ghost e: seq<Range>, ghost s: seq<Range>, ghost g: State, curr: nat, next: nat)
    returns (ghost e': seq<Range>, ghost g': State)
    requires curr < next < n <= a.Length && a[..n] == e && Standing(e, s, g, curr, next)
    requires IsBlock(e[curr]) && Touches(e[curr], e[next])
    modifies a
    ensures |e'| == n && a[..n] == e' && Standing(e', s, g', curr, next + 1) == true
    ensures g'.taken == g.taken + 1 <= |s|
  {
    g' := StandingJoins(e, s, g, curr, next);
    e' := e[curr := Joined(e[curr], e[next])];
    if a[next].end > a[curr].end {
      a[curr] := Range(a[curr].start, a[next].end);
    }
    assert a[..n] == e';
  }

  method Split(a: array<Range>, n: nat, ghost e: seq<Range>, ghost s: seq<Range>, ghost g: State, curr: nat, next: nat)
    returns (n': nat, ghost e': seq<Range>, ghost g': State)
    requires curr < next < n <= a.Length && a[..n] == e && Standing(e, s, g, curr, next)
    requires IsBlock(e[curr]) && !Touches(e[curr], e[next])
    modifies a
    ensures curr + 2 <= n' == |e'| && n' <= n && a[..n'] == e' && Standing(e', s, g', curr + 1, curr + 2) == true
    ensures g'.taken == g.taken + 1 <= |s|
  {
    g' := StandingSplits(e, s, g, curr, next);
    e' := e[..curr + 1] + e[next..];
    n' := CloseGap(a, n, e, curr + 1, next);
  }

  method CloseGap(a: array<Range>, n: nat, ghost e: seq<Range>, dst: nat, src: nat) returns (n': nat)
    requires dst <= src <= n <= a.Length && a[..n] == e
    modifies a
    ensures n' == n - (src - dst) && a[..n'] == e[..dst] + e[src..]
  {
    n' := n;
    if src > dst {
      MoveDown(a, n, e, dst, src);
      n' := n - (src - dst);
      assert a[..n'] == a[..n][..n'];
    } else {
      assert e == e[..dst] + e[src..];
    }
  }

  method CompressLoop(a: array<Range>, n: nat, ghost s: seq<Range>)
    returns (curr: nat, ghost e: seq<Range>, ghost g: State)
    requires 0 < n <= a.Length && a[..n] == s && Sorted(s) && Blocks(s)
    modifies a
    ensures curr < |e| <= n && a[..|e|] == e && Standing(e, s, g, curr, |e|) == true
  {
    g := StandingStarts(s);
    e, curr := s, 0;
    var next, nblocks := 1, n;
    while next < nblocks
      invariant curr < next <= nblocks == |e| && nblocks <= n <= a.Length && a[..nblocks] == e && g.taken <= |s|
      invariant Standing(e, s, g, curr, next) == true
      decreases |s| - g.taken
    {
      StandingReads(e, s, g, curr, next);
      assert a[curr] == e[curr] && a[next] == e[next];
      if Touches(a[curr], a[next]) {
        e, g := Touch(a, nblocks, e, s, g, curr, next);
      } else {
        nblocks, e, g := Split(a, nblocks, e, s, g, curr, next);
        curr := curr + 1;
        next := curr;
      }
      next := next + 1;
    }
  }

  /**
   compress_blocks on sorted blocks: the union is always kept; the result is sorted, disjoint and
   non-adjacent exactly when no block that ends at its family's highest address precedes another
   of that family that starts above the lowest.
   */
  method CompressBlocks(a: array<Range>, n: nat) returns (m: nat)
    requires 0 < n <= a.Length && Sorted(a[..n]) && Blocks(a[..n])
    modifies a
    ensures 1 <= m <= n && Blocks(a[..m]) && SameCover(a[..m], old(a[..n]))
    ensures Normal(a[..m]) <==> Clear(old(a[..n]), n)
  {
    ghost var s := a[..n];
    var curr;
    ghost var e, g;
    curr, e, g := CompressLoop(a, n, s);
    m := curr + 1;
    StandingEnds(e, s, g, curr);
    assert a[..m] == e[..m];
  }

  /** With 0.0.0.5-255.255.255.255 and 0.0.0.10-0.0.0.20 the merge leaves overlapping blocks. */
  lemma WrapExample()
    ensures var s := [Range(5, V4COUNT - 1), Range(10, 20)];
            Sorted(s) && Blocks(s) && !Clear(s, 2)
  {
    var s := [Range(5, V4COUNT - 1), Range(10, 20)];
    assert Wraps(s[0], s[1]);
  }

  // ----- the set of blocks and its iterator

  class IpBlocks {
    var blocks: array<Range>
    var nblocks: nat
    var currBlock: nat
    var begun: bool      // the current address is not AF_UNSPEC
    var currAddr: int
    ghost var pos: nat   // how many addresses this cycle has returned

    ghost predicate Valid()
      reads this, blocks
    {
      && nblocks <= blocks.Length && Blocks(blocks[..nblocks])
      && CursorAt(blocks[..nblocks], currBlock, begun, currAddr, pos)
      && (!begun ==> currBlock == 0)
    }

    /** The addresses, block by block. */
    ghost function Listing(): (s: seq<int>)
      requires Valid()
      reads this, blocks
    {
      Enum(blocks[..nblocks], nblocks)
    }

    /** ip_blocks_init on the blocks it read: sorted and merged. */
    constructor (rs: seq<Range>)
      requires Blocks(rs)
      ensures Valid() && fresh(blocks) && pos == 0
      ensures SameCover(blocks[..nblocks], rs)
      ensures Normal(blocks[..nblocks]) <==> Clear(SortRanges(rs), |rs|)
    {
      var a := new Range[|rs|](i requires 0 <= i < |rs| => rs[i]);
      var n := SortAndCompress(a, rs);
      blocks, nblocks, currBlock, begun, currAddr, pos := a, n, 0, false, 0, 0;
    }

    /** A copy of a set of blocks that has not been iterated. */
    method Load(a: array<Range>, n: nat)
      requires n <= a.Length && Blocks(a[..n])
      modifies this
      ensures Valid() && blocks == a && nblocks == n && pos == 0
    {
      blocks, nblocks, currBlock, begun, pos := a, n, 0, false, 0;
    }

    /** ip_blocks_next: every address of every block in order, then the end. */
    method Next() returns (ok: bool, out: int)
      requires Valid()
      modifies this
      ensures Valid() && blocks == old(blocks) && nblocks == old(nblocks)
      ensures ok <==> old(pos) < |Listing()|
      ensures ok ==> out == Listing()[old(pos)] && pos == old(pos) + 1
      ensures !ok ==> pos == 0
    {
      if currBlock >= nblocks {
        currBlock, begun, pos := 0, false, 0;
        return false, 0;
      }
      if currBlock == 0 && !begun {
        currAddr := blocks[0].start;
        begun := true;
      }
      out := currAddr;
      currBlock, currAddr := StepAddress(blocks, nblocks, currBlock, currAddr, pos);
      pos := pos + 1;
      ok := true;
    }
  }

  method SortAndCompress(a: array<Range>, ghost rs: seq<Range>) returns (m: nat)
    requires a.Length == |rs| && Blocks(rs) && forall i :: 0 <= i < |rs| ==> a[i] == rs[i]
    modifies a
    ensures m <= a.Length && Blocks(a[..m]) && SameCover(a[..m], rs)
    ensures Normal(a[..m]) <==> Clear(SortRanges(rs), |rs|)
  {
    var n := a.Length;
    assert a[..n] == rs;
    m := n;
    if n > 0 {
      SortInPlace(a, n);
      ghost var s := a[..n];
      BlocksSorted(rs, s);
      m := CompressBlocks(a, n);
      SameCoverThrough(a[..m], s, rs);
    }
  }

  lemma BlocksSorted(rs: seq<Range>, s: seq<Range>)
    requires Blocks(rs) && multiset(s) == multiset(rs)
    ensures Blocks(s)
  {
    forall i | 0 <= i < |s| ensures s[i] in rs {
      assert s[i] in multiset(s);
    }
  }

  method StepAddress(blocks: array<Range>, n: nat, block: nat, addr: int, ghost pos: nat)
    returns (block': nat, addr': int)
    requires n <= blocks.Length && Blocks(blocks[..n])
    requires block < n && CursorAt(blocks[..n], block, true, addr, pos)
    ensures pos < |Enum(blocks[..n], n)| && Enum(blocks[..n], n)[pos] == addr
    ensures CursorAt(blocks[..n], block', true, addr', pos + 1)
  {
    assert blocks[block] == blocks[..n][block];
    block', addr' := block, addr;
    if addr < blocks[block].end {
      addr' := AddTo(addr, 1);
    } else {
      block' := block + 1;
      if block' < n {
        addr' := blocks[block'].start;
      }
    }
    CursorMoves(blocks[..n], block, addr, pos, block', addr');
  }
}
