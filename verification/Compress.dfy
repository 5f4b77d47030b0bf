/**
 The in-place merge of lib/net/ports.c (compress_ranges). It moves `next` back after each
 memmove and keeps scanning up to the old count, over stale copies of ranges already merged.
 */
module Compress {
  import opened Ranges
  import opened Wrappers

  // ----- the merge on values

  function Joined(curr: Range, next: Range): (r: Range) {
    Range(curr.start, if next.end > curr.end then next.end else curr.end)
  }

  /** `done` is the normal form of the first `k` of the sorted ranges `s`. */
  ghost predicate Merged(s: seq<Range>, done: seq<Range>, k: nat) {
    && done != [] && k <= |s| && Normal(done) && SameCover(done, s[..k])
    && (forall i :: 0 <= i < k ==> s[i].end <= done[|done| - 1].end)
    && (forall i :: k <= i < |s| ==> done[|done| - 1].start <= s[i].start)
  }

  lemma CoversAppend(rs: seq<Range>, r: Range, x: int)
    ensures Covers(rs + [r], x) <==> Covers(rs, x) || In(r, x)
  {
    if Covers(rs, x) {
      var i :| 0 <= i < |rs| && In(rs[i], x);
      assert In((rs + [r])[i], x);
    }
    if In(r, x) {
      assert In((rs + [r])[|rs|], x);
    }
  }

  lemma AppendCovers(a: seq<Range>, s: seq<Range>, r: Range)
    requires SameCover(a, s)
    ensures SameCover(a + [r], s + [r])
  {
    var t, u := a + [r], s + [r];
    forall x ensures Covers(t, x) <==> Covers(u, x) {
      CoversAppend(a, r, x);
      CoversAppend(s, r, x);
    }
  }

  /** Extending the last range by one that starts no later than just behind it. */
  lemma JoinCovers(rs: seq<Range>, last: Range, r: Range, s: seq<Range>)
    requires last.start <= r.start <= last.end + 1 && r.start <= r.end && SameCover(rs + [last], s)
    ensures SameCover(rs + [Joined(last, r)], s + [r])
  {
    var t, u := rs + [Joined(last, r)], s + [r];
    forall x ensures Covers(t, x) <==> Covers(u, x) {
      CoversAppend(rs, Joined(last, r), x);
      CoversAppend(rs, last, x);
      CoversAppend(s, r, x);
    }
  }

  lemma MergedStarts(s: seq<Range>)
    requires s != [] && Sorted(s) && Proper(s)
    ensures Merged(s, [s[0]], 1)
  {
    assert s[..1] == [s[0]];
  }

  /** A range that touches the last one is joined to it. */
  lemma MergedJoins(s: seq<Range>, done: seq<Range>, k: nat)
    requires Sorted(s) && Proper(s) && Merged(s, done, k) && k < |s|
    requires done[|done| - 1].end + 1 >= s[k].start
    ensures Merged(s, done[|done| - 1 := Joined(done[|done| - 1], s[k])], k + 1)
  {
    var n := |done| - 1;
    assert done == done[..n] + [done[n]];
    assert done[n := Joined(done[n], s[k])] == done[..n] + [Joined(done[n], s[k])];
    assert s[..k + 1] == s[..k] + [s[k]];
    JoinCovers(done[..n], done[n], s[k], s[..k]);
  }

  /** A range apart from the last one is the next. */
  lemma MergedSplits(s: seq<Range>, done: seq<Range>, k: nat)
    requires Sorted(s) && Proper(s) && Merged(s, done, k) && k < |s|
    requires done[|done| - 1].end + 1 < s[k].start
    ensures Merged(s, done + [s[k]], k + 1)
  {
    assert s[..k + 1] == s[..k] + [s[k]];
    AppendCovers(done, s[..k], s[k]);
  }

  // ----- how the array holds it

  /** memmove of the entries from `src` on to the earlier position `dst`; the tail stays as it was. */
  function Moved(a: seq<Range>, dst: nat, src: nat): (b: seq<Range>)
    requires dst <= src <= |a|
    ensures |b| == |a|
    ensures forall j {:trigger b[j]} :: 0 <= j < |a| ==>
              b[j] == if dst <= j < dst + |a| - src then a[j + src - dst] else a[j]
  {
    a[..dst] + a[src..] + a[dst + |a| - src..]
  }

  /** `rs` holds nothing but ranges of `s`. */
  ghost predicate From(rs: seq<Range>, s: seq<Range>) {
    forall i :: 0 <= i < |rs| ==> rs[i] in s
  }

  lemma {:induction false} MoveLayout(done: seq<Range>, gap: seq<Range>, todo: seq<Range>, s: seq<Range>)
    returns (stale: seq<Range>)
    requires From(gap, s) && From(todo, s)
    ensures Moved(done + gap + todo, |done|, |done| + |gap|) == done + todo + stale
    ensures |stale| == |gap| && From(stale, s)
  {
    var a := done + gap + todo;
    stale := a[|done| + |todo|..];
    assert a[..|done|] == done && a[|done| + |gap|..] == todo;
  }

  /** How the first `n` entries of the array stand when the loop head is reached. */
  ghost predicate Layout(e: seq<Range>, s: seq<Range>, done: seq<Range>, gap: seq<Range>, k: nat, stale: seq<Range>) {
    k <= |s| && e == done + gap + s[k..] + stale && From(gap, s) && From(stale, s)
  }

  method MoveDown(a: array<Range>, n: nat, ghost e: seq<Range>, dst: nat, src: nat)
    requires dst <= src <= n <= a.Length && |e| == n && a[..n] == e
    modifies a
    ensures a[..n] == Moved(e, dst, src)
    ensures a[n..] == old(a[n..])
  {
    if src > dst {
      forall j | dst <= j < dst + n - src {
        a[j] := a[j + src - dst];
      }
    }
  }

  /** A stale range lies within what is covered already. */
  lemma StaleTouches(s: seq<Range>, done: seq<Range>, r: Range)
    requires Proper(s) && Merged(s, done, |s|) && r in s
    ensures r.start <= r.end <= done[|done| - 1].end
  {
    var i :| 0 <= i < |s| && s[i] == r;
  }

  lemma FromIsCovered(s: seq<Range>, done: seq<Range>, rest: seq<Range>)
    requires Proper(s) && Normal(done) && SameCover(done, s) && From(rest, s)
    ensures SameCover(done + rest, s) && Proper(done + rest)
  {
    var a := done + rest;
    forall x ensures Covers(a, x) <==> Covers(s, x) {
      if Covers(a, x) {
        var i :| 0 <= i < |a| && In(a[i], x);
        if i < |done| {
          assert In(done[i], x);
        } else {
          assert a[i] in s;
          var j :| 0 <= j < |s| && s[j] == a[i];
          assert In(s[j], x);
        }
      }
      if Covers(done, x) {
        var i :| 0 <= i < |done| && In(done[i], x);
        assert In(a[i], x);
      }
    }
  }

  lemma LayoutReads(e: seq<Range>, s: seq<Range>, done: seq<Range>, gap: seq<Range>, k: nat, stale: seq<Range>)
    requires Layout(e, s, done, gap, k, stale) && done != [] && |done| + |gap| < |e|
    ensures e[|done| - 1] == done[|done| - 1]
    ensures if k < |s| then e[|done| + |gap|] == s[k] else stale != [] && e[|done| + |gap|] == stale[0]
  {
  }

  /** The join of what lies at `next` into the last merged range. */
  lemma LayoutJoins(e: seq<Range>, s: seq<Range>, done: seq<Range>, gap: seq<Range>, k: nat, stale: seq<Range>)
    requires Layout(e, s, done, gap, k, stale) && done != [] && k < |s|
    ensures var c := |done| - 1; var r := Joined(done[c], s[k]);
            Layout(e[c := r], s, done[c := r], gap + [s[k]], k + 1, stale)
  {
    assert s[k..] == [s[k]] + s[k + 1..];
  }

  lemma LayoutSkips(e: seq<Range>, s: seq<Range>, done: seq<Range>, gap: seq<Range>, stale: seq<Range>)
    requires Layout(e, s, done, gap, |s|, stale) && stale != []
    ensures Layout(e, s, done, gap + [stale[0]], |s|, stale[1..])
  {
    assert stale == [stale[0]] + stale[1..];
  }

  lemma LayoutRegroups(s: seq<Range>, done: seq<Range>, k: nat, stale: seq<Range>, moved: seq<Range>)
    requires k < |s|
    ensures done + (s[k..] + stale) + moved == done + [s[k]] + [] + s[k + 1..] + (stale + moved)
  {
    assert s[k..] == [s[k]] + s[k + 1..];
  }

  lemma LayoutSplits(e: seq<Range>, s: seq<Range>, done: seq<Range>, gap: seq<Range>, k: nat, stale: seq<Range>,
                     curr: nat, next: nat) returns (stale': seq<Range>)
    requires Layout(e, s, done, gap, k, stale) && k < |s| && curr == |done| && next == |done| + |gap|
    ensures curr <= next <= |e|
    ensures Layout(Moved(e, curr, next), s, done + [s[k]], [], k + 1, stale')
  {
    var todo := s[k..] + stale;
    assert e == done + gap + todo;
    var moved := MoveLayout(done, gap, todo, s);
    stale' := stale + moved;
    LayoutRegroups(s, done, k, stale, moved);
  }

  /** The loop's ghost state: ranges merged, ranges passed over, how many were taken, stale tail. */
  datatype State = State(done: seq<Range>, gap: seq<Range>, taken: nat, stale: seq<Range>)

  ghost predicate At(e: seq<Range>, s: seq<Range>, g: State, curr: nat, next: nat) {
    curr < next <= |e| == |s| && g.taken <= |s| && LaidOut(e, s, g, curr, next) == true
  }

  ghost predicate LaidOut(e: seq<Range>, s: seq<Range>, g: State, curr: nat, next: nat) {
    forall k: nat :: Open(k) ==>
      && Sorted(s) && Proper(s) && |e| == |s|
      && Layout(e, s, g.done, g.gap, g.taken, g.stale) && Merged(s, g.done, g.taken)
      && curr + 1 == |g.done| && next == |g.done| + |g.gap| <= |e|
  }

  lemma AtStarts(s: seq<Range>) returns (g: State)
    requires s != [] && Sorted(s) && Proper(s)
    ensures At(s, s, g, 0, 1) == true
  {
    g := State([s[0]], [], 1, []);
    MergedStarts(s);
    assert s == [s[0]] + [] + s[1..] + [];
  }

  lemma AtTouches(e: seq<Range>, s: seq<Range>, g: State, curr: nat, next: nat, e': seq<Range>) returns (g': State)
    requires At(e, s, g, curr, next) && next < |e| && e[curr].end + 1 >= e[next].start
    requires e' == e[curr := Joined(e[curr], e[next])]
    ensures At(e', s, g', curr, next + 1) == true
    ensures g'.taken >= g.taken
  {
    assert Open(0);
    var State(done, gap, k, stale) := g;
    LayoutReads(e, s, done, gap, k, stale);
    if k < |s| {
      MergedJoins(s, done, k);
      LayoutJoins(e, s, done, gap, k, stale);
      g' := State(done[curr := Joined(done[curr], s[k])], gap + [s[k]], k + 1, stale);
    } else {
      StaleTouches(s, done, stale[0]);
      LayoutSkips(e, s, done, gap, stale);
      assert e' == e;
      g' := State(done, gap + [stale[0]], k, stale[1..]);
    }
  }

  /** Stale entries always touch, so what splits off is the next range not yet taken. */
  lemma SplitsAtFresh(e: seq<Range>, s: seq<Range>, g: State, curr: nat, next: nat)
    requires At(e, s, g, curr, next) && next < |e| && e[curr].end + 1 < e[next].start
    ensures curr < |g.done| && g.taken < |s| && g.done[curr].end + 1 < s[g.taken].start
  {
    assert Open(0);
    LayoutReads(e, s, g.done, g.gap, g.taken, g.stale);
    if g.taken == |s| {
      StaleTouches(s, g.done, g.stale[0]);
    }
  }

  lemma AtSplits(e: seq<Range>, s: seq<Range>, g: State, curr: nat, next: nat, e': seq<Range>) returns (g': State)
    requires At(e, s, g, curr, next) && next < |e| && e[curr].end + 1 < e[next].start
    requires e' == Moved(e, curr + 1, next)
    ensures At(e', s, g', curr + 1, curr + 2) == true
    ensures g'.taken == g.taken + 1 <= |s|
  {
    assert Open(0);
    var State(done, gap, k, stale) := g;
    SplitsAtFresh(e, s, g, curr, next);
    MergedSplits(s, done, k);
    var stale' := LayoutSplits(e, s, done, gap, k, stale, curr + 1, next);
    g' := State(done + [s[k]], [], k + 1, stale');
  }

  lemma AtEnds(e: seq<Range>, s: seq<Range>, g: State, curr: nat)
    requires At(e, s, g, curr, |e|)
    ensures Normal(e[..curr + 1]) && SameCover(e[..curr + 1], s) && Proper(e) && SameCover(e, s)
  {
    assert Open(0);
    assert s[..g.taken] == s;
    FromIsCovered(s, g.done, g.gap);
    assert e == g.done + g.gap && e[..curr + 1] == g.done;
  }

  method Touch(a: array<Range>, n: nat, ghost s: seq<Range>, ghost e: seq<Range>, ghost g: State, curr: nat, next: nat)
    returns (ghost e': seq<Range>, ghost g': State)
    requires next < n <= a.Length && a[..n] == e && At(e, s, g, curr, next) == true
    requires a[curr].end + 1 >= a[next].start
    modifies a
    ensures |e'| == n && a[..n] == e' && At(e', s, g', curr, next + 1) == true && g'.taken >= g.taken
    ensures a[n..] == old(a[n..])
  {
    e' := e[curr := Joined(e[curr], e[next])];
    g' := AtTouches(e, s, g, curr, next, e');
    if a[next].end > a[curr].end {
      a[curr] := Range(a[curr].start, a[next].end);
    }
    assert a[..n] == e';
  }

  ghost predicate IsMoved(e': seq<Range>, e: seq<Range>, dst: nat, src: nat) {
    forall k: nat :: OpenIn(OfMoves, k) ==> dst <= src <= |e| && e' == Moved(e, dst, src)
  }

  method MoveTail(a: array<Range>, n: nat, ghost e: seq<Range>, ghost e': seq<Range>, dst: nat, src: nat)
    requires dst <= src <= n == |e| <= a.Length && a[..n] == e && IsMoved(e', e, dst, src) == true
    modifies a
    ensures |e'| == n && a[..n] == e' && a[n..] == old(a[n..])
  {
    assert OpenIn(OfMoves, 0);
    MoveDown(a, n, e, dst, src);
  }

  method Split(a: array<Range>, n: nat, ghost s: seq<Range>, ghost e: seq<Range>, ghost g: State, curr: nat, next: nat)
    returns (ghost e': seq<Range>, ghost g': State)
    requires curr < next < |e| == n <= a.Length && a[..n] == e && At(e, s, g, curr, next) == true
    requires e[curr].end + 1 < e[next].start
    modifies a
    ensures |e'| == n && a[..n] == e' && At(e', s, g', curr + 1, curr + 2) == true && g'.taken == g.taken + 1
    ensures a[n..] == old(a[n..])
  {
    e', g' := SplitState(e, s, g, curr, next);
    MoveTail(a, n, e, e', curr + 1, next);
  }

  lemma SplitState(e: seq<Range>, s: seq<Range>, g: State, curr: nat, next: nat) returns (e': seq<Range>, g': State)
    requires At(e, s, g, curr, next) == true && next < |e| && e[curr].end + 1 < e[next].start
    ensures IsMoved(e', e, curr + 1, next) == true
    ensures At(e', s, g', curr + 1, curr + 2) == true && g'.taken == g.taken + 1
  {
    e' := Moved(e, curr + 1, next);
    g' := AtSplits(e, s, g, curr, next, e');
  }

  method CompressLoop(a: array<Range>, n: nat, ghost s: seq<Range>)
    returns (curr: nat, ghost e: seq<Range>, ghost g: State)
    requires 0 < n <= a.Length && a[..n] == s && Sorted(s) && Proper(s)
    modifies a
    ensures curr < n && a[..n] == e && At(e, s, g, curr, n) == true
    ensures a[n..] == old(a[n..])
  {
    g := AtStarts(s);
    e := s;
    var next := 1;
    curr := 0;
    while next < n
      invariant curr < next <= n == |e| && a[..n] == e && a[n..] == old(a[n..])
      invariant At(e, s, g, curr, next) == true
      decreases n - g.taken, n - next
    {
      assert a[curr] == e[curr] && a[next] == e[next];
      if a[curr].end + 1 >= a[next].start {
        e, g := Touch(a, n, s, e, g, curr, next);
      } else {
        e, g := Split(a, n, s, e, g, curr, next);
        curr := curr + 1;
        next := curr;
      }
      next := next + 1;
    }
  }

  /**
   compress_ranges on the first `n` entries: it terminates, what it counts as merged is the normal
   form, and the entries it leaves behind cover nothing new.
   */
  method CompressRanges(a: array<Range>, n: nat) returns (m: nat)
    requires 0 < n <= a.Length && Sorted(a[..n]) && Proper(a[..n])
    modifies a
    ensures 1 <= m <= n && Normal(a[..m]) && SameCover(a[..m], old(a[..n]))
    ensures Proper(a[..n]) && SameCover(a[..n], old(a[..n]))
    ensures a[n..] == old(a[n..])
  {
    ghost var s := a[..n];
    var curr;
    ghost var e, g;
    curr, e, g := CompressLoop(a, n, s);
    AtEnds(e, s, g, curr);
    m := curr + 1;
    assert a[..m] == e[..m];
  }
}
