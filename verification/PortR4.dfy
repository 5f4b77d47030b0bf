/** The reordered port iterator of lib/net/ports.c: one generator per range, taken in turns. */
module PortR4 {
  import opened Ports
  import opened Ranges
  import opened Reorder
  import opened Rotation
  import opened Sequences
  import opened Wrappers

  /** `list` is what the generator of range `r` returns over one cycle. */
  ghost predicate CycleOf(r: Range, list: seq<nat>) {
    0 <= r.start <= r.end && list == Cycle(r.start, r.end)
  }

  ghost predicate CyclesOf(rs: seq<Range>, lists: seq<seq<nat>>) {
    |lists| == |rs| && forall i {:trigger CycleOf(rs[i], lists[i])} :: 0 <= i < |rs| ==> CycleOf(rs[i], lists[i])
  }

  lemma CyclesApart(rs: seq<Range>, lists: seq<seq<nat>>)
    requires PortForm(rs) && CyclesOf(rs, lists)
    ensures Apart(lists)
    ensures forall v: nat :: Listed(lists, v) <==> Covers(rs, v)
  {
    forall i | 0 <= i < |rs|
      ensures Distinct(lists[i]) && forall v: nat :: v in lists[i] <==> In(rs[i], v)
    {
      assert CycleOf(rs[i], lists[i]);
      CycleIsPermutation(rs[i].start, rs[i].end);
    }
  }

  /** Generator `g` runs over range `r`. */
  ghost predicate Runs(g: Reorder32, r: Range)
    reads g
  {
    forall k: nat :: OpenIn(OfGenerators, k) ==> g.Valid() && g.first == r.start && g.last == r.end
  }

  /** No two are the same object. */
  ghost predicate Separate(gens: seq<Reorder32>) {
    forall k: nat :: OpenIn(OfIdentity, k) ==> forall i, j :: 0 <= i < j < |gens| ==> gens[i] != gens[j]
  }

  ghost predicate Generators(gens: seq<Reorder32>, rs: seq<Range>)
    reads gens
  {
    && |gens| == |rs| && Separate(gens) == true
    && forall i {:trigger Runs(gens[i], rs[i])} :: 0 <= i < |gens| ==> Runs(gens[i], rs[i])
  }

  /** The next value of generator `i`; the others are left alone. */
  method Draw(gens: seq<Reorder32>, rs: seq<Range>, ghost lists: seq<seq<nat>>, i: nat) returns (ok: bool, out: nat)
    requires PortForm(rs) && Generators(gens, rs) && CyclesOf(rs, lists) && i < |rs|
    modifies gens[i]
    ensures Generators(gens, rs) == true
    ensures forall j :: 0 <= j < |rs| && j != i ==> gens[j].ival == old(gens[j].ival)
    ensures ok <==> old(gens[i].ival) < |lists[i]|
    ensures ok ==> out == lists[i][old(gens[i].ival)] && gens[i].ival == old(gens[i].ival) + 1
  {
    assert OpenIn(OfGenerators, 0) && OpenIn(OfIdentity, 0) && Runs(gens[i], rs[i]) && CycleOf(rs[i], lists[i]);
    CycleIsPermutation(rs[i].start, rs[i].end);
    ok, out := gens[i].Next();
    forall j | 0 <= j < |gens| ensures Runs(gens[j], rs[j]) {
      if j != i {
        assert old(Runs(gens[j], rs[j]));
      }
    }
  }

  method Restart(gens: seq<Reorder32>, rs: seq<Range>)
    requires PortForm(rs) && |gens| == |rs| && Separate(gens) == true
    modifies gens
    ensures Generators(gens, rs) && forall i :: 0 <= i < |gens| ==> gens[i].ival == 0
  {
    assert OpenIn(OfIdentity, 0);
    for i := 0 to |rs|
      invariant forall j {:trigger Runs(gens[j], rs[j])} :: 0 <= j < i ==> Runs(gens[j], rs[j])
      invariant forall j :: 0 <= j < i ==> gens[j].ival == 0
    {
      gens[i].Init(rs[i].start, rs[i].end);
      assert Runs(gens[i], rs[i]);
    }
  }

  /** How many values the ranges cover. */
  function Size(rs: seq<Range>): (n: nat) {
    |Enum(rs, |rs|)|
  }

  /** Values of the ranges, none twice, are no more than that, and exactly as many if they are all of them. */
  lemma SizeBounds(rs: seq<Range>, all: seq<nat>)
    requires Normal(rs) && Distinct(all) && forall v: nat :: v in all ==> Covers(rs, v)
    ensures |all| <= Size(rs)
    ensures (forall x :: Covers(rs, x) ==> x in all) ==> |all| == Size(rs)
  {
    var e := Enum(rs, |rs|);
    EnumAscends(rs);
    NoLonger(all, e);
    if forall x :: Covers(rs, x) ==> x in all {
      NoLonger(e, all);
    }
  }

  class PortR4Ranges {
    const rs: seq<Range>
    const gens: seq<Reorder32>
    const rangemap: array<int>
    var mapindex: nat
    ghost const lists: seq<seq<nat>>
    ghost var order: seq<nat>
    ghost var progress: seq<nat>
    ghost var emitted: seq<nat>  // the ports returned in this cycle

    ghost predicate Shape()
      reads this
    {
      && PortForm(rs) && CyclesOf(rs, lists) && |gens| == |rs| == rangemap.Length
      && Separate(gens) == true
      && (|rs| > 0 ==> mapindex < |rs|)
    }

    ghost predicate Valid()
      reads this, gens, rangemap
    {
      && Shape() && Generators(gens, rs)
      && Rotating(lists, order, rangemap[..], progress, emitted)
      && forall c :: 0 <= c < |rs| && rangemap[c] >= 0 ==> gens[order[c]].ival == progress[order[c]]
    }

    constructor (ranges: seq<Range>)
      requires PortForm(ranges)
      ensures Valid() && rs == ranges && emitted == []
      ensures fresh(rangemap) && forall i :: 0 <= i < |gens| ==> fresh(gens[i])
    {
      rs := ranges;
      lists := seq(|ranges|, i requires 0 <= i < |ranges| => Cycle(ranges[i].start, ranges[i].end));
      rangemap := new int[|ranges|];
      mapindex := 0;
      var made := MakeGenerators(|ranges|);
      gens := made;
      new;
      Reset();
    }

    /** port_r4ranges_reset: `mapindex` stays where the last cycle left it. */
    method Reset()
      requires Shape()
      modifies this, rangemap, gens
      ensures Valid() && emitted == [] && mapindex == old(mapindex)
    {
      ListLength(rs, |rs|);
      CyclesApart(rs, lists);
      if |rs| > 0 {
        FillMap(rangemap);
      }
      Restart(gens, rs);
      OrderPermutes(|rs|);
      order, progress, emitted := Order(|rs|), Zeros(|rs|), [];
      RotatingStarts(lists, order, rangemap[..]);
    }

    /** Asks the generator at live position `c`; one that has ended leaves its position depleted. */
    method Ask(c: nat) returns (ok: bool, out: nat)
      requires Valid() && c < |rs| && rangemap[c] >= 0
      modifies this, rangemap, gens
      ensures Valid()
      ensures ok ==> emitted == old(emitted) + [out] && out !in old(emitted) && Listed(lists, out)
      ensures !ok ==> emitted == old(emitted) && rangemap[..] == old(rangemap[..])[c := -1]
    {
      var i := rangemap[c];
      mapindex := c;
      ok, out := Draw(gens, rs, lists, i);
      RotatingOthers(lists, order, rangemap[..], progress, emitted, c);
      if ok {
        RotatingEmits(lists, order, rangemap[..], progress, emitted, c);
        progress, emitted := progress[i := progress[i] + 1], emitted + [out];
      } else {
        RotatingDepletes(lists, order, rangemap[..], progress, emitted, c);
        rangemap[c] := -1;
        assert rangemap[..] == old(rangemap[..])[c := -1];
      }
    }

    /**
     port_r4ranges_next: a port not yet returned in this cycle; or the end, and then the cycle has
     returned every port of the set exactly once.
     */
    method Next() returns (ok: bool, out: nat)
      requires Valid()
      modifies this, rangemap, gens
      ensures Valid()
      ensures ok ==> emitted == old(emitted) + [out] && out !in old(emitted) && Covers(rs, out)
      ensures !ok ==> emitted == [] && Distinct(old(emitted)) && forall v: nat :: v in old(emitted) <==> Covers(rs, v)
    {
      CyclesApart(rs, lists);
      ok, out := false, 0;
      if |rs| == 0 {
        RotatingEnds(lists, order, rangemap[..], progress, emitted);
        emitted := [];
        return;
      }
      while !ok
        invariant Valid() && (!ok ==> emitted == old(emitted))
        invariant ok ==> emitted == old(emitted) + [out] && out !in old(emitted) && Covers(rs, out)
        decreases if ok then 0 else 1 + |Live(rangemap[..])|
      {
        var c := NextLive(rangemap, mapindex);
        if c == mapindex && rangemap[c] < 0 {
          RotatingEnds(lists, order, rangemap[..], progress, emitted);
          Reset();
          return;
        }
        LiveShrinks(rangemap[..], c);
        ok, out := Ask(c);
      }
    }

    /**
     A cycle of at most `limit` calls, from where one begins: it ends, after one call more than there are ports, if
     they are enough, and by then every port of the set has been returned exactly once.
     */
    method WholeCycle(limit: nat) returns (all: seq<nat>, ended: bool)
      requires Valid() && emitted == []
      modifies this, rangemap, gens
      ensures Valid() && (ended <==> Size(rs) < limit)
      ensures Distinct(all) && forall v: nat :: v in all ==> Covers(rs, v)
      ensures if ended then emitted == [] && forall v: nat :: Covers(rs, v) ==> v in all
              else emitted == all && |all| == limit
    {
      all, ended := [], false;
      while |all| < limit && !ended
        invariant Valid() && |all| <= limit && Distinct(all) && forall v: nat :: v in all ==> Covers(rs, v)
        invariant if ended then emitted == [] && |all| == Size(rs) < limit && forall v: nat :: Covers(rs, v) ==>
                    v in all
                  else emitted == all && |all| <= Size(rs)
        decreases limit - |all|, !ended
      {
        var ok, out := Next();
        if ok {
          all := all + [out];
        } else {
          CoveredAreNat(rs);
          ended := true;
        }
        SizeBounds(rs, all);
      }
    }
  }

  lemma CoveredAreNat(rs: seq<Range>)
    requires forall i :: 0 <= i < |rs| ==> 0 <= rs[i].start
    ensures forall x :: Covers(rs, x) ==> x >= 0
  {
  }

  lemma {:induction false} ListLength(rs: seq<Range>, n: nat)
    requires PortForm(rs) && n <= |rs|
    ensures n <= 65536 && (n > 0 ==> n - 1 <= rs[n - 1].start)
  {
    if n > 1 {
      ListLength(rs, n - 1);
      assert rs[n - 2].end + 1 < rs[n - 1].start;
    }
  }

  method MakeGenerators(n: nat) returns (gens: seq<Reorder32>)
    ensures |gens| == n && forall i :: 0 <= i < n ==> fresh(gens[i])
    ensures Separate(gens) == true
  {
    gens := [];
    for k := 0 to n
      invariant |gens| == k && forall i :: 0 <= i < k ==> fresh(gens[i])
      invariant forall i, j :: 0 <= i < j < k ==> gens[i] != gens[j]
    {
      var g := new Reorder32(0, 0);
      gens := gens + [g];
    }
  }
}
