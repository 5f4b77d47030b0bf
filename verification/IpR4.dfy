/**
 The reordered address iterator of lib/net/ip.c: blocks taken in turns, IPv4 blocks in the
 order of their generators and IPv6 blocks upwards.
 */
module IpR4 {
  import opened Addresses
  import opened Ip
  import opened PortR4
  import opened Ranges
  import opened Reorder
  import opened Rotation
  import opened Sequences
  import opened Wrappers

  ghost predicate BlockForm(bs: seq<Range>) {
    Normal(bs) && Blocks(bs) && |bs| <= 0x7fff_ffff
  }

  /** One block is the whole IPv4 space, whose generator never ends. */
  ghost predicate Endless(bs: seq<Range>) {
    Range(0, V4COUNT - 1) in bs
  }

  /** Its progress starts over before it ends. */
  ghost predicate Unfinished(bs: seq<Range>, progress: seq<nat>) {
    |progress| == |bs| && forall i :: 0 <= i < |bs| && bs[i] == Range(0, V4COUNT - 1) ==> progress[i] < V4COUNT
  }

  /**
   `out` comes after the addresses `before`; when the whole IPv4 space starts over, its addresses count
   as not returned.
   */
  ghost predicate Extends(bs: seq<Range>, before: seq<nat>, out: nat, after: seq<nat>) {
    || after == before + [out]
    || (Endless(bs) && IsV4(out) && forall v: nat :: v in after <==> v in before && !IsV4(v))
  }

  /** `list` is what block `b` contributes to one cycle. */
  ghost predicate ListOf(b: Range, list: seq<nat>) {
    && 0 <= b.start <= b.end
    && if IsV4(b.start) then CycleOf(b, list) else list == Points(b)
  }

  ghost predicate ListsOf(bs: seq<Range>, lists: seq<seq<nat>>) {
    |lists| == |bs| && forall i {:trigger ListOf(bs[i], lists[i])} :: 0 <= i < |bs| ==> ListOf(bs[i], lists[i])
  }

  /** What never changes. */
  ghost predicate Fixed(bs: seq<Range>, lists: seq<seq<nat>>) {
    forall k: nat :: OpenIn(OfBlockLists, k) ==> BlockForm(bs) && ListsOf(bs, lists)
  }

  function ListFor(b: Range): (list: seq<nat>)
    requires 0 <= b.start <= b.end
    ensures ListOf(b, list)
  {
    if IsV4(b.start) then Cycle(b.start, b.end) else Points(b)
  }

  lemma ListIsBlock(b: Range, list: seq<nat>)
    requires ListOf(b, list)
    ensures Distinct(list) && |list| == b.end - b.start + 1 && forall v: nat :: v in list <==> In(b, v)
  {
    if IsV4(b.start) {
      CycleIsPermutation(b.start, b.end);
    } else {
      forall v: nat ensures v in list <==> In(b, v) {
        if In(b, v) {
          assert Points(b)[v - b.start] == v;
        }
      }
    }
  }

  lemma FixedList(bs: seq<Range>, lists: seq<seq<nat>>, i: nat)
    requires Fixed(bs, lists) == true && i < |bs| == |lists|
    ensures IsBlock(bs[i]) && |lists[i]| == bs[i].end - bs[i].start + 1 > 0
    ensures forall v: nat :: v in lists[i] <==> In(bs[i], v)
  {
    assert OpenIn(OfBlockLists, 0) && ListOf(bs[i], lists[i]);
    ListIsBlock(bs[i], lists[i]);
  }

  lemma ListsApart(bs: seq<Range>, lists: seq<seq<nat>>)
    requires Fixed(bs, lists) == true
    ensures Apart(lists)
    ensures forall v: nat :: Listed(lists, v) <==> Covers(bs, v)
  {
    assert OpenIn(OfBlockLists, 0);
    forall i | 0 <= i < |bs| ensures Distinct(lists[i]) && forall v: nat :: v in lists[i] <==> In(bs[i], v) {
      assert ListOf(bs[i], lists[i]);
      ListIsBlock(bs[i], lists[i]);
    }
  }

  /** The generators of the IPv4 blocks run over them. */
  ghost predicate V4Generators(gens: seq<Reorder32>, bs: seq<Range>)
    reads gens
  {
    && |gens| == |bs| && Separate(gens) == true
    && forall i {:trigger Runs(gens[i], bs[i])} :: 0 <= i < |gens| && IsV4(bs[i].start) ==> Runs(gens[i], bs[i])
  }

  method DrawV4(gens: seq<Reorder32>, bs: seq<Range>, ghost lists: seq<seq<nat>>, i: nat) returns (ok: bool, out: nat)
    requires Fixed(bs, lists) == true && V4Generators(gens, bs) && i < |bs| == |lists| && IsV4(bs[i].start)
    modifies gens[i]
    ensures V4Generators(gens, bs) == true
    ensures forall j :: 0 <= j < |bs| && j != i ==> gens[j].ival == old(gens[j].ival)
    ensures ok <==> old(gens[i].ival) < |lists[i]|
    ensures ok ==> out == lists[i][old(gens[i].ival)]
    ensures ok ==> gens[i].ival == if old(gens[i].ival) + 1 == V4COUNT then 0 else old(gens[i].ival) + 1
    ensures old(gens[i].ival) + 1 == V4COUNT && ok ==> bs[i] == Range(0, V4COUNT - 1)
  {
    assert OpenIn(OfGenerators, 0) && OpenIn(OfBlockLists, 0) && OpenIn(OfIdentity, 0) && Runs(gens[i], bs[i]) &&
           ListOf(bs[i], lists[i]);
    CycleIsPermutation(bs[i].start, bs[i].end);
    ok, out := gens[i].Next();
    forall j | 0 <= j < |gens| && IsV4(bs[j].start) ensures Runs(gens[j], bs[j]) {
      if j != i {
        assert old(Runs(gens[j], bs[j]));
      }
    }
  }

  method RestartBlocks(gens: seq<Reorder32>, addrs: array<int>, bs: seq<Range>, ghost lists: seq<seq<nat>>)
    requires Fixed(bs, lists) == true && |gens| == |bs| == addrs.Length
    requires Separate(gens) == true
    modifies gens, addrs
    ensures V4Generators(gens, bs)
    ensures forall i :: 0 <= i < |bs| ==> if IsV4(bs[i].start) then gens[i].ival == 0 else addrs[i] == bs[i].start
  {
    assert OpenIn(OfBlockLists, 0) && OpenIn(OfIdentity, 0);
    for i := 0 to |bs|
      invariant forall j {:trigger Runs(gens[j], bs[j])} :: 0 <= j < i && IsV4(bs[j].start) ==> Runs(gens[j], bs[j])
      invariant forall j :: 0 <= j < i ==> if IsV4(bs[j].start) then gens[j].ival == 0 else addrs[j] == bs[j].start
    {
      if IsV4(bs[i].start) {
        gens[i].Init(bs[i].start, bs[i].end);
        assert Runs(gens[i], bs[i]);
      } else {
        addrs[i] := bs[i].start;
      }
    }
  }

  lemma V6Step(bs: seq<Range>, lists: seq<seq<nat>>, i: nat, p: nat, addr: int)
    requires Fixed(bs, lists) == true && i < |bs| == |lists| && !IsV4(bs[i].start)
    requires IsBlock(bs[i]) && p < |lists[i]| && addr == bs[i].start + p && addr <= bs[i].end
    ensures addr == lists[i][p]
    ensures if addr < bs[i].end then p + 1 < |lists[i]| && AddTo(addr, 1) == bs[i].start + (p + 1)
            else p + 1 == |lists[i]|
  {
    assert OpenIn(OfBlockLists, 0) && ListOf(bs[i], lists[i]);
    assert IsBlock(bs[i]);
  }

  class IpR4Blocks {
    const bs: seq<Range>
    const gens: seq<Reorder32>
    const addrs: array<int>
    const blockmap: array<int>
    var mapindex: nat
    ghost const lists: seq<seq<nat>>
    ghost var order: seq<nat>
    ghost var progress: seq<nat>
    ghost var emitted: seq<nat>  // the addresses returned in this cycle

    ghost predicate Shape()
      reads this
    {
      && Fixed(bs, lists) == true && |lists| == |gens| == |bs| == blockmap.Length == addrs.Length && blockmap != addrs
      && Separate(gens) == true && |bs| <= 0x7fff_ffff && (|bs| > 0 ==> mapindex < |bs|)
    }

    /** Block `i` stands where its progress says. */
    ghost predicate InStep(i: nat)
      reads this, gens, addrs
      requires i < |bs| && i < |gens| && i < addrs.Length && i < |progress| && i < |lists|
    {
      if IsV4(bs[i].start) then gens[i].ival == progress[i] < V4COUNT
      else addrs[i] == bs[i].start + progress[i] && progress[i] < |lists[i]|
    }

    ghost predicate Valid()
      reads this, gens, blockmap, addrs
    {
      && Shape() && V4Generators(gens, bs)
      && Rotating(lists, order, blockmap[..], progress, emitted)
      && (forall c :: 0 <= c < |bs| && blockmap[c] >= 0 ==> InStep(order[c]))
      && Unfinished(bs, progress)
    }

    constructor (blocks: seq<Range>)
      requires BlockForm(blocks)
      ensures Valid() && bs == blocks && emitted == []
      ensures fresh(blockmap) && fresh(addrs) && forall i :: 0 <= i < |gens| ==> fresh(gens[i])
    {
      bs := blocks;
      lists := seq(|blocks|, i requires 0 <= i < |blocks| => ListFor(blocks[i]));
      blockmap := new int[|blocks|];
      addrs := new int[|blocks|];
      mapindex := 0;
      var made := MakeGenerators(|blocks|);
      gens := made;
      new;
      Reset();
    }

    /** ip_r4blocks_reset: `mapindex` stays where the last cycle left it. */
    method Reset()
      requires Shape()
      modifies this, blockmap, addrs, gens
      ensures Valid() && emitted == [] && mapindex == old(mapindex)
    {
      ListsApart(bs, lists);
      if |bs| > 0 {
        FillMap(blockmap);
      }
      RestartBlocks(gens, addrs, bs, lists);
      OrderPermutes(|bs|);
      order, progress, emitted := Order(|bs|), Zeros(|bs|), [];
      RotatingStarts(lists, order, blockmap[..]);
      forall i | 0 <= i < |bs| ensures InStep(i) {
        FixedList(bs, lists, i);
      }
    }

    /** All live positions but `c` are in step. */
    ghost predicate OthersInStep(c: nat)
      reads this, gens, blockmap, addrs
      requires Shape() && Rotating(lists, order, blockmap[..], progress, emitted) && c < |bs|
    {
      forall d :: 0 <= d < |bs| && d != c && blockmap[d] >= 0 ==> order[d] != order[c] && InStep(order[d])
    }

    /** The bookkeeping of the next address of the block at live position `c`. */
    ghost method Emit(c: nat, i: nat)
      requires Shape() && Rotating(lists, order, blockmap[..], progress, emitted) && c < |bs| && OthersInStep(c)
      requires blockmap[c] == i == order[c] && progress[i] < |lists[i]|
      modifies `progress, `emitted
      ensures progress == old(progress)[i := old(progress)[i] + 1] &&
              emitted == old(emitted) + [lists[i][old(progress)[i]]]
      ensures lists[i][old(progress)[i]] !in old(emitted) && Listed(lists, lists[i][old(progress)[i]])
      ensures Rotating(lists, order, blockmap[..], progress, emitted) == true
      ensures OthersInStep(c) == true
    {
      RotatingEmits(lists, order, blockmap[..], progress, emitted, c);
      progress, emitted := progress[i := progress[i] + 1], emitted + [lists[i][progress[i]]];
    }

    /** The same for the last address of the whole IPv4 space, whose generator has started over. */
    ghost method Lap(c: nat, i: nat, out: nat)
      requires Shape() && Rotating(lists, order, blockmap[..], progress, emitted) && c < |bs| && OthersInStep(c)
      requires blockmap[c] == i == order[c] && progress[i] < |lists[i]| && out == lists[i][progress[i]]
      requires bs[i] == Range(0, V4COUNT - 1)
      modifies `progress, `emitted
      ensures progress == old(progress)[i := 0] && Extends(bs, old(emitted), out, emitted)
      ensures out !in old(emitted) && Listed(lists, out)
      ensures Rotating(lists, order, blockmap[..], progress, emitted) == true
      ensures OthersInStep(c) == true
    {
      Emit(c, i);
      RotatingLaps(lists, order, blockmap[..], progress, emitted, c);
      FixedList(bs, lists, i);
      progress, emitted := progress[i := 0], Without(emitted, lists[i]);
    }

    method Deplete(c: nat)
      requires Shape() && Rotating(lists, order, blockmap[..], progress, emitted) && c < |bs| && OthersInStep(c)
      requires progress[order[c]] == |lists[order[c]]|
      modifies blockmap
      ensures blockmap[..] == old(blockmap[..])[c := -1]
      ensures Rotating(lists, order, blockmap[..], progress, emitted) == true
      ensures OthersInStep(c) == true
    {
      RotatingDepletes(lists, order, blockmap[..], progress, emitted, c);
      ghost var slots := blockmap[..][c := -1];
      blockmap[c] := -1;
      assert blockmap[..] == slots;
    }

    lemma OthersStand(c: nat)
      requires Valid() && c < |bs|
      ensures OthersInStep(c)
    {
      RotatingOthers(lists, order, blockmap[..], progress, emitted, c);
    }

    lemma EndlessGoesOn()
      requires Valid() && forall i :: 0 <= i < |lists| ==> progress[i] == |lists[i]|
      ensures !Endless(bs)
    {
      if Endless(bs) {
        var i :| 0 <= i < |bs| && bs[i] == Range(0, V4COUNT - 1);
        FixedList(bs, lists, i);
      }
    }

    method DrawAt(c: nat, i: nat) returns (ok: bool, out: nat)
      requires Valid() && c < |bs| && blockmap[c] == i && i < |bs| && IsV4(bs[i].start)
      modifies gens
      ensures V4Generators(gens, bs) == true && OthersInStep(c) == true && order[c] == i
      ensures ok <==> progress[i] < |lists[i]|
      ensures ok ==> out == lists[i][progress[i]]
      ensures ok ==> gens[i].ival == if progress[i] + 1 == V4COUNT then 0 else progress[i] + 1
      ensures ok && progress[i] + 1 == V4COUNT ==> bs[i] == Range(0, V4COUNT - 1)
    {
      OthersStand(c);
      assert InStep(order[c]);
      ok, out := DrawV4(gens, bs, lists, i);
    }

    /** The bookkeeping of an address drawn from an IPv4 block. */
    ghost method Record(c: nat, i: nat, out: nat)
      requires Shape() && Rotating(lists, order, blockmap[..], progress, emitted) && c < |bs| && OthersInStep(c)
      requires blockmap[c] == i == order[c] && progress[i] < |lists[i]| && out == lists[i][progress[i]]
      requires IsV4(bs[i].start) && progress[i] < V4COUNT && V4Generators(gens, bs) == true && Unfinished(bs, progress)
      requires gens[i].ival == if progress[i] + 1 == V4COUNT then 0 else progress[i] + 1
      requires progress[i] + 1 == V4COUNT ==> bs[i] == Range(0, V4COUNT - 1)
      modifies `progress, `emitted
      ensures Valid() == true
      ensures Extends(bs, old(emitted), out, emitted) && out !in old(emitted) && Listed(lists, out)
    {
      if progress[i] + 1 == V4COUNT {
        Lap(c, i, out);
      } else {
        Emit(c, i);
      }
    }

    method AskV4(c: nat) returns (ok: bool, out: nat)
      requires Valid() && c < |bs| && blockmap[c] >= 0 && IsV4(bs[blockmap[c]].start)
      modifies this, blockmap, gens
      ensures Valid() == true
      ensures ok ==> Extends(bs, old(emitted), out, emitted) && out !in old(emitted) && Listed(lists, out)
      ensures !ok ==> emitted == old(emitted) && blockmap[..] == old(blockmap[..])[c := -1]
    {
      var i := blockmap[c];
      ok, out := DrawAt(c, i);
      mapindex := c;
      if ok {
        Record(c, i, out);
      } else {
        RotatingOthers(lists, order, blockmap[..], progress, emitted, c);
        Deplete(c);
      }
    }

    method AskV6(c: nat) returns (out: nat)
      requires Valid() && c < |bs| && blockmap[c] >= 0 && !IsV4(bs[blockmap[c]].start)
      modifies this, blockmap, addrs
      ensures Valid() == true
      ensures emitted == old(emitted) + [out] && out !in old(emitted) && Listed(lists, out)
    {
      var i := blockmap[c];
      OthersStand(c);
      assert InStep(order[c]);
      FixedList(bs, lists, i);
      V6Step(bs, lists, i, progress[i], addrs[i]);
      out := addrs[i];
      Emit(c, i);
      mapindex := c;
      if addrs[i] < bs[i].end {
        addrs[i] := AddTo(addrs[i], 1);
      } else {
        Deplete(c);
      }
    }

    /**
     ip_r4blocks_next: an address not yet returned in this cycle; or the end, and then the cycle
     has returned every address of the blocks exactly once. The end never comes if one block is the
     whole IPv4 space.
     */
    method Next() returns (ok: bool, out: nat)
      requires Valid()
      modifies this, blockmap, addrs, gens
      ensures Valid()
      ensures ok ==> Extends(bs, old(emitted), out, emitted) && out !in old(emitted) && Covers(bs, out)
      ensures Endless(bs) ==> ok
      ensures !ok ==> emitted == [] && Distinct(old(emitted)) && forall v: nat :: v in old(emitted) <==> Covers(bs, v)
    {
      ListsApart(bs, lists);
      ok, out := false, 0;
      if |bs| == 0 {
        RotatingEnds(lists, order, blockmap[..], progress, emitted);
        emitted := [];
        return;
      }
      while !ok
        invariant Valid() && (!ok ==> emitted == old(emitted))
        invariant ok ==> Extends(bs, old(emitted), out, emitted) && out !in old(emitted) && Covers(bs, out)
        decreases if ok then 0 else 1 + |Live(blockmap[..])|
      {
        var c := NextLive(blockmap, mapindex);
        if c == mapindex && blockmap[c] < 0 {
          RotatingEnds(lists, order, blockmap[..], progress, emitted);
          EndlessGoesOn();
          Reset();
          return;
        }
        LiveShrinks(blockmap[..], c);
        if IsV4(bs[blockmap[c]].start) {
          ok, out := AskV4(c);
        } else {
          out := AskV6(c);
          ok := true;
        }
      }
    }

    /**
     A cycle of at most `limit` calls, from where one begins: it ends, after one call more than there are addresses,
     if they are enough and no block is the whole IPv4 space, and by then every address of the blocks has been
     returned exactly once.
     */
    method WholeCycle(limit: nat) returns (all: seq<nat>, ended: bool)
      requires Valid() && emitted == []
      modifies this, blockmap, addrs, gens
      ensures Valid() && (ended <==> !Endless(bs) && Size(bs) < limit)
      ensures (!Endless(bs) ==> Distinct(all)) && forall v: nat :: v in all ==> Covers(bs, v)
      ensures if ended then emitted == [] && forall v: nat :: Covers(bs, v) ==> v in all else |all| == limit
    {
      all, ended := [], false;
      while |all| < limit && !ended
        invariant Valid() && |all| <= limit && forall v: nat :: v in all ==> Covers(bs, v)
        invariant ended ==> emitted == [] && |all| == Size(bs) < limit && forall v: nat :: Covers(bs, v) ==> v in all
        invariant if Endless(bs) then !ended
                  else Distinct(all) && (!ended ==> emitted == all && |all| <= Size(bs))
        decreases limit - |all|, !ended
      {
        var ok, out := Next();
        if ok {
          all := all + [out];
        } else {
          BlocksAreNat();
          ended := true;
        }
        if !Endless(bs) {
          BlocksBound(all);
        }
      }
    }

    lemma BlocksAreNat()
      requires Valid()
      ensures forall x :: Covers(bs, x) ==> x >= 0
    {
      assert OpenIn(OfBlockLists, 0);
      assert forall i :: 0 <= i < |bs| ==> IsBlock(bs[i]);
    }

    lemma BlocksBound(all: seq<nat>)
      requires Valid() && Distinct(all) && forall v: nat :: v in all ==> Covers(bs, v)
      ensures |all| <= Size(bs)
      ensures (forall x :: Covers(bs, x) ==> x in all) ==> |all| == Size(bs)
    {
      assert OpenIn(OfBlockLists, 0);
      SizeBounds(bs, all);
    }
  }
}
