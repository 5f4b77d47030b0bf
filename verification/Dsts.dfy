/**
 Destinations of lib/net/dsts.c: a resumable iterator over every address and port of every
 registered destination. The current destination is a copy of the registered one that shares
 its port array, so each cycle sorts and merges the same array in place again.
 */
module Dsts {
  import opened Ip
  import opened Ports
  import opened Ranges
  import opened Sequences
  import opened Wrappers

  datatype Target = Target(addr: int, port: int, data: int)

  /** A registered destination: struct dst_ctx, whose iterators never move. */
  datatype Dst = Dst(blocks: array<Range>, nblocks: nat, ranges: array<Range>, nranges: nat, data: int)

  /** What a destination stands for. */
  datatype Spec = Spec(addrs: seq<int>, ports: seq<int>, data: int)

  // ----- the sequence of targets

  function Row(addr: int, ports: seq<int>, data: int): (s: seq<Target>) {
    seq(|ports|, i requires 0 <= i < |ports| => Target(addr, ports[i], data))
  }

  /** All ports of the first address, then of the second, and so on. */
  function Rows(addrs: seq<int>, ports: seq<int>, data: int): (s: seq<Target>) {
    if addrs == [] then [] else Row(addrs[0], ports, data) + Rows(addrs[1..], ports, data)
  }

  /** Where each pair of an address and a port stands. */
  lemma {:induction false} RowsAt(addrs: seq<int>, ports: seq<int>, data: int, j: nat, i: nat)
    requires j < |addrs| && i < |ports|
    ensures |Rows(addrs, ports, data)| == |addrs| * |ports| && 0 <= j * |ports| + i < |addrs| * |ports|
    ensures Rows(addrs, ports, data)[j * |ports| + i] == Target(addrs[j], ports[i], data)
  {
    RowsSize(addrs[1..], ports, data);
    var first, others := Row(addrs[0], ports, data), Rows(addrs[1..], ports, data);
    assert Rows(addrs, ports, data) == first + others;
    if j > 0 {
      RowsAt(addrs[1..], ports, data, j - 1, i);
      assert j * |ports| + i == |first| + ((j - 1) * |ports| + i);
    }
    assert |addrs| * |ports| == |ports| + (|addrs| - 1) * |ports|;
  }

  lemma {:induction false} RowsSize(addrs: seq<int>, ports: seq<int>, data: int)
    ensures |Rows(addrs, ports, data)| == |addrs| * |ports|
  {
    if addrs != [] {
      RowsSize(addrs[1..], ports, data);
      assert |addrs| * |ports| == |ports| + (|addrs| - 1) * |ports|;
    }
  }

  function All(specs: seq<Spec>): (s: seq<Target>) {
    if specs == [] then [] else Rows(specs[0].addrs, specs[0].ports, specs[0].data) + All(specs[1..])
  }

  // ----- the same sequence as a list, from any point on

  datatype Targets = End | More(head: Target, tail: Targets)

  function Listed(ts: Targets): (s: seq<Target>) {
    match ts
    case End => []
    case More(t, rest) => [t] + Listed(rest)
  }

  /** The ports of `addr` from `i` on, then `rest`. */
  function RowFrom(addr: int, ports: seq<int>, i: nat, data: int, rest: Targets): (ts: Targets)
    requires i <= |ports|
    decreases |ports| - i
  {
    if i == |ports| then rest else More(Target(addr, ports[i], data), RowFrom(addr, ports, i + 1, data, rest))
  }

  function RowsFrom(addrs: seq<int>, j: nat, ports: seq<int>, data: int, rest: Targets): (ts: Targets)
    requires j <= |addrs|
    decreases |addrs| - j
  {
    if j == |addrs| then rest else RowFrom(addrs[j], ports, 0, data, RowsFrom(addrs, j + 1, ports, data, rest))
  }

  function AllFrom(specs: seq<Spec>, k: nat): (ts: Targets)
    requires k <= |specs|
    decreases |specs| - k
  {
    if k == |specs| then End else RowsFrom(specs[k].addrs, 0, specs[k].ports, specs[k].data, AllFrom(specs, k + 1))
  }

  /**
   What is left while at port `i` of `addr`, with the addresses from `j` on and the destinations from `k` on to
   come.
   */
  ghost function Left(addr: int, s: Spec, i: nat, j: nat, specs: seq<Spec>, k: nat): (t: Targets)
    requires i <= |s.ports| && j <= |s.addrs| && k <= |specs|
  {
    RowFrom(addr, s.ports, i, s.data, RowsFrom(s.addrs, j, s.ports, s.data, AllFrom(specs, k)))
  }

  lemma {:induction false} RowFromListed(addr: int, ports: seq<int>, i: nat, data: int, rest: Targets)
    requires i <= |ports|
    ensures Listed(RowFrom(addr, ports, i, data, rest)) == Row(addr, ports[i..], data) + Listed(rest)
    decreases |ports| - i
  {
    if i < |ports| {
      RowFromListed(addr, ports, i + 1, data, rest);
      assert Row(addr, ports[i..], data) == [Target(addr, ports[i], data)] + Row(addr, ports[i + 1..], data);
    }
  }

  lemma {:induction false} RowsFromListed(addrs: seq<int>, j: nat, ports: seq<int>, data: int, rest: Targets)
    requires j <= |addrs|
    ensures Listed(RowsFrom(addrs, j, ports, data, rest)) == Rows(addrs[j..], ports, data) + Listed(rest)
    decreases |addrs| - j
  {
    if j < |addrs| {
      RowsFromListed(addrs, j + 1, ports, data, rest);
      RowFromListed(addrs[j], ports, 0, data, RowsFrom(addrs, j + 1, ports, data, rest));
      assert ports[0..] == ports && addrs[j..][1..] == addrs[j + 1..];
    }
  }

  lemma {:induction false} AllFromListed(specs: seq<Spec>, k: nat)
    requires k <= |specs|
    ensures Listed(AllFrom(specs, k)) == All(specs[k..])
    decreases |specs| - k
  {
    if k < |specs| {
      AllFromListed(specs, k + 1);
      var s := specs[k];
      RowsFromListed(s.addrs, 0, s.ports, s.data, AllFrom(specs, k + 1));
      assert specs[k..][1..] == specs[k + 1..] && s.addrs[0..] == s.addrs;
    }
  }

  lemma {:induction false} AllAppends(specs: seq<Spec>, s: Spec)
    ensures All(specs + [s]) == All(specs) + Rows(s.addrs, s.ports, s.data)
  {
    var all, rows := specs + [s], Rows(s.addrs, s.ports, s.data);
    if specs == [] {
      assert all[0] == s && all[1..] == [];
    } else {
      AllAppends(specs[1..], s);
      assert all[0] == specs[0] && all[1..] == specs[1..] + [s];
      Regroup(Rows(specs[0].addrs, specs[0].ports, specs[0].data), All(specs[1..]), rows);
    }
  }

  lemma AllGrows(specs: seq<Spec>, k: nat, s: Spec)
    requires k <= |specs|
    ensures Listed(AllFrom(specs + [s], k)) == Listed(AllFrom(specs, k)) + Rows(s.addrs, s.ports, s.data)
  {
    AllFromListed(specs, k);
    AllFromListed(specs + [s], k);
    AllAppends(specs[k..], s);
    assert (specs + [s])[k..] == specs[k..] + [s];
  }

  lemma LeftGrows(addr: int, c: Spec, i: nat, j: nat, specs: seq<Spec>, k: nat, s: Spec)
    requires i <= |c.ports| && j <= |c.addrs| && k <= |specs|
    ensures Listed(Left(addr, c, i, j, specs + [s], k))
            == Listed(Left(addr, c, i, j, specs, k)) + Rows(s.addrs, s.ports, s.data)
  {
    AllGrows(specs, k, s);
    var rest, rest' := AllFrom(specs, k), AllFrom(specs + [s], k);
    RowsFromListed(c.addrs, j, c.ports, c.data, rest);
    RowsFromListed(c.addrs, j, c.ports, c.data, rest');
    RowFromListed(addr, c.ports, i, c.data, RowsFrom(c.addrs, j, c.ports, c.data, rest));
    RowFromListed(addr, c.ports, i, c.data, RowsFrom(c.addrs, j, c.ports, c.data, rest'));
  }

  // ----- the registered destinations

  ghost predicate Stands(d: Dst, form: seq<Range>, s: Spec)
    reads d.blocks, d.ranges
  {
    PortsStand(d, form, s) == true && AddrsStand(d, s) == true && s.data == d.data
  }

  ghost predicate PortsStand(d: Dst, form: seq<Range>, s: Spec)
    reads d.ranges
  {
    forall k: nat :: OpenIn(OfDestinations, k) ==>
      && d.nranges <= d.ranges.Length && Proper(d.ranges[..d.nranges]) && SameCover(d.ranges[..d.nranges], form)
      && PortForm(form) && (d.nranges == 0 <==> form == []) && s.ports == Listing(form)
  }

  ghost predicate AddrsStand(d: Dst, s: Spec)
    reads d.blocks
  {
    forall k: nat :: OpenIn(OfDestinations, k) ==>
      && d.nblocks <= d.blocks.Length && Blocks(d.blocks[..d.nblocks])
      && s.addrs == Enum(d.blocks[..d.nblocks], d.nblocks)
  }

  /**
   The destinations stand for the specs; their port arrays, all different, are in `pas` and their block arrays in
   `bas`.
   */
  ghost predicate Registered(dsts: seq<Dst>, forms: seq<seq<Range>>, specs: seq<Spec>, pas: set<array<Range>>,
                             bas: set<array<Range>>)
    reads pas, bas
  {
    && |forms| == |specs| == |dsts| && pas !! bas
    && (forall i, j :: 0 <= i < j < |dsts| ==> dsts[i].ranges != dsts[j].ranges)
    && forall i {:trigger Stands(dsts[i], forms[i], specs[i])} :: 0 <= i < |dsts| ==>
         dsts[i].ranges in pas && dsts[i].blocks in bas && Stands(dsts[i], forms[i], specs[i])
  }

  /** What a destination made from the blocks `bs` and the port ranges `ps` stands for. */
  ghost predicate SpecOf(s: Spec, bs: seq<Range>, ps: seq<Range>, data: int) {
    && s.data == data
    && (forall x :: x in s.addrs <==> Covers(bs, x))
    && (forall x :: x in s.ports <==> Covers(ps, x))
    && (forall i, j :: 0 <= i < j < |s.ports| ==> s.ports[i] < s.ports[j])
    && (Clear(SortRanges(bs), |bs|) ==> forall i, j :: 0 <= i < j < |s.addrs| ==> s.addrs[i] < s.addrs[j])
  }

  method MakeDst(bs: seq<Range>, ps: seq<Range>, data: int) returns (d: Dst, ghost form: seq<Range>, ghost s: Spec)
    requires Blocks(bs)
    requires Proper(ps) && forall i :: 0 <= i < |ps| ==> 0 <= ps[i].start <= ps[i].end < 65536
    ensures Stands(d, form, s) && SpecOf(s, bs, ps, data) && fresh(d.blocks) && fresh(d.ranges) && d.blocks != d.ranges
  {
    var addrs := new IpBlocks(bs);
    var ports := new PortRanges(ps);
    d := Dst(addrs.blocks, addrs.nblocks, ports.ranges, ports.nranges, data);
    form, s := ports.form, Spec(addrs.Listing(), Listing(ports.form), data);
    ghost var blocks := addrs.blocks[..addrs.nblocks];
    EnumAscends(form);
    forall x ensures x in s.addrs <==> Covers(bs, x) {
      EnumMember(blocks, |blocks|, x);
      assert Covers(blocks, x) <==> Covers(bs, x);
    }
    forall x ensures x in s.ports <==> Covers(ps, x) {
      assert Covers(form, x) <==> Covers(ps, x);
    }
    if Normal(blocks) {
      EnumAscends(blocks);
    }
  }

  lemma StillRegistered(dsts: seq<Dst>, forms: seq<seq<Range>>, specs: seq<Spec>, pas: set<array<Range>>,
                        bas: set<array<Range>>,
                        d: Dst, form: seq<Range>, s: Spec)
    requires Registered(dsts, forms, specs, pas, bas) && Stands(d, form, s) && d.blocks != d.ranges
    requires d.blocks !in pas + bas && d.ranges !in pas + bas
    ensures Registered(dsts + [d], forms + [form], specs + [s], pas + {d.ranges}, bas + {d.blocks})
  {
    var dsts', forms', specs' := dsts + [d], forms + [form], specs + [s];
    forall i | 0 <= i < |dsts'|
      ensures dsts'[i].ranges in pas + {d.ranges} && dsts'[i].blocks in bas + {d.blocks} &&
              Stands(dsts'[i], forms'[i], specs'[i])
    {
      assert i < |dsts| ==> Stands(dsts[i], forms[i], specs[i]);
    }
    forall i | 0 <= i < |dsts| ensures dsts[i].ranges != d.ranges {
      assert Stands(dsts[i], forms[i], specs[i]);
    }
  }

  /** No other array is the port array of destination `k`. */
  lemma Elsewhere(dsts: seq<Dst>, forms: seq<seq<Range>>, specs: seq<Spec>, pas: set<array<Range>>,
                  bas: set<array<Range>>, k: nat)
    requires Registered(dsts, forms, specs, pas, bas) && k < |dsts|
    ensures forall i :: 0 <= i < |dsts| && i != k ==> dsts[i].ranges != dsts[k].ranges
    ensures forall i :: 0 <= i < |dsts| ==> dsts[i].blocks != dsts[k].ranges
  {
    assert Stands(dsts[k], forms[k], specs[k]);
    forall i | 0 <= i < |dsts| ensures dsts[i].blocks != dsts[k].ranges {
      assert Stands(dsts[i], forms[i], specs[i]);
    }
  }

  // ----- the copy being iterated

  ghost predicate AddrsAt(addrs: IpBlocks, d: Dst, s: Spec)
    reads addrs, addrs.blocks
  {
    forall k: nat :: Open(k) ==>
      && addrs.Valid() && addrs.blocks == d.blocks && addrs.nblocks == d.nblocks
      && s.addrs == addrs.Listing()
  }

  ghost predicate PortsAt(ports: PortRanges, d: Dst, form: seq<Range>, s: Spec)
    reads ports, ports.ranges
  {
    forall k: nat :: Open(k) ==>
      && ports.Valid() && ports.ranges == d.ranges && (ports.dirty ==> ports.nranges == d.nranges)
      && ports.form == form && s.ports == Listing(form)
  }

  method LoadAddrs(addrs: IpBlocks, d: Dst, ghost s: Spec)
    requires AddrsStand(d, s)
    modifies addrs
    ensures AddrsAt(addrs, d, s) && addrs.pos == 0 && addrs.blocks == d.blocks
  {
    assert OpenIn(OfDestinations, 0);
    addrs.Load(d.blocks, d.nblocks);
  }

  method NextAddr(addrs: IpBlocks, d: Dst, ghost s: Spec) returns (ok: bool, addr: int)
    requires AddrsAt(addrs, d, s)
    modifies addrs
    ensures AddrsAt(addrs, d, s) && addrs.blocks == old(addrs.blocks)
    ensures ok <==> old(addrs.pos) < |s.addrs|
    ensures ok ==> addr == s.addrs[old(addrs.pos)] && addrs.pos == old(addrs.pos) + 1
    ensures !ok ==> addrs.pos == 0
  {
    assert Open(0);
    ok, addr := addrs.Next();
  }

  method LoadPorts(ports: PortRanges, d: Dst, ghost form: seq<Range>, ghost s: Spec)
    requires PortsStand(d, form, s)
    modifies ports
    ensures PortsAt(ports, d, form, s) && ports.pos == 0 && ports.ranges == d.ranges
  {
    assert OpenIn(OfDestinations, 0);
    ports.Load(d.ranges, d.nranges, form);
  }

  /** The next port; the array may be sorted and merged on the way, and still stands for the same ports. */
  method NextPort(ports: PortRanges, d: Dst, ghost form: seq<Range>, ghost s: Spec) returns (ok: bool, port: int)
    requires PortsAt(ports, d, form, s) && PortsStand(d, form, s) && ports.ranges == d.ranges
    modifies ports, d.ranges
    ensures PortsAt(ports, d, form, s) && PortsStand(d, form, s) && ports.ranges == d.ranges
    ensures ok <==> old(ports.pos) < |s.ports|
    ensures ok ==> port == s.ports[old(ports.pos)] && ports.pos == old(ports.pos) + 1
    ensures !ok ==> ports.pos == 0
  {
    assert Open(0) && OpenIn(OfDestinations, 0);
    ok, port := ports.Next();
  }

  class DstsCtx {
    var dsts: seq<Dst>
    var finited: bool
    var next: nat
    const currAddrs: IpBlocks
    const currPorts: PortRanges
    var currData: int
    var currAddr: int
    ghost var forms: seq<seq<Range>>
    ghost var specs: seq<Spec>
    ghost var portArrays: set<array<Range>>
    ghost var blockArrays: set<array<Range>>

    /** The current destination is a copy of the last one loaded. */
    ghost predicate Current()
      reads this, currAddrs, currAddrs.blocks, currPorts, currPorts.ranges
      requires |forms| == |specs| == |dsts|
    {
      && 0 < next <= |dsts|
      && AddrsAt(currAddrs, dsts[next - 1], specs[next - 1]) && currAddrs.blocks == dsts[next - 1].blocks
      && PortsAt(currPorts, dsts[next - 1], forms[next - 1], specs[next - 1]) &&
        currPorts.ranges == dsts[next - 1].ranges
      && currAddrs.pos <= |specs[next - 1].addrs| && currPorts.pos <= |specs[next - 1].ports|
      && currData == dsts[next - 1].data == specs[next - 1].data
    }

    ghost predicate Valid()
      reads this, portArrays, blockArrays, currAddrs, currAddrs.blocks, currPorts, currPorts.ranges
    {
      Registered(dsts, forms, specs, portArrays, blockArrays) && (finited ==> Current())
    }

    /** The targets still to come in this cycle. */
    ghost function Pending(): (ts: Targets)
      requires Valid()
      reads this, portArrays, blockArrays, currAddrs, currAddrs.blocks, currPorts, currPorts.ranges
    {
      if finited then Left(currAddr, specs[next - 1], currPorts.pos, currAddrs.pos, specs, next) else AllFrom(specs, 0)
    }

    constructor ()
      ensures Valid() && !finited && specs == [] && fresh(currAddrs) && fresh(currPorts)
    {
      dsts, finited, next, currData, currAddr, forms, specs := [], false, 0, 0, 0, [], [];
      portArrays, blockArrays := {}, {};
      currAddrs := new IpBlocks([]);
      currPorts := new PortRanges([]);
    }

    /** dsts_add on what was parsed: the targets of the new destination come after all others, in this cycle already. */
    method Add(bs: seq<Range>, ps: seq<Range>, data: int)
      requires Valid() && Blocks(bs)
      requires Proper(ps) && forall i :: 0 <= i < |ps| ==> 0 <= ps[i].start <= ps[i].end < 65536
      modifies `dsts, `forms, `specs, `portArrays, `blockArrays
      ensures Valid() && |specs| == |old(specs)| + 1 && specs[..|old(specs)|] == old(specs)
      ensures SpecOf(specs[|old(specs)|], bs, ps, data)
      ensures var s := specs[|old(specs)|];
              Listed(Pending()) == old(Listed(Pending())) + Rows(s.addrs, s.ports, s.data)
    {
      var d;
      ghost var form, s;
      d, form, s := MakeDst(bs, ps, data);
      Append(d, form, s);
    }

    method Append(d: Dst, ghost form: seq<Range>, ghost s: Spec)
      requires Valid() && Stands(d, form, s) && d.blocks != d.ranges
      requires d.blocks !in portArrays + blockArrays && d.ranges !in portArrays + blockArrays
      modifies `dsts, `forms, `specs, `portArrays, `blockArrays
      ensures Valid() && specs == old(specs) + [s]
      ensures Listed(Pending()) == old(Listed(Pending())) + Rows(s.addrs, s.ports, s.data)
    {
      PendingGrows(s);
      StillRegistered(dsts, forms, specs, portArrays, blockArrays, d, form, s);
      ghost var before := dsts;
      dsts, forms, specs := dsts + [d], forms + [form], specs + [s];
      portArrays, blockArrays := portArrays + {d.ranges}, blockArrays + {d.blocks};
      assert finited ==> dsts[next - 1] == before[next - 1];
    }

    lemma PendingGrows(s: Spec)
      requires Valid()
      ensures finited ==>
                Listed(Left(currAddr, specs[next - 1], currPorts.pos, currAddrs.pos, specs + [s], next))
                == Listed(Pending()) + Rows(s.addrs, s.ports, s.data)
      ensures !finited ==> Listed(AllFrom(specs + [s], 0)) == Listed(Pending()) + Rows(s.addrs, s.ports, s.data)
    {
      if finited {
        LeftGrows(currAddr, specs[next - 1], currPorts.pos, currAddrs.pos, specs, next, s);
      } else {
        AllGrows(specs, 0, s);
      }
    }

    /** memcpy of a registered destination. */
    method Copy(k: nat)
      requires Registered(dsts, forms, specs, portArrays, blockArrays) && k < |dsts|
      modifies `next, `currData, currAddrs, currPorts
      ensures next == k + 1 && Current() && currPorts.pos == 0 && currAddrs.pos == 0
    {
      var d := dsts[k];
      assert Stands(d, forms[k], specs[k]);
      LoadAddrs(currAddrs, d, specs[k]);
      LoadPorts(currPorts, d, forms[k], specs[k]);
      currData, next := d.data, k + 1;
    }

    /** dsts_next_dst: the next destination with an address. */
    method NextDst() returns (ok: bool)
      requires Registered(dsts, forms, specs, portArrays, blockArrays) && next <= |dsts|
      modifies `next, `currData, `currAddr, currAddrs, currPorts
      ensures ok ==> old(next) < next && Current()
      ensures ok ==>
                AllFrom(specs, old(next)) == Left(currAddr, specs[next - 1], currPorts.pos, currAddrs.pos, specs, next)
      ensures !ok ==> AllFrom(specs, old(next)) == End
    {
      ok := false;
      while next < |dsts| && !ok
        invariant old(next) <= next <= |dsts|
        invariant ok ==> old(next) < next && Current()
        invariant AllFrom(specs, old(next)) ==
                  if ok then Left(currAddr, specs[next - 1], currPorts.pos, currAddrs.pos, specs, next)
                     else AllFrom(specs, next)
      {
        Copy(next);
        ok := TakeAddress();
      }
    }

    method TakePort() returns (ok: bool, port: int)
      requires Registered(dsts, forms, specs, portArrays, blockArrays) && Current()
      modifies currPorts, currPorts.ranges
      ensures Registered(dsts, forms, specs, portArrays, blockArrays) == true && Current()
      ensures ok <==> old(currPorts.pos) < |specs[next - 1].ports|
      ensures ok ==> port == specs[next - 1].ports[old(currPorts.pos)] && currPorts.pos == old(currPorts.pos) + 1
      ensures !ok ==> currPorts.pos == 0
    {
      var k := next - 1;
      assert Stands(dsts[k], forms[k], specs[k]);
      Elsewhere(dsts, forms, specs, portArrays, blockArrays, k);
      ok, port := NextPort(currPorts, dsts[k], forms[k], specs[k]);
      forall i | 0 <= i < |dsts| ensures Stands(dsts[i], forms[i], specs[i]) {
        assert old(Stands(dsts[i], forms[i], specs[i]));
      }
    }

    method TakeAddress() returns (ok: bool)
      requires Registered(dsts, forms, specs, portArrays, blockArrays) && Current()
      modifies `currAddr, currAddrs
      ensures Current()
      ensures ok <==> old(currAddrs.pos) < |specs[next - 1].addrs|
      ensures ok ==> currAddr == specs[next - 1].addrs[old(currAddrs.pos)] && currAddrs.pos == old(currAddrs.pos) + 1
    {
      var addr;
      ok, addr := NextAddr(currAddrs, dsts[next - 1], specs[next - 1]);
      if ok {
        currAddr := addr;
      }
    }
  
    /** All ports of an address are done: the next address or destination, or the end. */
    method Turn()
      requires Valid() && finited && currPorts.pos == 0
      modifies `finited, `next, `currData, `currAddr, currAddrs, currPorts
      ensures Valid()
      ensures var s := specs[old(next) - 1];
              RowsFrom(s.addrs, old(currAddrs.pos), s.ports, s.data, AllFrom(specs, old(next)))
              == if finited then Pending() else End
      ensures finited ==> next > old(next) || (next == old(next) && currAddrs.pos > old(currAddrs.pos))
    {
      var more := TakeAddress();
      if !more {
        finited := NextDst();
      }
    }

    /** One round from the label `again`. */
    method Round() returns (ok: bool, out: Target)
      requires Valid() && finited
      modifies `finited, `next, `currData, `currAddr, currAddrs, currPorts, currPorts.ranges
      ensures Valid() && (ok ==> finited)
      ensures old(Pending()) == if ok then More(out, Pending()) else if finited then Pending() else End
      ensures !ok && finited ==> next > old(next) || (next == old(next) && currAddrs.pos > old(currAddrs.pos))
    {
      var port;
      ok, port := TakePort();
      out := Target(currAddr, port, currData);
      if !ok {
        Turn();
      }
    }

    /** The (re)initialization at the start of a cycle. */
    method Begin()
      requires Valid() && !finited
      modifies `finited, `next, `currData, `currAddr, currAddrs, currPorts
      ensures Valid() && old(Pending()) == if finited then Pending() else End
    {
      next := 0;
      finited := NextDst();
    }

    /** dsts_next: the first pending target; or the end of the cycle, after which all targets are pending again. */
    method Next() returns (ok: bool, out: Target)
      requires Valid()
      modifies `finited, `next, `currData, `currAddr, currAddrs, currPorts, portArrays
      ensures Valid()
      ensures ok ==> old(Pending()) == More(out, Pending())
      ensures !ok ==> old(Pending()) == End && !finited
    {
      ok, out := false, Target(0, 0, 0);
      if |dsts| == 0 {
        return;
      }
      ghost var pending := Pending();
      if !finited {
        Begin();
      }
      while finited && !ok
        invariant Valid() && (ok ==> finited)
        invariant pending == if ok then More(out, Pending()) else if finited then Pending() else End
        decreases finited && !ok, |dsts| - next,
                  if finited && Valid() then |specs[next - 1].addrs| - currAddrs.pos else 0
      {
        assert Stands(dsts[next - 1], forms[next - 1], specs[next - 1]);
        ok, out := Round();
      }
    }

    /** A whole cycle, from any call at which a cycle begins to the call that ends it; the next cycle is the same. */
    method Cycle() returns (targets: seq<Target>)
      requires Valid() && !finited
      modifies `finited, `next, `currData, `currAddr, currAddrs, currPorts, portArrays
      ensures Valid() && !finited && targets == All(specs)
    {
      targets := [];
      assert specs[0..] == specs;
      AllFromListed(specs, 0);
      var ok, out := Next();
      while ok
        invariant Valid()
        invariant if ok then targets + [out] + Listed(Pending()) == All(specs) else targets == All(specs) && !finited
        decreases ok, Pending()
      {
        targets := targets + [out];
        ok, out := Next();
      }
    }
  }
}
