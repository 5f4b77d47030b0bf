/** The bit set of lib/util/idset.c: a set bit is a free id; words of 32 bits are searched in order. */
module IdSet {
  const BITS := 32

  ghost function FreeIds(bits: seq<bool>, last: int): (ids: set<nat>)
    requires last < |bits|
  {
    set i: nat | i <= last && bits[i]
  }

  ghost predicate LeastFree(bits: seq<bool>, last: int, id: int) {
    && last < |bits| && 0 <= id <= last && bits[id] && forall j :: 0 <= j < id ==> !bits[j]
  }

  class IdSet {
    const bits: array<bool>
    const nelems: nat
    const lastId: int
    var full: bool

    /** The FULL flag is set only while no id is free. */
    ghost predicate Valid()
      reads this, bits
    {
      && bits.Length == nelems * BITS && 0 <= lastId < bits.Length
      && (full ==> forall i :: 0 <= i <= lastId ==> !bits[i])
    }

    ghost function Free(): (ids: set<nat>)
      requires Valid()
      reads this, bits
    {
      FreeIds(bits[..], lastId)
    }

    /** idset_new, for a number of ids that it does not refuse. */
    constructor (nids: nat)
      requires nids > 0
      ensures Valid() && lastId == nids - 1 && fresh(bits)
      ensures forall i: nat :: i in Free() <==> i < nids
    {
      var n := (nids + BITS - 1) / BITS;
      bits := new bool[n * BITS](_ => true);
      nelems, lastId, full := n, nids - 1, false;
    }

    /** ffs: the first set bit of a word, or none. */
    method FirstSet(word: nat) returns (found: bool, bit: nat)
      requires Valid() && word < nelems
      ensures found ==> bit < BITS && bits[word * BITS + bit]
      ensures found ==> forall j :: word * BITS <= j < word * BITS + bit ==> !bits[j]
      ensures !found ==> forall j :: word * BITS <= j < word * BITS + BITS ==> !bits[j]
    {
      found, bit := false, 0;
      while bit < BITS && !found
        invariant bit <= BITS && (found ==> bit < BITS && bits[word * BITS + bit])
        invariant forall j :: word * BITS <= j < word * BITS + bit ==> !bits[j]
        decreases BITS - bit, !found
      {
        if bits[word * BITS + bit] {
          found := true;
        } else {
          bit := bit + 1;
        }
      }
    }

    /** idset_use_next: the least free id, which is then in use; -1 exactly when none is free. */
    method UseNext() returns (id: int)
      requires Valid()
      modifies `full, bits
      ensures Valid()
      ensures id == -1 <==> old(Free()) == {}
      ensures id == -1 ==> Free() == old(Free())
      ensures id != -1 ==> LeastFree(old(bits[..]), lastId, id) && Free() == old(Free()) - {id}
    {
      if full {
        return -1;
      }
      for word := 0 to nelems
        invariant !full && bits[..] == old(bits[..])
        invariant forall j :: 0 <= j < word * BITS ==> !bits[j]
      {
        var found, bit := FirstSet(word);
        if found {
          id := word * BITS + bit;
          bits[id] := false;
          if id > lastId {
            full := true;
            return -1;
          }
          assert id in old(Free());
          return;
        }
      }
      id := -1;
    }

    /** idset_clear: the id is free again; ids out of range are ignored. */
    method Clear(id: int)
      requires Valid()
      modifies `full, bits
      ensures Valid() && Free() == if 0 <= id <= lastId then old(Free()) + {id} else old(Free())
    {
      if id < 0 || id > lastId {
        return;
      }
      bits[(id / BITS) * BITS + id % BITS] := true;
      full := false;
    }
  }
}
