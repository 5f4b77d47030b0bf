/** lib/util/deduptbl.c: a fixed-size Robin Hood set of non-zero ids, placed by their first word. */
module DedupTbl {
  import opened Powers
  import opened Rehashing
  import opened RobinHood

  const MAX_ENTRIES := 0x3fff_ffff

  datatype Status = Ok | TooBig | Full | Exists | NoSlot

  function Home<Id(!new)>(word: Id -> nat, cap: nat): (home: Id -> nat)
    ensures cap > 0 ==> forall id :: home(id) < cap
  {
    (id: Id) => if cap == 0 then 0 else word(id) % cap
  }

  /** `word` is the id's first 32-bit word; ids are non-zero, the zero id marking an empty slot. */
  class DedupTable<Id(==,!new)> {
    const word: Id -> nat
    var entries: array<Slot<Id, ()>>
    var nmax: nat
    var nused: nat
    ghost var Known: map<Id, ()>  // the stored ids

    ghost predicate Valid()
      reads this, entries
    {
      && Sound(entries[..], Home(word, entries.Length), nused, Known) == true
      && nused == |Known| <= nmax < entries.Length
    }

    constructor (word: Id -> nat)
      ensures this.word == word && fresh(entries)
    {
      this.word := word;
      entries := new Slot<Id, ()>[0];
      nmax, nused, Known := 0, 0, map[];
    }

    /** deduptbl_create: the rounded-up capacity always exceeds the entry limit. */
    method Create(maxEntries: nat) returns (status: Status)
      modifies this
      ensures status == if maxEntries > MAX_ENTRIES then TooBig else Ok
      ensures status == Ok ==> Valid() && fresh(entries) && Known == map[] && nmax == maxEntries
      ensures status != Ok ==> unchanged(this)
    {
      if maxEntries > MAX_ENTRIES {
        return TooBig;
      }
      var want := maxEntries + maxEntries / 6;
      want := if want < 32 then 32 else want;
      CeilPow2IsLeast(want, 0);
      var cap := RoundUpPow2(want);
      entries := new Slot<Id, ()>[cap](_ => Empty);
      nmax, nused, Known := maxEntries, 0, map[];
      EmptyIsSound(entries[..], Home(word, cap));
      return Ok;
    }

    /** deduptbl_contains */
    method Contains(id: Id) returns (found: bool)
      requires Valid()
      ensures found <==> id in Known
    {
      var pos;
      found, pos := Lookup(entries, Home(word, entries.Length), nused, id, Known);
    }

    /** deduptbl_update: tells new ids from known ones until the limit is reached. */
    method Update(id: Id) returns (status: Status)
      requires Valid()
      modifies this, entries
      ensures Valid() && entries == old(entries) && nmax == old(nmax)
      ensures status == if old(|Known|) >= nmax then Full else if id in old(Known) then Exists else Ok
      ensures Known == if status == Ok then old(Known)[id := ()] else old(Known)
    {
      if nused >= nmax {
        return Full;
      }
      var put;
      ghost var n;
      put, n, Known := Store(entries, Home(word, entries.Length), nused, id, (), false, Known);
      nused := if put.Added? then nused + 1 else nused;
      status := if put.Added? then Ok else if put.Existed? then Exists else NoSlot;
    }
  }
}
