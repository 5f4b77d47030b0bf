/**
 lib/util/idtbl.c: a growing Robin Hood table from 32-bit keys to values. The hash is
 an arbitrary function of key and seed, since every growth derives a new seed.
 */
module IdTbl {
  import opened Powers
  import opened Rehashing
  import opened RobinHood
  import opened Wrappers

  const UINT32_MAX := 0xffff_ffff
  const FNV1A_OFFSET := 0x811c_9dc5

  datatype Status = Ok | NotFound | Full | Invalid | NoSlot | NoMem

  type Hash = (nat, nat) -> nat

  /** TABLE_INDEX of the hash; the stored key is the caller's key plus one. */
  function Home(hash: Hash, seed: nat, cap: nat): (home: nat -> nat)
    ensures cap > 0 ==> forall k :: home(k) < cap
  {
    (k: nat) => if cap == 0 then 0 else hash(k + 1, seed) % cap
  }

  /**
   The first slot from `h` on that is empty, or holds an entry displaced less than the probes made, is empty: what
   a search for the empty mark itself meets.
   */
  ghost predicate MeetsEmpty<V>(e: seq<Slot<nat, V>>, h: nat)
    requires h < |e|
  {
    exists j :: 0 <= j < |e| && PassesTo(e, h, j) && e[Probe(|e|, h, j)].Empty?
  }

  ghost predicate PassesTo<V>(e: seq<Slot<nat, V>>, h: nat, j: nat)
    requires h < |e| && j <= |e|
  {
    forall i {:trigger Probe(|e|, h, i)} :: 0 <= i < j ==>
      e[Probe(|e|, h, i)].Entry? && e[Probe(|e|, h, i)].distance >= i
  }

  /** The search is over at the first slot that stops it. */
  lemma StopDecides<V>(e: seq<Slot<nat, V>>, h: nat, j: nat)
    requires h < |e| && j <= |e| && PassesTo(e, h, j)
    requires j == |e| || (var s := e[Probe(|e|, h, j)]; s.Empty? || s.distance < j)
    ensures MeetsEmpty(e, h) <==> j < |e| && e[Probe(|e|, h, j)].Empty?
  {
  }

  /** TABLE_INDEX of the hash of 0, where the search for UINT32_MAX starts. */
  function HomeOfMax(hash: Hash, seed: nat, cap: nat): (h: nat)
    requires cap > 0
    ensures h < cap
  {
    hash(0, seed) % cap
  }

  /** Everything but the count of entries: they are a sound table for `m`, of a capacity that is a power of two. */
  ghost predicate Good<V>(e: seq<Slot<nat, V>>, hash: Hash, seed: nat, m: map<nat, V>) {
    forall k: nat :: Open(k) ==>
      && Sound(e, Home(hash, seed, |e|), |m|, m) == true
      && (forall key :: key in m ==> key < UINT32_MAX)
      && IsPow2(|e|)
  }

  lemma EmptyIsGood<V>(e: seq<Slot<nat, V>>, hash: Hash, seed: nat)
    requires |e| > 0 && IsPow2(|e|) && forall i :: 0 <= i < |e| ==> e[i].Empty?
    ensures Good(e, hash, seed, map[]) == true
  {
    EmptyIsSound(e, Home(hash, seed, |e|));
  }

  lemma GoodFits<V>(e: seq<Slot<nat, V>>, hash: Hash, seed: nat, m: map<nat, V>)
    requires Good(e, hash, seed, m) == true
    ensures 0 < |e| && |m| <= |e| && UINT32_MAX !in m
  {
    assert Open(0);
    SoundIs(e, Home(hash, seed, |e|), |m|, m);
  }

  /** find_table_entry for a key that is stored incremented. */
  method FindKey<V>(a: array<Slot<nat, V>>, hash: Hash, seed: nat, key: nat, ghost m: map<nat, V>)
    returns (found: bool, pos: nat)
    requires Good(a[..], hash, seed, m) == true
    ensures found <==> key in m
    ensures found ==> pos < a.Length && a[pos].Entry? && a[pos].key == key && a[pos].value == m[key]
  {
    GoodFits(a[..], hash, seed, m);
    assert Open(0);
    found, pos := Lookup(a, Home(hash, seed, a.Length), |m|, key, m);
  }

  /** The same search for the key 0, which UINT32_MAX becomes and which marks an empty slot. */
  method FindMax<V>(a: array<Slot<nat, V>>, start: nat) returns (found: bool, pos: nat)
    requires start < a.Length
    ensures found <==> MeetsEmpty(a[..], start)
    ensures found ==> pos < a.Length && a[pos].Empty?
  {
    var cap := a.Length;
    var distance: nat := 0;
    pos := start;
    while distance < cap && a[pos].Entry? && a[pos].distance >= distance
      invariant distance <= cap && pos == Probe(cap, start, distance)
      invariant PassesTo(a[..], start, distance)
    {
      pos, distance := NextPos(cap, pos), distance + 1;
    }
    StopDecides(a[..], start, distance);
    found := distance < cap && a[pos].Empty?;
  }

  /** Removes what the search has found. */
  method RemoveFound<V>(a: array<Slot<nat, V>>, hash: Hash, seed: nat, pos: nat, key: nat, ghost m: map<nat, V>)
    returns (ghost m': map<nat, V>)
    requires Good(a[..], hash, seed, m) == true && pos < a.Length
    requires a[pos].Empty? || a[pos].key == key
    modifies a
    ensures Good(a[..], hash, seed, m') == true
    ensures old(a[pos].Entry?) ==> m' == m - {key}
    ensures old(a[pos].Empty?) ==> m' == m && a[..] == old(a[..])
  {
    assert Open(0);
    ghost var n;
    n, m' := Discard(a, pos, Home(hash, seed, a.Length), |m|, key, m);
    assert n == |m'| by {
      assert m' == m || (key in m && |m - {key}| == |m| - 1);
    }
  }

  /** The loop of set_table_value. */
  method PutKey<V>(a: array<Slot<nat, V>>, hash: Hash, seed: nat, key: nat, value: V, ghost m: map<nat, V>)
    returns (put: PutStatus, ghost m': map<nat, V>)
    requires Good(a[..], hash, seed, m) == true && key < UINT32_MAX
    modifies a
    ensures put == if key in m then Existed else if |m| < a.Length then Added else NoFreeSlot
    ensures put != NoFreeSlot ==> m' == m[key := value] && Good(a[..], hash, seed, m') == true
    ensures put == NoFreeSlot ==> LostOne(a[..], Home(hash, seed, a.Length), m[key := value], m') == true
  {
    GoodFits(a[..], hash, seed, m);
    assert Open(0);
    ghost var n;
    put, n, m' := Store(a, Home(hash, seed, a.Length), |m|, key, value, true, m);
  }

  /** The new table and the loop of grow. */
  method Doubled<V>(a: array<Slot<nat, V>>, cap: nat, hash: Hash, seed: nat, seed': nat, ghost m: map<nat, V>)
    returns (b: array<Slot<nat, V>>, n: nat, ghost e: seq<Slot<nat, V>>)
    requires Good(a[..], hash, seed, m) == true && cap == 2 * a.Length && 2 * a.Length < UINT32
    ensures fresh(b) && b.Length == cap && n == |m| && b[..] == e
    ensures Good(e, hash, seed', m) == true
  {
    assert Open(0);
    DoubledCap(a.Length);
    b, n := Enlarged(a, cap, Home(hash, seed, a.Length), Home(hash, seed', cap), |m|, m);
    e := b[..];
  }

  lemma GoodCap<V>(e: seq<Slot<nat, V>>, hash: Hash, seed: nat, m: map<nat, V>)
    requires Good(e, hash, seed, m) == true && 2 * |e| < UINT32
    ensures 2 * |e| <= UINT32 / 2 && CeilPow2(2 * |e|) == 2 * |e|
  {
    assert Open(0);
    DoubledCap(|e|);
  }

  class IdTable<V> {
    const hash: Hash
    var entries: array<Slot<nat, V>>
    var size: nat
    var hashseed: nat
    var rehashLimit: nat
    ghost var Contents: map<nat, V>

    /** What holds after every call that has a slot for its key. The count of entries may be wrong. */
    ghost predicate Valid()
      reads this, entries
    {
      && Good(entries[..], hash, hashseed, Contents) == true
      && 0 < entries.Length <= UINT32 / 2 && |Contents| <= entries.Length && UINT32_MAX !in Contents
      && rehashLimit == entries.Length - entries.Length / 6
      && size < UINT32
    }

    /** The count of entries is right. Only the removal of UINT32_MAX makes it wrong. */
    ghost predicate Counted()
      reads this
    {
      size == |Contents|
    }

    /** Whether a search for UINT32_MAX finds an empty slot. */
    ghost predicate FindsMax()
      reads this, entries
      requires entries.Length > 0
    {
      MeetsEmpty(entries[..], HomeOfMax(hash, hashseed, entries.Length))
    }

    constructor (hash: Hash)
      ensures fresh(entries) && this.hash == hash && Contents == map[]
    {
      this.hash := hash;
      entries := new Slot<nat, V>[0];
      size, hashseed, rehashLimit, Contents := 0, 0, 0, map[];
    }

    /** init_table: an empty table of at least `nslots` slots; `alloc` is whether calloc succeeds. */
    method InitTable(nslots: nat, seed: nat, alloc: bool) returns (ok: bool)
      requires 0 < nslots < UINT32
      modifies this
      ensures ok <==> nslots <= UINT32 / 2 && alloc
      ensures ok ==> Valid() && Counted() && fresh(entries) && Contents == map[]
      ensures ok ==> entries.Length == CeilPow2(nslots) && hashseed == hash(seed, FNV1A_OFFSET)
      ensures !ok ==> unchanged(this)
    {
      var cap := RoundUpPow2(nslots);
      if nslots <= UINT32 / 2 {
        CeilPow2IsLeast(nslots, 0);
      }
      if cap < nslots || !alloc {
        return false;
      }
      entries := new Slot<nat, V>[cap](_ => Empty);
      size, hashseed, Contents := 0, hash(seed, FNV1A_OFFSET), map[];
      rehashLimit := cap - cap / 6;
      EmptyIsGood(entries[..], hash, hashseed);
      ok := true;
    }

    /** idtbl_init */
    method Init(nslots: nat, seed: nat, alloc: bool) returns (status: Status)
      requires nslots < UINT32
      modifies this
      ensures status == if alloc && nslots + nslots / 6 <= UINT32 / 2 then Ok else NoMem
      ensures status == Ok ==> Valid() && Counted() && fresh(entries) && Contents == map[]
      ensures status != Ok ==> unchanged(this)
    {
      var n := if nslots == 0 then 1 else nslots;
      var cap := (n + n / 6) % UINT32;
      if cap < n {
        return NoMem;
      }
      var ok := InitTable(cap, seed, alloc);
      status := if ok then Ok else NoMem;
    }

    /**
     find_table_entry. The search key is incremented without a check, so UINT32_MAX searches
     for 0, the mark of an empty slot; for every other key the lookup is exact.
     */
    method FindTableEntry(key: nat) returns (found: bool, pos: nat)
      requires Valid() && key < UINT32
      ensures found <==> if key == UINT32_MAX then FindsMax() else key in Contents
      ensures found ==> pos < entries.Length
      ensures found && key < UINT32_MAX ==>
                entries[pos].Entry? && entries[pos].key == key && entries[pos].value == Contents[key]
      ensures found && key == UINT32_MAX ==> entries[pos].Empty?
    {
      GoodFits(entries[..], hash, hashseed, Contents);
      if key == UINT32_MAX {
        found, pos := FindMax(entries, HomeOfMax(hash, hashseed, entries.Length));
      } else {
        found, pos := FindKey(entries, hash, hashseed, key, Contents);
      }
    }

    /** idtbl_get; no value stands for the null pointer of an empty slot. */
    method Get(key: nat) returns (status: Status, value: seq<V>)
      requires Valid() && key < UINT32
      ensures key < UINT32_MAX ==> status == if key in Contents then Ok else NotFound
      ensures key == UINT32_MAX ==> status == if FindsMax() then Ok else NotFound
      ensures value == if key in Contents then [Contents[key]] else []
    {
      var found, pos := FindTableEntry(key);
      if !found {
        return NotFound, [];
      }
      return Ok, if entries[pos].Entry? then [entries[pos].value] else [];
    }

    /** idtbl_remove: `UINT32_MAX` removes nothing, but is counted as removed if an empty slot was found. */
    method Remove(key: nat) returns (status: Status)
      requires Valid() && key < UINT32
      modifies this`size, this`Contents, entries
      ensures Valid()
      ensures key < UINT32_MAX ==> status == if key in old(Contents) then Ok else NotFound
      ensures key == UINT32_MAX ==> status == if old(FindsMax()) then Ok else NotFound
      ensures Contents == old(Contents) - {key}
      ensures size == if status != Ok then old(size) else if old(size) == 0 then UINT32_MAX else old(size) - 1
      ensures key == UINT32_MAX ==> Contents == old(Contents) && entries[..] == old(entries[..])
    {
      var found, pos := FindTableEntry(key);
      if !found {
        return NotFound;
      }
      Contents := RemoveFound(entries, hash, hashseed, pos, key, Contents);
      size := if size == 0 then UINT32_MAX else size - 1;
      return Ok;
    }

    /** set_table_value: it runs out of slots, and loses an entry, only on a full table that is counted as not full. */
    method SetTableValue(key: nat, value: V) returns (status: Status)
      requires Valid() && key < UINT32
      modifies this`size, this`Contents, entries
      ensures status == if key == UINT32_MAX then Invalid
                        else if old(size) >= entries.Length then Full
                        else if key !in old(Contents) && old(|Contents|) == entries.Length then NoSlot else Ok
      ensures size == old(size) + (if status == Ok && key !in old(Contents) then 1 else 0)
      ensures status == Ok ==> Valid() && Contents == old(Contents)[key := value]
      ensures status == Full || status == Invalid ==> Valid() && Contents == old(Contents)
      ensures status == NoSlot ==> Lacks(this, old(Contents)[key := value])
    {
      if key == UINT32_MAX {
        return Invalid;
      } else if size >= entries.Length {
        return Full;
      }
      var put;
      put, Contents := PutKey(entries, hash, hashseed, key, value, Contents);
      size := if put.Added? then size + 1 else size;
      status := if put.NoFreeSlot? then NoSlot else Ok;
    }

    /** grow: doubles the capacity, re-seeds the hash and keeps every pair; entries are counted anew. */
    method Grow(alloc: bool) returns (status: Status)
      requires Valid()
      modifies this`entries, this`size, this`hashseed, this`rehashLimit
      ensures Valid() && Contents == old(Contents)
      ensures status == if !alloc || 2 * old(entries.Length) > UINT32 / 2 then NoMem else Ok
      ensures status == Ok ==> Counted() && fresh(entries) && entries.Length == 2 * old(entries.Length)
      ensures status != Ok ==> unchanged(this)
    {
      var cap := entries.Length;
      var newCap := if cap * 2 == UINT32 then 0 else cap * 2;
      if newCap < cap {
        return NoMem;
      }
      GoodCap(entries[..], hash, hashseed, Contents);
      var rounded := RoundUpPow2(newCap);
      if rounded < newCap || !alloc {
        return NoMem;
      }
      var seed := hash(hashseed, FNV1A_OFFSET);
      ghost var e;
      var table, n;
      table, n, e := Doubled(entries, rounded, hash, hashseed, seed, Contents);
      entries, size, hashseed, rehashLimit := table, n, seed, rounded - rounded / 6;
      assert entries[..] == e;
      return Ok;
    }

    /**
     idtbl_insert: the table agrees with the map after every call, whatever the hash, as long as the count of
     entries is right.
     */
    method Insert(key: nat, value: V, alloc: bool) returns (status: Status)
      requires Valid() && key < UINT32
      modifies this, entries
      ensures entries == old(entries) || fresh(entries)
      ensures status == if old(size >= rehashLimit && (!alloc || 2 * entries.Length > UINT32 / 2)) then NoMem
                        else if key == UINT32_MAX then Invalid
                        else if old(size < rehashLimit && |Contents| == entries.Length && key !in Contents) then NoSlot
                        else Ok
      ensures status != NoSlot ==> Valid()
      ensures status != NoSlot ==> Contents == if status == Ok then old(Contents)[key := value] else old(Contents)
      ensures status == NoSlot ==> Lacks(this, old(Contents)[key := value]) && !old(Counted())
      ensures old(size < rehashLimit) ==> entries == old(entries) && rehashLimit == old(rehashLimit)
      ensures old(size < rehashLimit) ==> size == old(size) + (if status == Ok && key !in old(Contents) then 1 else 0)
      ensures old(Counted()) || (old(size >= rehashLimit) && status != NoMem) ==> Counted()
    {
      if size >= rehashLimit {
        var ret := Grow(alloc);
        if ret != Ok {
          return ret;
        }
      }
      status := SetTableValue(key, value);
    }
  }

  /** The table holds, and answers for, all of `all` but one pair. */
  ghost predicate Lacks<V>(t: IdTable<V>, all: map<nat, V>)
    reads t, t.entries
  {
    LostOne(t.entries[..], Home(t.hash, t.hashseed, t.entries.Length), all, t.Contents)
  }

  /** Two new keys in a table of four slots that already has three. */
  method InsertTwo<V>(t: IdTable<V>, k1: nat, v1: V, k2: nat, v2: V, ghost m: map<nat, V>) returns (last: Status)
    requires t.Valid() && t.entries.Length == 4 && t.Contents == m && |m| == 3 && t.size in {2, 3}
    requires k1 != k2 && k1 < UINT32_MAX && k2 < UINT32_MAX && k1 !in m && k2 !in m
    modifies t, t.entries
    ensures last == if old(t.size) == 2 then NoSlot else Ok
    ensures last == NoSlot ==> Lacks(t, m[k1 := v1][k2 := v2]) == true
    ensures last == Ok ==> t.Contents == m[k1 := v1][k2 := v2]
  {
    last := t.Insert(k1, v1, true);
    assert |t.Contents| == 4 && t.entries.Length == 4 && t.rehashLimit == 4;
    last := t.Insert(k2, v2, true);
  }

  /**
   Three keys in four slots: after UINT32_MAX has been removed, two more keys lead round a full table and one
   pair is lost. This happens if and only if the search for UINT32_MAX finds the empty slot.
   */
  method RemoveMaxThenInsert<V>(t: IdTable<V>, k1: nat, v1: V, k2: nat, v2: V, ghost m: map<nat, V>)
    returns (removed: Status, last: Status)
    requires t.Valid() && t.Counted() && t.entries.Length == 4 && t.Contents == m && |m| == 3
    requires k1 != k2 && k1 < UINT32_MAX && k2 < UINT32_MAX && k1 !in m && k2 !in m
    modifies t, t.entries
    ensures removed == if old(t.FindsMax()) then Ok else NotFound
    ensures last == if removed == Ok then NoSlot else Ok
    ensures last == NoSlot ==> Lacks(t, m[k1 := v1][k2 := v2]) == true
    ensures last == Ok ==> t.Contents == m[k1 := v1][k2 := v2]
  {
    removed := t.Remove(UINT32_MAX);
    last := InsertTwo(t, k1, v1, k2, v2, m);
  }

  /** Such a table, in which UINT32_MAX is found. */
  lemma ThreeInFour(e: seq<Slot<nat, int>>, hash: Hash, m: map<nat, int>)
    requires e == [Empty, Entry(0, 0, 5), Entry(1, 0, 6), Entry(2, 0, 7)] && m == map[0 := 5, 1 := 6, 2 := 7]
    requires hash(0, 0) == 0 && hash(1, 0) == 1 && hash(2, 0) == 2 && hash(3, 0) == 3
    ensures |m| == 3 && Good(e, hash, 0, m) == true && MeetsEmpty(e, HomeOfMax(hash, 0, 4))
  {
    ThreeHomes(hash);
    StopDecides(e, 0, 0);
    ThreeAreGood(e, hash, Home(hash, 0, 4), m);
  }

  lemma ThreeHomes(hash: Hash)
    requires hash(0, 0) == 0 && hash(1, 0) == 1 && hash(2, 0) == 2 && hash(3, 0) == 3
    ensures var home := Home(hash, 0, 4); home(0) == 1 && home(1) == 2 && home(2) == 3 && HomeOfMax(hash, 0, 4) == 0
  {
  }

  lemma ThreeAreGood(e: seq<Slot<nat, int>>, hash: Hash, home: nat -> nat, m: map<nat, int>)
    requires e == [Empty, Entry(0, 0, 5), Entry(1, 0, 6), Entry(2, 0, 7)] && m == map[0 := 5, 1 := 6, 2 := 7]
    requires home == Home(hash, 0, 4) && home(0) == 1 && home(1) == 2 && home(2) == 3
    ensures |m| == 3 && Good(e, hash, 0, m) == true
  {
    assert |m| == 3 && |e| == 4;
    ThreeAreSound(e, home, m);
    assert Pow2(2) == 4;
  }

  lemma ThreeAreSound(e: seq<Slot<nat, int>>, home: nat -> nat, m: map<nat, int>)
    requires e == [Empty, Entry(0, 0, 5), Entry(1, 0, 6), Entry(2, 0, 7)] && m == map[0 := 5, 1 := 6, 2 := 7]
    requires home(0) == 1 && home(1) == 2 && home(2) == 3
    ensures Sound(e, home, 3, m)
  {
    assert e[0].Empty?;
    assert RobinHoodTable(e, home);
    assert e[1].key == 0 && e[2].key == 1 && e[3].key == 2;
    assert forall k :: k in m ==> HasKey(e, k);
    assert Used(e, 1) == 0 && Used(e, 2) == 1 && Used(e, 3) == 2 && Used(e, 4) == 3;
  }
}
