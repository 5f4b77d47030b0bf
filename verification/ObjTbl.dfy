/**
 lib/util/objtbl.c: the same table over caller-supplied hash and compare functions. The
 compare function is represented by what it identifies: `key` gives two objects the same
 key exactly when they compare equal, and the hash depends on the key alone.
 */
module ObjTbl {
  import opened Powers
  import opened Rehashing
  import opened RobinHood
  import opened Wrappers

  datatype Status = Ok | NotFound | Full | Invalid | NoSlot | NoMem

  /** calchash and TABLE_INDEX: a hash of zero marks an empty slot and is bumped to one. */
  function Home<K(!new)>(hash: K -> nat, cap: nat): (home: K -> nat)
    ensures cap > 0 ==> forall k :: home(k) < cap
  {
    (k: K) => if cap == 0 then 0 else (if hash(k) == 0 then 1 else hash(k)) % cap
  }

  /** The values of the occupied slots among the first `n`, in slot order. */
  function Values<K, V>(e: seq<Slot<K, V>>, n: nat): (vs: seq<V>)
    requires n <= |e|
    ensures |vs| == Used(e, n)
  {
    if n == 0 then []
    else Values(e, n - 1) + (if e[n - 1].Entry? then [e[n - 1].value] else [])
  }

  lemma {:induction false} ValuesMember<K, V>(e: seq<Slot<K, V>>, n: nat, v: V)
    requires n <= |e|
    ensures v in Values(e, n) <==> exists i :: 0 <= i < n && e[i].Entry? && e[i].value == v
  {
    if n > 0 {
      ValuesMember(e, n - 1, v);
    }
  }

  /** Past the last occupied slot there are no more values. */
  lemma {:induction false} ValuesDone<K, V>(e: seq<Slot<K, V>>, n: nat, k: nat)
    requires n <= k <= |e| && Used(e, n) == Used(e, k)
    ensures Values(e, n) == Values(e, k)
  {
    if n < k {
      UsedMonotone(e, n, k - 1);
      ValuesDone(e, n, k - 1);
    }
  }

  lemma {:induction false} UsedMonotone<K, V>(e: seq<Slot<K, V>>, n: nat, k: nat)
    requires n <= k <= |e|
    ensures Used(e, n) <= Used(e, k)
  {
    if n < k {
      UsedMonotone(e, n, k - 1);
    }
  }

  class ObjTable<T(==), K(==,!new)> {
    const key: T -> K
    const hash: K -> nat
    var entries: array<Slot<K, T>>
    var size: nat
    var rehashLimit: nat
    ghost var Contents: map<K, T>

    ghost predicate Valid()
      reads this, entries
    {
      && Sound(entries[..], Home(hash, entries.Length), size, Contents) == true && entries.Length > 0
      && IsPow2(entries.Length) && entries.Length <= UINT32 / 2
      && rehashLimit == entries.Length - entries.Length / 6
      && (forall k :: k in Contents ==> key(Contents[k]) == k)
    }

    constructor (key: T -> K, hash: K -> nat)
      ensures fresh(entries) && this.key == key && this.hash == hash && Contents == map[]
    {
      this.key, this.hash := key, hash;
      entries := new Slot<K, T>[0];
      size, rehashLimit, Contents := 0, 0, map[];
    }

    /** objtbl_init; `alloc` is whether calloc succeeds. */
    method Init(nslots: nat, alloc: bool) returns (status: Status)
      requires nslots < UINT32
      modifies this
      ensures status == if alloc && nslots + nslots / 6 <= UINT32 / 2 then Ok else NoMem
      ensures status == Ok ==> Valid() && fresh(entries) && Contents == map[]
      ensures status != Ok ==> unchanged(this)
    {
      var n := if nslots == 0 then 1 else nslots;
      var want := (n + n / 6) % UINT32;
      if want < n {
        return NoMem;
      }
      var cap := RoundUpPow2(want);
      if want <= UINT32 / 2 {
        CeilPow2IsLeast(want, 0);
      }
      if cap < want || !alloc {
        return NoMem;
      }
      entries := new Slot<K, T>[cap](_ => Empty);
      size, rehashLimit, Contents := 0, cap - cap / 6, map[];
      EmptyIsSound(entries[..], Home(hash, cap));
      return Ok;
    }

    /** find_table_entry, objtbl_get and objtbl_contains; a null object is not found. */
    method Get(obj: Option<T>) returns (status: Status, value: seq<T>)
      requires Valid()
      ensures status == if obj.Some? && key(obj.value) in Contents then Ok else NotFound
      ensures value == if status == Ok then [Contents[key(obj.value)]] else []
    {
      if obj.None? {
        return NotFound, [];
      }
      var found, pos := Lookup(entries, Home(hash, entries.Length), size, key(obj.value), Contents);
      if !found {
        return NotFound, [];
      }
      return Ok, [entries[pos].value];
    }

    /** objtbl_remove */
    method Remove(obj: Option<T>) returns (status: Status)
      requires Valid()
      modifies this, entries
      ensures Valid() && entries == old(entries)
      ensures status == if obj.Some? && key(obj.value) in old(Contents) then Ok else NotFound
      ensures Contents == if obj.Some? then old(Contents) - {key(obj.value)} else old(Contents)
    {
      if obj.None? {
        return NotFound;
      }
      var found, pos := Lookup(entries, Home(hash, entries.Length), size, key(obj.value), Contents);
      if !found {
        return NotFound;
      }
      ghost var size';
      size', Contents := Discard(entries, pos, Home(hash, entries.Length), size, key(obj.value), Contents);
      size := size - 1;
      return Ok;
    }

    /** grow: doubles the capacity and keeps every object. */
    method Grow(alloc: bool) returns (status: Status)
      requires Valid()
      modifies this
      ensures Valid() && Contents == old(Contents) && size == old(size)
      ensures status == if !alloc || 2 * old(entries.Length) > UINT32 / 2 then NoMem else Ok
      ensures status == Ok ==> fresh(entries) && entries.Length == 2 * old(entries.Length)
      ensures status != Ok ==> unchanged(this)
    {
      var cap := entries.Length;
      var newCap := if cap * 2 == UINT32 then 0 else cap * 2;
      if newCap < cap {
        return NoMem;
      }
      DoubledCap(cap);
      var rounded := RoundUpPow2(newCap);
      if rounded < newCap || !alloc {
        return NoMem;
      }
      var table, n := Enlarged(entries, rounded, Home(hash, cap), Home(hash, rounded), size, Contents);
      entries, size, rehashLimit := table, n, rounded - rounded / 6;
      return Ok;
    }

    /** objtbl_insert: an object replaces the one it compares equal to, for every hash. */
    method Insert(obj: Option<T>, alloc: bool) returns (status: Status)
      requires Valid()
      modifies this, entries
      ensures Valid() && (entries == old(entries) || fresh(entries))
      ensures status == Ok || status == Invalid || status == NoMem
      ensures status == Ok ==> obj.Some? && Contents == old(Contents)[key(obj.value) := obj.value]
      ensures status != Ok ==> Contents == old(Contents)
      ensures status == Invalid ==> obj.None?
      ensures status == NoMem ==> old(size >= rehashLimit) && (!alloc || old(2 * entries.Length) > UINT32 / 2)
    {
      SoundFits(entries[..], Home(hash, entries.Length), size, Contents);
      if size >= rehashLimit {
        var ret := Grow(alloc);
        if ret != Ok {
          return ret;
        }
      }
      if obj.None? {
        return Invalid;
      }
      var put;
      ghost var n;
      put, n, Contents := Store(entries, Home(hash, entries.Length), size, key(obj.value), obj.value, true, Contents);
      size := if put.Added? then size + 1 else size;
      status := if put.NoFreeSlot? then NoSlot else Ok;
    }
  }

  /** objtbl_foreach: calls `func` on the stored objects in slot order, up to the first result other than one. */
  method Foreach<K, T>(entries: array<Slot<K, T>>, size: nat, func: T -> int) returns (ret: int, seen: seq<T>)
    requires size == Used(entries[..], entries.Length)
    ensures seen <= Values(entries[..], entries.Length)
    ensures forall i :: 0 <= i < |seen| - 1 ==> func(seen[i]) == 1
    ensures if seen != [] && func(seen[|seen| - 1]) != 1 then ret == func(seen[|seen| - 1])
            else ret == 0 && seen == Values(entries[..], entries.Length)
  {
    ghost var e := entries[..];
    var i := 0;
    seen, ret := [], 0;
    while i < entries.Length && |seen| < size
      invariant 0 <= i <= |e|
      invariant seen == Values(e, i)
      invariant forall j :: 0 <= j < |seen| ==> func(seen[j]) == 1
    {
      if entries[i].Entry? {
        seen := seen + [entries[i].value];
        ret := func(entries[i].value);
        if ret != 1 {
          ValuesPrefix(e, i + 1, |e|);
          return;
        }
      }
      i := i + 1;
    }
    UsedMonotone(e, i, |e|);
    ValuesDone(e, i, |e|);
    ret := 0;
  }

  lemma {:induction false} ValuesPrefix<K, V>(e: seq<Slot<K, V>>, n: nat, k: nat)
    requires n <= k <= |e|
    ensures Values(e, n) <= Values(e, k)
  {
    if n < k {
      ValuesPrefix(e, n, k - 1);
    }
  }

  /** What a complete iteration visits are the values of the map, one per key. */
  lemma ValuesAreContents<K, V>(e: seq<Slot<K, V>>, m: map<K, V>)
    requires Models(e, m)
    ensures forall v :: v in Values(e, |e|) <==> v in m.Values
    ensures |Values(e, |e|)| == Used(e, |e|)
  {
    forall v ensures v in Values(e, |e|) <==> v in m.Values {
      ValuesMember(e, |e|, v);
      if v in m.Values {
        var k :| k in m && m[k] == v;
        assert HasKey(e, k);
      }
    }
  }
}
