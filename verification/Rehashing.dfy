/** Storing into, and rehashing between, Robin Hood tables: what idtbl.c and objtbl.c share. */
module Rehashing {
  import opened Powers
  import opened RobinHood
  import opened Wrappers

  /** Everything the tables know of one entry array. */
  ghost predicate Sound<K, V>(e: seq<Slot<K, V>>, home: K -> nat, size: nat, m: map<K, V>) {
    forall k: nat :: OpenIn(OfTables, k) ==>
      && |e| > 0 && RobinHoodTable(e, home) && HasStop(e)
      && Models(e, m) && size == Used(e, |e|)
  }

  lemma {:induction false} UsedNone<K, V>(e: seq<Slot<K, V>>, n: nat)
    requires n <= |e| && forall i :: 0 <= i < |e| ==> e[i].Empty?
    ensures Used(e, n) == 0
  {
    if n > 0 {
      UsedNone(e, n - 1);
    }
  }

  lemma EmptyIsSound<K, V>(e: seq<Slot<K, V>>, home: K -> nat)
    requires |e| > 0 && forall i :: 0 <= i < |e| ==> e[i].Empty?
    ensures Sound(e, home, 0, map[]) == true
  {
    UsedNone(e, |e|);
    assert e[0].Empty?;
  }

  lemma SoundIs<K, V>(e: seq<Slot<K, V>>, home: K -> nat, size: nat, m: map<K, V>)
    requires Sound(e, home, size, m) == true
    ensures |e| > 0 && RobinHoodTable(e, home) && HasStop(e) && Models(e, m) && size == Used(e, |e|)
  {
    assert OpenIn(OfTables, 0);
  }

  lemma StoredIsSound<K, V>(e0: seq<Slot<K, V>>, e: seq<Slot<K, V>>, home: K -> nat, size: nat, size': nat, key: K,
                            m: map<K, V>, m': map<K, V>, room: bool)
    requires Sound(e0, home, size, m) == true && Stored(room, e0, e, home, key, m, m') == true
    requires size' == size + if key in m then 0 else 1
    ensures Sound(e, home, size', m') == true
  {
    assert Open(0) && OpenIn(OfTables, 0);
  }

  lemma SoundFits<K, V>(e: seq<Slot<K, V>>, home: K -> nat, size: nat, m: map<K, V>)
    requires Sound(e, home, size, m) == true
    ensures 0 < |e| && size <= |e|
  {
    assert OpenIn(OfTables, 0);
  }

  /** A lookup in a sound table. */
  method Lookup<K(==), V>(a: array<Slot<K, V>>, home: K -> nat, ghost size: nat, key: K, ghost m: map<K, V>)
    returns (found: bool, pos: nat)
    requires Sound(a[..], home, size, m) == true && home(key) < a.Length
    ensures found <==> key in m
    ensures found ==> pos < a.Length && a[pos].Entry? && a[pos].key == key && a[pos].value == m[key]
  {
    SoundIs(a[..], home, size, m);
    found, pos := Find(a, home, key);
    assert key in m ==> HasKey(a[..], key);
  }

  lemma DiscardedIsSound<K, V>(e0: seq<Slot<K, V>>, e: seq<Slot<K, V>>, home: K -> nat, size: nat, size': int,
                               m: map<K, V>, m': map<K, V>)
    requires Sound(e0, home, size, m) == true && |e| == |e0| && size' == size - 1
    requires RobinHoodTable(e, home) && HasEmpty(e) && Models(e, m') && Used(e, |e|) + 1 == Used(e0, |e0|)
    ensures size' >= 0 && Sound(e, home, size', m') == true
  {
    assert OpenIn(OfTables, 0);
  }

  /** Removes the entry at `pos`; at an empty slot nothing happens. */
  method Discard<K, V>(a: array<Slot<K, V>>, pos: nat, ghost home: K -> nat, ghost size: nat, key: K,
                       ghost m: map<K, V>)
    returns (ghost size': nat, ghost m': map<K, V>)
    requires Sound(a[..], home, size, m) == true && pos < a.Length
    requires a[pos].Empty? || a[pos].key == key
    modifies a
    ensures Sound(a[..], home, size', m') == true
    ensures old(a[pos].Entry?) ==> key in m && size' == size - 1 && m' == m - {key}
    ensures old(a[pos].Empty?) ==> size' == size && m' == m && a[..] == old(a[..])
  {
    ghost var e0, entry := a[..], a[pos].Entry?;
    SoundIs(e0, home, size, m);
    RemoveAt(a, pos, home, m);
    size', m' := size, m;
    if entry {
      m' := m - {key};
      DiscardedIsSound(e0, a[..], home, size, size - 1, m, m');
      size' := size - 1;
    }
  }

  /** One pair of `all` is missing from the table. */
  ghost predicate LostOne<K, V>(e: seq<Slot<K, V>>, home: K -> nat, all: map<K, V>, m: map<K, V>) {
    RobinHoodTable(e, home) && Models(e, m) && exists lost :: lost in all && m == all - {lost}
  }

  /** Stores into a sound table: only a full one can lack a slot. */
  method Store<K(==), V>(a: array<Slot<K, V>>, home: K -> nat, ghost size: nat, key: K, value: V, overwrite: bool,
                         ghost m: map<K, V>)
    returns (put: PutStatus, ghost size': nat, ghost m': map<K, V>)
    requires Sound(a[..], home, size, m) == true && home(key) < a.Length
    modifies a
    ensures put == if key in m then Existed else if size < a.Length then Added else NoFreeSlot
    ensures size' == if put == Added then size + 1 else size
    ensures put != NoFreeSlot ==> m' == Updated(m, key, value, overwrite) && Sound(a[..], home, size', m') == true
    ensures put == NoFreeSlot ==> LostOne(a[..], home, m[key := value], m') == true
  {
    ghost var e0, e, all := a[..], a[..], m;
    SoundIs(e0, home, size, m);
    UsedFull(e0, |e0|);
    put, e, all := Put(a, home, key, value, overwrite, m);
    m' := all;
    size' := if put.Added? then size + 1 else size;
    if put.NoFreeSlot? {
      ghost var lost :| lost in all && Models(e, all - {lost});
      m' := all - {lost};
    } else {
      StoredIsSound(e0, e, home, size, size', key, m, all, HasEmpty(e0));
    }
  }

  /** `m` holds exactly the pairs of the first `n` slots. */
  ghost predicate ModelsPart<K, V>(e: seq<Slot<K, V>>, n: nat, m: map<K, V>)
    requires n <= |e|
  {
    && (forall i :: 0 <= i < n && e[i].Entry? ==> e[i].key in m && m[e[i].key] == e[i].value)
    && (forall k :: k in m ==> exists i :: 0 <= i < n && e[i].Entry? && e[i].key == k)
  }

  lemma ModelsPartGrows<K, V>(e: seq<Slot<K, V>>, home: K -> nat, size: nat, m: map<K, V>, n: nat, part: map<K, V>)
    requires Sound(e, home, size, m) == true && n < |e| && ModelsPart(e, n, part)
    ensures e[n].Empty? ==> ModelsPart(e, n + 1, part)
    ensures e[n].Entry? ==> e[n].key in m && e[n].key !in part && ModelsPart(e, n + 1, part[e[n].key := e[n].value])
  {
    assert OpenIn(OfTables, 0);
    var part' := if e[n].Empty? then part else part[e[n].key := e[n].value];
    forall k | k in part'
      ensures exists i :: 0 <= i < n + 1 && e[i].Entry? && e[i].key == k
    {
      if k in part {
        var i :| 0 <= i < n && e[i].Entry? && e[i].key == k;
      } else {
        assert e[n].key == k;
      }
    }
  }

  lemma ModelsPartWhole<K, V>(e: seq<Slot<K, V>>, home: K -> nat, size: nat, m: map<K, V>, part: map<K, V>)
    requires Sound(e, home, size, m) == true && ModelsPart(e, |e|, part)
    ensures m == part && size == Used(e, |e|)
  {
    assert OpenIn(OfTables, 0);
    forall k | k in m ensures k in part && part[k] == m[k] {
      assert HasKey(e, k);
    }
  }

  /** The loop of grow: every entry goes into the new, larger table. */
  method Rehash<K(==), V>(src: array<Slot<K, V>>, dst: array<Slot<K, V>>, ghost home: K -> nat, newHome: K -> nat,
                          ghost oldSize: nat, ghost m: map<K, V>)
    returns (size: nat)
    requires src != dst && src.Length < dst.Length
    requires Sound(src[..], home, oldSize, m) == true
    requires forall k :: k in m ==> newHome(k) < dst.Length
    requires forall i :: 0 <= i < dst.Length ==> dst[i].Empty?
    modifies dst
    ensures size == oldSize && Sound(dst[..], newHome, size, m) == true
  {
    EmptyIsSound(dst[..], newHome);
    ghost var e, part: map<K, V> := src[..], map[];
    size := 0;
    for i := 0 to src.Length
      invariant src[..] == e
      invariant ModelsPart(e, i, part) && size == Used(e, i)
      invariant Sound(dst[..], newHome, size, part) == true
    {
      ModelsPartGrows(e, home, oldSize, m, i, part);
      if src[i].Entry? {
        size, part := MoveEntry(src[i], dst, newHome, size, part);
      }
    }
    ModelsPartWhole(e, home, oldSize, m, part);
  }

  method MoveEntry<K(==), V>(x: Slot<K, V>, dst: array<Slot<K, V>>, home: K -> nat, size: nat, ghost part: map<K, V>)
    returns (size': nat, ghost part': map<K, V>)
    requires Sound(dst[..], home, size, part) == true && size < dst.Length
    requires x.Entry? && x.key !in part && home(x.key) < dst.Length
    modifies dst
    ensures size' == size + 1 && part' == part[x.key := x.value]
    ensures Sound(dst[..], home, size', part') == true
  {
    var put;
    ghost var n;
    put, n, part' := Store(dst, home, size, x.key, x.value, true, part);
    size' := size + 1;
  }

  /** init_table and the loop of grow: a larger table with the same contents. */
  method Enlarged<K(==), V>(src: array<Slot<K, V>>, cap: nat, ghost home: K -> nat, newHome: K -> nat,
                            ghost oldSize: nat, ghost m: map<K, V>)
    returns (dst: array<Slot<K, V>>, size: nat)
    requires src.Length < cap
    requires Sound(src[..], home, oldSize, m) == true
    requires forall k :: k in m ==> newHome(k) < cap
    ensures fresh(dst) && dst.Length == cap
    ensures size == oldSize && Sound(dst[..], newHome, size, m) == true
  {
    dst := new Slot<K, V>[cap](_ => Empty);
    size := Rehash(src, dst, home, newHome, oldSize, m);
  }

  /** Twice a power of two is one, and rounding it up leaves it. */
  lemma DoubledCap(cap: nat)
    requires IsPow2(cap) && 2 * cap < UINT32
    ensures IsPow2(2 * cap) && 2 * cap <= UINT32 / 2 && CeilPow2(2 * cap) == 2 * cap
  {
    var j :| cap == Pow2(j);
    var j' := j + 1;
    assert 2 * cap == Pow2(j');
    Pow2Of32();
    Pow2Less(j', 32);
    Pow2Monotone(j', 31);
    assert Pow2(32) == 2 * Pow2(31);
    CeilPow2IsLeast(2 * cap, j');
  }
}
