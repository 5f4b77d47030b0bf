/**
 The open-addressing scheme shared by lib/util/idtbl.c, lib/util/objtbl.c and
 lib/util/deduptbl.c: linear probing with displacement ("Robin Hood") insertion,
 early-stop lookup and backward-shift deletion, for an arbitrary hash.
 */
module RobinHood {
  import opened Wrappers

  /** A table slot; `distance` is how far the entry sits from the slot its key hashes to. */
  datatype Slot<K, V> = Empty | Entry(key: K, distance: nat, value: V)

  // ----- positions modulo the capacity

  function NextPos(cap: nat, i: nat): (r: nat)
    requires i < cap
    ensures r < cap
  {
    if i + 1 == cap then 0 else i + 1
  }

  function PrevPos(cap: nat, i: nat): (r: nat)
    requires i < cap
    ensures r < cap && NextPos(cap, r) == i
  {
    if i == 0 then cap - 1 else i - 1
  }

  /** The slot `j` probes after `h`. */
  function Probe(cap: nat, h: nat, j: nat): (r: nat)
    requires h < cap && j <= cap
    ensures r < cap
  {
    if h + j < cap then h + j else h + j - cap
  }

  /** How many probes lead from `h` to `i`. */
  function Dist(cap: nat, i: nat, h: nat): (d: nat)
    requires i < cap && h < cap
    ensures d < cap && Probe(cap, h, d) == i
  {
    if i >= h then i - h else i + cap - h
  }

  // ----- the table invariant

  /** Every stored distance is the true probe distance. */
  ghost predicate Placed<K, V>(e: seq<Slot<K, V>>, home: K -> nat) {
    forall i :: 0 <= i < |e| && e[i].Entry? ==>
      home(e[i].key) < |e| && e[i].distance == Dist(|e|, i, home(e[i].key))
  }

  /** A displaced entry follows an entry displaced at most one less. */
  ghost predicate Packed<K, V>(e: seq<Slot<K, V>>) {
    forall i {:trigger PrevPos(|e|, i)} :: 0 <= i < |e| && e[i].Entry? && e[i].distance > 0 ==>
      e[PrevPos(|e|, i)].Entry? && e[i].distance <= e[PrevPos(|e|, i)].distance + 1
  }

  ghost predicate UniqueKeys<K, V>(e: seq<Slot<K, V>>) {
    forall i, j :: 0 <= i < |e| && 0 <= j < |e| && e[i].Entry? && e[j].Entry? && e[i].key == e[j].key ==> i == j
  }

  ghost predicate RobinHoodTable<K, V>(e: seq<Slot<K, V>>, home: K -> nat) {
    |e| > 0 && Placed(e, home) && Packed(e) && UniqueKeys(e)
  }

  ghost predicate HasKey<K, V>(e: seq<Slot<K, V>>, k: K) {
    exists i :: 0 <= i < |e| && e[i].Entry? && e[i].key == k
  }

  ghost predicate HasEmpty<K, V>(e: seq<Slot<K, V>>) {
    exists i :: 0 <= i < |e| && e[i].Empty?
  }

  /** Some slot is empty or holds an entry at home: where a backward shift stops. */
  ghost predicate HasStop<K, V>(e: seq<Slot<K, V>>) {
    exists i :: 0 <= i < |e| && (e[i].Empty? || e[i].distance == 0)
  }

  /** The entries are exactly the pairs of the map. */
  ghost predicate Models<K, V>(e: seq<Slot<K, V>>, m: map<K, V>) {
    && (forall i :: 0 <= i < |e| && e[i].Entry? ==> e[i].key in m && m[e[i].key] == e[i].value)
    && (forall k :: k in m ==> HasKey(e, k))
  }

  // ----- probe chains

  /** Every slot from an entry's home up to it is occupied, at least as far displaced as the probe count. */
  lemma {:induction false} Chain<K, V>(e: seq<Slot<K, V>>, home: K -> nat, q: nat, j: nat)
    requires RobinHoodTable(e, home) && q < |e| && e[q].Entry? && j <= e[q].distance
    ensures home(e[q].key) < |e| && e[q].distance < |e|
    ensures var i := Probe(|e|, home(e[q].key), j); e[i].Entry? && e[i].distance >= j
    decreases e[q].distance - j
  {
    var h := home(e[q].key);
    if j < e[q].distance {
      Chain(e, home, q, j + 1);
      var i := Probe(|e|, h, j + 1);
      assert PrevPos(|e|, i) == Probe(|e|, h, j);
    }
  }

  /** A probe that reaches an empty slot or a less displaced entry has already passed the key's place. */
  lemma StopMeansAbsent<K, V>(e: seq<Slot<K, V>>, home: K -> nat, k: K, j: nat)
    requires RobinHoodTable(e, home) && home(k) < |e| && j < |e|
    requires var s := e[Probe(|e|, home(k), j)]; s.Empty? || s.distance < j
    ensures forall q :: 0 <= q < |e| && e[q].Entry? && e[q].key == k ==> e[q].distance < j
  {
    forall q | 0 <= q < |e| && e[q].Entry? && e[q].key == k
      ensures e[q].distance < j
    {
      if j <= e[q].distance {
        Chain(e, home, q, j);
      }
    }
  }

  /** With an empty slot left no entry is displaced by a full turn. */
  lemma NotFullTurn<K, V>(e: seq<Slot<K, V>>, home: K -> nat, q: nat)
    requires RobinHoodTable(e, home) && HasEmpty(e) && q < |e| && e[q].Entry?
    ensures e[q].distance + 1 < |e|
  {
    var z :| 0 <= z < |e| && e[z].Empty?;
    var h := home(e[q].key);
    if e[q].distance + 1 >= |e| {
      Chain(e, home, q, Dist(|e|, z, h));
    }
  }

  // ----- insertion: an entry in hand at slot p

  /** `x` may be stored at `p`: its distance is right and it fits behind what precedes `p`. */
  ghost predicate Fits<K, V>(e: seq<Slot<K, V>>, home: K -> nat, p: nat, x: Slot<K, V>) {
    && p < |e| && x.Entry? && home(x.key) < |e|
    && x.distance == Dist(|e|, p, home(x.key))
    && (x.distance > 0 ==> e[PrevPos(|e|, p)].Entry? && x.distance <= e[PrevPos(|e|, p)].distance + 1)
  }

  /** Storing `x` where there was nothing, or something less displaced, keeps the invariant. */
  lemma StoreKeeps<K, V>(e: seq<Slot<K, V>>, home: K -> nat, p: nat, x: Slot<K, V>)
    requires RobinHoodTable(e, home) && Fits(e, home, p, x)
    requires forall i :: 0 <= i < |e| && i != p && e[i].Entry? ==> e[i].key != x.key
    requires e[p].Empty? || e[p].distance <= x.distance
    ensures RobinHoodTable(e[p := x], home)
  {
    var f := e[p := x];
    forall i | 0 <= i < |f| && f[i].Entry? && f[i].distance > 0
      ensures f[PrevPos(|f|, i)].Entry? && f[i].distance <= f[PrevPos(|f|, i)].distance + 1
    {
    }
  }

  /** Moving on past an entry at least as displaced as the one in hand. */
  lemma FitsNext<K, V>(e: seq<Slot<K, V>>, home: K -> nat, p: nat, x: Slot<K, V>)
    requires RobinHoodTable(e, home) && Fits(e, home, p, x) && x.distance + 1 < |e|
    requires e[p].Entry? && x.distance <= e[p].distance
    ensures Fits(e, home, NextPos(|e|, p), x.(distance := x.distance + 1))
  {
  }

  /** Swapping: the displaced entry fits into the next slot. */
  lemma FitsDisplaced<K, V>(e: seq<Slot<K, V>>, home: K -> nat, p: nat, x: Slot<K, V>)
    requires RobinHoodTable(e, home) && Fits(e, home, p, x) && e[p].Entry? && e[p].distance < x.distance
    ensures Fits(e[p := x], home, NextPos(|e|, p), e[p].(distance := e[p].distance + 1))
  {
  }

  /** After filling an empty slot, the slot behind it (or the entry itself) is a stop. */
  lemma FillLeavesStop<K, V>(e: seq<Slot<K, V>>, home: K -> nat, p: nat, x: Slot<K, V>)
    requires RobinHoodTable(e, home) && Fits(e, home, p, x) && e[p].Empty?
    ensures HasStop(e[p := x])
  {
    var f, n := e[p := x], NextPos(|e|, p);
    assert PrevPos(|e|, n) == p;
    assert f[n].Empty? || f[n].distance == 0;
  }

  // ----- the contents

  /** The entries together with the one in hand are exactly the pairs of the map. */
  ghost predicate ModelsWith<K, V>(e: seq<Slot<K, V>>, x: Slot<K, V>, m: map<K, V>) {
    && x.Entry? && x.key in m && m[x.key] == x.value && !HasKey(e, x.key)
    && (forall i :: 0 <= i < |e| && e[i].Entry? ==> e[i].key in m && m[e[i].key] == e[i].value)
    && (forall k :: k in m && k != x.key ==> HasKey(e, k))
  }

  lemma ModelsFill<K, V>(e: seq<Slot<K, V>>, p: nat, x: Slot<K, V>, m: map<K, V>)
    requires ModelsWith(e, x, m) && p < |e| && e[p].Empty?
    ensures Models(e[p := x], m)
  {
    var f := e[p := x];
    forall k | k in m ensures HasKey(f, k) {
      if k == x.key {
        assert f[p].key == k;
      } else {
        var i :| 0 <= i < |e| && e[i].Entry? && e[i].key == k;
        assert f[i].key == k;
      }
    }
  }

  lemma ModelsSwap<K, V>(e: seq<Slot<K, V>>, p: nat, x: Slot<K, V>, d: nat, m: map<K, V>)
    requires ModelsWith(e, x, m) && UniqueKeys(e) && p < |e| && e[p].Entry?
    ensures ModelsWith(e[p := x], e[p].(distance := d), m)
  {
    var f := e[p := x];
    assert f[p].key == x.key;
    forall k | k in m && k != e[p].key ensures HasKey(f, k) {
      if k != x.key {
        var i :| 0 <= i < |e| && e[i].Entry? && e[i].key == k;
        assert f[i].key == k;
      }
    }
  }

  lemma ModelsOverwrite<K, V>(e: seq<Slot<K, V>>, p: nat, v: V, m: map<K, V>)
    requires Models(e, m) && UniqueKeys(e) && p < |e| && e[p].Entry?
    ensures Models(e[p := e[p].(value := v)], m[e[p].key := v])
  {
    var f, m' := e[p := e[p].(value := v)], m[e[p].key := v];
    forall k | k in m' ensures HasKey(f, k) {
      if k == e[p].key {
        assert f[p].key == k;
      } else {
        var i :| 0 <= i < |e| && e[i].Entry? && e[i].key == k;
        assert f[i].key == k;
      }
    }
  }

  /** Occupied slots among the first `n`. */
  function Used<K, V>(e: seq<Slot<K, V>>, n: nat): (c: nat)
    requires n <= |e|
    ensures c <= n
  {
    if n == 0 then 0 else Used(e, n - 1) + (if e[n - 1].Entry? then 1 else 0)
  }

  lemma {:induction false} UsedUpdate<K, V>(e: seq<Slot<K, V>>, p: nat, x: Slot<K, V>, n: nat)
    requires p < |e| && n <= |e|
    ensures Used(e[p := x], n) == Used(e, n) +
            (if p < n then (if x.Entry? then 1 else 0) - (if e[p].Entry? then 1 else 0) else 0)
  {
    if n > 0 {
      UsedUpdate(e, p, x, n - 1);
    }
  }

  lemma {:induction false} UsedFull<K, V>(e: seq<Slot<K, V>>, n: nat)
    requires n <= |e|
    ensures Used(e, n) < n ==> exists i :: 0 <= i < n && e[i].Empty?
    ensures Used(e, n) == n ==> forall i :: 0 <= i < n ==> e[i].Entry?
  {
    if n > 0 {
      UsedFull(e, n - 1);
    }
  }

  // ----- the probing loops, in place

  /** find_table_entry: probes from the key's home, stopping early at a less displaced entry. */
  method Find<K(==), V>(a: array<Slot<K, V>>, home: K -> nat, key: K) returns (found: bool, pos: nat)
    requires RobinHoodTable(a[..], home) && home(key) < a.Length
    ensures found <==> HasKey(a[..], key)
    ensures found ==> pos < a.Length && a[pos].Entry? && a[pos].key == key
  {
    var cap, start := a.Length, home(key);
    pos := start;
    var distance: nat := 0;
    while distance < cap
      invariant distance <= cap && pos == Probe(cap, start, distance)
      invariant forall q :: 0 <= q < cap && a[q].Entry? && a[q].key == key ==> a[q].distance >= distance
    {
      if a[pos].Entry? && a[pos].key == key {
        return true, pos;
      } else if a[pos].Empty? || a[pos].distance < distance {
        StopMeansAbsent(a[..], home, key, distance);
        break;
      }
      pos := NextPos(cap, pos);
      distance := distance + 1;
    }
    found := false;
  }

  datatype PutStatus = Added | Existed | NoFreeSlot

  /** What the insertion loop knows at slot `p`, `c` probes after slot `h`, with `x` in hand. */
  ghost predicate Inserting<K, V>(e: seq<Slot<K, V>>, home: K -> nat, h: nat, c: nat, p: nat, x: Slot<K, V>) {
    && RobinHoodTable(e, home) && HasEmpty(e) && h < |e| && p < |e|
    && c == Dist(|e|, p, h) && Fits(e, home, p, x)
    && (forall i :: 0 <= i < |e| && e[i].Empty? ==> Dist(|e|, i, h) >= c)
  }

  /** The key was not in the table: it is in hand, or already stored in a slot passed. */
  ghost predicate Carrying<K, V>(e: seq<Slot<K, V>>, h: nat, key: K, c: nat, x: Slot<K, V>, m: map<K, V>)
    requires h < |e|
  {
    && ModelsWith(e, x, m)
    && (x.key != key ==> forall i :: 0 <= i < |e| && e[i].Entry? && e[i].key == key ==> Dist(|e|, i, h) < c)
  }

  /** Not every slot can have been passed. */
  lemma RoomAhead<K, V>(e: seq<Slot<K, V>>, h: nat, c: nat, p: nat)
    requires HasEmpty(e) && h < |e| && p < |e| && c == Dist(|e|, p, h) && e[p].Entry?
    requires forall i :: 0 <= i < |e| && e[i].Empty? ==> Dist(|e|, i, h) >= c
    ensures Dist(|e|, NextPos(|e|, p), h) == c + 1
    ensures forall i :: 0 <= i < |e| && e[i].Empty? ==> Dist(|e|, i, h) >= c + 1
  {
    var z :| 0 <= z < |e| && e[z].Empty?;
    assert Dist(|e|, z, h) > c;
  }

  lemma InsertPasses<K, V>(e: seq<Slot<K, V>>, home: K -> nat, h: nat, c: nat, p: nat, x: Slot<K, V>)
    requires Inserting(e, home, h, c, p, x) && e[p].Entry? && x.distance <= e[p].distance
    ensures Inserting(e, home, h, c + 1, NextPos(|e|, p), x.(distance := x.distance + 1))
  {
    RoomAhead(e, h, c, p);
    NotFullTurn(e, home, p);
    FitsNext(e, home, p, x);
  }

  lemma InsertSwaps<K, V>(e: seq<Slot<K, V>>, home: K -> nat, h: nat, c: nat, p: nat, x: Slot<K, V>)
    requires Inserting(e, home, h, c, p, x) && !HasKey(e, x.key)
    requires e[p].Entry? && e[p].distance < x.distance
    ensures Inserting(e[p := x], home, h, c + 1, NextPos(|e|, p), e[p].(distance := e[p].distance + 1))
  {
    RoomAhead(e, h, c, p);
    StoreKeeps(e, home, p, x);
    FitsDisplaced(e, home, p, x);
    var z :| 0 <= z < |e| && e[z].Empty?;
    assert e[p := x][z].Empty?;
  }

  /** An existing key is met before any displacement: until then every entry is at least as displaced. */
  lemma ExistingIsMet<K, V>(e: seq<Slot<K, V>>, home: K -> nat, key: K, c: nat, p: nat)
    requires RobinHoodTable(e, home) && HasKey(e, key) && home(key) < |e|
    requires p < |e| && c == Dist(|e|, p, home(key))
    requires forall q :: 0 <= q < |e| && e[q].Entry? && e[q].key == key ==> e[q].distance >= c
    ensures e[p].Entry? && c <= e[p].distance
    ensures e[p].key != key ==>
              forall q :: 0 <= q < |e| && e[q].Entry? && e[q].key == key ==> e[q].distance >= c + 1
  {
    var q :| 0 <= q < |e| && e[q].Entry? && e[q].key == key;
    Chain(e, home, q, c);
  }

  lemma CarrySwaps<K, V>(e: seq<Slot<K, V>>, h: nat, key: K, c: nat, p: nat, x: Slot<K, V>, m: map<K, V>)
    requires UniqueKeys(e) && h < |e| && p < |e| && c == Dist(|e|, p, h) && e[p].Entry?
    requires Carrying(e, h, key, c, x, m)
    ensures Carrying(e[p := x], h, key, c + 1, e[p].(distance := e[p].distance + 1), m)
  {
    ModelsSwap(e, p, x, e[p].distance + 1, m);
  }

  /** The insertion of `key` into the table `e0` that modelled `m`, at slot `p`, `c` probes in. */
  ghost predicate Going<K, V>(e0: seq<Slot<K, V>>, e: seq<Slot<K, V>>, home: K -> nat, key: K, value: V,
                              c: nat, p: nat, x: Slot<K, V>, m: map<K, V>)
  {
    && Inserting(e, home, home(key), c, p, x) && |e| == |e0|
    && Used(e, |e|) == Used(e0, |e0|)
    && Models(e0, m)
    && (key !in m ==> Carrying(e, home(key), key, c, x, m[key := value]))
    && (key in m ==>
          && e == e0 && x == Entry(key, c, value)
          && forall q :: 0 <= q < |e| && e[q].Entry? && e[q].key == key ==> e[q].distance >= c)
  }

  /** What the insertion leaves behind. */
  ghost predicate Inserted<K, V>(e0: seq<Slot<K, V>>, e: seq<Slot<K, V>>, home: K -> nat, key: K, m: map<K, V>,
                                 m': map<K, V>)
  {
    && |e| == |e0| && RobinHoodTable(e, home) && HasStop(e) && Models(e, m')
    && Used(e, |e|) == Used(e0, |e0|) + (if key in m then 0 else 1)
  }

  lemma GoingStarts<K, V>(e: seq<Slot<K, V>>, home: K -> nat, key: K, value: V, m: map<K, V>)
    requires RobinHoodTable(e, home) && Models(e, m) && home(key) < |e| && HasEmpty(e)
    ensures Going(e, e, home, key, value, 0, home(key), Entry(key, 0, value), m)
  {
  }

  lemma GoingFills<K, V>(e0: seq<Slot<K, V>>, e: seq<Slot<K, V>>, home: K -> nat, key: K, value: V,
                         c: nat, p: nat, x: Slot<K, V>, m: map<K, V>)
    requires Going(e0, e, home, key, value, c, p, x, m) && e[p].Empty?
    ensures key !in m
    ensures Inserted(e0, e[p := x], home, key, m, m[key := value])
  {
    if key in m {
      ExistingIsMet(e, home, key, c, p);
    } else {
      StoreKeeps(e, home, p, x);
      FillLeavesStop(e, home, p, x);
      ModelsFill(e, p, x, m[key := value]);
      UsedUpdate(e, p, x, |e|);
    }
  }

  lemma GoingMeets<K, V>(e0: seq<Slot<K, V>>, e: seq<Slot<K, V>>, home: K -> nat, key: K, value: V,
                         c: nat, p: nat, x: Slot<K, V>, m: map<K, V>)
    requires Going(e0, e, home, key, value, c, p, x, m) && e[p].Entry? && e[p].key == key
    ensures key in m
    ensures Inserted(e0, e, home, key, m, m)
    ensures Inserted(e0, e[p := x], home, key, m, m[key := value])
  {
    if key in m {
      StoreKeeps(e, home, p, x);
      ModelsOverwrite(e, p, value, m);
      UsedUpdate(e, p, x, |e|);
      var z :| 0 <= z < |e| && e[z].Empty?;
      assert e[p := x][z].Empty?;
    }
  }

  lemma GoingPasses<K, V>(e0: seq<Slot<K, V>>, e: seq<Slot<K, V>>, home: K -> nat, key: K, value: V,
                          c: nat, p: nat, x: Slot<K, V>, m: map<K, V>)
    requires Going(e0, e, home, key, value, c, p, x, m)
    requires e[p].Entry? && e[p].key != key && x.distance <= e[p].distance
    ensures Going(e0, e, home, key, value, c + 1, NextPos(|e|, p), x.(distance := x.distance + 1), m)
  {
    InsertPasses(e, home, home(key), c, p, x);
    if key in m {
      ExistingIsMet(e, home, key, c, p);
    }
  }

  lemma GoingSwaps<K, V>(e0: seq<Slot<K, V>>, e: seq<Slot<K, V>>, home: K -> nat, key: K, value: V,
                         c: nat, p: nat, x: Slot<K, V>, m: map<K, V>)
    requires Going(e0, e, home, key, value, c, p, x, m)
    requires e[p].Entry? && e[p].key != key && e[p].distance < x.distance
    ensures Going(e0, e[p := x], home, key, value, c + 1, NextPos(|e|, p), e[p].(distance := e[p].distance + 1), m)
  {
    if key in m {
      ExistingIsMet(e, home, key, c, p);
    } else {
      InsertSwaps(e, home, home(key), c, p, x);
      CarrySwaps(e, home(key), key, c, p, x, m[key := value]);
      UsedUpdate(e, p, x, |e|);
    }
  }

  // ----- insertion into a full table, which the callers' count of entries rules out unless it is wrong

  /** A full table at slot `p`, `c` probes after slot `h`, with one entry more than fits in hand. */
  ghost predicate Turning<K, V>(e: seq<Slot<K, V>>, home: K -> nat, h: nat, c: nat, p: nat, x: Slot<K, V>) {
    && RobinHoodTable(e, home) && !HasEmpty(e)
    && h < |e| && c <= |e| && p == Probe(|e|, h, c)
    && x.Entry? && x.distance <= c && (c < |e| ==> Fits(e, home, p, x))
  }

  lemma TurnPasses<K, V>(e: seq<Slot<K, V>>, home: K -> nat, h: nat, c: nat, p: nat, x: Slot<K, V>)
    requires Turning(e, home, h, c, p, x) && c < |e| && e[p].Entry? && x.distance <= e[p].distance
    ensures Turning(e, home, h, c + 1, NextPos(|e|, p), x.(distance := x.distance + 1))
  {
    if c + 1 < |e| {
      FitsNext(e, home, p, x);
    }
  }

  lemma TurnSwaps<K, V>(e: seq<Slot<K, V>>, home: K -> nat, h: nat, c: nat, p: nat, x: Slot<K, V>)
    requires Turning(e, home, h, c, p, x) && c < |e| && !HasKey(e, x.key)
    requires e[p].Entry? && e[p].distance < x.distance
    ensures Turning(e[p := x], home, h, c + 1, NextPos(|e|, p), e[p].(distance := e[p].distance + 1))
  {
    StoreKeeps(e, home, p, x);
    FitsDisplaced(e, home, p, x);
    var f := e[p := x];
    forall i | 0 <= i < |e| ensures f[i].Entry? {
      assert e[i].Entry?;
    }
  }

  /** Once round a full table: an existing key is still met first, otherwise the entry in hand goes along. */
  ghost predicate Lapping<K, V>(e0: seq<Slot<K, V>>, e: seq<Slot<K, V>>, home: K -> nat, key: K, value: V,
                                c: nat, p: nat, x: Slot<K, V>, m: map<K, V>)
  {
    && Turning(e, home, home(key), c, p, x) && |e| == |e0| && Used(e, |e|) == Used(e0, |e0|)
    && Models(e0, m)
    && (key !in m ==> Carrying(e, home(key), key, c, x, m[key := value]))
    && (key in m ==>
          && e == e0 && x == Entry(key, c, value)
          && forall q :: 0 <= q < |e| && e[q].Entry? && e[q].key == key ==> e[q].distance >= c)
  }

  lemma LappingMeets<K, V>(e0: seq<Slot<K, V>>, e: seq<Slot<K, V>>, home: K -> nat, key: K, value: V,
                           c: nat, p: nat, x: Slot<K, V>, m: map<K, V>)
    requires Lapping(e0, e, home, key, value, c, p, x, m) && c < |e| && e[p].Entry? && e[p].key == key
    ensures key in m && e == e0
    ensures e[p := x] == e[p := e[p].(value := value)]
    ensures RobinHoodTable(e[p := x], home) && Models(e[p := x], m[key := value]) &&
            Used(e[p := x], |e|) == Used(e0, |e0|)
    ensures HasStop(e) ==> HasStop(e[p := x])
  {
    if key in m {
      assert x == e[p].(value := value);
      StoreKeeps(e, home, p, x);
      ModelsOverwrite(e, p, value, m);
      UsedUpdate(e, p, x, |e|);
      if HasStop(e) {
        var z :| 0 <= z < |e| && (e[z].Empty? || e[z].distance == 0);
        assert e[p := x][z].distance == 0;
      }
    }
  }

  lemma LappingPasses<K, V>(e0: seq<Slot<K, V>>, e: seq<Slot<K, V>>, home: K -> nat, key: K, value: V,
                            c: nat, p: nat, x: Slot<K, V>, m: map<K, V>)
    requires Lapping(e0, e, home, key, value, c, p, x, m) && c < |e|
    requires e[p].Entry? && e[p].key != key && x.distance <= e[p].distance
    ensures Lapping(e0, e, home, key, value, c + 1, NextPos(|e|, p), x.(distance := x.distance + 1), m)
  {
    TurnPasses(e, home, home(key), c, p, x);
    if key in m {
      ExistingIsMet(e, home, key, c, p);
    }
  }

  lemma LappingSwaps<K, V>(e0: seq<Slot<K, V>>, e: seq<Slot<K, V>>, home: K -> nat, key: K, value: V,
                           c: nat, p: nat, x: Slot<K, V>, m: map<K, V>)
    requires Lapping(e0, e, home, key, value, c, p, x, m) && c < |e|
    requires e[p].Entry? && e[p].key != key && e[p].distance < x.distance
    ensures Lapping(e0, e[p := x], home, key, value, c + 1, NextPos(|e|, p), e[p].(distance := e[p].distance + 1), m)
  {
    if key in m {
      ExistingIsMet(e, home, key, c, p);
    } else {
      TurnSwaps(e, home, home(key), c, p, x);
      CarrySwaps(e, home(key), key, c, p, x, m[key := value]);
      UsedUpdate(e, p, x, |e|);
    }
  }

  /** All round: the entry in hand is lost. */
  ghost predicate Overfilled<K, V>(e0: seq<Slot<K, V>>, e: seq<Slot<K, V>>, home: K -> nat, m: map<K, V>) {
    && RobinHoodTable(e, home) && |e| == |e0| && Used(e, |e|) == Used(e0, |e0|)
    && exists lost :: lost in m && Models(e, m - {lost})
  }

  lemma LappingEnds<K, V>(e0: seq<Slot<K, V>>, e: seq<Slot<K, V>>, home: K -> nat, key: K, value: V,
                          c: nat, p: nat, x: Slot<K, V>, m: map<K, V>)
    requires Lapping(e0, e, home, key, value, c, p, x, m) && c == |e|
    ensures key !in m && Overfilled(e0, e, home, m[key := value])
  {
    assert HasKey(e, key) ==> exists q :: 0 <= q < |e| && e[q].Entry? && e[q].key == key && e[q].distance < |e|;
    if key !in m {
      var all := m[key := value];
      forall k | k in all - {x.key} ensures HasKey(e, k) {
      }
      assert Models(e, all - {x.key});
    }
  }

  /** The insertion under way, with or without an empty slot. */
  ghost predicate Underway<K, V>(room: bool, e0: seq<Slot<K, V>>, e: seq<Slot<K, V>>, home: K -> nat, key: K, value: V,
                                 c: nat, p: nat, x: Slot<K, V>, m: map<K, V>)
  {
    forall k: nat :: Open(k) ==>
      if room then Going(e0, e, home, key, value, c, p, x, m) else Lapping(e0, e, home, key, value, c, p, x, m)
  }

  /** What it leaves behind when the key was met or an empty slot filled. */
  ghost predicate Stored<K, V>(room: bool, e0: seq<Slot<K, V>>, e: seq<Slot<K, V>>, home: K -> nat, key: K,
                               m: map<K, V>, m': map<K, V>)
  {
    forall k: nat :: Open(k) ==>
      && |e| == |e0| && RobinHoodTable(e, home) && Models(e, m')
      && (room || HasStop(e0) ==> HasStop(e))
      && Used(e, |e|) == Used(e0, |e0|) + (if key in m then 0 else 1)
  }

  lemma UnderwayStarts<K, V>(e: seq<Slot<K, V>>, home: K -> nat, key: K, value: V, m: map<K, V>)
    requires RobinHoodTable(e, home) && Models(e, m) && home(key) < |e|
    ensures Underway(HasEmpty(e), e, e, home, key, value, 0, home(key), Entry(key, 0, value), m) == true
  {
    if HasEmpty(e) {
      GoingStarts(e, home, key, value, m);
    }
  }

  /** At an empty slot. */
  lemma UnderwayFills<K, V>(room: bool, e0: seq<Slot<K, V>>, e: seq<Slot<K, V>>, home: K -> nat, key: K, value: V,
                            c: nat, p: nat, x: Slot<K, V>, m: map<K, V>)
    requires Underway(room, e0, e, home, key, value, c, p, x, m) == true && p < |e| && e[p].Empty?
    ensures room && key !in m && Stored(room, e0, e[p := x], home, key, m, m[key := value]) == true
  {
    assert Open(0);
    GoingFills(e0, e, home, key, value, c, p, x, m);
  }

  /** At the key. */
  lemma UnderwayMeets<K, V>(room: bool, e0: seq<Slot<K, V>>, e: seq<Slot<K, V>>, home: K -> nat, key: K, value: V,
                            c: nat, p: nat, x: Slot<K, V>, m: map<K, V>)
    requires Underway(room, e0, e, home, key, value, c, p, x, m) == true && p < |e| && c < |e|
    requires e[p].Entry? && e[p].key == key
    ensures key in m && Stored(room, e0, e, home, key, m, m) == true
    ensures Stored(room, e0, e[p := x], home, key, m, m[key := value]) == true
  {
    assert Open(0);
    if room {
      GoingMeets(e0, e, home, key, value, c, p, x, m);
    } else {
      LappingMeets(e0, e, home, key, value, c, p, x, m);
    }
  }

  /** At a less displaced entry: the one in hand is swapped for it. */
  lemma UnderwaySwaps<K, V>(room: bool, e0: seq<Slot<K, V>>, e: seq<Slot<K, V>>, home: K -> nat, key: K, value: V,
                            c: nat, p: nat, x: Slot<K, V>, m: map<K, V>,
                            e': seq<Slot<K, V>>, x': Slot<K, V>, c': nat, p': nat)
    requires Underway(room, e0, e, home, key, value, c, p, x, m) == true && p < |e| && c < |e| && x.Entry?
    requires e[p].Entry? && e[p].key != key && e[p].distance < x.distance
    requires e' == e[p := x] && x' == e[p].(distance := e[p].distance + 1) && c' == c + 1 && p' == NextPos(|e|, p)
    ensures Underway(room, e0, e', home, key, value, c', p', x', m) == true
  {
    assert Open(0);
    if room {
      GoingSwaps(e0, e, home, key, value, c, p, x, m);
    } else {
      LappingSwaps(e0, e, home, key, value, c, p, x, m);
    }
  }

  /** At any other entry. */
  lemma UnderwayPasses<K, V>(room: bool, e0: seq<Slot<K, V>>, e: seq<Slot<K, V>>, home: K -> nat, key: K, value: V,
                             c: nat, p: nat, x: Slot<K, V>, m: map<K, V>, x': Slot<K, V>, c': nat, p': nat)
    requires Underway(room, e0, e, home, key, value, c, p, x, m) == true && p < |e| && c < |e| && x.Entry?
    requires e[p].Entry? && e[p].key != key && e[p].distance >= x.distance
    requires x' == x.(distance := x.distance + 1) && c' == c + 1 && p' == NextPos(|e|, p)
    ensures Underway(room, e0, e, home, key, value, c', p', x', m) == true
  {
    assert Open(0);
    if room {
      GoingPasses(e0, e, home, key, value, c, p, x, m);
    } else {
      LappingPasses(e0, e, home, key, value, c, p, x, m);
    }
  }

  lemma UnderwayEnds<K, V>(room: bool, e0: seq<Slot<K, V>>, e: seq<Slot<K, V>>, home: K -> nat, key: K, value: V,
                           c: nat, p: nat, x: Slot<K, V>, m: map<K, V>)
    requires Underway(room, e0, e, home, key, value, c, p, x, m) == true && c == |e|
    ensures !room && key !in m && Overfilled(e0, e, home, m[key := value]) == true
  {
    assert Open(0);
    if !room {
      LappingEnds(e0, e, home, key, value, c, p, x, m);
    }
  }

  /** The map after an insertion of `key`. */
  function Updated<K, V>(m: map<K, V>, key: K, value: V, overwrite: bool): (m': map<K, V>) {
    if key in m && !overwrite then m else m[key := value]
  }

  /** At an empty slot or at the key: the last step of the insertion. */
  method Settle<K(==), V>(a: array<Slot<K, V>>, overwrite: bool, pos: nat, x: Slot<K, V>, ghost room: bool,
                          ghost e0: seq<Slot<K, V>>, ghost e: seq<Slot<K, V>>, ghost home: K -> nat, key: K,
                          ghost value: V, ghost c: nat, ghost m: map<K, V>)
    returns (status: PutStatus, ghost e': seq<Slot<K, V>>, ghost m': map<K, V>)
    requires a[..] == e && pos < |e| && c < |e| && (a[pos].Empty? || a[pos].key == key)
    requires Underway(room, e0, e, home, key, value, c, pos, x, m) == true
    modifies a
    ensures a[..] == e' && m' == Updated(m, key, value, overwrite)
    ensures status == (if key in m then Existed else Added) && (key !in m ==> room)
    ensures Stored(room, e0, e', home, key, m, m') == true
  {
    m' := Updated(m, key, value, overwrite);
    e' := e;
    if a[pos].Empty? {
      UnderwayFills(room, e0, e, home, key, value, c, pos, x, m);
      a[pos] := x;
      e' := e[pos := x];
      status := Added;
    } else {
      UnderwayMeets(room, e0, e, home, key, value, c, pos, x, m);
      if overwrite {
        a[pos] := x;
        e' := e[pos := x];
      }
      status := Existed;
    }
  }

  /** Past another entry: the one in hand is swapped for it if that is less displaced. */
  method MoveOn<K, V>(a: array<Slot<K, V>>, pos: nat, x: Slot<K, V>, ghost room: bool,
                      ghost e0: seq<Slot<K, V>>, ghost e: seq<Slot<K, V>>, ghost home: K -> nat, ghost key: K,
                      ghost value: V, c: nat, ghost m: map<K, V>)
    returns (x': Slot<K, V>, next: nat, ghost e': seq<Slot<K, V>>, c': nat)
    requires a[..] == e && pos < |e| && c < |e| && x.Entry? && a[pos].Entry? && a[pos].key != key
    requires Underway(room, e0, e, home, key, value, c, pos, x, m) == true
    modifies a
    ensures a[..] == e' && |e'| == |e| && c' == c + 1 && next < |e'| && x'.Entry?
    ensures Underway(room, e0, e', home, key, value, c', next, x', m) == true
  {
    c', next := c + 1, NextPos(a.Length, pos);
    if a[pos].distance < x.distance {
      x' := a[pos].(distance := a[pos].distance + 1);
      e' := e[pos := x];
      UnderwaySwaps(room, e0, e, home, key, value, c, pos, x, m, e', x', c', next);
      a[pos] := x;
    } else {
      x' := x.(distance := x.distance + 1);
      e' := e;
      UnderwayPasses(room, e0, e, home, key, value, c, pos, x, m, x', c', next);
    }
  }

  /** How the insertion ended. */
  ghost predicate Ended<K, V>(room: bool, e0: seq<Slot<K, V>>, e: seq<Slot<K, V>>, home: K -> nat, key: K,
                              m: map<K, V>, m': map<K, V>, status: PutStatus)
  {
    && status == (if key in m then Existed else if room then Added else NoFreeSlot)
    && if status == NoFreeSlot then Overfilled(e0, e, home, m') else Stored(room, e0, e, home, key, m, m')
  }

  method PutLoop<K(==), V>(a: array<Slot<K, V>>, home: K -> nat, key: K, value: V, overwrite: bool, start: nat,
                           first: Slot<K, V>, ghost room: bool, ghost e0: seq<Slot<K, V>>, ghost m: map<K, V>)
    returns (status: PutStatus, ghost e: seq<Slot<K, V>>, ghost m': map<K, V>)
    requires a[..] == e0 && start < |e0| && first.Entry?
    requires Underway(room, e0, e0, home, key, value, 0, start, first, m) == true
    modifies a
    ensures a[..] == e && m' == Updated(m, key, value, overwrite)
    ensures Ended(room, e0, e, home, key, m, m', status) == true
  {
    var x, pos: nat, c: nat := first, start, 0;
    e := e0;
    while c < a.Length
      invariant c <= |e| && pos < |e| && x.Entry? && a[..] == e
      invariant Underway(room, e0, e, home, key, value, c, pos, x, m) == true
      decreases a.Length - c
    {
      if a[pos].Empty? || a[pos].key == key {
        status, e, m' := Settle(a, overwrite, pos, x, room, e0, e, home, key, value, c, m);
        return;
      }
      x, pos, e, c := MoveOn(a, pos, x, room, e0, e, home, key, value, c, m);
    }
    UnderwayEnds(room, e0, e, home, key, value, c, pos, x, m);
    status, m' := NoFreeSlot, m[key := value];
  }

  /**
   set_table_value and deduptbl_update: probes from the key's home, overwriting the key if it
   is met, and swapping the entry in hand with any less displaced one until a slot is empty. In a
   full table a new key ends up without a slot, and one entry is lost.
   */
  method Put<K(==), V>(a: array<Slot<K, V>>, home: K -> nat, key: K, value: V, overwrite: bool, ghost m: map<K, V>)
    returns (status: PutStatus, ghost e: seq<Slot<K, V>>, ghost m': map<K, V>)
    requires RobinHoodTable(a[..], home) && Models(a[..], m) && home(key) < a.Length
    modifies a
    ensures a[..] == e && m' == Updated(m, key, value, overwrite)
    ensures Ended(old(HasEmpty(a[..])), old(a[..]), e, home, key, m, m', status) == true
  {
    UnderwayStarts(a[..], home, key, value, m);
    status, e, m' :=
      PutLoop(a, home, key, value, overwrite, home(key), Entry(key, 0, value), HasEmpty(a[..]), a[..], m);
  }

  // ----- backward-shift deletion

  /** `r` is the entry `s` moved one slot back. */
  ghost predicate Pulled<K, V>(s: Slot<K, V>, r: Slot<K, V>) {
    s.Entry? && s.distance > 0 && r == Entry(s.key, s.distance - 1, s.value)
  }

  /** The entries of the `t` slots after `q` have moved one slot back; `p` is the slot now to be freed. */
  ghost predicate Shifted<K, V>(e0: seq<Slot<K, V>>, e: seq<Slot<K, V>>, q: nat, t: nat, p: nat) {
    && |e| == |e0| && q < |e| && p < |e| && t == Dist(|e|, p, q) && e[p].Entry?
    && Used(e, |e|) == Used(e0, |e0|)
    && (forall i {:trigger e[i]} :: 0 <= i < |e| && Dist(|e|, i, q) >= t ==> e[i] == e0[i])
    && (forall i {:trigger e[i]} :: 0 <= i < |e| && Dist(|e|, i, q) < t ==> Pulled(e0[NextPos(|e|, i)], e[i]))
  }

  lemma ShiftStarts<K, V>(e: seq<Slot<K, V>>, q: nat)
    requires q < |e| && e[q].Entry?
    ensures Shifted(e, e, q, 0, q)
  {
  }

  lemma Neighbours(cap: nat, i: nat, q: nat)
    requires i < cap && q < cap
    ensures PrevPos(cap, NextPos(cap, i)) == i
    ensures i != q ==> Dist(cap, PrevPos(cap, i), q) + 1 == Dist(cap, i, q)
    ensures Dist(cap, i, q) + 1 < cap ==> Dist(cap, NextPos(cap, i), q) == Dist(cap, i, q) + 1
    ensures Dist(cap, i, q) + 1 == cap ==> NextPos(cap, i) == q
  {
  }

  /** When everything else has moved, the slot where the shift began is the stop. */
  lemma ShiftComesRound<K, V>(e0: seq<Slot<K, V>>, home: K -> nat, e: seq<Slot<K, V>>, q: nat, t: nat, p: nat)
    requires RobinHoodTable(e0, home) && HasStop(e0)
    requires Shifted(e0, e, q, t, p) && e0[q].Entry? && t + 1 == |e|
    ensures NextPos(|e|, p) == q && e[q].Entry? && e[q].distance == 0
  {
    var cap := |e|;
    Neighbours(cap, p, q);
    forall z | 0 <= z < cap && z != q
      ensures e0[z].Entry? && e0[z].distance > 0
    {
      var i := PrevPos(cap, z);
      Neighbours(cap, z, q);
      assert Dist(cap, i, q) < t && NextPos(cap, i) == z;
      assert e[i].Entry?;
    }
    assert e0[q].distance == 0;
    if cap > 1 {
      Neighbours(cap, q, q);
      assert Pulled(e0[NextPos(cap, q)], e[q]);
    }
  }

  lemma ShiftSteps<K, V>(e0: seq<Slot<K, V>>, home: K -> nat, e: seq<Slot<K, V>>, q: nat, t: nat, p: nat, r: Slot<K, V>)
    requires RobinHoodTable(e0, home) && HasStop(e0)
    requires Shifted(e0, e, q, t, p) && e0[q].Entry?
    requires Pulled(e[NextPos(|e|, p)], r)
    ensures Shifted(e0, e[p := r], q, t + 1, NextPos(|e|, p))
  {
    var cap, n := |e|, NextPos(|e|, p);
    if t + 1 == cap {
      ShiftComesRound(e0, home, e, q, t, p);
    }
    Neighbours(cap, p, q);
    var f := e[p := r];
    UsedUpdate(e, p, r, cap);
    assert e[n] == e0[n];
    forall i | 0 <= i < cap && Dist(cap, i, q) < t + 1
      ensures Pulled(e0[NextPos(cap, i)], f[i])
    {
      if i != p {
        assert Dist(cap, i, q) < t by {
          assert Probe(cap, q, Dist(cap, i, q)) == i;
        }
        assert f[i] == e[i];
      }
    }
  }

  /** The slot an entry came from: one further while the shift passed it. */
  function Source(cap: nat, q: nat, t: nat, i: nat): (o: nat)
    requires q < cap && i < cap
    ensures o < cap
  {
    if Dist(cap, i, q) < t then NextPos(cap, i) else i
  }

  function Target(cap: nat, q: nat, t: nat, o: nat): (i: nat)
    requires q < cap && o < cap
    ensures i < cap
  {
    if Dist(cap, o, q) <= t then PrevPos(cap, o) else o
  }

  lemma SourceTarget(cap: nat, q: nat, t: nat, i: nat, o: nat)
    requires q < cap && i < cap && o < cap && t < cap
    ensures Dist(cap, i, q) != t ==> Source(cap, q, t, i) != q && Target(cap, q, t, Source(cap, q, t, i)) == i
    ensures o != q ==> Dist(cap, Target(cap, q, t, o), q) != t && Source(cap, q, t, Target(cap, q, t, o)) == o
  {
    Neighbours(cap, i, q);
    Neighbours(cap, o, q);
  }

  lemma ShiftedSlot<K, V>(e0: seq<Slot<K, V>>, e: seq<Slot<K, V>>, q: nat, t: nat, p: nat, i: nat)
    requires Shifted(e0, e, q, t, p) && i < |e| && i != p
    ensures Dist(|e|, i, q) != t
    ensures var o := Source(|e|, q, t, i);
            && o != q && Target(|e|, q, t, o) == i
            && (if Dist(|e|, i, q) < t then Pulled(e0[o], e[i]) else e[i] == e0[o])
  {
    assert Probe(|e|, q, Dist(|e|, i, q)) == i;
    SourceTarget(|e|, q, t, i, i);
    assert e[i].Entry? || e[i].Empty?;
  }

  lemma ShiftPlaced<K, V>(e0: seq<Slot<K, V>>, home: K -> nat, e: seq<Slot<K, V>>, q: nat, t: nat, p: nat)
    requires Placed(e0, home) && Shifted(e0, e, q, t, p)
    ensures Placed(e[p := Empty], home)
  {
    var cap, f := |e|, e[p := Empty];
    forall i | 0 <= i < cap && f[i].Entry?
      ensures home(f[i].key) < cap && f[i].distance == Dist(cap, i, home(f[i].key))
    {
      ShiftedSlot(e0, e, q, t, p, i);
      var o := Source(cap, q, t, i);
      assert f[i] == e[i] && e0[o].Entry?;
      var h := home(e0[o].key);
      assert e0[o].distance == Dist(cap, o, h);
      Neighbours(cap, i, q);
      Neighbours(cap, o, h);
    }
  }

  lemma ShiftPacked<K, V>(e0: seq<Slot<K, V>>, e: seq<Slot<K, V>>, q: nat, t: nat, p: nat, i: nat)
    requires Packed(e0) && Shifted(e0, e, q, t, p) && e0[q].Entry?
    requires var s := e[NextPos(|e|, p)]; s.Empty? || s.distance == 0
    requires i < |e| && i != p && e[i].Entry? && e[i].distance > 0
    ensures var v := PrevPos(|e|, i); v != p && e[v].Entry? && e[i].distance <= e[v].distance + 1
  {
    var cap, v := |e|, PrevPos(|e|, i);
    Neighbours(cap, i, q);
    Neighbours(cap, v, q);
    assert v != p;
    ShiftedSlot(e0, e, q, t, p, i);
    ShiftedSlot(e0, e, q, t, p, v);
    if Dist(cap, i, q) < t {
      assert PrevPos(cap, NextPos(cap, i)) == i;
    }
  }

  /** Freeing the last slot of the shift keeps the invariant ... */
  lemma ShiftEnds<K, V>(e0: seq<Slot<K, V>>, home: K -> nat, e: seq<Slot<K, V>>, q: nat, t: nat, p: nat)
    requires RobinHoodTable(e0, home) && Shifted(e0, e, q, t, p) && e0[q].Entry?
    requires var s := e[NextPos(|e|, p)]; s.Empty? || s.distance == 0
    ensures RobinHoodTable(e[p := Empty], home)
  {
    var cap, f := |e|, e[p := Empty];
    ShiftPlaced(e0, home, e, q, t, p);
    forall i | 0 <= i < cap && f[i].Entry? && f[i].distance > 0
      ensures f[PrevPos(cap, i)].Entry? && f[i].distance <= f[PrevPos(cap, i)].distance + 1
    {
      ShiftPacked(e0, e, q, t, p, i);
    }
    forall i, j | 0 <= i < cap && 0 <= j < cap && f[i].Entry? && f[j].Entry? && f[i].key == f[j].key
      ensures i == j
    {
      ShiftedSlot(e0, e, q, t, p, i);
      ShiftedSlot(e0, e, q, t, p, j);
      assert Source(cap, q, t, i) == Source(cap, q, t, j);
    }
  }

  /** ... and removes exactly the key that was at `q`. */
  lemma ShiftModels<K, V>(e0: seq<Slot<K, V>>, e: seq<Slot<K, V>>, q: nat, t: nat, p: nat, m: map<K, V>)
    requires UniqueKeys(e0) && Models(e0, m) && Shifted(e0, e, q, t, p) && e0[q].Entry?
    ensures Models(e[p := Empty], m - {e0[q].key})
  {
    var cap, f, m' := |e|, e[p := Empty], m - {e0[q].key};
    forall i | 0 <= i < cap && f[i].Entry?
      ensures f[i].key in m' && m'[f[i].key] == f[i].value
    {
      ShiftedSlot(e0, e, q, t, p, i);
      var o := Source(cap, q, t, i);
      assert e0[o].Entry? && e0[o].key == f[i].key && e0[o].value == f[i].value;
    }
    forall k | k in m' ensures HasKey(f, k) {
      var o :| 0 <= o < cap && e0[o].Entry? && e0[o].key == k;
      var i := Target(cap, q, t, o);
      SourceTarget(cap, q, t, o, o);
      ShiftedSlot(e0, e, q, t, p, i);
      assert f[i].Entry? && f[i].key == k;
    }
  }

  lemma ShiftRemoves<K, V>(e0: seq<Slot<K, V>>, home: K -> nat, e: seq<Slot<K, V>>, q: nat, t: nat, p: nat,
                           m: map<K, V>)
    requires RobinHoodTable(e0, home) && Models(e0, m) && Shifted(e0, e, q, t, p) && e0[q].Entry?
    requires var s := e[NextPos(|e|, p)]; s.Empty? || s.distance == 0
    ensures var f := e[p := Empty];
            && RobinHoodTable(f, home) && HasEmpty(f) && Models(f, m - {e0[q].key})
            && Used(f, |f|) + 1 == Used(e0, |e0|)
  {
    ShiftEnds(e0, home, e, q, t, p);
    ShiftModels(e0, e, q, t, p, m);
    UsedUpdate(e, p, Empty, |e|);
    assert e[p := Empty][p].Empty?;
  }

  /** Behind an empty slot there is nothing to shift. */
  lemma ShiftNeedsEntry<K, V>(e: seq<Slot<K, V>>, q: nat)
    requires Packed(e) && q < |e|
    ensures var s := e[NextPos(|e|, q)]; s.Entry? && s.distance > 0 ==> e[q].Entry?
  {
    assert PrevPos(|e|, NextPos(|e|, q)) == q;
  }

  /** idtbl_remove and objtbl_remove, once the search has ended at `q`: at the key, or at an empty slot. */
  method RemoveAt<K, V>(a: array<Slot<K, V>>, q: nat, ghost home: K -> nat, ghost m: map<K, V>)
    requires RobinHoodTable(a[..], home) && HasStop(a[..]) && Models(a[..], m)
    requires q < a.Length
    modifies a
    ensures old(a[q].Empty?) ==> a[..] == old(a[..])
    ensures old(a[q].Entry?) ==> RobinHoodTable(a[..], home) && HasEmpty(a[..])
    ensures old(a[q].Entry?) ==> Models(a[..], m - {old(a[q].key)})
    ensures old(a[q].Entry?) ==> Used(a[..], a.Length) + 1 == old(Used(a[..], a.Length))
  {
    var cap := a.Length;
    ghost var e0, e, t: nat := a[..], a[..], 0;
    var curr: nat, next: nat := q, NextPos(cap, q);
    if e0[q].Entry? {
      ShiftStarts(e0, q);
    }
    ShiftNeedsEntry(e0, q);
    while a[next].Entry? && a[next].distance > 0
      invariant curr < cap && next == NextPos(cap, curr) && a[..] == e && |e| == cap
      invariant e0[q].Empty? ==> e == e0 && curr == q
      invariant e0[q].Entry? ==> Shifted(e0, e, q, t, curr) == true
      decreases cap - t
    {
      assert e0[q].Entry?;
      var pulled := a[next].(distance := a[next].distance - 1);
      ShiftSteps(e0, home, e, q, t, curr, pulled);
      a[curr] := pulled;
      e, t := e[curr := pulled], t + 1;
      curr := next;
      next := NextPos(cap, next);
    }
    if e0[q].Entry? {
      ShiftRemoves(e0, home, e, q, t, curr, m);
    }
    a[curr] := Empty;
    assert a[..] == e[curr := Empty];
  }
}
