/**
 Round-robin over several lists through a map from positions to lists, where a depleted
 list's position is negative: the common part of port_r4ranges_next and ip_r4blocks_next.
 */
module Rotation {
  import opened Powers
  import opened Reorder
  import opened Sequences
  import opened Wrappers

  /** No value appears twice, in one list or in two. */
  ghost predicate Apart(lists: seq<seq<nat>>) {
    && (forall i :: 0 <= i < |lists| ==> Distinct(lists[i]))
    && forall i, j, v: nat :: 0 <= i < j < |lists| && v in lists[i] ==> v !in lists[j]
  }

  /** `v` is among the first `progress[i]` values of some list `i`. */
  ghost predicate Reached(lists: seq<seq<nat>>, progress: seq<nat>, v: nat) {
    exists i :: 0 <= i < |lists| && i < |progress| && progress[i] <= |lists[i]| && v in lists[i][..progress[i]]
  }

  /** `out` holds exactly the values reached, each once. */
  ghost predicate Emitted(lists: seq<seq<nat>>, progress: seq<nat>, out: seq<nat>) {
    && |progress| == |lists|
    && (forall i :: 0 <= i < |lists| ==> progress[i] <= |lists[i]|)
    && Distinct(out)
    && forall v: nat :: v in out <==> Reached(lists, progress, v)
  }

  ghost predicate Listed(lists: seq<seq<nat>>, v: nat) {
    exists i :: 0 <= i < |lists| && v in lists[i]
  }

  /** `order` maps each position to a list; `slots` is `order` with the depleted positions negative. */
  ghost predicate Rotating(lists: seq<seq<nat>>, order: seq<nat>, slots: seq<int>, progress: seq<nat>, out: seq<nat>) {
    && |order| == |slots| == |lists| == |progress|
    && (forall c :: 0 <= c < |order| ==> order[c] < |lists|)
    && (forall c :: 0 <= c < |slots| && slots[c] >= 0 ==> slots[c] == order[c])
    && Rotates(lists, order, slots, progress, out) == true
  }

  ghost predicate Rotates(lists: seq<seq<nat>>, order: seq<nat>, slots: seq<int>, progress: seq<nat>, out: seq<nat>)
    requires |order| == |slots| == |lists| == |progress|
    requires forall c :: 0 <= c < |order| ==> order[c] < |lists|
  {
    forall k: nat :: Open(k) ==>
      && Apart(lists) && Emitted(lists, progress, out)
      && Distinct(order) && (forall i: nat :: i in order <==> i < |lists|)
      && forall c :: 0 <= c < |slots| && slots[c] < 0 ==> progress[order[c]] == |lists[order[c]]|
  }

  lemma RotatingOthers(lists: seq<seq<nat>>, order: seq<nat>, slots: seq<int>, progress: seq<nat>, out: seq<nat>,
                       c: nat)
    requires Rotating(lists, order, slots, progress, out) && c < |order|
    ensures forall d :: 0 <= d < |order| && d != c ==> order[d] != order[c]
    ensures progress[order[c]] <= |lists[order[c]]|
  {
    assert Open(0);
  }

  ghost predicate Permutes(order: seq<nat>, n: nat) {
    forall k: nat :: Open(k) ==> Distinct(order) && forall i: nat :: i in order <==> i < n
  }

  function Zeros(n: nat): (s: seq<nat>) {
    seq(n, _ => 0)
  }

  lemma RotatingStarts(lists: seq<seq<nat>>, order: seq<nat>, slots: seq<int>)
    requires Apart(lists) && |order| == |slots| == |lists| && Permutes(order, |lists|) == true
    requires forall c :: 0 <= c < |slots| ==> slots[c] == order[c]
    ensures Rotating(lists, order, slots, Zeros(|lists|), [])
  {
    assert Open(0);
    forall c | 0 <= c < |order| ensures order[c] < |lists| {
      assert order[c] in order;
    }
  }

  lemma ReachedAfter(lists: seq<seq<nat>>, progress: seq<nat>, i: nat, v: nat)
    requires |progress| == |lists| && i < |lists| && progress[i] < |lists[i]|
    requires forall k :: 0 <= k < |lists| ==> progress[k] <= |lists[k]|
    ensures Reached(lists, progress[i := progress[i] + 1], v)
            <==> Reached(lists, progress, v) || v == lists[i][progress[i]]
  {
    var after := progress[i := progress[i] + 1];
    assert lists[i][..after[i]] == lists[i][..progress[i]] + [lists[i][progress[i]]];
    if Reached(lists, after, v) {
      var k :| 0 <= k < |lists| && after[k] <= |lists[k]| && v in lists[k][..after[k]];
      assert k != i ==> v in lists[k][..progress[k]];
    }
    if Reached(lists, progress, v) {
      var k :| 0 <= k < |lists| && progress[k] <= |lists[k]| && v in lists[k][..progress[k]];
      assert v in lists[k][..after[k]];
    }
    if v == lists[i][progress[i]] {
      assert v in lists[i][..after[i]];
    }
  }

  lemma NextIsNew(lists: seq<seq<nat>>, progress: seq<nat>, i: nat)
    requires Apart(lists) && |progress| == |lists| && i < |lists| && progress[i] < |lists[i]|
    ensures !Reached(lists, progress, lists[i][progress[i]])
  {
    var v := lists[i][progress[i]];
    assert v in lists[i];
    forall k | 0 <= k < |lists| && progress[k] <= |lists[k]| ensures v !in lists[k][..progress[k]] {
      assert k != i ==> v !in lists[k];
    }
  }

  /** Taking the next value of the list at a live position. */
  lemma RotatingEmits(lists: seq<seq<nat>>, order: seq<nat>, slots: seq<int>, progress: seq<nat>, out: seq<nat>, c: nat)
    requires Rotating(lists, order, slots, progress, out) && c < |slots| && slots[c] >= 0
    requires order[c] < |lists| && progress[order[c]] < |lists[order[c]]|
    ensures var i := order[c]; var v := lists[i][progress[i]];
            && v !in out && Listed(lists, v)
            && Rotating(lists, order, slots, progress[i := progress[i] + 1], out + [v])
  {
    assert Open(0);
    var i := order[c];
    var v := lists[i][progress[i]];
    NextIsNew(lists, progress, i);
    assert v in lists[i];
    forall w: nat ensures w in out + [v] <==> Reached(lists, progress[i := progress[i] + 1], w) {
      ReachedAfter(lists, progress, i, w);
    }
    forall d | 0 <= d < |slots| && d != c ensures order[d] != i {
      assert order[d] != order[c];
    }
  }

  lemma RotatingDepletes(lists: seq<seq<nat>>, order: seq<nat>, slots: seq<int>, progress: seq<nat>, out: seq<nat>,
                         c: nat)
    requires Rotating(lists, order, slots, progress, out) && c < |slots|
    requires order[c] < |lists| && progress[order[c]] == |lists[order[c]]|
    ensures Rotating(lists, order, slots[c := -1], progress, out)
  {
    assert Open(0);
  }

  /** The values of `s` that are not in `list`. */
  function Without(s: seq<nat>, list: seq<nat>): (r: seq<nat>)
    ensures forall v: nat :: v in r <==> v in s && v !in list
  {
    if s == [] then []
    else Without(s[..|s| - 1], list) + (if s[|s| - 1] in list then [] else [s[|s| - 1]])
  }

  lemma {:induction false} WithoutDistinct(s: seq<nat>, list: seq<nat>)
    requires Distinct(s)
    ensures Distinct(Without(s, list))
  {
    if s != [] {
      WithoutDistinct(s[..|s| - 1], list);
    }
  }

  /** A list that starts over at a live position: its values count as not emitted. */
  lemma RotatingLaps(lists: seq<seq<nat>>, order: seq<nat>, slots: seq<int>, progress: seq<nat>, out: seq<nat>, c: nat)
    requires Rotating(lists, order, slots, progress, out) && c < |slots| && slots[c] >= 0
    ensures var i := order[c]; Rotating(lists, order, slots, progress[i := 0], Without(out, lists[i]))
  {
    assert Open(0);
    var i := order[c];
    var out', progress' := Without(out, lists[i]), progress[i := 0];
    WithoutDistinct(out, lists[i]);
    forall v: nat ensures v in out' <==> Reached(lists, progress', v) {
      ReachedWithout(lists, progress, i, v);
    }
    RotatingOthers(lists, order, slots, progress, out, c);
  }

  lemma ReachedWithout(lists: seq<seq<nat>>, progress: seq<nat>, i: nat, v: nat)
    requires Apart(lists) && |progress| == |lists| && i < |lists|
    ensures Reached(lists, progress[i := 0], v) <==> Reached(lists, progress, v) && v !in lists[i]
  {
    var after := progress[i := 0];
    if Reached(lists, after, v) {
      var k :| 0 <= k < |lists| && after[k] <= |lists[k]| && v in lists[k][..after[k]];
      assert k != i && v in lists[k] && v in lists[k][..progress[k]];
    }
    if Reached(lists, progress, v) && v !in lists[i] {
      var k :| 0 <= k < |lists| && progress[k] <= |lists[k]| && v in lists[k][..progress[k]];
      assert k != i && v in lists[k][..after[k]];
    }
  }

  /** Once every position is depleted, each listed value has been emitted exactly once. */
  lemma RotatingEnds(lists: seq<seq<nat>>, order: seq<nat>, slots: seq<int>, progress: seq<nat>, out: seq<nat>)
    requires Rotating(lists, order, slots, progress, out) && forall c :: 0 <= c < |slots| ==> slots[c] < 0
    ensures Distinct(out) && forall v: nat :: v in out <==> Listed(lists, v)
    ensures forall i :: 0 <= i < |lists| ==> progress[i] == |lists[i]|
  {
    assert Open(0);
    forall i | 0 <= i < |lists| ensures progress[i] == |lists[i]| {
      assert i in order;
      var c :| 0 <= c < |order| && order[c] == i;
      assert slots[c] < 0;
    }
    forall v: nat ensures Reached(lists, progress, v) <==> Listed(lists, v) {
      if Listed(lists, v) {
        var i :| 0 <= i < |lists| && v in lists[i];
        assert lists[i][..progress[i]] == lists[i];
      }
    }
  }

  // ----- finding the next live position

  /** Position `j` lies strictly after `m` and before `c`, going round. */
  predicate Between(m: nat, j: nat, c: nat) {
    if m < c then m < j < c else j > m || j < c
  }

  /** The next position after `m` whose list is not depleted, going round; all those skipped are depleted. */
  method NextLive(slots: array<int>, m: nat) returns (c: nat)
    requires m < slots.Length
    ensures c < slots.Length
    ensures forall j: nat :: j < slots.Length && Between(m, j, c) ==> slots[j] < 0
    ensures slots[c] < 0 ==> c == m && forall j :: 0 <= j < slots.Length ==> slots[j] < 0
  {
    var n := slots.Length;
    c := if m + 1 == n then 0 else m + 1;
    while c != m && slots[c] < 0
      invariant c < n
      invariant forall j: nat :: j < n && Between(m, j, c) ==> slots[j] < 0
      decreases if c > m then n - c + m else m - c
    {
      c := if c + 1 == n then 0 else c + 1;
    }
    assert c == m ==> forall j: nat :: j < n && j != m ==> Between(m, j, c);
  }

  /** The positions still live; it shrinks whenever one is depleted. */
  ghost function Live(slots: seq<int>): (s: set<nat>)
    ensures forall c: nat :: c in s <==> c < |slots| && slots[c] >= 0
  {
    set c: nat | c < |slots| && slots[c] >= 0
  }

  lemma LiveShrinks(slots: seq<int>, c: nat)
    requires c < |slots| && slots[c] >= 0
    ensures |Live(slots[c := -1])| < |Live(slots)|
  {
    assert Live(slots) == Live(slots[c := -1]) + {c};
  }

  // ----- the initial map

  /** The order in which positions are mapped to `n` lists: a permutation of their indices. */
  function Order(n: nat): (order: seq<nat>) {
    if n == 0 then [] else Cycle(0, n - 1)
  }

  lemma PermutesBelow(order: seq<nat>, n: nat)
    requires |order| == n && Distinct(order) && forall v: nat :: v in order <==> 0 <= v <= n - 1
    ensures Permutes(order, n) == true
  {
  }

  lemma OrderPermutes(n: nat)
    ensures |Order(n)| == n && Permutes(Order(n), n) == true
  {
    var order := Order(n);
    if n > 0 {
      CyclePermutes(order, n - 1, n);
    }
  }

  lemma CyclePermutes(order: seq<nat>, last: nat, n: nat)
    requires order == Cycle(0, last) && n == last + 1
    ensures |order| == n && Permutes(order, n) == true
  {
    CycleIsPermutation(0, last);
    PermutesBelow(order, n);
  }

  ghost predicate IsOrder(order: seq<nat>, n: nat) {
    forall k: nat :: Open(k) ==> order == Order(n)
  }

  /** The next entry of the map. */
  method MapNext(mapgen: Reorder32, n: nat, ghost order: seq<nat>, ghost i: nat) returns (v: nat)
    requires mapgen.Valid() && mapgen.first == 0 && mapgen.last == n - 1 && mapgen.ival == i < n == |order| < UINT32
    requires IsOrder(order, n) == true
    modifies mapgen
    ensures mapgen.Valid() && mapgen.first == 0 && mapgen.last == n - 1 && mapgen.ival == i + 1
    ensures v == order[i]
  {
    assert Open(0);
    var ok;
    ok, v := mapgen.Next();
  }

  method FillFrom(slots: array<int>, ghost order: seq<nat>)
    requires 0 < slots.Length == |order| < UINT32 && IsOrder(order, slots.Length) == true
    modifies slots
    ensures forall c :: 0 <= c < slots.Length ==> slots[c] == order[c]
  {
    var n := slots.Length;
    var mapgen := new Reorder32(0, n - 1);
    for i := 0 to n
      invariant mapgen.Valid() && mapgen.first == 0 && mapgen.last == n - 1 && mapgen.ival == i
      invariant forall c :: 0 <= c < i ==> slots[c] == order[c]
    {
      slots[i] := MapNext(mapgen, n, order, i);
    }
  }

  method FillMap(slots: array<int>)
    requires 0 < slots.Length < UINT32
    modifies slots
    ensures |Order(slots.Length)| == slots.Length
    ensures forall c :: 0 <= c < slots.Length ==> slots[c] == Order(slots.Length)[c]
  {
    OrderPermutes(slots.Length);
    FillFrom(slots, Order(slots.Length));
  }
}
