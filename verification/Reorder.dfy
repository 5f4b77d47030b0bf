/**
 lib/util/reorder.c: deterministic reordering of a 32-bit range by a full-period
 generator with rejection. `x & mask` with mask == 2^k - 1 is written x % (mask + 1).
 */
module Reorder {
  import opened Arithmetic
  import opened Lcg
  import opened Powers
  import opened Sequences
  import opened Wrappers

  /** calc_r4block_mask: the least 2^k - 1 that covers `nitems`. */
  method CalcMask(nitems: nat) returns (mask: nat)
    requires nitems < UINT32
    ensures mask + 1 == Pow2(Bits(nitems))
    ensures mask < UINT32
  {
    Pow2Of32();
    mask := 0xffff_ffff;
    var i := 0;
    while i < 32
      invariant 0 <= i <= 32
      invariant mask + 1 == Pow2(32 - i)
      invariant nitems < Pow2(32 - i)
      invariant mask < UINT32
    {
      var bit := Pow2(31 - i);
      if (nitems / bit) % 2 == 1 {
        DivModBounds(nitems, bit);
        if nitems < bit {
          DivModUnique(nitems, bit, 0, nitems);
        }
        BitsUnique(nitems, 32 - i);
        return;
      }
      if nitems >= bit {
        DivModUnique(nitems, bit, 1, nitems - bit);
      }
      mask := mask / 2;
      i := i + 1;
    }
    BitsUnique(nitems, 0);
  }

  /** Truncating to 32 bits first does not change the residue modulo a smaller power of two. */
  lemma ReduceTwice(x: nat, k: nat)
    requires Pow2(k) <= UINT32
    ensures (x % UINT32) % Pow2(k) == x % Pow2(k)
  {
    Pow2Of32();
    if k > 32 {
      Pow2Monotone(33, k);
    }
    var c := Pow2(32 - k);
    Pow2Splits(32 - k, k);
    DivModBounds(x, UINT32);
    var q, r := x / UINT32, x % UINT32;
    MulAssociates(q, c, Pow2(k));
    ModAdd(r, q * c, Pow2(k));
  }

  // ----- one period of the generator, modulo 2^k

  /** The low `k` bits of `y`. */
  function LowBits(y: nat, k: nat): (r: nat)
  {
    if k == 0 then 0 else y % 2 + 2 * LowBits(y / 2, k - 1)
  }

  /** The lowest bit and the residue of the others. */
  lemma HalfMod(y: nat, h: nat, b: nat, p: nat, q: int, r: int)
    requires p > 0 && y == 2 * h + b && b < 2 && h == q * p + r && 0 <= r < p
    ensures y % (2 * p) == b + 2 * r
  {
    MulAssociates(q, 2, p);
    assert q * (2 * p) == 2 * (q * p);
    DivModUnique(y, 2 * p, q, b + 2 * r);
  }

  lemma {:induction false} LowBitsMod(y: nat, k: nat)
    ensures LowBits(y, k) == y % Pow2(k)
  {
    if k > 0 {
      var h, p := y / 2, Pow2(k - 1);
      LowBitsMod(h, k - 1);
      DivModBounds(h, p);
      HalfMod(y, h, y % 2, p, h / p, h % p);
    }
  }

  /** The residues at steps 1 .. n. */
  function Orbit(x: nat, k: nat, n: nat): (s: seq<nat>)
    ensures |s| == n
  {
    if n == 0 then []
    else Orbit(x, k, n - 1) + [LowBits(Steps(x, n), k)]
  }

  lemma {:induction false} OrbitAt(x: nat, k: nat, n: nat, j: nat)
    requires j < n
    ensures Orbit(x, k, n)[j] == Steps(x, j + 1) % Pow2(k)
  {
    if j < n - 1 {
      OrbitAt(x, k, n - 1, j);
    } else {
      LowBitsMod(Steps(x, n), k);
    }
  }

  /** One period takes every residue exactly once. */
  lemma OrbitIsPermutation(x: nat, k: nat)
    ensures Distinct(Orbit(x, k, Pow2(k)))
    ensures forall v: nat :: v in Orbit(x, k, Pow2(k)) <==> v < Pow2(k)
  {
    var y, p := Steps(x, 1), Pow2(k);
    var o := Orbit(x, k, p);
    forall i | 0 <= i < p
      ensures o[i] < p && Index(k, y, o[i]) == i
    {
      OrbitAt(x, k, p, i);
      StepsAdd(x, 1, i);
      DivModBounds(Steps(y, i), p);
      IndexUnique(k, y, i);
    }
    forall v: nat | v < p ensures v in o {
      IndexReaches(k, y, v);
      var i := Index(k, y, v);
      OrbitAt(x, k, p, i);
      StepsAdd(x, 1, i);
      assert o[i] == v;
    }
  }

  /** One step in 32-bit arithmetic, reduced to k bits, is one step of the orbit. */
  lemma OrbitStep(x: nat, k: nat, n: nat, j: nat, curr: nat)
    requires Pow2(k) <= UINT32 && j < n
    requires curr == if j == 0 then x else Orbit(x, k, n)[j - 1]
    ensures ((curr * 5 + 1) % UINT32) % Pow2(k) == Orbit(x, k, n)[j]
  {
    var y, p := curr * 5 + 1, Pow2(k);
    OrbitAt(x, k, n, j);
    if j > 0 {
      OrbitAt(x, k, n, j - 1);
      DivModBounds(Steps(x, j), p);
      DivModUnique(curr, p, 0, curr);
    }
    StepMod(curr, Steps(x, j), p);
    ReduceTwice(y, k);
  }

  // ----- rejection

  /** The values among the first `n` that do not exceed the limit. */
  function Keep(s: seq<nat>, limit: nat, n: nat): (t: seq<nat>)
    requires n <= |s|
    ensures |t| <= n
  {
    if n == 0 then [] else Keep(s, limit, n - 1) + (if s[n - 1] <= limit then [s[n - 1]] else [])
  }

  lemma {:induction false} KeepPrefix(s: seq<nat>, limit: nat, a: nat, b: nat)
    requires a <= b <= |s|
    ensures Keep(s, limit, a) <= Keep(s, limit, b)
  {
    if a < b {
      KeepPrefix(s, limit, a, b - 1);
    }
  }

  lemma {:induction false} KeepMember(s: seq<nat>, limit: nat, n: nat, v: nat)
    requires n <= |s|
    ensures v in Keep(s, limit, n) <==> v <= limit && exists j :: 0 <= j < n && s[j] == v
  {
    if n > 0 {
      KeepMember(s, limit, n - 1, v);
    }
  }

  lemma {:induction false} KeepDistinct(s: seq<nat>, limit: nat, n: nat)
    requires Distinct(s) && n <= |s|
    ensures Distinct(Keep(s, limit, n))
  {
    if n > 0 {
      KeepDistinct(s, limit, n - 1);
      KeepMember(s, limit, n - 1, s[n - 1]);
    }
  }

  function Elements(s: seq<nat>): (vs: set<nat>) {
    set v | v in s
  }

  lemma {:induction false} DistinctCount(s: seq<nat>)
    requires Distinct(s)
    ensures |Elements(s)| == |s|
  {
    if s != [] {
      var t, v := s[..|s| - 1], s[|s| - 1];
      DistinctCount(t);
      assert s == t + [v] && v !in t;
      assert Elements(s) == Elements(t) + {v};
    }
  }

  /** A duplicate-free sequence of everything below a bound has that length. */
  lemma DistinctLength(s: seq<nat>, bound: nat)
    requires Distinct(s)
    requires forall v: nat :: v in s <==> v < bound
    ensures |s| == bound
  {
    DistinctCount(s);
    assert Elements(s) == Below(bound);
  }

  /** Rejection leaves each value up to the limit exactly once. */
  lemma KeepsAll(o: seq<nat>, limit: nat)
    requires Distinct(o) && forall v: nat :: v <= limit ==> v in o
    ensures Distinct(Keep(o, limit, |o|))
    ensures forall v: nat :: v in Keep(o, limit, |o|) <==> v <= limit
    ensures |Keep(o, limit, |o|)| == limit + 1
  {
    KeepDistinct(o, limit, |o|);
    forall v: nat ensures v in Keep(o, limit, |o|) <==> v < limit + 1 {
      KeepMember(o, limit, |o|, v);
      if v <= limit {
        assert v in o;
        var j :| 0 <= j < |o| && o[j] == v;
      }
    }
    DistinctLength(Keep(o, limit, |o|), limit + 1);
  }

  // ----- the sequence a range is reordered to

  function Offset(s: seq<nat>, base: nat): (t: seq<nat>)
    ensures |t| == |s| && forall i :: 0 <= i < |s| ==> t[i] == base + s[i]
  {
    seq(|s|, i requires 0 <= i < |s| => base + s[i])
  }

  function Period(first: nat, last: nat): (o: seq<nat>)
    requires first <= last
  {
    Orbit(first, Bits(last - first), Pow2(Bits(last - first)))
  }

  function Kept(first: nat, last: nat): (s: seq<nat>)
    requires first <= last
  {
    Keep(Period(first, last), last - first, |Period(first, last)|)
  }

  function Cycle(first: nat, last: nat): (s: seq<nat>)
    requires first <= last
  {
    Offset(Kept(first, last), first)
  }

  lemma PeriodKeepsAll(first: nat, last: nat)
    requires first <= last
    ensures var kept := Kept(first, last);
            && Distinct(kept) && |kept| == last - first + 1
            && forall v: nat :: v in kept <==> v <= last - first
  {
    BitsBound(last - first);
    OrbitIsPermutation(first, Bits(last - first));
    KeepsAll(Period(first, last), last - first);
  }

  /** Every value of the range appears in the cycle exactly once, and nothing else does. */
  lemma CycleIsPermutation(first: nat, last: nat)
    requires first <= last
    ensures |Cycle(first, last)| == last - first + 1
    ensures Distinct(Cycle(first, last))
    ensures forall v: nat :: v in Cycle(first, last) <==> first <= v <= last
  {
    var kept := Kept(first, last);
    PeriodKeepsAll(first, last);
    OffsetMembers(kept, first);
  }

  lemma OffsetMembers(s: seq<nat>, base: nat)
    ensures Distinct(s) ==> Distinct(Offset(s, base))
    ensures forall v: nat :: v in Offset(s, base) <==> base <= v && v - base in s
  {
    forall v: nat ensures v in Offset(s, base) <==> base <= v && v - base in s {
      if base <= v && v - base in s {
        var i :| 0 <= i < |s| && s[i] == v - base;
        assert Offset(s, base)[i] == v;
      }
    }
  }

  /** Where a cycle stands: `n` steps into its period, `ival` values kept, `curr` the last residue. */
  ghost predicate Standing(o: seq<nat>, first: nat, limit: nat, n: nat, ival: nat, curr: nat) {
    && n <= |o|
    && curr == (if n == 0 then first else o[n - 1])
    && ival == |Keep(o, limit, n)|
  }

  /** Stepping from an incomplete cycle: the period is not over, and a residue within the limit is the next kept. */
  lemma StandingAdvances(o: seq<nat>, first: nat, limit: nat, n: nat, ival: nat, curr: nat)
    requires Standing(o, first, limit, n, ival, curr) && ival < |Keep(o, limit, |o|)|
    ensures n < |o|
    ensures o[n] > limit ==> Standing(o, first, limit, n + 1, ival, o[n])
    ensures o[n] <= limit ==> Standing(o, first, limit, n + 1, ival + 1, o[n]) && Keep(o, limit, |o|)[ival] == o[n]
  {
    if n < |o| {
      KeepPrefix(o, limit, n + 1, |o|);
    }
  }

  /** After 2^32 kept values the full range is back at its first state. */
  lemma FullRangeWraps(o: seq<nat>, k: nat, first: nat, limit: nat, n: nat, curr: nat)
    requires o == Orbit(first, k, |o|) && |o| == Pow2(k) <= UINT32 && first < UINT32
    requires Standing(o, first, limit, n, UINT32, curr)
    ensures Standing(o, first, limit, 0, 0, curr)
  {
    OrbitAt(first, k, |o|, n - 1);
    LeapMod(k, first);
    DivModUnique(first, UINT32, 0, first);
  }

  /** What a call of reorder32_next makes of the counter of values returned: it wraps, and a new cycle starts at 0. */
  function NextCount(first: nat, last: nat, ival: nat): (n: nat)
    requires first <= last < UINT32
  {
    if ival <= last - first && ival + 1 < UINT32 then ival + 1 else 0
  }

  /** The counter after `n` calls. */
  function CountAfter(first: nat, last: nat, n: nat): (ival: nat)
    requires first <= last < UINT32
    ensures ival < UINT32
  {
    if n == 0 then 0 else NextCount(first, last, CountAfter(first, last, n - 1))
  }

  lemma {:induction false} CountsCalls(first: nat, last: nat, n: nat)
    requires first <= last < UINT32 && n <= last - first + 1 < UINT32
    ensures CountAfter(first, last, n) == n
  {
    if n > 0 {
      CountsCalls(first, last, n - 1);
    }
  }

  /** A call that ends the cycle ever comes if and only if the range is not that of all 2^32 values. */
  lemma CycleEnds(first: nat, last: nat)
    requires first <= last < UINT32
    ensures (exists n :: CountAfter(first, last, n) > last - first) <==> last - first < UINT32 - 1
  {
    if last - first < UINT32 - 1 {
      CountsCalls(first, last, last - first + 1);
    }
  }

  /** The state of a generator `n` steps into its period, `ival` values of the cycle returned. */
  ghost predicate InCycle(first: nat, last: nat, mask: nat, n: nat, ival: nat, curr: nat) {
    forall k: nat :: Open(k) ==>
      && first <= last
      && mask + 1 == Pow2(Bits(last - first)) <= UINT32
      && Standing(Period(first, last), first, last - first, n, ival, curr)
  }

  lemma CycleStarts(first: nat, last: nat, mask: nat)
    requires first <= last && mask + 1 == Pow2(Bits(last - first)) <= UINT32
    ensures InCycle(first, last, mask, 0, 0, first) == true
  {
  }

  /** After 2^32 values the full range is back at its start. */
  lemma CycleWraps(first: nat, last: nat, mask: nat, n: nat, curr: nat)
    requires InCycle(first, last, mask, n, UINT32, curr) == true && first < UINT32
    ensures InCycle(first, last, mask, 0, 0, curr) == true
  {
    assert Open(0);
    FullRangeWraps(Period(first, last), Bits(last - first), first, last - first, n, curr);
  }

  /** What the rejection loop reaches is the next value of the cycle. */
  ghost predicate Accepted(first: nat, last: nat, ival: nat, curr: nat) {
    forall k: nat :: Open(k) ==>
      first <= last && ival < |Cycle(first, last)| && first + curr == Cycle(first, last)[ival]
  }

  /** One step of an incomplete cycle, in 32-bit arithmetic, masked. */
  lemma CycleSteps(first: nat, last: nat, mask: nat, n: nat, ival: nat, curr: nat, next: nat)
    requires InCycle(first, last, mask, n, ival, curr) == true && first <= last && ival <= last - first
    requires next == ((curr * 5 + 1) % UINT32) % (mask + 1)
    ensures n < CycleLength(first, last)
    ensures next > last - first ==> InCycle(first, last, mask, n + 1, ival, next) == true
    ensures next <= last - first ==> InCycle(first, last, mask, n + 1, ival + 1, next) == true
    ensures next <= last - first ==> Accepted(first, last, ival, next) == true
  {
    assert Open(0);
    var o, k := Period(first, last), Bits(last - first);
    PeriodKeepsAll(first, last);
    StandingAdvances(o, first, last - first, n, ival, curr);
    OrbitStep(first, k, |o|, n, curr);
  }

  function CycleLength(first: nat, last: nat): (n: nat)
    requires first <= last
  {
    |Period(first, last)|
  }

  /** struct reorder32 with reorder32_init and reorder32_next. */
  class Reorder32 {
    var overflowed: bool
    var mask: nat
    var first: nat
    var last: nat
    var curr: nat
    var nitems: nat
    var ival: nat
    ghost var steps: nat  // generator steps since the start of the cycle

    ghost predicate Valid()
      reads this
    {
      && first <= last < UINT32 && nitems == last - first && !overflowed
      && ival < UINT32 && ival <= nitems + 1
      && InCycle(first, last, mask, steps, ival, curr) == true
    }

    constructor (start: nat, end: nat)
      requires start < UINT32 && end < UINT32
      ensures Valid() && ival == 0
      ensures first == (if end < start then end else start)
      ensures last == (if end < start then start else end)
    {
      overflowed, mask, first, last, curr, nitems, ival, steps := false, 0, 0, 0, 0, 0, 0, 0;
      new;
      Init(start, end);
    }

    method Init(start: nat, end: nat)
      requires start < UINT32 && end < UINT32
      modifies this
      ensures Valid() && ival == 0
      ensures first == (if end < start then end else start)
      ensures last == (if end < start then start else end)
    {
      var f, l := start, end;
      if l < f {
        f, l := l, f;
      }
      overflowed := false;
      var m := CalcMask(l - f);
      mask, first, last, curr, nitems, ival, steps := m, f, l, f, l - f, 0, 0;
      CycleStarts(f, l, m);
    }

    /** The rejection loop: an acceptable value always comes before the period ends. */
    method AdvanceToAccepted()
      requires Valid() && ival <= nitems
      modifies `curr, `steps
      ensures curr <= nitems && Accepted(first, last, ival, curr) == true
      ensures InCycle(first, last, mask, steps, ival + 1, curr) == true
    {
      var rejected := true;
      while rejected
        invariant rejected ==> InCycle(first, last, mask, steps, ival, curr) == true
        invariant !rejected ==> curr <= nitems && Accepted(first, last, ival, curr) == true
        invariant !rejected ==> InCycle(first, last, mask, steps, ival + 1, curr) == true
        decreases rejected, CycleLength(first, last) - steps
      {
        var next := ((curr * 5 + 1) % UINT32) % (mask + 1);
        CycleSteps(first, last, mask, steps, ival, curr, next);
        curr, steps := next, steps + 1;
        rejected := curr > nitems;
      }
    }

    /**
     Returns the next value of the cycle, or ends it. A range of all 2^32 values never
     ends: there the counter wraps to 0 and the same cycle goes on.
     */
    method Next() returns (ok: bool, out: nat)
      requires Valid()
      modifies this
      ensures Valid() && first == old(first) && last == old(last)
      ensures ok <==> old(ival) <= last - first
      ensures ok ==> old(ival) < |Cycle(first, last)| && out == Cycle(first, last)[old(ival)]
      ensures ival == NextCount(first, last, old(ival))
    {
      ok, out := true, 0;
      if ival > nitems || overflowed {
        Init(first, last);
        return false, out;
      }
      AdvanceToAccepted();
      AcceptedIsNext(first, last, ival, curr);
      out := first + curr;
      var next := if ival + 1 == UINT32 then 0 else ival + 1;
      if next < ival {
        overflowed := overflowed && true;
      }
      if next == 0 {
        CycleWraps(first, last, mask, steps, curr);
        steps := 0;
      }
      ival := next;
    }
  }

  lemma AcceptedIsNext(first: nat, last: nat, ival: nat, curr: nat)
    requires Accepted(first, last, ival, curr) == true
    ensures first <= last && ival < |Cycle(first, last)| && first + curr == Cycle(first, last)[ival]
  {
    assert Open(0);
  }
}
