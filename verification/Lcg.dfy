/**
 Full period of x -> 5x + 1 modulo any power of two: the instance of the
 Hull-Dobell theorem that lib/util/reorder.c relies on.
 */
module Lcg {
  import opened Arithmetic
  import opened Powers
  import opened Wrappers

  /** `n` steps of the generator, without the modulus. */
  function Steps(x: nat, n: nat): (y: nat)
  {
    if n == 0 then x else 5 * Steps(x, n - 1) + 1
  }

  lemma {:induction false} StepsAdd(x: nat, a: nat, b: nat)
    ensures Steps(x, a + b) == Steps(Steps(x, a), b)
  {
    if b > 0 {
      StepsAdd(x, a, b - 1);
    }
  }

  // ----- congruences

  lemma ModAdd(x: int, q: int, m: int)
    requires m > 0
    ensures (x + q * m) % m == x % m
  {
    DivModBounds(x, m);
    DivModUnique(x + q * m, m, x / m + q, x % m);
  }

  /** Equal residues differ by a multiple of the modulus. */
  lemma ModEqual(x: int, y: int, m: int) returns (q: int)
    requires m > 0 && x % m == y % m
    ensures x == y + q * m
  {
    DivModBounds(x, m);
    DivModBounds(y, m);
    q := x / m - y / m;
  }

  /** A step respects congruence. */
  lemma StepMod(x: nat, y: nat, m: int)
    requires m > 0 && x % m == y % m
    ensures (5 * x + 1) % m == (5 * y + 1) % m
  {
    var q := ModEqual(x, y, m);
    MulAssociates(5, q, m);
    assert 5 * x + 1 == 5 * y + 1 + (5 * q) * m;
    ModAdd(5 * y + 1, 5 * q, m);
  }

  lemma Doubling(h: int, m: int)
    ensures (2 * h) * m == h * (2 * m) && (2 * h + 1) * m == h * (2 * m) + m
    ensures (h + 1) * (2 * m) == h * (2 * m) + 2 * m
  {
  }

  lemma EvenMultiple(v: int, m: int, h: int, r: int)
    requires 0 <= r < m && v == h * (2 * m) + r
    ensures v % (2 * m) == r && (v + m) % (2 * m) == r + m
  {
    DivModUnique(v, 2 * m, h, r);
    DivModUnique(v + m, 2 * m, h, m + r);
  }

  lemma OddHalf(v: int, m: int, h: int, r: int)
    requires 0 <= r < m && v == h * (2 * m) + (m + r)
    ensures v % (2 * m) == r + m && (v + m) % (2 * m) == r
  {
    Doubling(h, m);
    DivModUnique(v, 2 * m, h, m + r);
    DivModUnique(v + m, 2 * m, h + 1, r);
  }

  lemma SmallMod(m: int, r: int)
    requires 0 <= r < m
    ensures r % m == r && (r + m) % m == r
  {
    DivModUnique(r, m, 0, r);
    DivModUnique(r + m, m, 1, r);
  }

  /** The residue modulo 2m determines the residue modulo m, and leaves two choices for it. */
  lemma ModHalf(v: int, m: int)
    requires m > 0
    ensures v % m == (v % (2 * m)) % m
    ensures v % (2 * m) == v % m || v % (2 * m) == v % m + m
    ensures (v + m) % (2 * m) == if v % (2 * m) == v % m then v % m + m else v % m
  {
    DivModBounds(v, m);
    var q, r := v / m, v % m;
    var h := q / 2;
    Doubling(h, m);
    SmallMod(m, r);
    if q == 2 * h {
      EvenMultiple(v, m, h, r);
    } else {
      OddHalf(v, m, h, r);
    }
  }

  // ----- 2^k steps move x by an odd multiple of 2^k

  /** The odd part of the displacement, per unit of 4x + 1. */
  function Odd(k: nat): (b: nat)
    ensures b % 2 == 1
  {
    if k == 0 then 1
    else
      var c := Odd(k - 1);
      OddProduct(c, 1 + 2 * (Pow2(k - 1) * c));
      c * (1 + 2 * (Pow2(k - 1) * c))
  }

  lemma OddProduct(a: int, b: int)
    requires a % 2 == 1 && b % 2 == 1
    ensures (a * b) % 2 == 1
  {
    var p, q := a / 2, b / 2;
    assert a * b == 2 * (2 * (p * q) + p + q) + 1 by {
      assert a == 2 * p + 1 && b == 2 * q + 1;
      Expand(p, q);
    }
  }

  lemma Expand(p: int, q: int)
    ensures (2 * p + 1) * (2 * q + 1) == 2 * (2 * (p * q) + p + q) + 1
  {
  }

  /** `y` is `x` moved by `d` times 4x + 1. */
  ghost predicate Moved(x: int, y: int, d: int) {
    forall n: nat :: Open(n) ==> y == x + d * (4 * x + 1)
  }

  /** Two displacements of c(4x+1) and c(4y+1) make 2c(1+2c)(4x+1). */
  lemma TwoLeaps(x: int, y: int, z: int, c: int, d: int)
    requires Moved(x, y, c) == true && Moved(y, z, c) == true && d == 2 * (c * (1 + 2 * c))
    ensures Moved(x, z, d) == true
  {
    assert Open(0);
    TwoProducts(c, 4 * x + 1, c * (4 * x + 1), 4 * y + 1);
  }

  lemma TwoProducts(c: int, u: int, cu: int, w: int)
    requires cu == c * u && w == u + 4 * cu
    ensures cu + c * w == (2 * (c * (1 + 2 * c))) * u
  {
    calc {
      cu + c * w;
      cu + c * (u + 4 * cu);
      cu + c * u + c * (4 * cu);
      2 * (c * u) + 4 * (c * (c * u));
      2 * (c * u) + 4 * ((c * c) * u);
      (2 * c) * u + (4 * (c * c)) * u;
      (2 * c + 4 * (c * c)) * u;
      (2 * (c * (1 + 2 * c))) * u;
    }
  }

  function Factor(k: nat): (d: int) {
    Pow2(k) * Odd(k)
  }

  lemma NextFactor(k: nat)
    requires k > 0
    ensures var c := Factor(k - 1); Factor(k) == 2 * (c * (1 + 2 * c))
  {
    Rearrange(Pow2(k - 1), Odd(k - 1), 1 + 2 * Factor(k - 1));
  }

  lemma {:induction false} Leaps(k: nat, x: nat)
    ensures Moved(x, Steps(x, Pow2(k)), Factor(k)) == true
  {
    if k == 0 {
      assert Steps(x, 1) == 5 * Steps(x, 0) + 1;
    } else {
      var p := Pow2(k - 1);
      var y := Steps(x, p);
      StepsAdd(x, p, p);
      Leaps(k - 1, x);
      Leaps(k - 1, y);
      NextFactor(k);
      TwoLeaps(x, y, Steps(y, p), Factor(k - 1), Factor(k));
    }
  }

  /** 2^k steps move x by an odd multiple of 2^k times 4x + 1. */
  lemma Leap(k: nat, x: nat)
    ensures Steps(x, Pow2(k)) == x + (Pow2(k) * Odd(k)) * (4 * x + 1)
  {
    Leaps(k, x);
    assert Open(0);
  }

  lemma Rearrange(p: int, b: int, d: int)
    ensures 2 * ((p * b) * d) == (2 * p) * (b * d)
  {
  }

  /** An odd multiple of p is p modulo 2p. */
  lemma OddMultiple(x: int, p: int, b: int)
    requires p > 0 && b % 2 == 1
    ensures (x + p * b) % (2 * p) == (x + p) % (2 * p)
    ensures (x + p * b) % p == x % p
  {
    var h := b / 2;
    assert p * b == p + h * (2 * p) by {
      assert b == 2 * h + 1;
    }
    ModAdd(x + p, h, 2 * p);
    assert p * b == b * p;
    ModAdd(x, b, p);
  }

  /** 2^k steps flip exactly the k-th residue bit. */
  lemma LeapMod(k: nat, x: nat)
    ensures Steps(x, Pow2(k)) % (2 * Pow2(k)) == (x + Pow2(k)) % (2 * Pow2(k))
    ensures Steps(x, Pow2(k)) % Pow2(k) == x % Pow2(k)
  {
    Leaps(k, x);
    LeapResidues(x, Pow2(k), Odd(k), Factor(k), Steps(x, Pow2(k)));
  }

  lemma LeapResidues(x: int, p: int, b: int, d: int, y: int)
    requires p > 0 && b % 2 == 1 && d == p * b && Moved(x, y, d) == true
    ensures y % (2 * p) == (x + p) % (2 * p) && y % p == x % p
  {
    assert Open(0);
    var u := 4 * x + 1;
    MulAssociates(p, b, u);
    OddProduct(b, u);
    OddMultiple(x, p, b * u);
  }

  // ----- the full period

  /** The step at which the orbit of `x` reaches residue `r` modulo 2^k. */
  function Index(k: nat, x: nat, r: nat): (n: nat)
  {
    if k == 0 then 0
    else
      var n := Index(k - 1, x, r % Pow2(k - 1));
      if Steps(x, n) % Pow2(k) == r then n else n + Pow2(k - 1)
  }

  lemma ShiftedStep(k: nat, x: nat, n: nat)
    ensures Steps(x, n + Pow2(k)) % (2 * Pow2(k)) == (Steps(x, n) + Pow2(k)) % (2 * Pow2(k))
    ensures Steps(x, n + Pow2(k)) % Pow2(k) == Steps(x, n) % Pow2(k)
  {
    StepsAdd(x, n, Pow2(k));
    LeapMod(k, Steps(x, n));
  }

  /** Every residue is reached within one period ... */
  lemma {:induction false} IndexReaches(k: nat, x: nat, r: nat)
    requires r < Pow2(k)
    ensures Index(k, x, r) < Pow2(k)
    ensures Steps(x, Index(k, x, r)) % Pow2(k) == r
  {
    if k > 0 {
      var p := Pow2(k - 1);
      DivModBounds(r, p);
      IndexReaches(k - 1, x, r % p);
      var n := Index(k - 1, x, r % p);
      ModHalf(Steps(x, n), p);
      ModHalf(r, p);
      DivModUnique(r, 2 * p, 0, r);
      ShiftedStep(k - 1, x, n);
    }
  }

  /** ... and only once. */
  lemma {:induction false} IndexUnique(k: nat, x: nat, n: nat)
    requires n < Pow2(k)
    ensures Index(k, x, Steps(x, n) % Pow2(k)) == n
  {
    if k > 0 {
      var p := Pow2(k - 1);
      var r := Steps(x, n) % Pow2(k);
      ModHalf(Steps(x, n), p);
      var n0 := if n < p then n else n - p;
      ShiftedStep(k - 1, x, n0);
      ModHalf(Steps(x, n0), p);
      IndexUnique(k - 1, x, n0);
    }
  }
}
