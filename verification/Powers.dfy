/** Powers of two, bit lengths, and the round-up trick the hash tables size themselves with. */
module Powers {
  import opened Arithmetic

  const UINT32 := 0x1_0000_0000

  function Pow2(k: nat): (p: nat)
    ensures p >= 1
  {
    if k == 0 then 1 else 2 * Pow2(k - 1)
  }

  lemma {:induction false} Pow2Monotone(j: nat, k: nat)
    requires j <= k
    ensures Pow2(j) <= Pow2(k)
  {
    if j < k {
      Pow2Monotone(j, k - 1);
    }
  }

  /** The number of significant bits of `n`. */
  function Bits(n: nat): (k: nat)
  {
    if n == 0 then 0 else 1 + Bits(n / 2)
  }

  lemma {:induction false} BitsBound(n: nat)
    ensures n < Pow2(Bits(n))
    ensures n > 0 ==> Pow2(Bits(n) - 1) <= n
  {
    if n > 0 {
      BitsBound(n / 2);
    }
  }

  lemma BitsUnique(n: nat, k: nat)
    requires n < Pow2(k) && (k > 0 ==> Pow2(k - 1) <= n)
    ensures Bits(n) == k
  {
    BitsBound(n);
    if Bits(n) < k {
      Pow2Monotone(Bits(n), k - 1);
    } else if Bits(n) > k {
      Pow2Monotone(k, Bits(n) - 1);
    }
  }

  lemma {:induction false} Pow2Of32()
    ensures Pow2(32) == UINT32
  {
    assert Pow2(8) == 256;
    assert Pow2(16) == 65536;
    assert Pow2(24) == 0x100_0000;
  }

  lemma {:induction false} Pow2Splits(j: nat, k: nat)
    ensures Pow2(j + k) == Pow2(j) * Pow2(k)
  {
    if j > 0 {
      Pow2Splits(j - 1, k);
      MulAssociates(2, Pow2(j - 1), Pow2(k));
    }
  }

  // ----- round_up_pow2: smearing the top bit downwards

  /** Bitwise or of natural numbers. */
  function Or(a: nat, b: nat): (r: nat)
    decreases a + b
  {
    if a == 0 && b == 0 then 0
    else 2 * Or(a / 2, b / 2) + (if a % 2 == 1 || b % 2 == 1 then 1 else 0)
  }

  lemma DivTwice(a: nat, s: nat)
    ensures (a / 2) / Pow2(s) == a / Pow2(s + 1)
  {
    var p := Pow2(s);
    DivModBounds(a / 2, p);
    var q, r := (a / 2) / p, (a / 2) % p;
    MulAssociates(q, 2, p);
    assert a == q * (2 * p) + (2 * r + a % 2);
    DivModUnique(a, 2 * p, q, 2 * r + a % 2);
  }

  /** Or commutes with dropping low bits. */
  lemma {:induction false} OrShift(a: nat, b: nat, s: nat)
    ensures a / Pow2(s) >= 0 && b / Pow2(s) >= 0
    ensures Or(a, b) / Pow2(s) == Or(a / Pow2(s), b / Pow2(s))
  {
    if s > 0 {
      OrShift(a / 2, b / 2, s - 1);
      DivTwice(a, s - 1);
      DivTwice(b, s - 1);
      DivTwice(Or(a, b), s - 1);
      assert Or(a, b) / 2 == Or(a / 2, b / 2);
    }
  }

  /** `a` with its low u bits set. */
  function SetLow(a: nat, u: nat): (r: nat) {
    if u == 0 then a else 2 * SetLow(a / 2, u - 1) + 1
  }

  lemma {:induction false} OrOnes(a: nat, u: nat)
    ensures Or(a, Pow2(u) - 1) == SetLow(a, u)
  {
    if u == 0 {
      OrZero(a);
    } else {
      var p := Pow2(u - 1);
      OrOnes(a / 2, u - 1);
      assert (2 * p - 1) / 2 == p - 1 && (2 * p - 1) % 2 == 1;
    }
  }

  lemma {:induction false} SetLowValue(c: nat, x: nat, u: nat)
    requires x < Pow2(u)
    ensures SetLow(c * Pow2(u) + x, u) == c * Pow2(u) + Pow2(u) - 1
  {
    if u > 0 {
      var p := Pow2(u - 1);
      var cp := c * p;
      MulDouble(c, p);
      SetLowValue(c, x / 2, u - 1);
      assert (2 * cp + x) / 2 == cp + x / 2;
    }
  }

  lemma MulDouble(c: int, p: int)
    ensures c * (2 * p) == 2 * (c * p)
  {
  }

  lemma {:induction false} OrZero(a: nat)
    ensures Or(a, 0) == a
  {
    if a > 0 {
      OrZero(a / 2);
    }
  }

  /** Of the k significant bits of `v` the top `w` are ones. */
  predicate TopOnes(v: nat, k: nat, w: nat) {
    v < Pow2(k) <= v + Pow2(if w <= k then k - w else 0)
  }

  function Smear(v: nat, w: nat): (r: nat) {
    Or(v, NatDiv(v, Pow2(w)))
  }

  lemma OneLess(a: int, b: int)
    ensures (a - 1) * b == a * b - b
  {
  }

  /** Behind w leading ones of k bits, v >> w shows ones down to bit s. */
  lemma OnesShifted(v: nat, k: nat, w: nat, s: nat, u: nat)
    requires 0 < w < k && TopOnes(v, k, w)
    requires s == (if 2 * w <= k then k - 2 * w else 0) && u == k - w - s
    ensures v / Pow2(w + s) == Pow2(u) - 1
  {
    var d := Pow2(w + s);
    Pow2Splits(u, w + s);
    OneLess(Pow2(u), d);
    Pow2Monotone(k - w, w + s);
    DivModUnique(v, d, Pow2(u) - 1, v - (Pow2(u) - 1) * d);
  }

  lemma SplitTwice(v: int, pw: int, ps: int, q: int, r': int, r: int)
    requires v == (q * ps + r') * pw + r && 0 <= r < pw && 0 <= r' < ps
    ensures v == q * (ps * pw) + (r' * pw + r)
    ensures 0 <= r' * pw + r < ps * pw
  {
    assert (q * ps + r') * pw == (q * ps) * pw + r' * pw;
    MulAssociates(q, ps, pw);
    MulMonotone(r', pw, ps - 1, pw);
    OneLess(ps, pw);
  }

  lemma DivDivInt(v: nat, a: nat, b: nat)
    requires a > 0 && b > 0
    ensures b * a > 0 && v / a >= 0
    ensures (v / a) / b == v / (b * a)
  {
    MulMonotone(1, 1, b, a);
    DivModBounds(v, a);
    var q, r := v / a, v % a;
    assert q >= 0 by {
      if q < 0 {
        MulLower(-q, a);
      }
    }
    DivModBounds(q, b);
    var q', r' := q / b, q % b;
    SplitTwice(v, a, b, q', r', r);
    DivModUnique(v, b * a, q', r' * a + r);
  }

  lemma DivDiv(v: nat, w: nat, s: nat)
    ensures v / Pow2(w) >= 0
    ensures (v / Pow2(w)) / Pow2(s) == v / Pow2(w + s)
  {
    Pow2Splits(s, w);
    DivDivInt(v, Pow2(w), Pow2(s));
  }

  lemma SmearBound(v: nat, k: nat, w: nat)
    requires v < Pow2(k)
    ensures Smear(v, w) < Pow2(k)
  {
    var b := NatDiv(v, Pow2(w));
    OrShift(v, b, k);
    DivModUnique(v, Pow2(k), 0, v);
    DivModUnique(b, Pow2(k), 0, b);
    var r := Or(v, b);
    DivModBounds(r, Pow2(k));
  }

  /** What v shows above bit s: w ones, then u bits; setting those leaves w + u ones. */
  lemma TopPart(v: nat, k: nat, w: nat, s: nat, u: nat)
    requires 0 < w < k && TopOnes(v, k, w) && s + u == k - w
    ensures v / Pow2(s) >= 0
    ensures SetLow(v / Pow2(s), u) == Pow2(w + u) - 1
  {
    var top, d, c := v / Pow2(s), Pow2(s + u), Pow2(w) - 1;
    DivDiv(v, s, u);
    assert top / Pow2(u) == c by {
      Pow2Splits(w, s + u);
      OneLess(Pow2(w), d);
      DivModUnique(v, d, c, v - c * d);
    }
    DivModBounds(top, Pow2(u));
    SetLowValue(c, top % Pow2(u), u);
    Pow2Splits(w, u);
    OneLess(Pow2(w), Pow2(u));
  }

  lemma SmearHigh(v: nat, w: nat, s: nat, u: nat, ones: nat)
    requires v / Pow2(w + s) == Pow2(u) - 1 && v / Pow2(s) >= 0
    requires SetLow(v / Pow2(s), u) == ones
    ensures Smear(v, w) / Pow2(s) == ones
  {
    DivDiv(v, w, s);
    OrShift(v, NatDiv(v, Pow2(w)), s);
    OrOnes(v / Pow2(s), u);
  }

  lemma SmearQuotient(v: nat, k: nat, w: nat, s: nat, u: nat)
    requires 0 < w < k && TopOnes(v, k, w)
    requires s == (if 2 * w <= k then k - 2 * w else 0) && u == k - w - s
    ensures Smear(v, w) / Pow2(s) == Pow2(w + u) - 1
  {
    TopPart(v, k, w, s, u);
    OnesShifted(v, k, w, s, u);
    SmearHigh(v, w, s, u, Pow2(w + u) - 1);
  }

  lemma SmearTop(v: nat, k: nat, w: nat, s: nat, u: nat)
    requires 0 < w < k && TopOnes(v, k, w)
    requires s == (if 2 * w <= k then k - 2 * w else 0) && u == k - w - s
    ensures Smear(v, w) + Pow2(s) >= Pow2(k)
  {
    SmearQuotient(v, k, w, s, u);
    RaisedTop(Smear(v, w), s, w + u);
  }

  lemma RaisedTop(r: nat, s: nat, ones: nat)
    requires r / Pow2(s) == Pow2(ones) - 1
    ensures r + Pow2(s) >= Pow2(ones + s)
  {
    Pow2Splits(ones, s);
    AtLeastQuotient(r, Pow2(s), Pow2(ones));
  }

  lemma AtLeastQuotient(r: int, d: int, q: int)
    requires d > 0 && r / d == q - 1
    ensures r + d >= q * d
  {
    DivModBounds(r, d);
    OneLess(q, d);
  }

  /** Smearing by w doubles the leading ones. */
  lemma SmearDoubles(v: nat, k: nat, w: nat)
    requires w > 0 && TopOnes(v, k, w)
    ensures TopOnes(Smear(v, w), k, 2 * w)
  {
    if w >= k {
      Pow2Monotone(k, w);
      DivModUnique(v, Pow2(w), 0, v);
      OrZero(v);
    } else {
      var s := if 2 * w <= k then k - 2 * w else 0;
      var u := k - w - s;
      SmearTop(v, k, w, s, u);
      SmearBound(v, k, w);
    }
  }

  lemma SmearAll(a: nat, k: nat)
    requires TopOnes(a, k, 1) && k <= 32
    ensures Smear(Smear(Smear(Smear(Smear(a, 1), 2), 4), 8), 16) + 1 == Pow2(k)
  {
    var b := Smear(a, 1);
    var c := Smear(b, 2);
    var d := Smear(c, 4);
    var e := Smear(d, 8);
    SmearDoubles(a, k, 1);
    SmearDoubles(b, k, 2);
    SmearDoubles(c, k, 4);
    SmearDoubles(d, k, 8);
    SmearDoubles(e, k, 16);
  }

  lemma Pow2Less(j: nat, k: nat)
    requires Pow2(j) < Pow2(k)
    ensures j < k
  {
    if k <= j {
      Pow2Monotone(k, j);
    }
  }

  lemma BitsOfWord(a: nat)
    requires a < UINT32
    ensures Bits(a) <= 32 && TopOnes(a, Bits(a), 1)
    ensures a < UINT32 / 2 <==> Bits(a) <= 31
  {
    var k := Bits(a);
    BitsBound(a);
    Pow2Of32();
    assert Pow2(32) == 2 * Pow2(31);
    if a > 0 {
      Pow2Less(k - 1, 32);
      if a < UINT32 / 2 {
        Pow2Less(k - 1, 31);
      } else {
        Pow2Less(31, k);
      }
    }
  }

  /** The least power of two that is not below `v`; zero when that does not fit 32 bits. */
  function CeilPow2(v: nat): (r: nat)
    requires v < UINT32
  {
    if 0 < v <= UINT32 / 2 then Pow2(Bits(v - 1)) else 0
  }

  lemma SmearedIsCeil(v: nat, a: nat)
    requires v < UINT32 && a == if v == 0 then UINT32 - 1 else v - 1
    ensures Bits(a) <= 32 && TopOnes(a, Bits(a), 1)
    ensures CeilPow2(v) == if Pow2(Bits(a)) == UINT32 then 0 else Pow2(Bits(a))
  {
    BitsOfWord(a);
    Pow2Of32();
    if Bits(a) <= 31 {
      Pow2Monotone(Bits(a), 31);
      assert Pow2(32) == 2 * Pow2(31);
    }
  }

  /** round_up_pow2 on 32-bit words. */
  method RoundUpPow2(v: nat) returns (r: nat)
    requires v < UINT32
    ensures r == CeilPow2(v)
  {
    r := if v == 0 then UINT32 - 1 else v - 1;
    SmearedIsCeil(v, r);
    SmearAll(r, Bits(r));
    r := Smear(r, 1);
    r := Smear(r, 2);
    r := Smear(r, 4);
    r := Smear(r, 8);
    r := Smear(r, 16);
    r := if r + 1 == UINT32 then 0 else r + 1;
  }

  ghost predicate IsPow2(v: nat) {
    exists j :: v == Pow2(j)
  }

  lemma CeilPow2IsLeast(v: nat, j: nat)
    requires 0 < v <= UINT32 / 2
    ensures v <= CeilPow2(v) <= UINT32 / 2 && IsPow2(CeilPow2(v))
    ensures Pow2(j) >= v ==> Pow2(j) >= CeilPow2(v)
  {
    BitsBound(v - 1);
    BitsOfWord(v - 1);
    Pow2Monotone(Bits(v - 1), 31);
    Pow2Of32();
    assert Pow2(32) == 2 * Pow2(31);
    if Pow2(j) >= v {
      Pow2BitsIsLeast(v, j);
    }
  }

  lemma Pow2BitsIsLeast(v: nat, j: nat)
    requires v > 0 && Pow2(j) >= v
    ensures Pow2(j) >= Pow2(Bits(v - 1)) >= v
  {
    BitsBound(v - 1);
    if v > 1 {
      Pow2Less(Bits(v - 1) - 1, j);
      Pow2Monotone(Bits(v - 1), j);
    }
  }
}
