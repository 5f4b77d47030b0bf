/** The little nonlinear arithmetic the models need. */
module Arithmetic {
  lemma DivModBounds(x: int, d: int)
    requires d > 0
    ensures x == (x / d) * d + x % d
    ensures 0 <= x % d < d
  {
  }

  lemma MulLower(a: int, b: int)
    requires a >= 1 && b >= 0
    ensures a * b >= b
  {
  }

  lemma DivModUnique(x: int, d: int, q: int, r: int)
    requires d > 0 && x == q * d + r && 0 <= r < d
    ensures x / d == q && x % d == r
  {
    DivModBounds(x, d);
    var q', r' := x / d, x % d;
    assert (q - q') * d == r' - r;
    if q > q' {
      MulLower(q - q', d);
    } else if q < q' {
      assert (q' - q) * d == r - r';
      MulLower(q' - q, d);
    }
  }

  lemma MulMonotone(a: int, b: int, c: int, d: int)
    requires 0 <= a <= c && 0 <= b <= d
    ensures 0 <= a * b <= c * d
  {
    assert a * b <= c * b <= c * d;
  }

  lemma DivOfNats(a: nat, b: nat)
    requires b > 0
    ensures 0 <= a / b <= a
  {
    DivModBounds(a, b);
    var q := a / b;
    if q < 0 {
      MulLower(-q, b);
    } else {
      MulLower(b, q);
    }
  }

  function NatDiv(a: nat, b: nat): (q: nat)
    requires b > 0
    ensures q <= a
  {
    DivOfNats(a, b);
    a / b
  }

  lemma MulAssociates(a: int, b: int, c: int)
    ensures (a * b) * c == a * (b * c)
  {
  }
}
