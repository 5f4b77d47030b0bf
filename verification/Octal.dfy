/** Numbers in messages: l2s and s2l as apps/yclgen/genycl.c emits them, on 64-bit two's complement. */
module Octal {
  import opened Arithmetic

  const TWO63 := 0x8000_0000_0000_0000
  const TWO64 := 0x1_0000_0000_0000_0000

  predicate Int64(l: int) {
    -TWO63 <= l < TWO63
  }

  predicate OctalDigit(c: char) {
    '0' <= c <= '7'
  }

  function OctalValue(c: char): (d: nat)
    requires OctalDigit(c)
    ensures d < 8
  {
    c as int - '0' as int
  }

  function OctalChar(d: nat): (c: char)
    requires d < 8
    ensures OctalDigit(c) && OctalValue(c) == d
  {
    ('0' as int + d) as char
  }

  // ----- from numbers to digits

  /** The last `n` octal digits of `l`, fewer when the rest of `l` is 0; `l / 8` is the arithmetic shift by 3. */
  function Digits(l: int, n: nat): (s: string)
    ensures |s| <= n && forall i :: 0 <= i < |s| ==> OctalDigit(s[i])
    decreases n
  {
    if n == 0 then []
    else if l / 8 == 0 then [OctalChar(l % 8)]
    else Digits(l / 8, n - 1) + [OctalChar(l % 8)]
  }

  /** l2s with a buffer of `width` characters, filled from its end. */
  method L2S(l0: int, width: nat) returns (s: string)
    ensures s == Digits(l0, width)
  {
    var buf := new char[width];
    var len: nat, l := width, l0;
    var done := false;
    while len > 0 && !done
      invariant len <= width
      invariant Digits(l0, width) == if done then buf[len..] else Digits(l, len) + buf[len..]
    {
      len := len - 1;
      ghost var tail := buf[len + 1..];
      buf[len] := OctalChar(l % 8);
      assert buf[len..] == [OctalChar(l % 8)] + tail;
      l := l / 8;
      done := l == 0;
    }
    s := buf[len..];
  }

  // ----- and back

  function Value(s: string): (v: nat)
    requires forall i :: 0 <= i < |s| ==> OctalDigit(s[i])
  {
    if s == [] then 0 else Value(s[..|s| - 1]) * 8 + OctalValue(s[|s| - 1])
  }

  /** The octal digits a string begins with. */
  function Prefix(s: string, n: nat): (k: nat)
    requires n <= |s|
    ensures n <= k <= |s| && (forall i :: n <= i < k ==> OctalDigit(s[i])) && (k < |s| ==> !OctalDigit(s[k]))
    decreases |s| - n
  {
    if n < |s| && OctalDigit(s[n]) then Prefix(s, n + 1) else n
  }

  function Signed(bits: nat): (l: int)
    requires bits < TWO64
    ensures Int64(l)
  {
    if bits < TWO63 then bits else bits - TWO64
  }

  function FromText(s: string): (l: int)
    ensures Int64(l)
  {
    Signed(Value(s[..Prefix(s, 0)]) % TWO64)
  }

  /** s2l: shifts and adds on 64 bits; what is shifted out is lost. */
  method S2L(s: string) returns (l: int)
    ensures l == FromText(s)
  {
    var bits: nat, i := 0, 0;
    while i < |s| && OctalDigit(s[i])
      invariant i <= Prefix(s, 0) == Prefix(s, i)
      invariant bits == Value(s[..i]) % TWO64
    {
      var d := OctalValue(s[i]);
      assert s[..i + 1][..i] == s[..i];
      ShiftIn(Value(s[..i]), d);
      bits := (bits * 8 + d) % TWO64;
      i := i + 1;
    }
    l := Signed(bits);
  }

  lemma ShiftIn(v: nat, d: nat)
    ensures ((v % TWO64) * 8 + d) % TWO64 == (v * 8 + d) % TWO64
  {
    var q := v / TWO64;
    assert v == q * TWO64 + v % TWO64;
  }

  // ----- the round trip

  function Pow8(n: nat): (p: nat)
    ensures p > 0
  {
    if n == 0 then 1 else 8 * Pow8(n - 1)
  }

  lemma SpellsMore(v: int, q: int, k: int, p: int, d: int)
    requires v == q + k * p
    ensures v * 8 + d == (q * 8 + d) + k * (8 * p)
  {
  }

  /** The digits spell `l` up to a multiple of 8^n. */
  lemma {:induction false} DigitsSpell(l: int, n: nat) returns (k: int)
    ensures Value(Digits(l, n)) == l + k * Pow8(n)
    decreases n
  {
    var s := Digits(l, n);
    if n == 0 {
      k := -l;
    } else if l / 8 == 0 {
      k := 0;
      assert s[..|s| - 1] == [];
    } else {
      k := DigitsSpell(l / 8, n - 1);
      assert s[..|s| - 1] == Digits(l / 8, n - 1);
      SpellsMore(Value(Digits(l / 8, n - 1)), l / 8, k, Pow8(n - 1), l % 8);
    }
  }

  /** From 22 digits on nothing of a 64-bit number is lost: what is shifted out is what was added. */
  lemma {:induction false} WidthIsEnough(n: nat) returns (m: nat)
    requires n >= 22
    ensures Pow8(n) == m * TWO64
  {
    if n == 22 {
      Pow8Eight(14);
      Pow8Eight(6);
      assert Pow8(6) == 8 * Pow8(5) == 64 * Pow8(4) == 512 * Pow8(3);
      assert Pow8(3) == 8 * Pow8(2) == 64 * Pow8(1) == 512;
      m := 4;
    } else {
      var k := WidthIsEnough(n - 1);
      m := 8 * k;
    }
  }

  lemma Pow8Eight(n: nat)
    ensures Pow8(n + 8) == 0x100_0000 * Pow8(n)
  {
    assert Pow8(n + 8) == 8 * Pow8(n + 7) == 64 * Pow8(n + 6) == 512 * Pow8(n + 5);
    assert Pow8(n + 5) == 8 * Pow8(n + 4) == 64 * Pow8(n + 3) == 512 * Pow8(n + 2);
    assert Pow8(n + 2) == 8 * Pow8(n + 1) == 64 * Pow8(n);
  }

  lemma SignedOf(v: nat, l: int, m: int)
    requires Int64(l) && v == l + m * TWO64
    ensures Signed(v % TWO64) == l
  {
    if l >= 0 {
      DivModUnique(v, TWO64, m, l);
    } else {
      DivModUnique(v, TWO64, m - 1, l + TWO64);
    }
  }

  lemma WritesOctal()
    ensures Digits(8, 22) == "10" && Digits(-1, 3) == "777"
  {
    assert Digits(-1, 1) == "7" && Digits(-1, 2) == "77";
  }

  lemma ReadsOctal()
    ensures FromText("10") == 8 && FromText("19") == 1
  {
    assert Value("1") == 1 && "10"[..1] == "1" && "19"[..1] == "1";
  }

  /** Every 64-bit number survives; negative ones fill all `width` digits. */
  lemma TextRoundTrip(l: int, width: nat)
    requires Int64(l) && width >= 22
    ensures FromText(Digits(l, width)) == l
  {
    var s := Digits(l, width);
    var k := DigitsSpell(l, width);
    var m := WidthIsEnough(width);
    assert s[..Prefix(s, 0)] == s;
    MulAssociates(k, m, TWO64);
    SignedOf(Value(s), l, k * m);
  }
}
