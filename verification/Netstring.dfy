/** Netstrings of lib/util/netstring.c: a decimal length, a colon, the data and a comma. */
module Netstring {
  import opened Arithmetic
  import opened Sequences
  import opened Wrappers

  const U64 := 0x1_0000_0000_0000_0000

  datatype Result = Ok(off: nat, len: nat) | ErrFmt | ErrTooLarge | ErrIncomplete

  predicate Space(c: char) {
    c == '\r' || c == '\n' || c == '\t' || c == ' '
  }

  predicate Digit(c: char) {
    '0' <= c <= '9'
  }

  function DigitValue(c: char): (d: nat)
    requires Digit(c)
    ensures d < 10
  {
    c as int - '0' as int
  }

  function DigitChar(d: nat): (c: char)
    requires d < 10
    ensures Digit(c) && DigitValue(c) == d
  {
    ('0' as int + d) as char
  }

  // ----- the parser, state by state; lengths and offsets are 64 bits wide

  function ParseSpace(src: string, i: nat): (r: Result)
    requires i <= |src| < U64
    decreases |src| - i
  {
    if i == |src| then ErrIncomplete
    else if Space(src[i]) then ParseSpace(src, i + 1)
    else ParseLength(src, i, 0)
  }

  function ParseLength(src: string, i: nat, len: nat): (r: Result)
    requires i <= |src| < U64 && len < U64
    decreases |src| - i
  {
    if i == |src| then ErrIncomplete
    else if Digit(src[i]) then
      var next := (len * 10 + DigitValue(src[i])) % U64;
      if next < len then ErrTooLarge else ParseLength(src, i + 1, next)
    else if i > 0 && src[i] == ':' then ParseData(src, i + 1, len)
    else ErrFmt
  }

  function ParseData(src: string, i: nat, len: nat): (r: Result)
    requires i <= |src| < U64 && len < U64
  {
    if i == |src| then ErrIncomplete
    else
      var end := (i + len) % U64;
      if end >= |src| then ErrIncomplete
      else if src[end] != ',' then ErrFmt
      else Ok(i, len)
  }

  datatype ParserState = SkipSpace | ReadLength | AtData

  /** _netstring_parse. */
  method Parse(src: string) returns (r: Result)
    requires |src| < U64
    ensures r == ParseSpace(src, 0)
  {
    var len := 0;
    var st := SkipSpace;
    var i := 0;
    while i < |src|
      invariant i <= |src| && 0 <= len < U64
      invariant ParseSpace(src, 0) == match st
                                      case SkipSpace => ParseSpace(src, i)
                                      case ReadLength => ParseLength(src, i, len)
                                      case AtData => ParseData(src, i, len)
      invariant st == SkipSpace ==> len == 0
    {
      if st == AtData {
        var end := (i + len) % U64;
        if end >= |src| {
          return ErrIncomplete;
        }
        return if src[end] != ',' then ErrFmt else Ok(i, len);
      }
      if st != SkipSpace || !Space(src[i]) {
        st := ReadLength;
        if Digit(src[i]) {
          var next := (len * 10 + DigitValue(src[i])) % U64;
          if next < len {
            return ErrTooLarge;
          }
          len := next;
        } else if i > 0 && src[i] == ':' {
          st := AtData;
        } else {
          return ErrFmt;
        }
      }
      i := i + 1;
    }
    r := ErrIncomplete;
  }

  // ----- what is accepted lies inside the source

  predicate NoComma(src: string, i: nat)
    requires i <= |src|
  {
    forall k :: 0 <= k < i ==> src[k] != ','
  }

  lemma {:induction false} LengthInside(src: string, i: nat, len: nat)
    requires i <= |src| < U64 && len < U64 && NoComma(src, i)
    ensures ParseLength(src, i, len).Ok? ==> Inside(src, ParseLength(src, i, len))
    decreases |src| - i
  {
    if i < |src| {
      if Digit(src[i]) {
        var next := (len * 10 + DigitValue(src[i])) % U64;
        if next >= len {
          LengthInside(src, i + 1, next);
        }
      } else if i > 0 && src[i] == ':' {
        DataInside(src, i + 1, len);
      }
    }
  }

  predicate Inside(src: string, r: Result) {
    r.Ok? && r.off + r.len < |src| && src[r.off + r.len] == ','
  }

  /** A length so large that the offset wraps would need a comma before the data. */
  lemma DataInside(src: string, i: nat, len: nat)
    requires i <= |src| < U64 && len < U64 && NoComma(src, i)
    ensures ParseData(src, i, len).Ok? ==> Inside(src, ParseData(src, i, len))
  {
  }

  lemma {:induction false} SpaceInside(src: string, i: nat)
    requires i <= |src| < U64 && NoComma(src, i)
    ensures ParseSpace(src, i).Ok? ==> Inside(src, ParseSpace(src, i))
    decreases |src| - i
  {
    if i < |src| {
      if Space(src[i]) {
        SpaceInside(src, i + 1);
      } else {
        LengthInside(src, i, 0);
      }
    }
  }

  // ----- exactly what is accepted

  function Value(c: char): (d: nat)
    ensures d < 10
  {
    if Digit(c) then DigitValue(c) else 0
  }

  /** The number that the digits from `a` up to `b` spell. */
  function Number(src: string, a: nat, b: nat): (n: nat)
    requires b <= |src|
  {
    if b <= a then 0 else 10 * Number(src, a, b - 1) + Value(src[b - 1])
  }

  predicate AreSpace(src: string, a: nat)
    requires a <= |src|
  {
    forall k :: 0 <= k < a ==> Space(src[k])
  }

  predicate AreDigits(src: string, a: nat, b: nat)
    requires b <= |src|
  {
    forall k :: a <= k < b ==> Digit(src[k])
  }

  /** White space up to `a`, digits up to `b`, a colon, as much data as the digits spell, and a comma. */
  ghost predicate Spells(src: string, a: nat, b: nat, off: nat, len: nat) {
    && a <= b < |src| && b > 0 && AreSpace(src, a) && AreDigits(src, a, b) && src[b] == ':'
    && off == b + 1 && len == Number(src, a, b)
    && off + len < |src| && src[off + len] == ','
  }

  /** Lengths from here on have wrapped around, or are larger than any source that is read. */
  const HUGE := U64 / 10

  /** A wrap that is not reported leaves a length no smaller than the one before, so it is huge from then on. */
  lemma NextLength(len: nat, d: nat)
    requires len < U64 && d < 10
    ensures var next := (len * 10 + d) % U64;
            len >= HUGE || next == 10 * len + d
  {
    if len < HUGE {
      assert 10 * len + d < U64;
      DivModUnique(10 * len + d, U64, 0, 10 * len + d);
    }
  }

  lemma {:induction false} AcceptedLength(src: string, a: nat, i: nat, len: nat) returns (b: nat)
    requires a <= i <= |src| < U64 && len < U64 && AreSpace(src, a) && AreDigits(src, a, i)
    requires len == Number(src, a, i) || len >= HUGE
    requires var r := ParseLength(src, i, len); r.Ok? && r.len < HUGE && Inside(src, r)
    ensures var r := ParseLength(src, i, len); Spells(src, a, b, r.off, r.len)
    decreases |src| - i
  {
    if Digit(src[i]) {
      NextLength(len, DigitValue(src[i]));
      b := AcceptedLength(src, a, i + 1, (len * 10 + DigitValue(src[i])) % U64);
    } else {
      b := i;
    }
  }

  lemma {:induction false} AcceptedSpace(src: string, i: nat) returns (a: nat, b: nat)
    requires i <= |src| < U64 && AreSpace(src, i)
    requires var r := ParseSpace(src, i); r.Ok? && r.len < HUGE && Inside(src, r)
    ensures var r := ParseSpace(src, i); Spells(src, a, b, r.off, r.len)
    decreases |src| - i
  {
    if Space(src[i]) {
      a, b := AcceptedSpace(src, i + 1);
    } else {
      a := i;
      b := AcceptedLength(src, i, i, 0);
    }
  }

  lemma {:induction false} SkipsSpace(src: string, i: nat, a: nat)
    requires i <= a < |src| < U64 && AreSpace(src, a) && !Space(src[a])
    ensures ParseSpace(src, i) == ParseLength(src, a, 0)
    decreases a - i
  {
    if i < a {
      SkipsSpace(src, i + 1, a);
    }
  }

  lemma {:induction false} ReadsNumber(src: string, a: nat, b: nat)
    requires a <= b <= |src| < U64 && AreDigits(src, a, b) && Number(src, a, b) < U64
    ensures ParseLength(src, a, 0) == ParseLength(src, b, Number(src, a, b))
    decreases b
  {
    if a < b {
      ReadsNumber(src, a, b - 1);
      var n, d := Number(src, a, b - 1), DigitValue(src[b - 1]);
      DivModUnique(n * 10 + d, U64, 0, n * 10 + d);
    }
  }

  lemma AcceptsAll(src: string, a: nat, b: nat, off: nat, len: nat)
    requires |src| < U64 && Spells(src, a, b, off, len)
    ensures ParseSpace(src, 0) == Ok(off, len)
  {
    assert !Space(src[a]);
    SkipsSpace(src, 0, a);
    ReadsNumber(src, a, b);
  }

  /** Only that is accepted, however long the digits are; and all of it. */
  lemma AcceptsExactly(src: string, off: nat, len: nat)
    requires |src| <= HUGE
    ensures ParseSpace(src, 0) == Ok(off, len) <==> exists a: nat, b: nat :: Spells(src, a, b, off, len)
  {
    if ParseSpace(src, 0) == Ok(off, len) {
      SpaceInside(src, 0);
      var a, b := AcceptedSpace(src, 0);
    } else if a: nat, b: nat :| Spells(src, a, b, off, len) {
      AcceptsAll(src, a, b, off, len);
    }
  }

  function PowerOfTen(k: nat): (n: nat) {
    if k == 0 then 1 else 10 * PowerOfTen(k - 1)
  }

  lemma SixMore(k: nat)
    ensures PowerOfTen(k + 6) == 1000000 * PowerOfTen(k)
  {
    assert PowerOfTen(k + 3) == 10 * PowerOfTen(k + 2) && PowerOfTen(k + 2) == 10 * PowerOfTen(k + 1);
    assert PowerOfTen(k + 6) == 10 * PowerOfTen(k + 5) && PowerOfTen(k + 5) == 10 * PowerOfTen(k + 4);
  }

  lemma {:induction false} ThreeAndZeros(src: string, k: nat)
    requires 0 < k <= |src| && src[0] == '3' && forall i :: 1 <= i < k ==> src[i] == '0'
    ensures Number(src, 0, k) == 3 * PowerOfTen(k - 1)
  {
    if k > 1 {
      ThreeAndZeros(src, k - 1);
    }
  }

  /** Not every length that does not fit 64 bits is reported as too large: 3 and 19 zeros are not. */
  lemma TooLargeIsMissed(src: string)
    requires |src| == 21 && src[0] == '3' && (forall i :: 1 <= i < 20 ==> src[i] == '0') && src[20] == ':'
    ensures Number(src, 0, 20) > U64 && ParseSpace(src, 0) == ErrIncomplete
  {
    ThreeAndZeros(src, 19);
    SixMore(12);
    SixMore(6);
    SixMore(0);
    SkipsSpace(src, 0, 0);
    ReadsNumber(src, 0, 19);
    assert 30000000000000000000 % U64 == 30000000000000000000 - U64;
  }

  // ----- the encoder

  function Decimal(n: nat): (s: string)
    ensures |s| > 0 && forall i :: 0 <= i < |s| ==> Digit(s[i])
  {
    if n < 10 then [DigitChar(n)] else Decimal(n / 10) + [DigitChar(n % 10)]
  }

  function Encoded(data: string): (s: string) {
    Decimal(|data|) + [':'] + data + [',']
  }

  /** Netstrings as lib/util/netstring_test.c and the format's own description write them. */
  lemma Samples()
    ensures Encoded("") == "0:," && Encoded("sven") == "4:sven," && Encoded("hello world!") == "12:hello world!,"
  {
    assert Decimal(12) == Decimal(1) + "2" == "12";
  }

  /** netstring_append_buf. */
  method Append(buf: string, data: string) returns (out: string)
    ensures out == buf + Encoded(data)
  {
    var rest: nat, digits := |data| / 10, [DigitChar(|data| % 10)];
    while rest != 0
      invariant Decimal(|data|) == if rest == 0 then digits else Decimal(rest) + digits
    {
      digits := [DigitChar(rest % 10)] + digits;
      rest := rest / 10;
    }
    out := buf + (digits + [':']) + data + [','];
  }

  // ----- the round trip

  /** The bytes of `part` lie in `src` from `i` on. */
  predicate At(src: string, i: nat, part: string) {
    i + |part| <= |src| && src[i..i + |part|] == part
  }

  lemma ReadsDigit(src: string, j: nat, len: nat, d: nat)
    requires j < |src| < U64 && d < 10 && src[j] == DigitChar(d) && len * 10 + d < U64
    ensures ParseLength(src, j, len) == ParseLength(src, j + 1, len * 10 + d)
  {
  }

  lemma DecimalSplits(n: nat)
    requires n >= 10
    ensures var s := Decimal(n); |s| > 1 && s[..|s| - 1] == Decimal(n / 10) && s[|s| - 1] == DigitChar(n % 10)
  {
  }

  /** Reading a length digit by digit: no wrap, and no false overflow. */
  lemma {:induction false} ReadsDecimal(src: string, i: nat, n: nat)
    requires |src| < U64 && n < U64 && At(src, i, Decimal(n))
    ensures ParseLength(src, i, 0) == ParseLength(src, i + |Decimal(n)|, n)
    decreases n
  {
    var s := Decimal(n);
    var last := i + |s| - 1;
    assert src[last] == src[i..i + |s|][|s| - 1] == s[|s| - 1];
    if n < 10 {
      ReadsDigit(src, i, 0, n);
    } else {
      DecimalSplits(n);
      assert src[i..last] == src[i..i + |s|][..|s| - 1];
      ReadsDecimal(src, i, n / 10);
      ReadsDigit(src, last, n / 10, n % 10);
    }
  }

  /** From the first digit of an encoded length on. */
  lemma ReadsLength(src: string, n: nat)
    requires |src| < U64 && n < U64 && At(src, 0, Decimal(n))
    ensures ParseSpace(src, 0) == ParseLength(src, |Decimal(n)|, n)
  {
    DecimalStart(n);
    assert src[0] == src[0..|Decimal(n)|][0];
    ReadsDecimal(src, 0, n);
  }

  /** The colon after it, and the data. */
  lemma ReadsData(src: string, i: nat, len: nat)
    requires 0 < i < |src| < U64 && len < U64 && src[i] == ':'
    ensures i + 1 + len < |src| ==>
              ParseLength(src, i, len) == if src[i + 1 + len] == ',' then Ok(i + 1, len) else ErrFmt
    ensures |src| <= i + 1 + len < U64 ==> ParseLength(src, i, len) == ErrIncomplete
  {
  }

  lemma DecimalStart(n: nat)
    ensures Digit(Decimal(n)[0]) && !Space(Decimal(n)[0])
  {
  }

  lemma PartsAt(d: string, colon: string, data: string, comma: string, rest: string)
    requires |colon| == |comma| == 1
    ensures var src := d + colon + data + comma + rest;
            && src[0..|d|] == d && src[|d|] == colon[0] && src[|d| + 1..|d| + 1 + |data|] == data
            && src[|d| + 1 + |data|] == comma[0] && src[|d| + 1 + |data| + 1..] == rest
  {
  }

  /** Each netstring is read back from its encoding, whatever follows. */
  lemma ParsesEncoded(data: string, rest: string)
    requires |Encoded(data) + rest| < U64
    ensures var src := Encoded(data) + rest;
            var r := ParseSpace(src, 0);
            && r == Ok(|Decimal(|data|)| + 1, |data|)
            && src[r.off..r.off + r.len] == data
            && src[r.off + r.len + 1..] == rest
  {
    var src, d := Encoded(data) + rest, Decimal(|data|);
    PartsAt(d, [':'], data, [','], rest);
    ReadsLength(src, |data|);
    ReadsData(src, |d|, |data|);
  }

  /** Every strict prefix of an encoding is incomplete. */
  lemma PrefixIsIncomplete(data: string, n: nat)
    requires n < |Encoded(data)| < U64
    ensures ParseSpace(Encoded(data)[..n], 0) == ErrIncomplete
  {
    var src, d := Encoded(data)[..n], Decimal(|data|);
    if n > |d| {
      assert src[0..|d|] == d && src[|d|] == ':';
      ReadsLength(src, |data|);
      ReadsData(src, |d|, |data|);
    } else if n > 0 {
      DecimalStart(|data|);
      assert src == d[..n] && src[0] == d[0];
      PrefixOfDecimal(|data|, n);
    }
  }

  lemma {:induction false} PrefixOfDecimal(n: nat, k: nat)
    requires n < U64 && 0 < k <= |Decimal(n)| < U64
    ensures ParseLength(Decimal(n)[..k], 0, 0) == ErrIncomplete
  {
    var s := Decimal(n);
    if k < |s| {
      assert s[..k] == Decimal(n / 10)[..k];
      PrefixOfDecimal(n / 10, k);
    } else {
      assert s[..k] == s && s[0..0 + |s|] == s;
      ReadsDecimal(s, 0, n);
    }
  }

  // ----- reading one string or pair after another

  /** netstring_next: the next string and what follows it. */
  function Next(data: string): (r: Option<(string, string)>)
    requires |data| < U64
    ensures r.Some? ==> |r.value.0| + |r.value.1| < |data|
  {
    SpaceInside(data, 0);
    match ParseSpace(data, 0)
    case Ok(off, len) => Some((data[off..off + len], data[off + len + 1..]))
    case _ => None
  }

  lemma NextOfEncoded(data: string, rest: string)
    requires |Encoded(data) + rest| < U64
    ensures Next(Encoded(data) + rest) == Some((data, rest))
  {
    ParsesEncoded(data, rest);
  }

  datatype Pair = Pair(key: string, value: string, rest: string)

  /** netstring_next_pair: two strings, or nothing. */
  function NextPair(data: string): (r: Option<Pair>)
    requires |data| < U64
    ensures r.Some? ==> |r.value.value| + |r.value.rest| < |data|
  {
    match Next(data)
    case None => None
    case Some((key, more)) =>
      match Next(more)
      case None => None
      case Some((value, rest)) => Some(Pair(key, value, rest))
  }

  function EncodedPair(key: string, value: string): (s: string) {
    Encoded(key) + Encoded(value)
  }

  lemma NextPairOfEncoded(key: string, value: string, rest: string)
    requires |EncodedPair(key, value) + rest| < U64
    ensures NextPair(EncodedPair(key, value) + rest) == Some(Pair(key, value, rest))
  {
    assert EncodedPair(key, value) + rest == Encoded(key) + (Encoded(value) + rest);
    NextOfEncoded(key, Encoded(value) + rest);
    NextOfEncoded(value, rest);
  }

  /** netstring_append_pair. */
  method AppendPair(buf: string, key: string, value: string) returns (out: string)
    ensures out == buf + EncodedPair(key, value)
  {
    out := Append(buf, key);
    out := Append(out, value);
  }

  /** All strings of `data`, which must consist of nothing else. */
  function Items(data: string): (r: Option<seq<string>>)
    requires |data| < U64
    decreases |data|
  {
    if data == [] then Some([])
    else
      match Next(data)
      case None => None
      case Some((item, rest)) =>
        match Items(rest)
        case None => None
        case Some(items) => Some([item] + items)
  }

  function EncodedAll(items: seq<string>): (s: string) {
    if items == [] then [] else Encoded(items[0]) + EncodedAll(items[1..])
  }

  lemma {:induction false} ItemsOfEncoded(items: seq<string>)
    requires |EncodedAll(items)| < U64
    ensures Items(EncodedAll(items)) == Some(items)
  {
    if items != [] {
      NextOfEncoded(items[0], EncodedAll(items[1..]));
      ItemsOfEncoded(items[1..]);
      assert items == [items[0]] + items[1..];
    }
  }

  lemma {:induction false} EncodedAllAppends(items: seq<string>, item: string)
    ensures EncodedAll(items + [item]) == EncodedAll(items) + Encoded(item)
  {
    var all := items + [item];
    if items == [] {
      assert all[0] == item && all[1..] == [];
    } else {
      EncodedAllAppends(items[1..], item);
      assert all[0] == items[0] && all[1..] == items[1..] + [item];
      Regroup(Encoded(items[0]), EncodedAll(items[1..]), Encoded(item));
    }
  }
}
