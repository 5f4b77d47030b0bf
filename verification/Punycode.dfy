/**
 The bootstring encoder of lib/net/punycode.c, over a label's code points, proved
 against the decoding procedure of section 6.2 of RFC 3492.
 */
module Punycode {
  import opened Arithmetic
  import opened Sequences
  import opened Wrappers

  const BASE := 36
  const TMIN := 1
  const TMAX := 26
  const SKEW := 38
  const DAMP := 700
  const INITIAL_BIAS := 72
  const INITIAL_N := 128
  const DELIMITER := '-' as int
  const ACE_PREFIX := ['x' as int, 'n' as int, '-' as int, '-' as int]

  const INT32_LIMIT := 0x8000_0000
  const CODE_POINT_LIMIT := 0x20_0000

  /** The value a 32-bit signed register holds after computing `x`. */
  function Wrap32(x: int): (r: int)
    ensures -INT32_LIMIT <= r < INT32_LIMIT
    ensures -INT32_LIMIT <= x < INT32_LIMIT ==> r == x
    ensures INT32_LIMIT <= x < 2 * INT32_LIMIT ==> r == x - 2 * INT32_LIMIT
  {
    var m := x % (2 * INT32_LIMIT);
    if m < INT32_LIMIT then m else m - 2 * INT32_LIMIT
  }

  lemma WrapOfSum(d: int, x: int)
    ensures Wrap32(d + Wrap32(x)) == Wrap32(d + x)
  {
    var m := 2 * INT32_LIMIT;
    var q := if x % m < INT32_LIMIT then x / m else x / m + 1;
    assert x == Wrap32(x) + q * m;
    var y := d + Wrap32(x);
    DivModBounds(y, m);
    DivModUnique(d + x, m, y / m + q, y % m);
  }

  // ----- digits, thresholds and bias adaptation (sections 5 and 6.1 of RFC 3492)

  function EncDigit(digit: int): (c: int)
    requires 0 <= digit < BASE
    ensures DigitValue(c) == Some(digit)
    ensures c != DELIMITER && ('a' as int <= c <= 'z' as int || '0' as int <= c <= '9' as int)
  {
    if digit < 26 then digit + 'a' as int else digit + ('0' as int - 26)
  }

  function DigitValue(c: int): (d: Option<int>)
    ensures d.Some? ==> 0 <= d.value < BASE
  {
    if 'a' as int <= c <= 'z' as int then Some(c - 'a' as int)
    else if 'A' as int <= c <= 'Z' as int then Some(c - 'A' as int)
    else if '0' as int <= c <= '9' as int then Some(c - '0' as int + 26)
    else None
  }

  function Threshold(k: int, bias: int): (t: int)
    ensures TMIN <= t <= TMAX
  {
    if k <= bias then TMIN else if k >= bias + TMAX then TMAX else k - bias
  }

  function AdaptLoop(delta: nat, k: nat): (bias: nat)
    decreases delta
  {
    if delta > ((BASE - TMIN) * TMAX) / 2
    then AdaptLoop(delta / (BASE - TMIN), k + BASE)
    else k + ((BASE - TMIN + 1) * delta) / (delta + SKEW)
  }

  function Adapt(delta: nat, numPoints: nat, firstTime: bool): (bias: nat)
    requires numPoints > 0
  {
    var d := if firstTime then delta / DAMP else delta / 2;
    AdaptLoop(d + NatDiv(d, numPoints), 0)
  }

  method ComputeBias(delta: nat, numPoints: nat, firstTime: bool) returns (bias: nat)
    requires numPoints > 0
    ensures bias == Adapt(delta, numPoints, firstTime)
  {
    var k: nat := 0;
    var d: nat := delta / (if firstTime then DAMP else 2);
    d := d + NatDiv(d, numPoints);
    while d > ((BASE - TMIN) * TMAX) / 2
      invariant Adapt(delta, numPoints, firstTime) == AdaptLoop(d, k)
    {
      d := d / (BASE - TMIN);
      k := k + BASE;
    }
    bias := k + ((BASE - TMIN + 1) * d) / (d + SKEW);
  }

  // ----- the decoder of section 6.2 of RFC 3492

  /** One generalized variable-length integer: the new value of `i` and the rest of the input. */
  function DecodeVar(input: seq<int>, k: nat, bias: int, w: int, i: int): (r: Option<(int, seq<int>)>)
    ensures r.Some? ==> |r.value.1| < |input|
    decreases |input|
  {
    if input == [] then None
    else match DigitValue(input[0])
      case None => None
      case Some(digit) =>
        var t := Threshold(k, bias);
        if digit < t then Some((i + digit * w, input[1..]))
        else DecodeVar(input[1..], k + BASE, bias, w * (BASE - t), i + digit * w)
  }

  datatype State = State(output: seq<int>, n: nat, i: nat, bias: int)

  /** The state after code point `n` went in at `pos`, `delta` being the integer read. */
  function Inserted(st: State, n: nat, pos: nat, delta: nat): (r: State)
    requires pos <= |st.output|
  {
    State(st.output[..pos] + [n] + st.output[pos..], n, pos + 1,
          Adapt(delta, |st.output| + 1, st.i == 0))
  }

  /** Inserting the code point that the counter value `i` stands for. */
  function Insert(st: State, i: nat): (r: Option<State>)
    requires st.i <= i
  {
    var len := |st.output| + 1;
    var n := st.n + i / len;
    if n < INITIAL_N then None else Some(Inserted(st, n, i % len, i - st.i))
  }

  lemma DecodeVarGrows(input: seq<int>, k: nat, bias: int, w: int, i: int)
    requires w >= 0
    ensures var r := DecodeVar(input, k, bias, w, i); r.Some? ==> i <= r.value.0
    decreases |input|
  {
    if input != [] && DigitValue(input[0]).Some? {
      var digit, t := DigitValue(input[0]).value, Threshold(k, bias);
      MulMonotone(0, 0, digit, w);
      if digit >= t {
        MulMonotone(0, 0, w, BASE - t);
        DecodeVarGrows(input[1..], k + BASE, bias, w * (BASE - t), i + digit * w);
      }
    }
  }

  function DecodeLoop(st: State, input: seq<int>): (r: Option<State>)
    decreases |input|
  {
    if input == [] then Some(st)
    else
      var v := DecodeVar(input, BASE, st.bias, 1, st.i);
      if v.None? then None
      else
        DecodeVarGrows(input, BASE, st.bias, 1, st.i);
        var st' := Insert(st, v.value.0);
        if st'.None? then None else DecodeLoop(st'.value, v.value.1)
  }

  /** Index of the last delimiter, or -1. */
  function LastDelimiter(input: seq<int>): (p: int)
    ensures -1 <= p < |input|
    ensures 0 <= p ==> input[p] == DELIMITER
    ensures forall j :: p < j < |input| ==> input[j] != DELIMITER
  {
    if input == [] then -1
    else if input[|input| - 1] == DELIMITER then |input| - 1
    else LastDelimiter(input[..|input| - 1])
  }

  lemma LastDelimiterIs(before: seq<int>, after: seq<int>)
    requires DELIMITER !in after
    ensures LastDelimiter(before + [DELIMITER] + after) == |before|
  {
    var input := before + [DELIMITER] + after;
    var p := LastDelimiter(input);
    assert input[|before|] == DELIMITER;
    assert forall j :: |before| < j < |input| ==> input[j] in after;
  }

  predicate AllBasic(s: seq<int>) {
    forall j :: 0 <= j < |s| ==> 0 <= s[j] < INITIAL_N
  }

  function Decode(input: seq<int>): (r: Option<seq<int>>)
  {
    var p := LastDelimiter(input);
    var basic := if p > 0 then input[..p] else [];
    var rest := if p > 0 then input[p + 1..] else input;
    if !AllBasic(basic) then None
    else
      var st := DecodeLoop(State(basic, INITIAL_N, 0, INITIAL_BIAS), rest);
      if st.None? then None else Some(st.value.output)
  }

  // ----- the variable-length integer code and its inverse

  lemma DigitSplit(q: nat, t: int)
    requires TMIN <= t <= TMAX && t <= q
    ensures 0 <= (q - t) % (BASE - t) < BASE - t
    ensures 0 <= (q - t) / (BASE - t) < q
    ensures q == t + (q - t) % (BASE - t) + ((q - t) / (BASE - t)) * (BASE - t)
  {
    DivModBounds(q - t, BASE - t);
    var d := (q - t) / (BASE - t);
    if d < 0 {
      MulLower(-d, BASE - t);
    } else {
      MulLower(BASE - t, d);
    }
  }

  function EncodeVar(q: nat, k: nat, bias: int): (digits: seq<int>)
    ensures DELIMITER !in digits
    decreases q
  {
    var t := Threshold(k, bias);
    if q < t then [EncDigit(q)]
    else
      DigitSplit(q, t);
      [EncDigit(t + (q - t) % (BASE - t))] + EncodeVar((q - t) / (BASE - t), k + BASE, bias)
  }

  lemma PlaceValue(digit: int, q: int, r: int, w: int)
    ensures digit * w + q * (w * r) == (digit + q * r) * w
  {
  }

  /** Reading one digit: the integer ends there, or the rest counts with a larger weight. */
  lemma DecodeVarDigit(digit: int, rest: seq<int>, k: nat, bias: int, w: int, i: int)
    requires 0 <= digit < BASE
    ensures var t := Threshold(k, bias);
            DecodeVar([EncDigit(digit)] + rest, k, bias, w, i) ==
            if digit < t then Some((i + digit * w, rest))
            else DecodeVar(rest, k + BASE, bias, w * (BASE - t), i + digit * w)
  {
    assert ([EncDigit(digit)] + rest)[1..] == rest;
  }

  /** Prefixing a digit to a decodable integer adds it and scales the rest. */
  lemma VarStep(q: nat, digit: int, q': nat, code: seq<int>, k: nat, bias: int, w: int, i: int, rest: seq<int>)
    requires Threshold(k, bias) <= digit < BASE
    requires q == digit + q' * (BASE - Threshold(k, bias))
    requires var (w', i') := (w * (BASE - Threshold(k, bias)), i + digit * w);
             DecodeVar(code + rest, k + BASE, bias, w', i') == Some((i' + q' * w', rest))
    ensures DecodeVar([EncDigit(digit)] + code + rest, k, bias, w, i) == Some((i + q * w, rest))
  {
    assert [EncDigit(digit)] + code + rest == [EncDigit(digit)] + (code + rest);
    DecodeVarDigit(digit, code + rest, k, bias, w, i);
    PlaceValue(digit, q', BASE - Threshold(k, bias), w);
  }

  lemma {:induction false} VarRoundTrip(q: nat, k: nat, bias: int, w: int, i: int, rest: seq<int>)
    ensures DecodeVar(EncodeVar(q, k, bias) + rest, k, bias, w, i) == Some((i + q * w, rest))
    decreases q
  {
    var t := Threshold(k, bias);
    if q < t {
      DecodeVarDigit(q, rest, k, bias, w, i);
    } else {
      DigitSplit(q, t);
      var digit, q' := t + (q - t) % (BASE - t), (q - t) / (BASE - t);
      VarRoundTrip(q', k + BASE, bias, w * (BASE - t), i + digit * w, rest);
      VarStep(q, digit, q', EncodeVar(q', k + BASE, bias), k, bias, w, i, rest);
    }
  }

  lemma {:induction false} DecodeVarAppend(a: seq<int>, b: seq<int>, k: nat, bias: int, w: int, i: int)
    requires DecodeVar(a, k, bias, w, i).Some?
    ensures var r := DecodeVar(a, k, bias, w, i).value;
            DecodeVar(a + b, k, bias, w, i) == Some((r.0, r.1 + b))
    decreases |a|
  {
    var digit, t := DigitValue(a[0]).value, Threshold(k, bias);
    var w', i' := w * (BASE - t), i + digit * w;
    assert (a + b)[0] == a[0] && (a + b)[1..] == a[1..] + b;
    if digit >= t {
      DecodeVarAppend(a[1..], b, k + BASE, bias, w', i');
    }
  }

  lemma {:induction false} DecodeLoopAppend(st: State, a: seq<int>, b: seq<int>)
    requires DecodeLoop(st, a).Some?
    ensures DecodeLoop(st, a + b) == DecodeLoop(DecodeLoop(st, a).value, b)
    decreases |a|
  {
    if a == [] {
      assert a + b == b;
    } else {
      var v := DecodeVar(a, BASE, st.bias, 1, st.i);
      DecodeVarAppend(a, b, BASE, st.bias, 1, st.i);
      DecodeVarGrows(a, BASE, st.bias, 1, st.i);
      DecodeLoopAppend(Insert(st, v.value.0).value, v.value.1, b);
    }
  }

  /** What the decoder does when one integer is read and `tail` is left. */
  function DecodeRest(o: Option<State>, tail: seq<int>): (r: Option<State>) {
    if o.None? then None else DecodeLoop(o.value, tail)
  }

  lemma DecodeNext(st: State, input: seq<int>, tail: seq<int>, i: nat)
    requires st.i <= i && input != [] && DecodeVar(input, BASE, st.bias, 1, st.i) == Some((i, tail))
    ensures DecodeLoop(st, input) == DecodeRest(Insert(st, i), tail)
  {
  }

  lemma VarReads(q: nat, bias: int, i: int, rest: seq<int>)
    ensures EncodeVar(q, BASE, bias) != []
    ensures DecodeVar(EncodeVar(q, BASE, bias) + rest, BASE, bias, 1, i) == Some((i + q, rest))
  {
    VarRoundTrip(q, BASE, bias, 1, i, rest);
  }

  /** Decoding an encoded delta is one insertion. */
  lemma DecodeDelta(st: State, delta: nat, tail: seq<int>)
    ensures DecodeLoop(st, EncodeVar(delta, BASE, st.bias) + tail) == DecodeRest(Insert(st, st.i + delta), tail)
  {
    VarReads(delta, st.bias, st.i, tail);
    DecodeNext(st, EncodeVar(delta, BASE, st.bias) + tail, tail, st.i + delta);
  }

  lemma RestOfNothing(o: Option<State>)
    ensures DecodeRest(o, []) == o
  {
  }

  /** Decoding one more encoded delta is one more insertion. */
  lemma DecodeOneMore(st0: State, ext: seq<int>, delta: nat)
    requires DecodeLoop(st0, ext).Some?
    ensures var st := DecodeLoop(st0, ext).value;
            DecodeLoop(st0, ext + EncodeVar(delta, BASE, st.bias)) == Insert(st, st.i + delta)
  {
    var st := DecodeLoop(st0, ext).value;
    DecodeLoopAppend(st0, ext, EncodeVar(delta, BASE, st.bias));
    DecodeLastDelta(st, delta);
  }

  lemma DecodeLastDelta(st: State, delta: nat)
    ensures DecodeLoop(st, EncodeVar(delta, BASE, st.bias)) == Insert(st, st.i + delta)
  {
    var code := EncodeVar(delta, BASE, st.bias);
    DecodeDelta(st, delta, []);
    NothingAppended(code);
    RestOfNothing(Insert(st, st.i + delta));
  }

  lemma NothingAppended(a: seq<int>)
    ensures a + [] == a
  {
  }

  // ----- what has been handled when the encoder stands at (m, pos)

  function Lt(s: seq<int>, m: int): (r: seq<int>)
    ensures |r| <= |s|
  {
    if s == [] then [] else (if s[0] < m then [s[0]] else []) + Lt(s[1..], m)
  }

  /** The subsequence of `s` the decoder has rebuilt: everything below `m`, and `m` itself before `pos`. */
  function Handled(s: seq<int>, m: int, pos: nat): (r: seq<int>)
    requires pos <= |s|
  {
    Lt(s[..pos], m + 1) + Lt(s[pos..], m)
  }

  /** Where in the rebuilt sequence position `pos` falls. */
  function Rank(s: seq<int>, m: int, pos: nat): (c: nat)
    requires pos <= |s|
  {
    |Lt(s[..pos], m + 1)|
  }

  lemma {:induction false} LtSplit(a: seq<int>, b: seq<int>, m: int)
    ensures Lt(a + b, m) == Lt(a, m) + Lt(b, m)
  {
    if a == [] {
      assert a + b == b;
    } else {
      assert (a + b)[1..] == a[1..] + b;
      LtSplit(a[1..], b, m);
    }
  }

  /** Moving past one position: nothing changes, or exactly `m` is inserted at its rank. */
  lemma HandledStep(s: seq<int>, m: int, pos: nat)
    requires pos < |s|
    ensures s[pos] < m ==> Handled(s, m, pos + 1) == Handled(s, m, pos)
    ensures s[pos] > m ==> Handled(s, m, pos + 1) == Handled(s, m, pos)
    ensures s[pos] == m ==>
              var h, c := Handled(s, m, pos), Rank(s, m, pos);
              Handled(s, m, pos + 1) == h[..c] + [m] + h[c..]
    ensures Rank(s, m, pos + 1) == Rank(s, m, pos) + (if s[pos] <= m then 1 else 0)
  {
    assert s[..pos + 1] == s[..pos] + [s[pos]];
    assert s[pos..] == [s[pos]] + s[pos + 1..];
    LtSplit(s[..pos], [s[pos]], m + 1);
    assert Lt([s[pos]], m + 1) == if s[pos] <= m then [s[pos]] else [];
    if s[pos] == m {
      var h, c := Handled(s, m, pos), Rank(s, m, pos);
      assert h[..c] == Lt(s[..pos], m + 1);
      assert h[c..] == Lt(s[pos..], m) == Lt(s[pos + 1..], m);
    }
  }

  lemma RankBounded(s: seq<int>, m: int, pos: nat)
    requires pos <= |s|
    ensures Rank(s, m, pos) <= |Handled(s, m, pos)| <= |s|
    ensures Rank(s, m, pos) <= pos
    ensures Rank(s, m, 0) == 0
  {
  }

  /** Values that do not occur in `s` do not matter. */
  lemma {:induction false} LtSkips(s: seq<int>, a: int, b: int)
    requires a <= b
    requires forall j :: 0 <= j < |s| ==> !(a <= s[j] < b)
    ensures Lt(s, a) == Lt(s, b)
  {
    if s != [] {
      LtSkips(s[1..], a, b);
    }
  }

  lemma {:induction false} LtAll(s: seq<int>, m: int)
    ensures |Lt(s, m)| == |s| ==> Lt(s, m) == s && forall j :: 0 <= j < |s| ==> s[j] < m
    ensures (forall j :: 0 <= j < |s| ==> s[j] < m) ==> Lt(s, m) == s
  {
    if s != [] {
      LtAll(s[1..], m);
      assert s == [s[0]] + s[1..];
    }
  }

  /** Passing all of `s` completes the pass for `m`. */
  lemma HandledEnds(s: seq<int>, m: int)
    ensures Handled(s, m, |s|) == Lt(s, m + 1)
    ensures Rank(s, m, |s|) == |Lt(s, m + 1)|
    ensures Handled(s, m, 0) == Lt(s, m)
  {
    assert s[..|s|] == s && s[|s|..] == [] && s[..0] == [] && s[0..] == s;
  }

  // ----- exact deltas, stated by the order of insertion and not by the encoder's loops

  predicate Extended(s: seq<int>, j: int) {
    0 <= j < |s| && s[j] >= INITIAL_N
  }

  /** Extended code points are inserted by value, then by position. */
  predicate InsertedBefore(s: seq<int>, p: int, j: int)
    requires 0 <= p < |s| && 0 <= j < |s|
  {
    s[p] < s[j] || (s[p] == s[j] && p < j)
  }

  ghost predicate IsFirst(s: seq<int>, j: int) {
    Extended(s, j) && forall q :: Extended(s, q) ==> !InsertedBefore(s, q, j)
  }

  ghost predicate Consecutive(s: seq<int>, p: int, j: int) {
    && Extended(s, p) && Extended(s, j) && InsertedBefore(s, p, j)
    && forall q :: Extended(s, q) ==> !(InsertedBefore(s, p, q) && InsertedBefore(s, q, j))
  }

  function FirstDelta(s: seq<int>, j: int): (d: int)
    requires Extended(s, j)
  {
    (s[j] - INITIAL_N) * (|Handled(s, s[j], j)| + 1) + Rank(s, s[j], j)
  }

  function NextDelta(s: seq<int>, p: int, j: int): (d: int)
    requires Extended(s, p) && Extended(s, j)
  {
    (s[j] - s[p]) * (|Handled(s, s[j], j)| + 1) + Rank(s, s[j], j) - Rank(s, s[p], p) - 1
  }

  ghost predicate DeltaFits(s: seq<int>, j: int) {
    && (IsFirst(s, j) ==> FirstDelta(s, j) < INT32_LIMIT)
    && (forall p :: Consecutive(s, p, j) ==> NextDelta(s, p, j) < INT32_LIMIT)
  }

  /** No delta of the encoding exceeds a 32-bit signed integer. */
  ghost predicate Fits(s: seq<int>) {
    forall j :: Extended(s, j) ==> DeltaFits(s, j)
  }

  predicate CodePoints(s: seq<int>) {
    forall j :: 0 <= j < |s| ==> 0 <= s[j] < CODE_POINT_LIMIT
  }

  // ----- the encoder and the decoder in step

  predicate IsHandled(s: seq<int>, m: int, pos: nat, q: int) {
    Extended(s, q) && (s[q] < m || (s[q] == m && q < pos))
  }

  /** `st` is the decoder's state when the encoder stands at (m, pos); `last` is the latest insertion, or -1. */
  ghost predicate Tracks(s: seq<int>, m: int, pos: nat, st: State, last: int) {
    && INITIAL_N <= m && pos <= |s|
    && st.output == Handled(s, m, pos)
    && (last == -1 ==> st.n == INITIAL_N && st.i == 0 && forall q :: !IsHandled(s, m, pos, q))
    && (last != -1 ==>
          && IsHandled(s, m, pos, last)
          && st.n == s[last] && st.i == Rank(s, s[last], last) + 1
          && forall q :: IsHandled(s, m, pos, q) ==> !InsertedBefore(s, last, q))
    && (forall q :: IsHandled(s, m, pos, q) ==> DeltaFits(s, q))
  }

  /** The exact distance from the decoder's state to (m, pos). */
  function Distance(s: seq<int>, m: int, pos: nat, st: State): (d: int)
    requires pos <= |s|
  {
    (m - st.n) * (|st.output| + 1) + Rank(s, m, pos) - st.i
  }

  lemma HandledSetStep(s: seq<int>, m: int, pos: nat, q: int)
    requires INITIAL_N <= m && pos < |s|
    ensures IsHandled(s, m, pos + 1, q) <==> IsHandled(s, m, pos, q) || (q == pos && s[pos] == m)
  {
  }

  /** Standing elsewhere with the same code points handled is the same to the decoder. */
  lemma SameHandled(s: seq<int>, m: int, pos: nat, m': int, pos': nat, st: State, last: int)
    requires Tracks(s, m, pos, st, last)
    requires INITIAL_N <= m' && pos' <= |s| && Handled(s, m', pos') == Handled(s, m, pos)
    requires forall q :: IsHandled(s, m', pos', q) <==> IsHandled(s, m, pos, q)
    ensures Tracks(s, m', pos', st, last)
  {
  }

  lemma StepOver(s: seq<int>, m: int, pos: nat, st: State, last: int)
    requires Tracks(s, m, pos, st, last) && pos < |s| && s[pos] != m
    ensures Tracks(s, m, pos + 1, st, last)
  {
    HandledStep(s, m, pos);
    SameHandled(s, m, pos, m, pos + 1, st, last);
  }

  lemma StepOverDistance(s: seq<int>, m: int, pos: nat, st: State)
    requires pos < |s| && s[pos] != m
    ensures Distance(s, m, pos + 1, st) == Distance(s, m, pos, st) + (if s[pos] < m then 1 else 0)
  {
    HandledStep(s, m, pos);
  }

  /** The counter value the distance leads to is this code point at its rank. */
  lemma InsertsAtRank(s: seq<int>, m: int, pos: nat, st: State, last: int)
    requires Tracks(s, m, pos, st, last) && pos < |s| && s[pos] == m
    requires Distance(s, m, pos, st) >= 0
    ensures Rank(s, m, pos) <= |st.output|
    ensures Insert(st, st.i + Distance(s, m, pos, st)) ==
            Some(Inserted(st, m, Rank(s, m, pos), Distance(s, m, pos, st)))
  {
    RankBounded(s, m, pos);
    DivModUnique(st.i + Distance(s, m, pos, st), |st.output| + 1, m - st.n, Rank(s, m, pos));
  }

  lemma StepInsert(s: seq<int>, m: int, pos: nat, st: State, last: int, delta: nat)
    requires Tracks(s, m, pos, st, last) && pos < |s| && s[pos] == m
    requires Rank(s, m, pos) <= |st.output| && DeltaFits(s, pos)
    ensures var st' := Inserted(st, m, Rank(s, m, pos), delta);
            Tracks(s, m, pos + 1, st', pos) && Distance(s, m, pos + 1, st') == 0
  {
    HandledStep(s, m, pos);
    forall q ensures IsHandled(s, m, pos + 1, q) <==> IsHandled(s, m, pos, q) || q == pos {
      HandledSetStep(s, m, pos, q);
    }
    assert (m - m) * (|st.output| + 2) == 0;
  }

  /** The distance at an insertion is the delta fixed by the order of insertions. */
  lemma DistanceIsDelta(s: seq<int>, m: int, pos: nat, st: State, last: int)
    requires Tracks(s, m, pos, st, last) && pos < |s| && s[pos] == m
    ensures if last == -1 then IsFirst(s, pos) && Distance(s, m, pos, st) == FirstDelta(s, pos)
            else Consecutive(s, last, pos) && Distance(s, m, pos, st) == NextDelta(s, last, pos)
  {
    forall q | Extended(s, q)
      ensures InsertedBefore(s, q, pos) <==> IsHandled(s, m, pos, q)
    {
    }
  }

  lemma DistanceFits(s: seq<int>, m: int, pos: nat, st: State, last: int)
    requires Tracks(s, m, pos, st, last) && pos < |s| && s[pos] == m
    requires Distance(s, m, pos, st) < INT32_LIMIT
    ensures DeltaFits(s, pos)
  {
    DistanceIsDelta(s, m, pos, st, last);
    forall p | Consecutive(s, p, pos) ensures p == last {
      assert InsertedBefore(s, p, pos);
      assert IsHandled(s, m, pos, p);
    }
  }

  lemma Jump(s: seq<int>, n: int, m: int, st: State, last: int)
    requires Tracks(s, n, 0, st, last) && n <= m
    requires forall j :: 0 <= j < |s| ==> !(n <= s[j] < m)
    ensures Tracks(s, m, 0, st, last)
  {
    HandledEnds(s, n);
    HandledEnds(s, m);
    LtSkips(s, n, m);
    SameHandled(s, n, 0, m, 0, st, last);
  }

  lemma JumpDistance(s: seq<int>, n: int, m: int, st: State)
    ensures Distance(s, m, 0, st) == Distance(s, n, 0, st) + (m - n) * (|st.output| + 1)
  {
    RankBounded(s, n, 0);
    RankBounded(s, m, 0);
    Distribute(m - n, n - st.n, |st.output| + 1);
  }

  lemma Distribute(a: int, b: int, c: int)
    ensures (a + b) * c == a * c + b * c
  {
  }

  lemma NoRounds(len: int)
    ensures 0 * len == 0
  {
  }

  lemma PassEnds(s: seq<int>, m: int, st: State, last: int)
    requires Tracks(s, m, |s|, st, last)
    ensures Tracks(s, m + 1, 0, st, last)
  {
    HandledEnds(s, m);
    HandledEnds(s, m + 1);
    SameHandled(s, m, |s|, m + 1, 0, st, last);
  }

  lemma PassEndsDistance(s: seq<int>, m: int, st: State)
    requires st.output == Handled(s, m, |s|)
    ensures Distance(s, m + 1, 0, st) == Distance(s, m, |s|, st) + 1
  {
    HandledEnds(s, m);
    RankBounded(s, m + 1, 0);
    Distribute(1, m - st.n, |st.output| + 1);
  }

  /** After the last occurrence of `m` the distance is a difference of ranks. */
  lemma TrailingIsNear(s: seq<int>, m: int, st: State, last: int, at: int)
    requires Tracks(s, m, |s|, st, last) && |s| < INT32_LIMIT - 1
    requires 0 <= at < |s| && s[at] == m
    ensures Distance(s, m, |s|, st) < INT32_LIMIT - 1
  {
    assert st.n == m by {
      assert IsHandled(s, m, |s|, at);
    }
    RankBounded(s, m, |s|);
    NoRounds(|st.output| + 1);
  }

  lemma {:induction false} FarIsUnfit(s: seq<int>, m: int, pos: nat, st: State, last: int, at: int)
    requires Tracks(s, m, pos, st, last) && |s| < INT32_LIMIT - 1
    requires 0 <= at < |s| && s[at] == m
    requires Distance(s, m, pos, st) >= INT32_LIMIT
    ensures !Fits(s)
    decreases |s| - pos
  {
    if pos == |s| {
      TrailingIsNear(s, m, st, last, at);
    } else if s[pos] == m {
      DistanceIsDelta(s, m, pos, st, last);
    } else {
      StepOver(s, m, pos, st, last);
      StepOverDistance(s, m, pos, st);
      FarIsUnfit(s, m, pos + 1, st, last, at);
    }
  }

  lemma AppendAssociates(a: seq<int>, b: seq<int>, c: seq<int>)
    ensures a + b + c == a + (b + c)
    ensures a <= a + b + c && (a + b + c)[|a|..] == b + c
  {
  }

  // ----- the decoder's output determines its insertions

  /** Before position `i` nothing exceeds `n`, and from there on everything is below it. */
  predicate Ordered(st: State) {
    && INITIAL_N <= st.n && st.i <= |st.output|
    && (forall j :: 0 <= j < st.i ==> st.output[j] <= st.n)
    && (forall j :: st.i <= j < |st.output| ==> st.output[j] < st.n)
  }

  /** What the next counter value inserts: a larger code point anywhere, or the same one further on. */
  ghost predicate Advances(st: State, n: nat, pos: nat) {
    pos <= |st.output| && st.n <= n && (n == st.n ==> st.i <= pos)
  }

  lemma InsertAdvances(st: State, i: nat) returns (n: nat, pos: nat)
    requires Ordered(st) && st.i <= i
    ensures Advances(st, n, pos) && Insert(st, i) == Some(Inserted(st, n, pos, i - st.i))
    ensures i == (n - st.n) * (|st.output| + 1) + pos
  {
    var len := |st.output| + 1;
    DivModBounds(i, len);
    DivOfNats(i, len);
    n, pos := st.n + i / len, i % len;
  }

  lemma InsertedOrdered(st: State, n: nat, pos: nat, delta: nat)
    requires Ordered(st) && Advances(st, n, pos)
    ensures Ordered(Inserted(st, n, pos, delta))
  {
  }

  predicate AllLess(r: seq<int>, b: int) {
    forall j :: 0 <= j < |r| ==> r[j] < b
  }

  lemma AllLessSplit(x: seq<int>, y: seq<int>, b: int)
    ensures AllLess(x + y, b) <==> AllLess(x, b) && AllLess(y, b)
  {
    if AllLess(x + y, b) {
      assert forall j :: 0 <= j < |x| ==> x[j] == (x + y)[j];
      assert forall j :: 0 <= j < |y| ==> y[j] == (x + y)[|x| + j];
    }
  }

  /** If what is below `a` is in fact below `b`, it is what is below `b`. */
  lemma {:induction false} LtSame(u: seq<int>, a: int, b: int)
    requires b <= a && AllLess(Lt(u, a), b)
    ensures Lt(u, a) == Lt(u, b)
  {
    if u != [] {
      AllLessSplit(if u[0] < a then [u[0]] else [], Lt(u[1..], a), b);
      LtSame(u[1..], a, b);
      if u[0] < a {
        assert [u[0]][0] < b;
      }
    }
  }

  lemma {:induction false} CutExists(t: seq<int>, m: int, i: nat) returns (c: nat)
    requires i <= |Lt(t, m)|
    ensures c <= |t| && |Lt(t[..c], m)| == i
    decreases |t|
  {
    c := |t|;
    assert t[..c] == t;
    if i < |Lt(t, m)| {
      var n := |t| - 1;
      assert t == t[..n] + [t[n]];
      LtSplit(t[..n], [t[n]], m);
      c := CutExists(t[..n], m, i);
      assert t[..n][..c] == t[..c];
    }
  }

  /** Splitting what is below `m` at a cut. */
  lemma LtCut(t: seq<int>, m: int, c: nat)
    requires c <= |t|
    ensures Lt(t, m) == Lt(t[..c], m) + Lt(t[c..], m)
  {
    assert t == t[..c] + t[c..];
    LtSplit(t[..c], t[c..], m);
  }

  /** The insertion undone: `n` was inserted where it stands in the final output `t`. */
  lemma {:induction false} Uninsert(t: seq<int>, n: int, c: nat, o: seq<int>, pos: nat) returns (q: nat)
    requires c <= |t| && pos <= |o| && Handled(t, n, c) == o[..pos] + [n] + o[pos..] && Rank(t, n, c) == pos + 1
    ensures q < |t| && t[q] == n && Handled(t, n, q) == o && Rank(t, n, q) == pos
    decreases c
  {
    RankBounded(t, n, c);
    HandledStep(t, n, c - 1);
    var h, r := Handled(t, n, c - 1), Rank(t, n, c - 1);
    if t[c - 1] > n {
      q := Uninsert(t, n, c - 1, o, pos);
    } else {
      LastOfRank(t, n, c);
      assert Handled(t, n, c)[pos] == n;
      q := c - 1;
      SameAround(h, o, n, pos);
    }
  }

  /** The last code point counted by a rank just reached. */
  lemma LastOfRank(t: seq<int>, n: int, c: nat)
    requires 0 < c <= |t| && t[c - 1] <= n
    ensures Rank(t, n, c) > 0 && Rank(t, n, c) <= |Handled(t, n, c)| && Handled(t, n, c)[Rank(t, n, c) - 1] == t[c - 1]
  {
    assert t[..c] == t[..c - 1] + [t[c - 1]];
    LtSplit(t[..c - 1], [t[c - 1]], n + 1);
  }

  lemma SameAround(h: seq<int>, o: seq<int>, n: int, pos: nat)
    requires pos <= |h| && pos <= |o| && h[..pos] + [n] + h[pos..] == o[..pos] + [n] + o[pos..]
    ensures h == o
  {
    var a, b := h[..pos] + [n] + h[pos..], o[..pos] + [n] + o[pos..];
    assert |h| == |o|;
    forall j | 0 <= j < |h| ensures h[j] == o[j] {
      assert a[if j < pos then j else j + 1] == b[if j < pos then j else j + 1];
    }
  }

  /** A cut behind which nothing equals `n`. */
  lemma LtTrim(u: seq<int>, n: int, l: seq<int>, i: nat) returns (c: nat)
    requires l == Lt(u, n + 1) && i <= |l| && AllLess(l[i..], n)
    ensures c <= |u| && |Lt(u[..c], n + 1)| == i && l == Lt(u[..c], n + 1) + Lt(u[c..], n)
  {
    c := CutExists(u, n + 1, i);
    LtCut(u, n + 1, c);
    assert l[i..] == Lt(u[c..], n + 1);
    LtSame(u[c..], n + 1, n);
  }

  /** From where the next insertion stands in `t`, back to where the state itself stands. */
  lemma StepBack(t: seq<int>, n: nat, q: nat, st: State) returns (c: nat)
    requires Ordered(st) && q <= |t| && st.output == Handled(t, n, q) && Advances(st, n, Rank(t, n, q))
    ensures c <= |t| && st.output == Handled(t, st.n, c) && st.i == Rank(t, st.n, c)
  {
    if n == st.n {
      c := StepBackWithin(t, q, st);
    } else {
      c := StepBackAcross(t, n, q, st);
    }
  }

  lemma StepBackWithin(t: seq<int>, q: nat, st: State) returns (c: nat)
    requires Ordered(st) && q <= |t| && st.output == Handled(t, st.n, q) && st.i <= Rank(t, st.n, q)
    ensures c <= |t| && st.output == Handled(t, st.n, c) && st.i == Rank(t, st.n, c)
  {
    var u, v := t[..q], t[q..];
    TailIsLess(st, Lt(u, st.n + 1), Lt(v, st.n));
    c := LtTrim(u, st.n, Lt(u, st.n + 1), st.i);
    LtSplit(u[c..], v, st.n);
    assert u[..c] == t[..c] && u[c..] + v == t[c..];
    Regroup(Lt(u[..c], st.n + 1), Lt(u[c..], st.n), Lt(v, st.n));
  }

  lemma TailIsLess(st: State, front: seq<int>, back: seq<int>)
    requires Ordered(st) && st.output == front + back && st.i <= |front|
    ensures AllLess(front[st.i..], st.n)
  {
    assert forall j :: 0 <= j < |front| ==> front[j] == st.output[j];
  }

  lemma OrderedLess(st: State)
    requires Ordered(st)
    ensures AllLess(st.output, st.n + 1)
    ensures AllLess(st.output[..st.i], st.n + 1) && AllLess(st.output[st.i..], st.n)
  {
  }

  /** When all that is handled is below `b`, it is all that is below `b`. */
  lemma BelowBoth(t: seq<int>, m: int, b: int, q: nat)
    requires q <= |t| && b <= m && AllLess(Handled(t, m, q), b)
    ensures Handled(t, m, q) == Lt(t, b)
  {
    AllLessSplit(Lt(t[..q], m + 1), Lt(t[q..], m), b);
    LtSame(t[..q], m + 1, b);
    LtSame(t[q..], m, b);
    LtCut(t, b, q);
  }

  lemma StepBackAcross(t: seq<int>, n: int, q: nat, st: State) returns (c: nat)
    requires Ordered(st) && q <= |t| && st.n < n && st.output == Handled(t, n, q)
    ensures c <= |t| && st.output == Handled(t, st.n, c) && st.i == Rank(t, st.n, c)
  {
    OrderedLess(st);
    BelowBoth(t, n, st.n + 1, q);
    c := LtTrim(t, st.n, st.output, st.i);
  }

  /** Whatever is still to be decoded, the state stands somewhere in the final output. */
  lemma {:induction false} StandsInOutput(st: State, input: seq<int>) returns (c: nat)
    requires Ordered(st) && DecodeLoop(st, input).Some?
    ensures var t := DecodeLoop(st, input).value.output;
            c <= |t| && st.output == Handled(t, st.n, c) && st.i == Rank(t, st.n, c)
    decreases |input|
  {
    var t := DecodeLoop(st, input).value.output;
    if input == [] {
      c := st.i;
      StandsAtEnd(st);
    } else {
      DecodeVarGrows(input, BASE, st.bias, 1, st.i);
      var v := DecodeVar(input, BASE, st.bias, 1, st.i).value;
      var n, pos := InsertAdvances(st, v.0);
      InsertedOrdered(st, n, pos, v.0 - st.i);
      var c' := StandsInOutput(Inserted(st, n, pos, v.0 - st.i), v.1);
      var q := Uninsert(t, n, c', st.output, pos);
      c := StepBack(t, n, q, st);
    }
  }

  lemma StandsAtEnd(st: State)
    requires Ordered(st)
    ensures st.output == Handled(st.output, st.n, st.i) && st.i == Rank(st.output, st.n, st.i)
  {
    OrderedLess(st);
    StandsAtCut(st.output, st.n, st.i);
  }

  lemma StandsAtCut(t: seq<int>, n: int, i: nat)
    requires i <= |t| && AllLess(t[..i], n + 1) && AllLess(t[i..], n)
    ensures t == Handled(t, n, i) && i == Rank(t, n, i)
  {
    LtWhole(t[..i], n + 1);
    LtWhole(t[i..], n);
    assert t[..i] + t[i..] == t;
  }

  lemma LtWhole(r: seq<int>, b: int)
    requires AllLess(r, b)
    ensures Lt(r, b) == r
  {
    LtAll(r, b);
  }

  lemma {:induction false} LtMonotone(s: seq<int>, a: int, b: int)
    requires a <= b
    ensures |Lt(s, a)| <= |Lt(s, b)|
  {
    if s != [] {
      LtMonotone(s[1..], a, b);
    }
  }

  lemma {:induction false} HandledGrows(s: seq<int>, m: int, p: nat, q: nat)
    requires p <= q <= |s|
    ensures |Handled(s, m, p)| <= |Handled(s, m, q)|
    decreases q - p
  {
    if p < q {
      HandledStep(s, m, q - 1);
      RankBounded(s, m, q - 1);
      HandledGrows(s, m, p, q - 1);
    }
  }

  /** A later insertion has more handled before it. */
  lemma HandledLonger(s: seq<int>, p: nat, q: nat)
    requires p < |s| && q < |s| && InsertedBefore(s, p, q)
    ensures |Handled(s, s[p], p)| < |Handled(s, s[q], q)|
  {
    HandledStep(s, s[p], p);
    RankBounded(s, s[p], p);
    if s[p] == s[q] {
      HandledGrows(s, s[p], p + 1, q);
    } else {
      HandledGrows(s, s[p], p + 1, |s|);
      HandledEnds(s, s[p]);
      HandledEnds(s, s[q]);
      LtMonotone(s, s[p] + 1, s[q]);
      HandledGrows(s, s[q], 0, q);
    }
  }

  lemma SamePlace(s: seq<int>, p: nat, q: nat)
    requires p < |s| && q < |s| && Handled(s, s[p], p) == Handled(s, s[q], q)
    ensures p == q
  {
    if InsertedBefore(s, p, q) {
      HandledLonger(s, p, q);
    } else if InsertedBefore(s, q, p) {
      HandledLonger(s, q, p);
    }
  }

  /** What leads on to the label is the insertion of the code point the state stands before. */
  lemma LandsThere(s: seq<int>, pos: nat, st: State, n: nat, at: nat, delta: nat, tail: seq<int>)
    requires pos < |s| && st.output == Handled(s, s[pos], pos) && Ordered(st) && Advances(st, n, at)
    requires DecodeLoop(Inserted(st, n, at, delta), tail).Some?
    requires DecodeLoop(Inserted(st, n, at, delta), tail).value.output == s
    ensures n == s[pos] && at == Rank(s, s[pos], pos)
  {
    var q := StandsNext(st, n, at, delta, tail);
    SamePlace(s, pos, q);
  }

  lemma StandsNext(st: State, n: nat, at: nat, delta: nat, tail: seq<int>) returns (q: nat)
    requires Ordered(st) && Advances(st, n, at) && DecodeLoop(Inserted(st, n, at, delta), tail).Some?
    ensures var t := DecodeLoop(Inserted(st, n, at, delta), tail).value.output;
            q < |t| && t[q] == n && Handled(t, n, q) == st.output && Rank(t, n, q) == at
  {
    InsertedOrdered(st, n, at, delta);
    var c := StandsInOutput(Inserted(st, n, at, delta), tail);
    q := Uninsert(DecodeLoop(Inserted(st, n, at, delta), tail).value.output, n, c, st.output, at);
  }

  // ----- the log of emitted deltas

  datatype Log = Start(initial: State) | Then(earlier: Log, delta: nat, state: State)

  function Current(log: Log): (st: State) {
    if log.Start? then log.initial else log.state
  }

  /** Each entry records the insertion its delta stands for. */
  ghost predicate Sound(log: Log) {
    log.Then? ==>
      && Sound(log.earlier)
      && var st := Current(log.earlier); Insert(st, st.i + log.delta) == Some(log.state)
  }

  function Code(log: Log): (code: seq<int>)
    ensures DELIMITER !in code
  {
    if log.Start? then [] else Code(log.earlier) + EncodeVar(log.delta, BASE, Current(log.earlier).bias)
  }

  function Origin(log: Log): (st: State) {
    if log.Start? then log.initial else Origin(log.earlier)
  }

  lemma {:induction false} LogDecodes(log: Log)
    requires Sound(log)
    ensures DecodeLoop(Origin(log), Code(log)) == Some(Current(log))
  {
    if log.Then? {
      LogDecodes(log.earlier);
      DecodeOneMore(Origin(log), Code(log.earlier), log.delta);
    }
  }

  // ----- the encoder

  /** The encoder's 32-bit variables and its output buffer. */
  datatype Encoder = Encoder(buf: seq<int>, delta: int, bias: int, h: int, remaining: int)

  ghost predicate Synced(s: seq<int>, head: seq<int>, m: int, pos: nat, e: Encoder, log: Log, last: int) {
    var st := Current(log);
    && Tracks(s, m, pos, st, last)
    && Sound(log) && Origin(log) == State(Lt(s, INITIAL_N), INITIAL_N, 0, INITIAL_BIAS)
    && e.buf == head + Code(log)
    && e.bias == st.bias && e.h == |st.output|
    && 0 <= e.delta == Distance(s, m, pos, st) < INT32_LIMIT
    && |Lt(s, INITIAL_N)| <= e.h
    && (st.i == 0 <==> e.h == |Lt(s, INITIAL_N)|)
  }

  method EmitDelta(buf: seq<int>, delta: nat, bias: int) returns (out: seq<int>)
    ensures out == buf + EncodeVar(delta, BASE, bias)
  {
    out := buf;
    var q: nat, k: nat := delta, BASE;
    while true
      invariant out + EncodeVar(q, k, bias) == buf + EncodeVar(delta, BASE, bias)
      decreases q
    {
      var t := k - bias;
      if t < TMIN {
        t := TMIN;
      } else if t > TMAX {
        t := TMAX;
      }
      assert t == Threshold(k, bias);
      if q < t {
        break;
      }
      DigitSplit(q, t);
      out := out + [EncDigit(t + (q - t) % (BASE - t))];
      q, k := (q - t) / (BASE - t), k + BASE;
    }
    out := out + [EncDigit(q)];
  }

  method LeastAtLeast(s: seq<int>, n: int) returns (m: int)
    requires exists j :: 0 <= j < |s| && n <= s[j]
    requires CodePoints(s)
    ensures m in s && n <= m
    ensures forall j :: 0 <= j < |s| ==> !(n <= s[j] < m)
  {
    m := 0x7fff_ffff;
    for pos := 0 to |s|
      invariant m == 0x7fff_ffff || (m in s && n <= m)
      invariant forall j :: 0 <= j < pos ==> !(n <= s[j] < m)
    {
      if m > s[pos] && s[pos] >= n {
        m := s[pos];
      }
    }
  }

  lemma {:induction false} LtGrows(s: seq<int>, m: int)
    ensures |Lt(s, m)| <= |Lt(s, m + 1)|
    ensures m in s ==> |Lt(s, m)| < |Lt(s, m + 1)|
  {
    if s != [] {
      LtGrows(s[1..], m);
      assert m in s ==> s[0] == m || m in s[1..];
    }
  }

  /** Up to 2047 code points a jump overflows by less than one turn of the register. */
  lemma JumpBound(s: seq<int>, m: int, st: State, last: int)
    requires CodePoints(s) && m in s && Tracks(s, m, 0, st, last)
    requires |st.output| < |s| < 2048
    ensures Distance(s, m, 0, st) < 2 * INT32_LIMIT
  {
    RankBounded(s, m, 0);
    assert st.n <= m;
    MulMonotone(m - st.n, |st.output| + 1, CODE_POINT_LIMIT, 2047);
  }

  lemma SyncedOver(s: seq<int>, head: seq<int>, m: int, pos: nat, e: Encoder, log: Log, last: int)
    requires Synced(s, head, m, pos, e, log, last) && pos < |s| < INT32_LIMIT - 1 && s[pos] != m && m in s
    ensures var d := e.delta + (if s[pos] < m then 1 else 0);
            if d < INT32_LIMIT then Synced(s, head, m, pos + 1, e.(delta := d), log, last) else !Fits(s)
  {
    var st := Current(log);
    StepOver(s, m, pos, st, last);
    StepOverDistance(s, m, pos, st);
    if e.delta + (if s[pos] < m then 1 else 0) >= INT32_LIMIT {
      var at :| 0 <= at < |s| && s[at] == m;
      FarIsUnfit(s, m, pos + 1, st, last, at);
    }
  }

  lemma SyncedInsert(s: seq<int>, head: seq<int>, m: int, pos: nat, e: Encoder, log: Log, last: int)
    requires Synced(s, head, m, pos, e, log, last) && pos < |s| && s[pos] == m
    ensures Rank(s, m, pos) <= |Current(log).output|
    ensures var st' := Inserted(Current(log), m, Rank(s, m, pos), e.delta);
            Synced(s, head, m, pos + 1,
                   Encoder(e.buf + EncodeVar(e.delta, BASE, e.bias), 0, st'.bias, e.h + 1, e.remaining - 1),
                   Then(log, e.delta, st'), pos)
  {
    var st := Current(log);
    RankBounded(s, m, pos);
    var log' := Then(log, e.delta, Inserted(st, m, Rank(s, m, pos), e.delta));
    assert Sound(log') by {
      InsertsAtRank(s, m, pos, st, last);
    }
    assert Tracks(s, m, pos + 1, Current(log'), pos) && Distance(s, m, pos + 1, Current(log')) == 0 by {
      DistanceFits(s, m, pos, st, last);
      StepInsert(s, m, pos, st, last, e.delta);
    }
    AppendAssociates(head, Code(log), EncodeVar(e.delta, BASE, e.bias));
  }

  lemma SyncedJump(s: seq<int>, head: seq<int>, n: int, m: int, jump: int, e: Encoder, log: Log, last: int)
    requires Synced(s, head, n, 0, e, log, last) && |s| < INT32_LIMIT - 1
    requires CodePoints(s) && n <= m && m in s && e.h < |s|
    requires forall j :: 0 <= j < |s| ==> !(n <= s[j] < m)
    requires jump == (m - n) * (e.h + 1)
    ensures var d := e.delta + jump;
            && d >= 0
            && (d < INT32_LIMIT ==> Synced(s, head, m, 0, e.(delta := d), log, last))
            && (d >= INT32_LIMIT ==> !Fits(s))
            && (|s| < 2048 ==> d < 2 * INT32_LIMIT)
  {
    var st := Current(log);
    Jump(s, n, m, st, last);
    JumpNumbers(s, n, m, jump, st, last);
  }

  /** How far a jump leads, and what it means when that is too far. */
  lemma JumpNumbers(s: seq<int>, n: int, m: int, jump: int, st: State, last: int)
    requires Tracks(s, m, 0, st, last) && |s| < INT32_LIMIT - 1 && CodePoints(s) && n <= m && m in s &&
             |st.output| < |s|
    requires jump == (m - n) * (|st.output| + 1)
    ensures jump >= 0 && Distance(s, m, 0, st) == Distance(s, n, 0, st) + jump
    ensures Distance(s, m, 0, st) >= INT32_LIMIT ==> !Fits(s)
    ensures |s| < 2048 ==> Distance(s, m, 0, st) < 2 * INT32_LIMIT
  {
    JumpDistance(s, n, m, st);
    MulMonotone(0, 0, m - n, |st.output| + 1);
    if Distance(s, m, 0, st) >= INT32_LIMIT {
      var at :| 0 <= at < |s| && s[at] == m;
      FarIsUnfit(s, m, 0, st, last, at);
    }
    if |s| < 2048 {
      JumpBound(s, m, st, last);
    }
  }

  lemma SyncedPassEnds(s: seq<int>, head: seq<int>, m: int, e: Encoder, log: Log, last: int)
    requires Synced(s, head, m, |s|, e, log, last) && |s| < INT32_LIMIT - 1 && m in s
    ensures e.delta + 1 < INT32_LIMIT
    ensures Synced(s, head, m + 1, 0, e.(delta := e.delta + 1), log, last)
  {
    var at :| 0 <= at < |s| && s[at] == m;
    var st := Current(log);
    TrailingIsNear(s, m, st, last, at);
    PassEnds(s, m, st, last);
    PassEndsDistance(s, m, st);
  }

  // ----- in step with the decoder, or not

  /**
   Where the encoder is: in step with the decoder; off, its delta having wrapped around since the
   last insertion; or lost, having emitted a wrapped delta `d` for position `pos`.
   */
  datatype Course =
    | InStep(log: Log, last: int)
    | Off(log: Log, last: int)
    | Lost(log: Log, last: int, pos: nat, d: nat, tail: seq<int>)

  /** Some delta does not fit. */
  ghost predicate TooFar(s: seq<int>) {
    forall k: nat :: Open(k) ==> !Fits(s)
  }

  /** The decoder can still follow: all deltas emitted so far are logged. */
  ghost predicate Logged(s: seq<int>, head: seq<int>, buf: seq<int>, log: Log) {
    && Sound(log) && Origin(log) == State(Lt(s, INITIAL_N), INITIAL_N, 0, INITIAL_BIAS)
    && buf == head + Code(log)
  }

  ghost predicate IsOff(s: seq<int>, head: seq<int>, m: int, pos: nat, e: Encoder, log: Log, last: int) {
    && Logged(s, head, e.buf, log) && Tracks(s, m, pos, Current(log), last)
    && e.bias == Current(log).bias && 0 <= e.delta < Distance(s, m, pos, Current(log))
  }

  /** Behind the logged deltas comes one that is not the distance to the code point it was meant for. */
  ghost predicate IsLost(s: seq<int>, head: seq<int>, buf: seq<int>, log: Log, last: int, pos: nat, d: nat,
                         tail: seq<int>) {
    && DELIMITER !in tail && pos < |s|
    && Logged(s, head, head + Code(log), log) && Tracks(s, s[pos], pos, Current(log), last)
    && d < Distance(s, s[pos], pos, Current(log))
    && buf == head + Code(log) + EncodeVar(d, BASE, Current(log).bias) + tail
  }

  ghost predicate Follows(c: Course, s: seq<int>, head: seq<int>, m: int, pos: nat, e: Encoder) {
    forall k: nat :: Open(k) ==>
      && (!c.InStep? ==> !Fits(s) && |s| >= 2048)
      && match c
         case InStep(log, last) => Synced(s, head, m, pos, e, log, last)
         case Off(log, last) => IsOff(s, head, m, pos, e, log, last)
         case Lost(log, last, at, d, tail) => IsLost(s, head, e.buf, log, last, at, d, tail)
  }

  lemma LostAfter(c: Course, s: seq<int>, head: seq<int>, m: int, pos: nat, e: Encoder) returns (c': Course)
    requires Follows(c, s, head, m, pos, e) == true && !c.InStep? && pos < |s| && s[pos] == m && e.delta >= 0
    ensures c'.Lost?
    ensures forall e': Encoder :: e'.buf == e.buf + EncodeVar(e.delta, BASE, e.bias) ==>
              Follows(c', s, head, m, pos + 1, e')
  {
    assert Open(0);
    var code := EncodeVar(e.delta, BASE, e.bias);
    match c
    case Off(log, last) =>
      c' := Lost(log, last, pos, e.delta, []);
      assert e.buf + code == head + Code(log) + code + [];
    case Lost(log, last, at, d, tail) =>
      c' := Lost(log, last, at, d, tail + code);
      AppendAssociates(head + Code(log) + EncodeVar(d, BASE, Current(log).bias), tail, code);
  }

  /** Emits the current delta and adapts the bias. */
  method EmitInsertion(s: seq<int>, b: int, m: int, pos: nat, e: Encoder, ghost head: seq<int>, ghost c: Course)
    returns (e': Encoder, ghost c': Course)
    requires pos < |s| && s[pos] == m && b == |Lt(s, INITIAL_N)|
    requires Follows(c, s, head, m, pos, e) == true && e.delta >= 0 && e.h >= 0
    ensures e'.delta == 0 && e'.h == e.h + 1 && e'.remaining == e.remaining - 1
    ensures Follows(c', s, head, m, pos + 1, e') == true && !c'.Off?
  {
    assert Open(0);
    var buf := EmitDelta(e.buf, e.delta, e.bias);
    var bias := ComputeBias(e.delta, e.h + 1, e.h == b);
    e' := Encoder(buf, 0, bias, e.h + 1, e.remaining - 1);
    if c.InStep? {
      SyncedInsert(s, head, m, pos, e, c.log, c.last);
      c' := InStep(Then(c.log, e.delta, Inserted(Current(c.log), m, Rank(s, m, pos), e.delta)), pos);
    } else {
      c' := LostAfter(c, s, head, m, pos, e);
    }
  }

  /** Passing a code point other than `m`: one more below it, or no change. */
  lemma FollowsOver(c: Course, s: seq<int>, head: seq<int>, m: int, pos: nat, e: Encoder)
    requires Follows(c, s, head, m, pos, e) == true && pos < |s| < INT32_LIMIT - 1 && s[pos] != m && m in s
    ensures var d := e.delta + (if s[pos] < m then 1 else 0);
            if d < INT32_LIMIT then Follows(c, s, head, m, pos + 1, e.(delta := d)) == true else TooFar(s) == true
  {
    assert Open(0);
    if c.InStep? {
      SyncedOver(s, head, m, pos, e, c.log, c.last);
    } else if c.Off? {
      StepOver(s, m, pos, Current(c.log), c.last);
      StepOverDistance(s, m, pos, Current(c.log));
    }
  }

  /** `h` code points are handled at (m, pos). */
  ghost predicate Tally(h: int, s: seq<int>, m: int, pos: nat) {
    forall k: nat :: OpenIn(OfTallies, k) ==> pos <= |s| && h == |Handled(s, m, pos)|
  }

  lemma TallyStarts(s: seq<int>, m: int, h: int)
    requires h == |Lt(s, m)|
    ensures Tally(h, s, m, 0) == true
  {
    HandledEnds(s, m);
  }

  lemma TallyStep(h: int, s: seq<int>, m: int, pos: nat)
    requires Tally(h, s, m, pos) == true && pos < |s|
    ensures if s[pos] == m then Tally(h + 1, s, m, pos + 1) == true else Tally(h, s, m, pos + 1) == true
  {
    assert OpenIn(OfTallies, 0);
    HandledStep(s, m, pos);
  }

  lemma TallyEnds(h: int, s: seq<int>, m: int)
    requires Tally(h, s, m, |s|) == true
    ensures h == |Lt(s, m + 1)|
  {
    assert OpenIn(OfTallies, 0);
    HandledEnds(s, m);
  }

  /** `m` does not stand before `pos`. */
  ghost predicate AbsentBefore(s: seq<int>, m: int, pos: nat) {
    forall k: nat :: OpenIn(OfAbsence, k) ==> forall j :: 0 <= j < pos && j < |s| ==> s[j] != m
  }

  lemma AbsentStep(s: seq<int>, m: int, pos: nat)
    requires AbsentBefore(s, m, pos) == true && pos < |s| && s[pos] != m
    ensures AbsentBefore(s, m, pos + 1) == true
  {
  }

  lemma NotAbsent(s: seq<int>, m: int)
    requires m in s
    ensures AbsentBefore(s, m, |s|) == false
  {
    assert OpenIn(OfAbsence, 0);
  }

  /** A smaller code point counts towards the delta, which wraps at 32 bits; a larger one is passed over. */
  method PassOver(s: seq<int>, m: int, pos: nat, e: Encoder, ghost head: seq<int>, ghost c: Course)
    returns (ok: bool, e': Encoder)
    requires Follows(c, s, head, m, pos, e) == true && pos < |s| < INT32_LIMIT - 1 && s[pos] != m && m in s
    requires 0 <= e.delta < INT32_LIMIT
    ensures e'.h == e.h && e'.remaining == e.remaining
    ensures if ok then Follows(c, s, head, m, pos + 1, e') == true && 0 <= e'.delta < INT32_LIMIT else TooFar(s) == true
  {
    FollowsOver(c, s, head, m, pos, e);
    ok, e' := true, e;
    if s[pos] < m {
      e' := e.(delta := Wrap32(e.delta + 1));
      ok := e'.delta >= 0;
    }
  }

  /** One pass over the label: emits every occurrence of `m`. */
  method EncodePass(s: seq<int>, b: int, m: int, e0: Encoder, ghost head: seq<int>, ghost c0: Course)
    returns (ok: bool, e: Encoder, ghost c: Course)
    requires |s| < INT32_LIMIT - 1 && INITIAL_N <= m && m in s && b == |Lt(s, INITIAL_N)|
    requires Follows(c0, s, head, m, 0, e0) == true
    requires e0.h == |Lt(s, m)| && e0.h + e0.remaining == |s| && 0 <= e0.delta < INT32_LIMIT
    ensures !ok ==> TooFar(s) == true
    ensures ok ==> Follows(c, s, head, m, |s|, e) == true && !c.Off?
    ensures ok ==> e.h == |Lt(s, m + 1)| && e.h + e.remaining == |s| && 0 <= e.delta < INT32_LIMIT
  {
    ok, e, c := true, e0, c0;
    TallyStarts(s, m, e.h);
    for pos := 0 to |s|
      invariant Follows(c, s, head, m, pos, e) == true && (c.Off? ==> AbsentBefore(s, m, pos) == true)
      invariant Tally(e.h, s, m, pos) == true && e.h >= 0 && e.h + e.remaining == |s| && 0 <= e.delta < INT32_LIMIT
    {
      TallyStep(e.h, s, m, pos);
      if s[pos] == m {
        e, c := EmitInsertion(s, b, m, pos, e, head, c);
      } else {
        ok, e := PassOver(s, m, pos, e, head, c);
        if !ok {
          return;
        }
        if c.Off? {
          AbsentStep(s, m, pos);
        }
      }
    }
    TallyEnds(e.h, s, m);
    NotAbsent(s, m);
  }

  /** Assembling the head and the extended part for the decoder. */
  lemma DecodeWhole(basic: seq<int>, ext: seq<int>)
    requires AllBasic(basic) && DELIMITER !in ext
    ensures var st := DecodeLoop(State(basic, INITIAL_N, 0, INITIAL_BIAS), ext);
            Decode((if basic == [] then [] else basic + [DELIMITER]) + ext) ==
            if st.Some? then Some(st.value.output) else None
  {
    if basic == [] {
      assert [] + ext == ext;
    } else {
      LastDelimiterIs(basic, ext);
      var input := basic + [DELIMITER] + ext;
      assert input[..|basic|] == basic && input[|basic| + 1..] == ext;
    }
  }

  lemma LtBasic(s: seq<int>)
    requires CodePoints(s)
    ensures AllBasic(Lt(s, INITIAL_N))
  {
    if s != [] {
      LtBasic(s[1..]);
    }
  }

  /** Once everything is handled the buffer decodes to the label. */
  lemma AllHandledDecodes(s: seq<int>, basic: seq<int>, head: seq<int>, buf: seq<int>, log: Log)
    requires basic == Lt(s, INITIAL_N) && AllBasic(basic)
    requires head == ACE_PREFIX + (if basic == [] then [] else basic + [DELIMITER])
    requires buf == head + Code(log) && Sound(log)
    requires Origin(log) == State(basic, INITIAL_N, 0, INITIAL_BIAS) && Current(log).output == s
    ensures ACE_PREFIX <= buf && Decode(buf[|ACE_PREFIX|..]) == Some(s)
  {
    LogDecodes(log);
    DecodeWhole(basic, Code(log));
    AppendAssociates(ACE_PREFIX, if basic == [] then [] else basic + [DELIMITER], Code(log));
  }

  lemma AllHandled(s: seq<int>, basic: seq<int>, head: seq<int>, n: int, e: Encoder, log: Log, last: int)
    requires CodePoints(s) && basic == Lt(s, INITIAL_N)
    requires head == ACE_PREFIX + (if basic == [] then [] else basic + [DELIMITER])
    requires Synced(s, head, n, 0, e, log, last) && e.h == |s|
    ensures ACE_PREFIX <= e.buf && Decode(e.buf[|ACE_PREFIX|..]) == Some(s)
    ensures Fits(s)
  {
    LtAll(s, n);
    assert forall j :: Extended(s, j) ==> IsHandled(s, n, 0, j);
    HandledEnds(s, n);
    LtBasic(s);
    AllHandledDecodes(s, basic, head, e.buf, log);
  }

  lemma {:induction false} LogOrdered(log: Log)
    requires Sound(log) && Ordered(Origin(log))
    ensures Ordered(Current(log))
  {
    if log.Then? {
      LogOrdered(log.earlier);
      var st := Current(log.earlier);
      var n, pos := InsertAdvances(st, st.i + log.delta);
      InsertedOrdered(st, n, pos, log.delta);
    }
  }

  /** A delta too small inserts something else, and nothing that follows can make up for it. */
  lemma WrongDelta(s: seq<int>, pos: nat, st: State, last: int, d: nat, tail: seq<int>)
    requires pos < |s| && Tracks(s, s[pos], pos, st, last) && Ordered(st) && d < Distance(s, s[pos], pos, st)
    ensures var r := DecodeLoop(st, EncodeVar(d, BASE, st.bias) + tail); r.Some? ==> r.value.output != s
  {
    DecodeDelta(st, d, tail);
    var r := DecodeRest(Insert(st, st.i + d), tail);
    if r.Some? && r.value.output == s {
      OnlyDistance(s, pos, st, d, tail);
    }
  }

  lemma AdvancesBy(st: State, d: nat) returns (n: nat, at: nat)
    requires Ordered(st)
    ensures Advances(st, n, at) && Insert(st, st.i + d) == Some(Inserted(st, n, at, d))
    ensures st.i + d == (n - st.n) * (|st.output| + 1) + at
  {
    n, at := InsertAdvances(st, st.i + d);
  }

  lemma DistanceIs(s: seq<int>, pos: nat, st: State, n: nat, at: nat, d: nat)
    requires pos < |s| && n == s[pos] && at == Rank(s, s[pos], pos)
    requires st.i + d == (n - st.n) * (|st.output| + 1) + at
    ensures d == Distance(s, s[pos], pos, st)
  {
  }

  /** Only the exact distance leads on to the label. */
  lemma OnlyDistance(s: seq<int>, pos: nat, st: State, d: nat, tail: seq<int>)
    requires pos < |s| && st.output == Handled(s, s[pos], pos) && Ordered(st)
    requires DecodeRest(Insert(st, st.i + d), tail).Some?
    requires DecodeRest(Insert(st, st.i + d), tail).value.output == s
    ensures d == Distance(s, s[pos], pos, st)
  {
    var n, at := AdvancesBy(st, d);
    LandsThere(s, pos, st, n, at, d, tail);
    DistanceIs(s, pos, st, n, at, d);
  }

  /** What a lost encoder emits decodes to another label, or not at all. */
  lemma NeverDecodes(s: seq<int>, basic: seq<int>, head: seq<int>, buf: seq<int>,
                     log: Log, last: int, pos: nat, d: nat, tail: seq<int>)
    requires CodePoints(s) && basic == Lt(s, INITIAL_N)
    requires head == ACE_PREFIX + (if basic == [] then [] else basic + [DELIMITER])
    requires IsLost(s, head, buf, log, last, pos, d, tail)
    ensures ACE_PREFIX <= buf && Decode(buf[|ACE_PREFIX|..]) != Some(s)
  {
    LtBasic(s);
    var st, opening := Current(log), if basic == [] then [] else basic + [DELIMITER];
    var rest := EncodeVar(d, BASE, st.bias) + tail;
    LostDecodes(s, log, last, pos, d, tail);
    DecodeWhole(basic, Code(log) + rest);
    FourParts(ACE_PREFIX, opening, Code(log), EncodeVar(d, BASE, st.bias), tail);
  }

  lemma FourParts(a: seq<int>, b: seq<int>, c: seq<int>, d: seq<int>, e: seq<int>)
    ensures a + b + c + d + e == a + (b + (c + (d + e)))
    ensures a <= a + b + c + d + e && (a + b + c + d + e)[|a|..] == b + (c + (d + e))
  {
    assert a + b + c + d + e == a + (b + (c + (d + e)));
  }

  lemma LostDecodes(s: seq<int>, log: Log, last: int, pos: nat, d: nat, tail: seq<int>)
    requires CodePoints(s) && pos < |s| && Sound(log) &&
             Origin(log) == State(Lt(s, INITIAL_N), INITIAL_N, 0, INITIAL_BIAS)
    requires Tracks(s, s[pos], pos, Current(log), last) && d < Distance(s, s[pos], pos, Current(log))
    ensures var r := DecodeLoop(Origin(log), Code(log) + (EncodeVar(d, BASE, Current(log).bias) + tail));
            r.Some? ==> r.value.output != s
  {
    OriginOrdered(s);
    LogOrdered(log);
    LogDecodes(log);
    DecodeLoopAppend(Origin(log), Code(log), EncodeVar(d, BASE, Current(log).bias) + tail);
    WrongDelta(s, pos, Current(log), last, d, tail);
  }

  lemma OriginOrdered(s: seq<int>)
    requires CodePoints(s)
    ensures Ordered(State(Lt(s, INITIAL_N), INITIAL_N, 0, INITIAL_BIAS))
  {
    LtBelow(s, INITIAL_N);
  }

  lemma {:induction false} LtBelow(s: seq<int>, m: int)
    ensures AllLess(Lt(s, m), m)
  {
    if s != [] {
      LtBelow(s[1..], m);
    }
  }

  method CopyBasic(s: seq<int>) returns (basic: seq<int>, remaining: int)
    requires CodePoints(s)
    ensures basic == Lt(s, INITIAL_N)
    ensures |basic| + remaining == |s|
  {
    basic, remaining := [], 0;
    for pos := 0 to |s|
      invariant basic == Lt(s[..pos], INITIAL_N)
      invariant |basic| + remaining == pos
    {
      assert s[..pos + 1] == s[..pos] + [s[pos]];
      LtSplit(s[..pos], [s[pos]], INITIAL_N);
      if s[pos] <= 0x7f {
        basic := basic + [s[pos]];
      } else {
        remaining := remaining + 1;
      }
    }
    assert s[..|s|] == s;
  }

  lemma StartsSynced(s: seq<int>, head: seq<int>, remaining: int)
    ensures var log := Start(State(Lt(s, INITIAL_N), INITIAL_N, 0, INITIAL_BIAS));
            Synced(s, head, INITIAL_N, 0, Encoder(head, 0, INITIAL_BIAS, |Lt(s, INITIAL_N)|, remaining), log, -1)
  {
    HandledEnds(s, INITIAL_N);
    RankBounded(s, INITIAL_N, 0);
  }

  /** The jump to the next code point, in 32 bits: in step, off when the delta has wrapped, or negative. */
  lemma FollowsJump(c: Course, s: seq<int>, head: seq<int>, n: int, m: int, jump: int, e: Encoder) returns (c': Course)
    requires Follows(c, s, head, n, 0, e) == true && !c.Off? && |s| < INT32_LIMIT - 1
    requires CodePoints(s) && n <= m && m in s && e.h < |s|
    requires forall j :: 0 <= j < |s| ==> !(n <= s[j] < m)
    requires c.InStep? ==> jump == (m - n) * (e.h + 1)
    ensures var d := Wrap32(e.delta + jump);
            if d >= 0 then Follows(c', s, head, m, 0, e.(delta := d)) == true else TooFar(s) == true
  {
    assert Open(0);
    c' := c;
    if c.InStep? {
      SyncedJump(s, head, n, m, jump, e, c.log, c.last);
      if e.delta + jump >= INT32_LIMIT {
        c' := Off(c.log, c.last);
        OffAfterJump(s, head, n, m, jump, e, c.log, c.last);
      }
    }
  }

  lemma OffAfterJump(s: seq<int>, head: seq<int>, n: int, m: int, jump: int, e: Encoder, log: Log, last: int)
    requires Synced(s, head, n, 0, e, log, last) && n <= m && forall j :: 0 <= j < |s| ==> !(n <= s[j] < m)
    requires jump == (m - n) * (e.h + 1) && e.delta + jump >= INT32_LIMIT
    ensures forall d :: 0 <= d < INT32_LIMIT ==> IsOff(s, head, m, 0, e.(delta := d), log, last)
  {
    Jump(s, n, m, Current(log), last);
    JumpDistance(s, n, m, Current(log));
  }

  /** The last two statements of a round. */
  method EndPass(s: seq<int>, m: int, e0: Encoder, ghost head: seq<int>, ghost c: Course) returns (n: int, e: Encoder)
    requires Follows(c, s, head, m, |s|, e0) == true && !c.Off? && |s| < INT32_LIMIT - 1 && m in s
    ensures n == m + 1 && e.h == e0.h && e.remaining == e0.remaining && Follows(c, s, head, n, 0, e) == true
  {
    assert Open(0);
    if c.InStep? {
      SyncedPassEnds(s, head, m, e0, c.log, c.last);
    }
    n, e := m + 1, e0.(delta := Wrap32(e0.delta + 1));
  }

  lemma SomeLeft(s: seq<int>, n: int)
    requires |Lt(s, n)| < |s|
    ensures exists j :: 0 <= j < |s| && n <= s[j]
  {
    LtAll(s, n);
  }

  /** What a round for the next code point starts from and ends with. */
  lemma RoundCounts(s: seq<int>, n: int, m: int)
    requires n <= m && m in s && forall j :: 0 <= j < |s| ==> !(n <= s[j] < m)
    ensures |Lt(s, m)| == |Lt(s, n)| < |Lt(s, m + 1)| <= |s|
  {
    LtSkips(s, n, m);
    LtGrows(s, m);
  }

  method JumpTo(s: seq<int>, n: int, m: int, e0: Encoder, ghost head: seq<int>, ghost c0: Course)
    returns (e: Encoder, ghost c: Course)
    requires |s| < INT32_LIMIT - 1 && CodePoints(s) && n <= m && m in s && e0.h < |s|
    requires forall j :: 0 <= j < |s| ==> !(n <= s[j] < m)
    requires Follows(c0, s, head, n, 0, e0) == true && !c0.Off?
    ensures e == e0.(delta := e.delta) && e.delta < INT32_LIMIT
    ensures if e.delta >= 0 then Follows(c, s, head, m, 0, e) == true else TooFar(s) == true
  {
    var jump := (m - n) * (e0.h + 1);
    e := e0.(delta := Wrap32(e0.delta + Wrap32(jump)));
    WrapOfSum(e0.delta, jump);
    c := FollowsJump(c0, s, head, n, m, jump, e0);
  }

  /** One round of the main loop: jump to the least code point left, and the pass for it. */
  method EncodeRound(s: seq<int>, b: int, n0: int, e0: Encoder, ghost head: seq<int>, ghost c0: Course)
    returns (ok: bool, n: int, e: Encoder, ghost c: Course)
    requires |s| < INT32_LIMIT - 1 && CodePoints(s) && INITIAL_N <= n0 && b == |Lt(s, INITIAL_N)|
    requires Follows(c0, s, head, n0, 0, e0) == true && !c0.Off?
    requires e0.h == |Lt(s, n0)| && e0.h + e0.remaining == |s| && e0.remaining != 0
    ensures !ok ==> TooFar(s) == true
    ensures ok ==> INITIAL_N <= n && Follows(c, s, head, n, 0, e) == true && !c.Off?
    ensures ok ==> e.h == |Lt(s, n)| && e.h + e.remaining == |s| && 0 <= e.remaining < e0.remaining
  {
    SomeLeft(s, n0);
    var m := LeastAtLeast(s, n0);
    RoundCounts(s, n0, m);
    n := m;
    e, c := JumpTo(s, n0, m, e0, head, c0);
    ok := e.delta >= 0;
    if ok {
      ok, e, c := EncodePass(s, b, m, e, head, c);
    }
    if ok {
      n, e := EndPass(s, m, e, head, c);
    }
  }

  // ----- the one encoding

  /**
   The prefix, the basic code points, a delimiter if there are any, and the deltas of the insertions that give the
   label.
   */
  ghost predicate EncodesTo(s: seq<int>, t: seq<int>) {
    exists log :: IsLogOf(s, log) && t == Head(s) + Code(log)
  }

  ghost predicate IsLogOf(s: seq<int>, log: Log) {
    && Sound(log) && Origin(log) == State(Lt(s, INITIAL_N), INITIAL_N, 0, INITIAL_BIAS)
    && Current(log).output == s
  }

  function Head(s: seq<int>): (head: seq<int>) {
    var basic := Lt(s, INITIAL_N);
    ACE_PREFIX + (if basic == [] then [] else basic + [DELIMITER])
  }

  lemma IsEncoding(s: seq<int>, t: seq<int>, log: Log)
    requires IsLogOf(s, log) && t == Head(s) + Code(log)
    ensures EncodesTo(s, t)
  {
  }

  function Depth(log: Log): (n: nat) {
    if log.Start? then 0 else Depth(log.earlier) + 1
  }

  lemma {:induction false} DepthIsLength(log: Log)
    requires Sound(log)
    ensures |Current(log).output| == |Origin(log).output| + Depth(log)
  {
    if log.Then? {
      DepthIsLength(log.earlier);
    }
  }

  /** The largest code point, where it stands last, was inserted last. */
  lemma SameLast(o: seq<int>, n: nat, pos: nat, o': seq<int>, n': nat, pos': nat)
    requires pos <= |o| && pos' <= |o'| && o[..pos] + [n] + o[pos..] == o'[..pos'] + [n'] + o'[pos'..]
    requires (forall j :: 0 <= j < pos ==> o[j] <= n) && (forall j :: pos <= j < |o| ==> o[j] < n)
    requires (forall j :: 0 <= j < pos' ==> o'[j] <= n') && (forall j :: pos' <= j < |o'| ==> o'[j] < n')
    ensures n == n' && pos == pos' && o == o'
  {
    var t := o[..pos] + [n] + o[pos..];
    assert |t| == |o| + 1 == |o'| + 1;
    assert t[pos] == n && forall j :: pos < j < |t| ==> t[j] == o[j - 1];
    assert t[pos'] == n' && forall j :: pos' < j < |t| ==> t[j] == o'[j - 1];
    assert forall j :: 0 <= j < pos ==> t[j] == o[j];
    assert forall j :: 0 <= j < pos' ==> t[j] == o'[j];
    assert n == n' && pos == pos';
    SameAround(o, o', n, pos);
  }

  /** The last insertion of a log. */
  lemma LastInsertion(log: Log) returns (n: nat, pos: nat)
    requires Sound(log) && log.Then? && Ordered(Origin(log))
    ensures var st := Current(log.earlier);
            && pos <= |st.output| && Current(log) == Inserted(st, n, pos, log.delta)
            && (forall j :: 0 <= j < pos ==> st.output[j] <= n)
            && (forall j :: pos <= j < |st.output| ==> st.output[j] < n)
            && st.i + log.delta == (n - st.n) * (|st.output| + 1) + pos
  {
    var st := Current(log.earlier);
    LogOrdered(log.earlier);
    n, pos := AdvancesBy(st, log.delta);
    BehindIsSmaller(st, n, pos);
  }

  /** Insertions that begin with the same code points and come to the same label are the same. */
  lemma {:induction false} SameLogs(a: Log, b: Log)
    requires Sound(a) && Sound(b) && Origin(a) == Origin(b) && Ordered(Origin(a))
    requires Current(a).output == Current(b).output
    ensures a == b
  {
    DepthIsLength(a);
    DepthIsLength(b);
    if a.Then? {
      var n, pos := LastInsertion(a);
      var n', pos' := LastInsertion(b);
      SameLast(Current(a.earlier).output, n, pos, Current(b.earlier).output, n', pos');
      SameLogs(a.earlier, b.earlier);
    }
  }

  /** What stands before an insertion is no larger, and what stands behind it is smaller. */
  lemma BehindIsSmaller(st: State, n: nat, pos: nat)
    requires Ordered(st) && Advances(st, n, pos)
    ensures forall j :: 0 <= j < pos ==> st.output[j] <= n
    ensures forall j :: pos <= j < |st.output| ==> st.output[j] < n
  {
  }

  /** A label has no two encodings. */
  lemma EncodingIsUnique(s: seq<int>, t: seq<int>, t': seq<int>)
    requires EncodesTo(s, t) && EncodesTo(s, t')
    ensures t == t'
  {
    var a :| IsLogOf(s, a) && t == Head(s) + Code(a);
    var b :| IsLogOf(s, b) && t' == Head(s) + Code(b);
    BasicOrdered(s);
    SameLogs(a, b);
  }

  lemma BasicOrdered(s: seq<int>)
    ensures Ordered(State(Lt(s, INITIAL_N), INITIAL_N, 0, INITIAL_BIAS))
  {
    if s != [] {
      BasicOrdered(s[1..]);
    }
  }

  /**
   The encoder: what it emits after the ACE prefix decodes to the label if and only if every
   delta fits a 32-bit integer. When one does not it fails, as long as the label is short enough
   for the first wrapped delta to show as negative.
   */
  method EncodeLabel(s: seq<int>) returns (r: Option<seq<int>>)
    requires 0 < |s| < INT32_LIMIT - 1 && CodePoints(s)
    ensures r.Some? ==> ACE_PREFIX <= r.value
    ensures r.Some? && Decode(r.value[|ACE_PREFIX|..]) == Some(s) <==> Fits(s)
    ensures Fits(s) ==> EncodesTo(s, r.value)
    ensures !Fits(s) && |s| < 2048 ==> r.None?
  {
    var basic, remaining := CopyBasic(s);
    var b := |basic|;
    var head := ACE_PREFIX + (if b == 0 then [] else basic + [DELIMITER]);
    var n, e := INITIAL_N, Encoder(head, 0, INITIAL_BIAS, b, remaining);
    ghost var c := InStep(Start(State(basic, INITIAL_N, 0, INITIAL_BIAS)), -1);
    StartsSynced(s, head, remaining);
    while e.remaining != 0
      invariant INITIAL_N <= n && Follows(c, s, head, n, 0, e) == true && !c.Off?
      invariant e.h == |Lt(s, n)| && e.h + e.remaining == |s| && e.remaining >= 0
      decreases e.remaining
    {
      var ok;
      ok, n, e, c := EncodeRound(s, b, n, e, head, c);
      if !ok {
        assert Open(0);
        return None;
      }
    }
    assert Open(0);
    if c.InStep? {
      AllHandled(s, basic, head, n, e, c.log, c.last);
      LtAll(s, n);
      HandledEnds(s, n);
      IsEncoding(s, e.buf, c.log);
    } else {
      NeverDecodes(s, basic, head, e.buf, c.log, c.last, c.pos, c.d, c.tail);
    }
    r := Some(e.buf);
  }

  // ----- when deltas fit

  lemma HandledSize(s: seq<int>, j: int)
    requires 0 <= j < |s|
    ensures |Handled(s, s[j], j)| + 1 <= |s|
  {
    assert s[j..] == [s[j]] + s[j + 1..];
  }

  /** Labels of up to 1024 code points are always encoded. */
  lemma ShortLabelsFit(s: seq<int>)
    requires CodePoints(s) && |s| <= 1024
    ensures Fits(s)
  {
    forall j | Extended(s, j)
      ensures FirstDelta(s, j) < INT32_LIMIT
      ensures forall p :: Consecutive(s, p, j) ==> NextDelta(s, p, j) < INT32_LIMIT
    {
      HandledSize(s, j);
      RankBounded(s, s[j], j);
      MulMonotone(s[j] - INITIAL_N, |Handled(s, s[j], j)| + 1, CODE_POINT_LIMIT - 129, 1024);
      forall p | Consecutive(s, p, j)
        ensures NextDelta(s, p, j) < INT32_LIMIT
      {
        MulMonotone(s[j] - s[p], |Handled(s, s[j], j)| + 1, CODE_POINT_LIMIT - 129, 1024);
      }
    }
  }

  /** ... and 1024 is sharp: one more basic code point before U+1FFFFF overflows the delta. */
  lemma LongerLabelCanOverflow()
    ensures !Fits(seq(1024, _ => 'a' as int) + [CODE_POINT_LIMIT - 1])
  {
    var basic := seq(1024, _ => 'a' as int);
    var s := basic + [CODE_POINT_LIMIT - 1];
    var m := CODE_POINT_LIMIT - 1;
    assert s[..1024] == basic;
    LtAll(basic, m + 1);
    assert IsFirst(s, 1024);
    assert FirstDelta(s, 1024) >= INT32_LIMIT;
  }
}
