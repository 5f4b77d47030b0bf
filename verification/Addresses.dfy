/**
 IP addresses of lib/net/ip.c as numbers: an IPv4 address stands for itself, an IPv6 address is
 offset so that every IPv4 address orders before it (ip_addr_cmp). All zone ids are alike.
 */
module Addresses {
  const WORD := 0x1_0000_0000
  const V4COUNT := WORD
  const V6COUNT := 0x1_0000_0000_0000_0000_0000_0000_0000_0000
  const V6BASE := 2 * WORD

  predicate IsV4(x: int) {
    0 <= x < V4COUNT
  }

  predicate IsV6(x: int) {
    V6BASE <= x < V6BASE + V6COUNT
  }

  predicate IsAddress(x: int) {
    IsV4(x) || IsV6(x)
  }

  predicate SameFamily(x: int, y: int) {
    (IsV4(x) && IsV4(y)) || (IsV6(x) && IsV6(y))
  }

  /** The lowest and the highest address of an address's family. */
  function Zero(x: int): (z: int) {
    if IsV4(x) then 0 else V6BASE
  }

  function AllOnes(x: int): (z: int) {
    if IsV4(x) then V4COUNT - 1 else V6BASE + V6COUNT - 1
  }

  /** ip_addr_add: addition within the family, wrapping round at its ends. */
  function AddTo(x: int, n: int): (y: int)
    requires IsAddress(x)
    ensures SameFamily(x, y)
    ensures Zero(x) <= x + n <= AllOnes(x) ==> y == x + n
  {
    if IsV4(x) then (x + n) % V4COUNT else V6BASE + (x - V6BASE + n) % V6COUNT
  }

  lemma SuccessorWraps(x: int)
    requires IsAddress(x)
    ensures AddTo(x, 1) == if x == AllOnes(x) then Zero(x) else x + 1
  {
  }

  // ----- the carry over four 32-bit words

  /** The number the words from `i` on spell, the first being the most significant. */
  function Low(w: seq<nat>, i: nat): (v: nat)
    requires |w| == 4 && i <= 4
  {
    match i
    case 4 => 0
    case 3 => w[3]
    case 2 => w[2] * WORD + w[3]
    case 1 => (w[1] * WORD + w[2]) * WORD + w[3]
    case 0 => ((w[0] * WORD + w[1]) * WORD + w[2]) * WORD + w[3]
  }

  function Scale(i: nat): (v: nat)
    requires i <= 4
  {
    match i
    case 4 => 1
    case 3 => WORD
    case 2 => WORD * WORD
    case 1 => WORD * WORD * WORD
    case 0 => V6COUNT
  }

  predicate Words(w: seq<nat>) {
    |w| == 4 && forall i :: 0 <= i < 4 ==> w[i] < WORD
  }

  function Carried(acc: nat, i: nat): (v: nat)
    requires i <= 4
  {
    if acc == 0 then 0 else Scale(i)
  }

  /** A 32-bit number sign-extended to four words. */
  function Extended(n: int): (w: seq<nat>)
    requires -0x8000_0000 <= n < 0x8000_0000
    ensures Words(w)
  {
    if n < 0 then [WORD - 1, WORD - 1, WORD - 1, WORD + n] else [0, 0, 0, n]
  }

  /** One word of the sum, at any of the four places. */
  lemma CarryStep(was: seq<nat>, ext: seq<nat>, now: seq<nat>, i: nat, acc: nat, word: nat, acc': nat)
    requires Words(was) && Words(ext) && Words(now) && i < 4 && acc <= 1 && acc' <= 1
    requires Low(now, i + 1) + Carried(acc, i + 1) == Low(was, i + 1) + Low(ext, i + 1)
    requires word + acc' * WORD == was[i] + ext[i] + acc && word < WORD
    ensures Words(now[i := word])
    ensures Low(now[i := word], i) + Carried(acc', i) == Low(was, i) + Low(ext, i)
  {
    assert i == 0 || i == 1 || i == 2 || i == 3;
  }

  lemma WordsBound(w: seq<nat>)
    requires Words(w)
    ensures Low(w, 0) < V6COUNT
  {
  }

  lemma SumWraps(sum: nat, acc: nat, was: nat, n: int)
    requires -0x8000_0000 <= n < 0x8000_0000 && sum < V6COUNT && was < V6COUNT
    requires sum + Carried(acc, 0) == was + (if n < 0 then V6COUNT + n else n)
    ensures sum == (was + n) % V6COUNT
  {
  }

  lemma ExtendedSpells(n: int)
    requires -0x8000_0000 <= n < 0x8000_0000
    ensures Low(Extended(n), 0) == if n < 0 then V6COUNT + n else n
  {
  }

  /** ip_addr_add_ipv6: the word-wise sum with carry is addition modulo 2^128, for negative `n` too. */
  method AddWords(w: array<nat>, n: int)
    requires w.Length == 4 && Words(w[..]) && -0x8000_0000 <= n < 0x8000_0000
    modifies w
    ensures Words(w[..])
    ensures Low(w[..], 0) == (old(Low(w[..], 0)) + n) % V6COUNT
  {
    ghost var was := w[..];
    var ext := Extended(n);
    var acc: nat := 0;
    var i: nat := 4;
    while i > 0
      invariant i <= 4 && acc <= 1 && Words(w[..]) == true
      invariant forall j :: 0 <= j < i ==> w[j] == was[j]
      invariant Low(w[..], i) + Carried(acc, i) == Low(was, i) + Low(ext, i)
    {
      i := i - 1;
      var sum := w[i] + ext[i] + acc;
      var word, acc' := sum % WORD, sum / WORD;
      CarryStep(was, ext, w[..], i, acc, word, acc');
      ghost var now := w[..][i := word];
      w[i] := word;
      assert w[..] == now;
      acc := acc';
    }
    WordsBound(w[..]);
    WordsBound(was);
    ExtendedSpells(n);
    SumWraps(Low(w[..], 0), acc, Low(was, 0), n);
  }
}
