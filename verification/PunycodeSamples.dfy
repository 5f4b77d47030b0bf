/** Labels with the encodings that section 7.1 of RFC 3492 and lib/net/punycode_test.c give. */
module PunycodeSamples {
  import opened Arithmetic
  import opened Punycode
  import opened Wrappers

  /** The parameters of section 5 of RFC 3492. */
  lemma Parameters()
    ensures BASE == 36 && TMIN == 1 && TMAX == 26 && SKEW == 38 && DAMP == 700 && INITIAL_BIAS == 72
    ensures INITIAL_N == 0x80 && DELIMITER == '-' as int && ACE_PREFIX == Points("xn--")
  {
  }

  function Points(s: string): (cs: seq<int>)
    ensures CodePoints(cs) && |cs| == |s| && forall i :: 0 <= i < |s| ==> cs[i] == s[i] as int
  {
    seq(|s|, i requires 0 <= i < |s| => s[i] as int)
  }

  lemma PointsJoin(a: string, b: string)
    ensures Points(a + b) == Points(a) + Points(b)
  {
  }

  /** One more digit of a variable-length integer: of `q`, with the threshold `t`. */
  lemma Digit(q: nat, k: nat, bias: int, t: int, digit: int, rest: nat, text: string, code: string)
    requires t == Threshold(k, bias) <= digit < BASE && q == digit + rest * (BASE - t)
    requires |text| == |code| + 1 && text[0] as int == EncDigit(digit)
    requires forall i :: 0 <= i < |code| ==> text[i + 1] == code[i]
    requires EncodeVar(rest, k + BASE, bias) == Points(code)
    ensures EncodeVar(q, k, bias) == Points(text)
  {
    DivModUnique(q - t, BASE - t, rest, digit - t);
  }

  lemma LastDigit(q: nat, k: nat, bias: int, text: string)
    requires q < Threshold(k, bias) && |text| == 1 && text[0] as int == EncDigit(q)
    ensures EncodeVar(q, k, bias) == Points(text)
  {
  }

  /** Bias adaptation step by step: damping, scaling down, and the last fraction. */
  lemma Starts(delta: nat, numPoints: nat, first: bool, damped: nat, share: nat)
    requires numPoints > 0
    requires var f := if first then DAMP else 2; damped * f <= delta < damped * f + f
    requires share * numPoints <= damped < share * numPoints + numPoints
    ensures Adapt(delta, numPoints, first) == AdaptLoop(damped + share, 0)
  {
    var f := if first then DAMP else 2;
    DivModUnique(delta, f, damped, delta - damped * f);
    DivModUnique(damped, numPoints, share, damped - share * numPoints);
  }

  lemma Scales(delta: nat, k: nat, scaled: nat)
    requires delta > 455 && 35 * scaled <= delta < 35 * scaled + 35
    ensures AdaptLoop(delta, k) == AdaptLoop(scaled, k + BASE)
  {
  }

  lemma Settles(delta: nat, k: nat, part: nat)
    requires delta <= 455 && part * (delta + SKEW) <= 36 * delta < part * (delta + SKEW) + delta + SKEW
    ensures AdaptLoop(delta, k) == k + part
  {
    DivModUnique(36 * delta, delta + SKEW, part, 36 * delta - part * (delta + SKEW));
  }

  /** Insertions after which the label reads `text`, with `done` written so far. */
  ghost predicate Reaches(log: Log, basic: string, text: string, n: nat, i: nat, bias: nat, done: string) {
    && Sound(log) && Origin(log) == State(Points(basic), INITIAL_N, 0, INITIAL_BIAS)
    && Current(log) == State(Points(text), n, i, bias)
    && Points(done) == Points(basic) + [DELIMITER] + Code(log)
  }

  predicate IsPut(text: string, c: char, pos: nat, text': string) {
    && |text'| == |text| + 1 && pos <= |text| && text'[pos] == c
    && (forall i :: 0 <= i < pos ==> text'[i] == text[i])
    && (forall i :: pos <= i < |text| ==> text'[i + 1] == text[i])
  }

  lemma PointsPut(text: string, c: char, pos: nat, text': string)
    requires IsPut(text, c, pos, text')
    ensures Points(text') == Points(text)[..pos] + [c as int] + Points(text)[pos..]
  {
  }

  lemma Inserts(st: State, delta: nat, n: nat, pos: nat)
    requires n >= INITIAL_N && pos <= |st.output| && st.i + delta == (n - st.n) * (|st.output| + 1) + pos
    ensures Insert(st, st.i + delta) == Some(Inserted(st, n, pos, delta))
  {
    DivModUnique(st.i + delta, |st.output| + 1, n - st.n, pos);
  }

  /** One more insertion, of `c` at `pos`. */
  lemma Insertion(log: Log, basic: string, text: string, n: nat, i: nat, bias: nat, done: string, delta: nat,
                  c: char, pos: nat, text': string, bias': nat, code: string, done': string) returns (log': Log)
    requires Reaches(log, basic, text, n, i, bias, done) && IsPut(text, c, pos, text')
    requires done' == done + code && c as int >= INITIAL_N && i + delta == (c as int - n) * (|text| + 1) + pos
    requires EncodeVar(delta, BASE, bias) == Points(code) && Adapt(delta, |text| + 1, i == 0) == bias'
    ensures Reaches(log', basic, text', c as int, pos + 1, bias', done')
  {
    var st := State(Points(text), n, i, bias);
    Inserts(st, delta, c as int, pos);
    PointsPut(text, c, pos, text');
    PointsJoin(done, code);
    AppendAssociates(Points(basic) + [DELIMITER], Code(log), Points(code));
    log' := Then(log, delta, Inserted(st, c as int, pos, delta));
  }

  /** Splitting off the first code point of a label, basic or not. */
  lemma Basic(text: string, tail: string, basic: string)
    requires text != [] && |text| == |tail| + 1 && forall i :: 0 <= i < |tail| ==> text[i + 1] == tail[i]
    requires text[0] as int < INITIAL_N ==> basic != [] && basic[0] == text[0]
    requires Lt(Points(tail), INITIAL_N) == Points(if text[0] as int < INITIAL_N then basic[1..] else basic)
    ensures Lt(Points(text), INITIAL_N) == Points(basic)
  {
    PointsCons(text, tail);
    if text[0] as int < INITIAL_N {
      PointsCons(basic, basic[1..]);
    }
  }

  lemma {:induction false} NoBasic(text: string)
    requires forall i :: 0 <= i < |text| ==> text[i] as int >= INITIAL_N
    ensures Lt(Points(text), INITIAL_N) == Points("")
  {
    if text != "" {
      NoBasic(text[1..]);
      PointsCons(text, text[1..]);
    }
  }

  lemma PointsCons(text: string, tail: string)
    requires text != [] && |text| == |tail| + 1 && forall i :: 0 <= i < |tail| ==> text[i + 1] == tail[i]
    ensures Points(text)[1..] == Points(tail) && Points(text) == [text[0] as int] + Points(tail)
  {
  }

  // ----- "bücher" (lib/net/punycode_test.c:40): its one insertion

  lemma Buecher1()
    ensures EncodeVar(745, BASE, 72) == Points("kva")
  {
    LastDigit(0, 108, 72, "a");
    Digit(21, 72, 72, 1, 21, 0, "va", "a");
    Digit(745, 36, 72, 1, 10, 21, "kva", "va");
  }

  lemma Buecher1Bias()
    ensures Adapt(745, 6, true) == 0
  {
    Starts(745, 6, true, 1, 0);
    Settles(1, 0, 0);
  }

  // ----- sample (L) of section 7.1 of RFC 3492: its six insertions

  lemma Sensei1()
    ensures EncodeVar(62042, BASE, 72) == Points("ww4c")
  {
    LastDigit(2, 144, 72, "c");
    Digit(50, 108, 72, 26, 30, 2, "4c", "c");
    Digit(1772, 72, 72, 1, 22, 50, "w4c", "4c");
    Digit(62042, 36, 72, 1, 22, 1772, "ww4c", "w4c");
  }

  lemma Sensei1Bias()
    ensures Adapt(62042, 3, true) == 27
  {
    Starts(62042, 3, true, 88, 29);
    Settles(117, 0, 27);
  }

  lemma Sensei2()
    ensures EncodeVar(139, BASE, 27) == Points("5e")
  {
    LastDigit(4, 72, 27, "e");
    Digit(139, 36, 27, 9, 31, 4, "5e", "e");
  }

  lemma Sensei2Bias()
    ensures Adapt(139, 4, false) == 24
  {
    Starts(139, 4, false, 69, 17);
    Settles(86, 0, 24);
  }

  lemma Sensei3()
    ensures EncodeVar(16683, BASE, 24) == Points("180e")
  {
    LastDigit(4, 144, 24, "e");
    Digit(66, 108, 24, 26, 26, 4, "0e", "e");
    Digit(694, 72, 24, 26, 34, 66, "80e", "0e");
    Digit(16683, 36, 24, 12, 27, 694, "180e", "80e");
  }

  lemma Sensei3Bias()
    ensures Adapt(16683, 5, false) == 67
  {
    Starts(16683, 5, false, 8341, 1668);
    Scales(10009, 0, 285);
    Settles(285, 36, 31);
  }

  lemma Sensei4()
    ensures EncodeVar(34821, BASE, 67) == Points("575a")
  {
    LastDigit(0, 144, 67, "a");
    Digit(31, 108, 67, 26, 31, 0, "5a", "a");
    Digit(994, 72, 67, 5, 33, 31, "75a", "5a");
    Digit(34821, 36, 67, 1, 31, 994, "575a", "75a");
  }

  lemma Sensei4Bias()
    ensures Adapt(34821, 6, false) == 82
  {
    Starts(34821, 6, false, 17410, 2901);
    Scales(20311, 0, 580);
    Scales(580, 36, 16);
    Settles(16, 72, 10);
  }

  lemma Sensei5()
    ensures EncodeVar(14592, BASE, 82) == Points("65l")
  {
    LastDigit(11, 108, 82, "l");
    Digit(416, 72, 82, 1, 31, 11, "5l", "l");
    Digit(14592, 36, 82, 1, 32, 416, "65l", "5l");
  }

  lemma Sensei5Bias()
    ensures Adapt(14592, 7, false) == 67
  {
    Starts(14592, 7, false, 7296, 1042);
    Scales(8338, 0, 238);
    Settles(238, 36, 31);
  }

  lemma Sensei6()
    ensures EncodeVar(42088, BASE, 67) == Points("sy2b")
  {
    LastDigit(1, 144, 67, "b");
    Digit(38, 108, 67, 26, 28, 1, "2b", "b");
    Digit(1202, 72, 67, 5, 24, 38, "y2b", "2b");
    Digit(42088, 36, 67, 1, 18, 1202, "sy2b", "y2b");
  }

  lemma Sensei6Bias()
    ensures Adapt(42088, 8, false) == 84
  {
    Starts(42088, 8, false, 21044, 2630);
    Scales(23674, 0, 676);
    Scales(676, 36, 19);
    Settles(19, 72, 12);
  }

  // ----- the insertions in order

  lemma BuecherLog() returns (log: Log)
    ensures Reaches(log, "bcher", "b\U{fc}cher", 0xfc, 2, 0, "bcher-kva")
  {
    Buecher1();
    Buecher1Bias();
    log := Nothing("bcher", "bcher-");
    log := Insertion(log, "bcher", "bcher", 0x80, 0, 72, "bcher-", 745, '\U{fc}', 1, "b\U{fc}cher", 0, "kva",
                     "bcher-kva");
  }

  lemma SenseiStep1(log: Log) returns (log': Log)
    requires Reaches(log, "3B", "3B", 0x80, 0, 72, "3B-")
    ensures Reaches(log', "3B", "3B\U{5148}", 0x5148, 3, 27, "3B-ww4c")
  {
    Sensei1();
    Sensei1Bias();
    log' := Insertion(log, "3B", "3B", 0x80, 0, 72, "3B-", 62042, '\U{5148}', 2, "3B\U{5148}", 27, "ww4c", "3B-ww4c");
  }

  lemma SenseiStep2(log: Log) returns (log': Log)
    requires Reaches(log, "3B", "3B\U{5148}", 0x5148, 3, 27, "3B-ww4c")
    ensures Reaches(log', "3B", "3B\U{516b}\U{5148}", 0x516b, 3, 24, "3B-ww4c5e")
  {
    Sensei2();
    Sensei2Bias();
    log' := Insertion(log, "3B", "3B\U{5148}", 0x5148, 3, 27, "3B-ww4c", 139, '\U{516b}', 2, "3B\U{516b}\U{5148}", 24,
                      "5e", "3B-ww4c5e");
  }

  lemma SenseiStep3(log: Log) returns (log': Log)
    requires Reaches(log, "3B", "3B\U{516b}\U{5148}", 0x516b, 3, 24, "3B-ww4c5e")
    ensures Reaches(log', "3B", "3\U{5e74}B\U{516b}\U{5148}", 0x5e74, 2, 67, "3B-ww4c5e180e")
  {
    Sensei3();
    Sensei3Bias();
    log' := Insertion(log, "3B", "3B\U{516b}\U{5148}", 0x516b, 3, 24, "3B-ww4c5e", 16683, '\U{5e74}', 1,
                      "3\U{5e74}B\U{516b}\U{5148}", 67, "180e", "3B-ww4c5e180e");
  }

  lemma SenseiStep4(log: Log) returns (log': Log)
    requires Reaches(log, "3B", "3\U{5e74}B\U{516b}\U{5148}", 0x5e74, 2, 67, "3B-ww4c5e180e")
    ensures Reaches(log', "3B", "3\U{5e74}B\U{516b}\U{5148}\U{751f}", 0x751f, 6, 82, "3B-ww4c5e180e575a")
  {
    Sensei4();
    Sensei4Bias();
    log' := Insertion(log, "3B", "3\U{5e74}B\U{516b}\U{5148}", 0x5e74, 2, 67, "3B-ww4c5e180e", 34821, '\U{751f}', 5,
                      "3\U{5e74}B\U{516b}\U{5148}\U{751f}", 82, "575a", "3B-ww4c5e180e575a");
  }

  lemma SenseiStep5(log: Log) returns (log': Log)
    requires Reaches(log, "3B", "3\U{5e74}B\U{516b}\U{5148}\U{751f}", 0x751f, 6, 82, "3B-ww4c5e180e575a")
    ensures Reaches(log', "3B", "3\U{5e74}B\U{7d44}\U{516b}\U{5148}\U{751f}", 0x7d44, 4, 67, "3B-ww4c5e180e575a65l")
  {
    Sensei5();
    Sensei5Bias();
    log' := Insertion(log, "3B", "3\U{5e74}B\U{516b}\U{5148}\U{751f}", 0x751f, 6, 82, "3B-ww4c5e180e575a", 14592,
                      '\U{7d44}', 3, "3\U{5e74}B\U{7d44}\U{516b}\U{5148}\U{751f}", 67, "65l", "3B-ww4c5e180e575a65l");
  }

  lemma SenseiStep6(log: Log) returns (log': Log)
    requires Reaches(log, "3B", "3\U{5e74}B\U{7d44}\U{516b}\U{5148}\U{751f}", 0x7d44, 4, 67, "3B-ww4c5e180e575a65l")
    ensures Reaches(log', "3B", "3\U{5e74}B\U{7d44}\U{91d1}\U{516b}\U{5148}\U{751f}", 0x91d1, 5, 84,
                    "3B-ww4c5e180e575a65lsy2b")
  {
    Sensei6();
    Sensei6Bias();
    log' := Insertion(log, "3B", "3\U{5e74}B\U{7d44}\U{516b}\U{5148}\U{751f}", 0x7d44, 4, 67, "3B-ww4c5e180e575a65l",
                      42088, '\U{91d1}', 4, "3\U{5e74}B\U{7d44}\U{91d1}\U{516b}\U{5148}\U{751f}", 84, "sy2b",
                      "3B-ww4c5e180e575a65lsy2b");
  }

  lemma SenseiLog() returns (log: Log)
    ensures Reaches(log, "3B", "3\U{5e74}B\U{7d44}\U{91d1}\U{516b}\U{5148}\U{751f}", 0x91d1, 5, 84,
                    "3B-ww4c5e180e575a65lsy2b")
  {
    log := Nothing("3B", "3B-");
    log := SenseiStep1(log);
    log := SenseiStep2(log);
    log := SenseiStep3(log);
    log := SenseiStep4(log);
    log := SenseiStep5(log);
    log := SenseiStep6(log);
  }

  // ----- the whole encodings

  lemma BuecherBasic()
    ensures Lt(Points("b\U{fc}cher"), INITIAL_N) == Points("bcher")
  {
    Basic("r", "", "r");
    Basic("er", "r", "er");
    Basic("her", "er", "her");
    Basic("cher", "her", "cher");
    Basic("\U{fc}cher", "cher", "cher");
    Basic("b\U{fc}cher", "\U{fc}cher", "bcher");
  }

  lemma SenseiBasic()
    ensures Lt(Points("3\U{5e74}B\U{7d44}\U{91d1}\U{516b}\U{5148}\U{751f}"), INITIAL_N) == Points("3B")
  {
    NoBasic("\U{7d44}\U{91d1}\U{516b}\U{5148}\U{751f}");
    Basic("B\U{7d44}\U{91d1}\U{516b}\U{5148}\U{751f}", "\U{7d44}\U{91d1}\U{516b}\U{5148}\U{751f}", "B");
    Basic("\U{5e74}B\U{7d44}\U{91d1}\U{516b}\U{5148}\U{751f}", "B\U{7d44}\U{91d1}\U{516b}\U{5148}\U{751f}", "B");
    Basic("3\U{5e74}B\U{7d44}\U{91d1}\U{516b}\U{5148}\U{751f}", "\U{5e74}B\U{7d44}\U{91d1}\U{516b}\U{5148}\U{751f}",
          "3B");
  }

  /** Nothing is inserted yet. */
  lemma Nothing(basic: string, done: string) returns (log: Log)
    requires done == basic + "-"
    ensures Reaches(log, basic, basic, INITIAL_N, 0, INITIAL_BIAS, done)
  {
    log := Start(State(Points(basic), INITIAL_N, 0, INITIAL_BIAS));
    PointsJoin(basic, "-");
  }

  /** The insertions of a label, put together behind the prefix and the basic code points. */
  lemma Assembled(log: Log, basic: string, text: string, n: nat, i: nat, bias: nat, done: string)
    requires Reaches(log, basic, text, n, i, bias, done) && basic != ""
    requires Lt(Points(text), INITIAL_N) == Points(basic) && AllBasic(Points(basic))
    ensures EncodesTo(Points(text), Points("xn--" + done))
    ensures Decode(Points(done)) == Some(Points(text))
  {
    PointsJoin("xn--", done);
    Parameters();
    AppendAssociates(ACE_PREFIX, Points(basic) + [DELIMITER], Code(log));
    IsEncoding(Points(text), Head(Points(text)) + Code(log), log);
    LogDecodes(log);
    DecodeWhole(Points(basic), Code(log));
  }

  /** The label the repository's own test encodes. */
  lemma Buecher()
    ensures EncodesTo(Points("b\U{fc}cher"), Points("xn--" + "bcher-kva"))
    ensures Decode(Points("bcher-kva")) == Some(Points("b\U{fc}cher"))
  {
    var log := BuecherLog();
    BuecherBasic();
    Assembled(log, "bcher", "b\U{fc}cher", 0xfc, 2, 0, "bcher-kva");
  }

  /** Sample (L) of section 7.1 of RFC 3492. */
  lemma Sensei()
    ensures EncodesTo(Points("3\U{5e74}B\U{7d44}\U{91d1}\U{516b}\U{5148}\U{751f}"),
                      Points("xn--" + "3B-ww4c5e180e575a65lsy2b"))
    ensures Decode(Points("3B-ww4c5e180e575a65lsy2b")) ==
            Some(Points("3\U{5e74}B\U{7d44}\U{91d1}\U{516b}\U{5148}\U{751f}"))
  {
    var log := SenseiLog();
    SenseiBasic();
    Assembled(log, "3B", "3\U{5e74}B\U{7d44}\U{91d1}\U{516b}\U{5148}\U{751f}", 0x91d1, 5, 84,
              "3B-ww4c5e180e575a65lsy2b");
  }

  /** The encoder gives a short label its encoding. */
  method EncodeText(text: string, ghost code: string) returns (r: Option<seq<int>>)
    requires 0 < |text| <= 1024 && EncodesTo(Points(text), Points(code))
    ensures r == Some(Points(code))
  {
    ShortLabelsFit(Points(text));
    r := EncodeLabel(Points(text));
    EncodingIsUnique(Points(text), r.value, Points(code));
  }

  method EncodeBuecher() returns (r: Option<seq<int>>)
    ensures r == Some(Points("xn--" + "bcher-kva"))
  {
    Buecher();
    r := EncodeText("b\U{fc}cher", "xn--" + "bcher-kva");
  }

  method EncodeSensei() returns (r: Option<seq<int>>)
    ensures r == Some(Points("xn--" + "3B-ww4c5e180e575a65lsy2b"))
  {
    Sensei();
    r := EncodeText("3\U{5e74}B\U{7d44}\U{91d1}\U{516b}\U{5148}\U{751f}", "xn--" + "3B-ww4c5e180e575a65lsy2b");
  }
}
