/**
 The message codec that apps/yclgen/genycl.c generates from a schema: the create function of a
 message type writes its fields as pairs of netstrings, the parse function reads them back.
 */
module Ycl {
  import opened Netstring
  import opened Octal
  import opened Sequences
  import opened Wrappers

  datatype Type = DataType | LongType | DatasType | LongsType

  datatype Field = Field(name: string, typ: Type)

  datatype Value = Data(data: string) | Long(n: int) | Datas(datas: seq<string>) | Longs(longs: seq<int>)

  predicate Typed(v: Value, t: Type) {
    match t
    case DataType => v.Data?
    case LongType => v.Long? && Int64(v.n)
    case DatasType => v.Datas?
    case LongsType => v.Longs? && forall i :: 0 <= i < |v.longs| ==> Int64(v.longs[i])
  }

  /** What memset leaves in a field: nothing, or 0. */
  function Default(t: Type): (v: Value)
    ensures Typed(v, t)
  {
    match t
    case DataType => Data("")
    case LongType => Long(0)
    case DatasType => Datas([])
    case LongsType => Longs([])
  }

  /** Field names are C identifiers, no two alike. */
  predicate Schema(fields: seq<Field>) {
    && (forall i, j :: 0 <= i < j < |fields| ==> fields[i].name != fields[j].name)
    && forall i :: 0 <= i < |fields| ==> '\0' !in fields[i].name
  }

  predicate Message(fields: seq<Field>, msg: seq<Value>) {
    |msg| == |fields| && forall i :: 0 <= i < |fields| ==> Typed(msg[i], fields[i].typ)
  }

  // ----- creating

  function Texts(ns: seq<int>, width: nat): (ss: seq<string>)
    ensures |ss| == |ns| && forall i :: 0 <= i < |ns| ==> ss[i] == Digits(ns[i], width)
  {
    seq(|ns|, i requires 0 <= i < |ns| => Digits(ns[i], width))
  }

  /** The value string of a field. */
  function Text(v: Value, width: nat): (s: string) {
    match v
    case Data(data) => data
    case Long(n) => Digits(n, width)
    case Datas(datas) => EncodedAll(datas)
    case Longs(longs) => EncodedAll(Texts(longs, width))
  }

  /** What a field adds to the message: nothing when it has its default value. */
  function Piece(f: Field, v: Value, width: nat): (s: string) {
    if v == Default(f.typ) then "" else EncodedPair(f.name, Text(v, width))
  }

  function Body(fields: seq<Field>, msg: seq<Value>, width: nat, i: nat): (s: string)
    requires |msg| == |fields| && i <= |fields|
    decreases |fields| - i
  {
    if i == |fields| then "" else Piece(fields[i], msg[i], width) + Body(fields, msg, width, i + 1)
  }

  function Created(fields: seq<Field>, msg: seq<Value>, width: nat): (s: string)
    requires |msg| == |fields|
  {
    Encoded(Body(fields, msg, width, 0))
  }

  /** The loops over array elements in the generated create functions. */
  method AppendAll(items: seq<string>) returns (opt: string)
    ensures opt == EncodedAll(items)
  {
    opt := "";
    for i := 0 to |items|
      invariant opt == EncodedAll(items[..i])
    {
      opt := Append(opt, items[i]);
      EncodedAllAppends(items[..i], items[i]);
      assert items[..i + 1] == items[..i] + [items[i]];
    }
    assert items[..|items|] == items;
  }

  method TextsOf(ns: seq<int>, width: nat) returns (ss: seq<string>)
    ensures ss == Texts(ns, width)
  {
    ss := [];
    for i := 0 to |ns|
      invariant |ss| == i && forall j :: 0 <= j < i ==> ss[j] == Digits(ns[j], width)
    {
      var s := L2S(ns[i], width);
      ss := ss + [s];
    }
  }

  method TextOf(v: Value, width: nat) returns (s: string)
    ensures s == Text(v, width)
  {
    match v
    case Data(data) => s := data;
    case Long(n) => s := L2S(n, width);
    case Datas(datas) => s := AppendAll(datas);
    case Longs(longs) =>
      var texts := TextsOf(longs, width);
      s := AppendAll(texts);
  }

  method AppendField(mbuf: string, f: Field, v: Value, width: nat) returns (out: string)
    ensures out == mbuf + Piece(f, v, width)
  {
    out := mbuf;
    if v != Default(f.typ) {
      var text := TextOf(v, width);
      out := AppendPair(mbuf, f.name, text);
    }
  }

  function BodyUpTo(fields: seq<Field>, msg: seq<Value>, width: nat, n: nat): (s: string)
    requires |msg| == |fields| && n <= |fields|
  {
    if n == 0 then "" else BodyUpTo(fields, msg, width, n - 1) + Piece(fields[n - 1], msg[n - 1], width)
  }

  lemma {:induction false} BodySplits(fields: seq<Field>, msg: seq<Value>, width: nat, n: nat)
    requires |msg| == |fields| && n <= |fields|
    ensures BodyUpTo(fields, msg, width, n) + Body(fields, msg, width, n) == Body(fields, msg, width, 0)
  {
    if n > 0 {
      BodySplits(fields, msg, width, n - 1);
      Regroup(BodyUpTo(fields, msg, width, n - 1), Piece(fields[n - 1], msg[n - 1], width),
              Body(fields, msg, width, n));
    }
  }

  method CreateBody(fields: seq<Field>, msg: seq<Value>, width: nat) returns (mbuf: string)
    requires Message(fields, msg)
    ensures mbuf == BodyUpTo(fields, msg, width, |fields|)
  {
    mbuf := "";
    for i := 0 to |fields|
      invariant mbuf == BodyUpTo(fields, msg, width, i)
    {
      mbuf := AppendNext(fields, msg, width, i, mbuf);
    }
  }

  method AppendNext(fields: seq<Field>, msg: seq<Value>, width: nat, i: nat, mbuf: string) returns (out: string)
    requires |msg| == |fields| && i < |fields| && mbuf == BodyUpTo(fields, msg, width, i)
    ensures out == BodyUpTo(fields, msg, width, i + 1)
  {
    out := AppendField(mbuf, fields[i], msg[i], width);
  }

  lemma LeftEmpty(s: string)
    ensures "" + s == s
  {
  }

  /** ycl_msg_create_*: `width` is the size of the number buffer. */
  method Create(fields: seq<Field>, msg: seq<Value>, width: nat) returns (buf: string)
    requires Message(fields, msg)
    ensures buf == Created(fields, msg, width)
  {
    var mbuf := CreateBody(fields, msg, width);
    BodySplits(fields, msg, width, |fields|);
    assert mbuf + "" == mbuf;
    buf := Append("", mbuf);
    LeftEmpty(Encoded(mbuf));
  }

  // ----- parsing

  /** A C string ends at its first NUL. */
  function CString(s: string): (t: string)
    ensures '\0' !in s ==> t == s
  {
    if s == "" || s[0] == '\0' then "" else [s[0]] + CString(s[1..])
  }

  ghost predicate Names(fields: seq<Field>, key: string, i: nat) {
    i < |fields| && fields[i].name == CString(key)
  }

  /** The field a key names. */
  function Find(fields: seq<Field>, key: string, i: nat): (r: Option<nat>)
    requires i <= |fields|
    ensures r.None? ==> forall j: nat :: i <= j ==> !Names(fields, key, j)
    ensures r.Some? ==> i <= r.value && Names(fields, key, r.value)
    decreases |fields| - i
  {
    if i == |fields| then None
    else if fields[i].name == CString(key) then Some(i)
    else Find(fields, key, i + 1)
  }

  function Longs64(items: seq<string>): (ns: seq<int>)
    ensures |ns| == |items| && forall i :: 0 <= i < |items| ==> ns[i] == FromText(items[i])
  {
    seq(|items|, i requires 0 <= i < |items| => FromText(items[i]))
  }

  function Load(t: Type, s: string): (r: Option<Value>)
    requires |s| < U64
    ensures r.Some? ==> Typed(r.value, t)
  {
    match t
    case DataType => Some(Data(s))
    case LongType => Some(Long(FromText(s)))
    case DatasType =>
      (match Items(s)
       case None => None
       case Some(items) => Some(Datas(items)))
    case LongsType =>
      (match Items(s)
       case None => None
       case Some(items) => Some(Longs(Longs64(items))))
  }

  /** The effect of one pair: unknown keys are skipped, a malformed array fails the message. */
  function Assign(fields: seq<Field>, rec: seq<Value>, p: Pair): (r: Option<seq<Value>>)
    requires |rec| == |fields| && |p.value| < U64
    ensures r.Some? ==> |r.value| == |fields|
  {
    match Find(fields, p.key, 0)
    case None => Some(rec)
    case Some(i) =>
      match Load(fields[i].typ, p.value)
      case None => None
      case Some(v) => Some(rec[i := v])
  }

  /** Reading pairs until there is no further one. */
  function Fill(fields: seq<Field>, rec: seq<Value>, data: string): (r: Option<seq<Value>>)
    requires |rec| == |fields| && |data| < U64
    decreases |data|
  {
    match NextPair(data)
    case None => Some(rec)
    case Some(p) =>
      match Assign(fields, rec, p)
      case None => None
      case Some(rec') => Fill(fields, rec', p.rest)
  }

  function Defaults(fields: seq<Field>): (rec: seq<Value>)
    ensures Message(fields, rec) && forall i :: 0 <= i < |fields| ==> rec[i] == Default(fields[i].typ)
  {
    seq(|fields|, i requires 0 <= i < |fields| => Default(fields[i].typ))
  }

  function Parsed(fields: seq<Field>, buf: string): (r: Option<seq<Value>>)
    requires |buf| < U64
  {
    if fields == [] then Some([])
    else
      match Next(buf)
      case None => None
      case Some((data, _)) => Fill(fields, Defaults(fields), data)
  }

  /** The search for a key's field, from the expected one on and round. */
  method FindField(fields: seq<Field>, key: string, expected: nat) returns (r: Option<nat>)
    requires Schema(fields) && expected < |fields|
    ensures r == Find(fields, key, 0)
  {
    var curr: nat := expected;
    var wrapped := false;
    while !wrapped
      invariant curr < |fields| && (wrapped ==> curr == expected)
      invariant forall j: nat :: j < |fields| && Passed(expected, j, curr, wrapped) ==> !Names(fields, key, j)
      decreases !wrapped, if curr >= expected then |fields| - curr + expected else expected - curr
    {
      if fields[curr].name == CString(key) {
        OneName(fields, key, curr);
        return Some(curr);
      }
      assert !Names(fields, key, curr);
      curr := if curr + 1 == |fields| then 0 else curr + 1;
      wrapped := curr == expected;
    }
    NoName(fields, key);
    r := None;
  }

  /** Position `j` was looked at on the way from `from` to `curr`. */
  predicate Passed(from: nat, j: nat, curr: nat, wrapped: bool) {
    wrapped || (if from <= curr then from <= j < curr else j >= from || j < curr)
  }

  lemma OneName(fields: seq<Field>, key: string, i: nat)
    requires Schema(fields) && Names(fields, key, i)
    ensures Find(fields, key, 0) == Some(i)
  {
    assert Find(fields, key, 0).Some?;
  }

  lemma NoName(fields: seq<Field>, key: string)
    requires forall j: nat :: j < |fields| ==> !Names(fields, key, j)
    ensures Find(fields, key, 0) == None
  {
  }

  /** load_datas. */
  method LoadItems(data: string) returns (r: Option<seq<string>>)
    requires |data| < U64
    ensures r == Items(data)
  {
    var rest, items := data, [];
    assert forall xs: seq<string> :: [] + xs == xs;
    while |rest| > 0
      invariant |rest| < U64
      invariant Items(data) == match Items(rest) case None => None case Some(more) => Some(items + more)
      decreases |rest|
    {
      match Next(rest) {
        case None => return None;
        case Some((item, more)) =>
          ghost var before := items;
          items, rest := items + [item], more;
          assert forall xs: seq<string> :: before + ([item] + xs) == items + xs;
      }
    }
    assert items + [] == items;
    r := Some(items);
  }

  /** load_longs: each element through s2l. */
  method LoadLongs(data: string) returns (r: Option<seq<int>>)
    requires |data| < U64
    ensures r == match Items(data) case None => None case Some(items) => Some(Longs64(items))
  {
    var items := LoadItems(data);
    if items.None? {
      return None;
    }
    var ns := [];
    for i := 0 to |items.value|
      invariant |ns| == i && forall j :: 0 <= j < i ==> ns[j] == FromText(items.value[j])
    {
      var n := S2L(items.value[i]);
      ns := ns + [n];
    }
    assert ns == Longs64(items.value);
    r := Some(ns);
  }

  method LoadValue(t: Type, s: string) returns (r: Option<Value>)
    requires |s| < U64
    ensures r == Load(t, s)
  {
    match t
    case DataType => r := Some(Data(s));
    case LongType =>
      var n := S2L(s);
      r := Some(Long(n));
    case DatasType =>
      var items := LoadItems(s);
      r := if items.None? then None else Some(Datas(items.value));
    case LongsType =>
      var ns := LoadLongs(s);
      r := if ns.None? then None else Some(Longs(ns.value));
  }

  method AssignPair(fields: seq<Field>, rec: seq<Value>, p: Pair, expected: nat) returns (r: Option<seq<Value>>)
    requires Schema(fields) && expected < |fields| == |rec| && |p.value| < U64
    ensures r == Assign(fields, rec, p)
  {
    var i := FindField(fields, p.key, expected);
    if i.None? {
      return Some(rec);
    }
    var v := LoadValue(fields[i.value].typ, p.value);
    r := if v.None? then None else Some(rec[i.value := v.value]);
  }

  /** ycl_msg_parse_*. */
  method ParseMessage(fields: seq<Field>, buf: string) returns (r: Option<seq<Value>>)
    requires Schema(fields) && |buf| < U64
    ensures r == Parsed(fields, buf)
  {
    if fields == [] {
      return Some([]);
    }
    var outer := Next(buf);
    if outer.None? {
      return None;
    }
    var rec, data := Defaults(fields), outer.value.0;
    var expected := 0;
    var p := NextPair(data);
    while p.Some?
      invariant |rec| == |fields| && |data| < U64 && p == NextPair(data) && expected < |fields|
      invariant Parsed(fields, buf) == Fill(fields, rec, data)
      decreases |data|
    {
      var next := AssignPair(fields, rec, p.value, expected);
      if next.None? {
        return None;
      }
      rec, data := next.value, p.value.rest;
      expected := if expected + 1 == |fields| then 0 else expected + 1;
      p := NextPair(data);
    }
    r := Some(rec);
  }

  // ----- the round trip

  lemma LongsRoundTrip(ns: seq<int>, width: nat)
    requires width >= 22 && forall i :: 0 <= i < |ns| ==> Int64(ns[i])
    ensures Longs64(Texts(ns, width)) == ns
  {
    forall i | 0 <= i < |ns| ensures FromText(Texts(ns, width)[i]) == ns[i] {
      TextRoundTrip(ns[i], width);
    }
  }

  lemma ValueRoundTrip(v: Value, t: Type, width: nat)
    requires Typed(v, t) && width >= 22 && |Text(v, width)| < U64
    ensures Load(t, Text(v, width)) == Some(v)
  {
    match v
    case Data(_) =>
    case Long(n) => TextRoundTrip(n, width);
    case Datas(datas) => ItemsOfEncoded(datas);
    case Longs(longs) =>
      ItemsOfEncoded(Texts(longs, width));
      LongsRoundTrip(longs, width);
  }

  /** The message read so far: the first `i` fields, the others still at their defaults. */
  function Part(fields: seq<Field>, msg: seq<Value>, i: nat): (rec: seq<Value>)
    requires |msg| == |fields| && i <= |fields|
    ensures |rec| == |fields|
  {
    msg[..i] + Defaults(fields)[i..]
  }

  lemma PairRoundTrip(fields: seq<Field>, rec: seq<Value>, i: nat, v: Value, width: nat, rest: string)
    requires Schema(fields) && |rec| == |fields| && i < |fields| && Typed(v, fields[i].typ) && width >= 22
    requires |EncodedPair(fields[i].name, Text(v, width)) + rest| < U64
    ensures Fill(fields, rec, EncodedPair(fields[i].name, Text(v, width)) + rest) == Fill(fields, rec[i := v], rest)
  {
    var name, text := fields[i].name, Text(v, width);
    NextPairOfEncoded(name, text, rest);
    assert Names(fields, name, i);
    OneName(fields, name, i);
    ValueRoundTrip(v, fields[i].typ, width);
    assert Assign(fields, rec, Pair(name, text, rest)) == Some(rec[i := v]);
  }

  lemma PartGrows(fields: seq<Field>, msg: seq<Value>, i: nat)
    requires |msg| == |fields| && i < |fields|
    ensures Part(fields, msg, i)[i := msg[i]] == Part(fields, msg, i + 1)
    ensures msg[i] == Default(fields[i].typ) ==> Part(fields, msg, i) == Part(fields, msg, i + 1)
  {
  }

  lemma PieceRoundTrip(fields: seq<Field>, msg: seq<Value>, width: nat, i: nat, rest: string)
    requires Schema(fields) && Message(fields, msg) && width >= 22 && i < |fields|
    requires |Piece(fields[i], msg[i], width) + rest| < U64
    ensures Fill(fields, Part(fields, msg, i), Piece(fields[i], msg[i], width) + rest)
            == Fill(fields, Part(fields, msg, i + 1), rest)
  {
    PartGrows(fields, msg, i);
    if msg[i] == Default(fields[i].typ) {
      assert "" + rest == rest;
    } else {
      PairRoundTrip(fields, Part(fields, msg, i), i, msg[i], width, rest);
    }
  }

  lemma {:induction false} BodyRoundTrip(fields: seq<Field>, msg: seq<Value>, width: nat, i: nat)
    requires Schema(fields) && Message(fields, msg) && width >= 22 && i <= |fields|
    requires |Body(fields, msg, width, i)| < U64
    ensures Fill(fields, Part(fields, msg, i), Body(fields, msg, width, i)) == Some(msg)
    decreases |fields| - i
  {
    if i == |fields| {
      assert Part(fields, msg, i) == msg;
    } else {
      PieceRoundTrip(fields, msg, width, i, Body(fields, msg, width, i + 1));
      BodyRoundTrip(fields, msg, width, i + 1);
    }
  }

  /** For every schema, parsing what was created gives back the message. */
  lemma RoundTrip(fields: seq<Field>, msg: seq<Value>, width: nat)
    requires Schema(fields) && Message(fields, msg) && width >= 22
    requires |Created(fields, msg, width)| < U64
    ensures Parsed(fields, Created(fields, msg, width)) == Some(msg)
  {
    if fields != [] {
      var body := Body(fields, msg, width, 0);
      assert Encoded(body) + "" == Encoded(body);
      NextOfEncoded(body, "");
      assert Part(fields, msg, 0) == Defaults(fields);
      BodyRoundTrip(fields, msg, width, 0);
    }
  }
}
