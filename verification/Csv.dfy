/** Comma-separated rows of lib/util/csv.c (section 2 of RFC 4180): the encoder and the reader. */
module Csv {
  import opened Sequences
  import opened Wrappers

  // ----- encoding

  predicate Special(c: char) {
    c == '\r' || c == '\n' || c == '"' || c == ','
  }

  predicate Plain(s: string) {
    forall i :: 0 <= i < |s| ==> !Special(s[i])
  }

  /** What can end a column: a separator, an end of line, or the end of the input. */
  datatype Ending = Comma | CrLf | Cr | Lf | EndOfInput

  function Mark(e: Ending): (t: string) {
    match e
    case Comma => ","
    case CrLf => "\r\n"
    case Cr => "\r"
    case Lf => "\n"
    case EndOfInput => ""
  }

  function Twice(c: char): (t: string) {
    if c == '"' then "\"\"" else [c]
  }

  /** Quotes inside a quoted field are doubled. */
  function Doubled(s: string): (t: string) {
    if s == "" then "" else Twice(s[0]) + Doubled(s[1..])
  }

  function Field(s: string): (t: string) {
    if Plain(s) then s else "\"" + Doubled(s) + "\""
  }

  /** The row from column `k` on, and what ends it. */
  function RowFrom(row: seq<string>, k: nat, e: Ending): (t: string)
    requires k < |row|
    decreases |row| - k, 1
  {
    Field(row[k]) + RowRest(row, k, e)
  }

  /** What follows column `k`. */
  function RowRest(row: seq<string>, k: nat, e: Ending): (t: string)
    requires k < |row|
    decreases |row| - k, 0
  {
    if k + 1 < |row| then "," + RowFrom(row, k + 1, e) else Mark(e)
  }

  function Row(row: seq<string>): (t: string) {
    if row == [] then "" else RowFrom(row, 0, CrLf)
  }

  // ----- reading

  /** What reading a column gives: its text, whether the row goes on, and where. */
  datatype Column = Column(text: string, more: bool, next: nat)

  function Prepend(c: char, col: Column): (r: Column) {
    col.(text := [c] + col.text)
  }

  /** Behind a carriage return at `i` and the line feed that may follow. */
  function PastLine(s: string, i: nat): (j: nat)
    requires i < |s|
    ensures i < j <= |s|
  {
    if i + 1 < |s| && s[i + 1] == '\n' then i + 2 else i + 1
  }

  function Unescaped(s: string, i: nat): (c: Column)
    requires i <= |s|
    ensures i <= c.next <= |s| && (i < |s| ==> i < c.next)
    decreases |s| - i
  {
    if i == |s| then Column("", false, i)
    else if s[i] == '\r' then Column("", false, PastLine(s, i))
    else if s[i] == '\n' then Column("", false, i + 1)
    else if s[i] == ',' then Column("", true, i + 1)
    else Prepend(s[i], Unescaped(s, i + 1))
  }

  /** A quote ends the field before a separator or the end of the line; before anything else it only escapes it. */
  function Escaped(s: string, i: nat): (c: Column)
    requires i <= |s|
    ensures i <= c.next <= |s|
    decreases |s| - i
  {
    if i == |s| then Column("", false, i)
    else if s[i] != '"' then Prepend(s[i], Escaped(s, i + 1))
    else if i + 1 == |s| then Column("", false, i + 1)
    else if s[i + 1] == ',' then Column("", true, i + 2)
    else if s[i + 1] == '\r' then Column("", false, PastLine(s, i + 1))
    else if s[i + 1] == '\n' then Column("", false, i + 2)
    else Prepend(s[i + 1], Escaped(s, i + 2))
  }

  /** The columns of a row and where the next row begins. */
  datatype Line = Line(cols: seq<string>, next: nat)

  function EndOfLine(lastsep: bool, next: nat): (l: Line) {
    Line(if lastsep then [""] else [], next)
  }

  /** csv_read_row from `i` on; `lastsep` says that a separator came last. */
  function ReadFrom(s: string, i: nat, lastsep: bool): (l: Line)
    requires i <= |s|
    ensures i <= l.next <= |s|
    decreases |s| - i
  {
    if i == |s| then EndOfLine(lastsep, i)
    else if s[i] == '\r' then EndOfLine(lastsep, PastLine(s, i))
    else if s[i] == '\n' then EndOfLine(lastsep, i + 1)
    else if s[i] == ',' then
      var l := ReadFrom(s, i + 1, true);
      Line([""] + l.cols, l.next)
    else
      var c := if s[i] == '"' then Escaped(s, i + 1) else Unescaped(s, i);
      if c.more then
        var l := ReadFrom(s, c.next, true);
        Line([c.text] + l.cols, l.next)
      else Line([c.text], c.next)
  }

  // ----- the round trip

  /** The characters of `part` are those of `s` from `i` on. */
  ghost predicate At(s: string, i: nat, part: string) {
    i + |part| <= |s| && Stands(s, i, part) == true
  }

  ghost predicate Stands(s: string, i: nat, part: string)
    requires i + |part| <= |s|
  {
    forall k: nat :: Open(k) ==> s[i..i + |part|] == part
  }

  lemma AtSplits(s: string, i: nat, a: string, b: string)
    requires At(s, i, a + b)
    ensures At(s, i, a) && At(s, i + |a|, b)
  {
    assert Open(0);
    assert s[i..i + |a|] == s[i..i + |a + b|][..|a|];
    assert s[i + |a|..i + |a| + |b|] == s[i..i + |a + b|][|a|..];
  }

  lemma QuoteSplits(s: string, i: nat, q: string, inner: string, all: string)
    requires At(s, i, all) && all == q + inner + q && |q| == 1
    ensures At(s, i, q) && At(s, i + 1, inner) && At(s, i + 1 + |inner|, q) && |all| == |inner| + 2
  {
    AtSplits(s, i, q + inner, q);
    AtSplits(s, i, q, inner);
  }

  lemma AtReads(s: string, i: nat, part: string, k: nat)
    requires At(s, i, part) && k < |part|
    ensures s[i + k] == part[k]
  {
    assert Open(0);
    assert s[i + k] == s[i..i + |part|][k];
  }

  /** The column ends like that at `i`. */
  ghost predicate Ends(s: string, i: nat, e: Ending) {
    At(s, i, Mark(e)) && Closed(s, i + |Mark(e)|, e)
  }

  /** A carriage return ends a line by itself if no line feed follows. */
  predicate Closed(s: string, i: nat, e: Ending) {
    match e
    case Cr => i < |s| ==> s[i] != '\n'
    case EndOfInput => i == |s|
    case _ => true
  }

  function Behind(i: nat, e: Ending): (j: nat) {
    i + |Mark(e)|
  }

  lemma EndsReads(s: string, i: nat, e: Ending)
    requires Ends(s, i, e)
    ensures i <= Behind(i, e) <= |s| && (i == |s| <==> e == EndOfInput)
    ensures match e
            case Comma => s[i] == ','
            case CrLf => s[i] == '\r' && PastLine(s, i) == i + 2
            case Cr => s[i] == '\r' && PastLine(s, i) == i + 1
            case Lf => s[i] == '\n'
            case EndOfInput => true
  {
    if e != EndOfInput {
      AtReads(s, i, Mark(e), 0);
    }
    if e == CrLf {
      AtReads(s, i, Mark(e), 1);
    }
  }

  lemma {:induction false} ReadsUnescaped(s: string, i: nat, text: string, e: Ending)
    requires Plain(text) && At(s, i, text) && Ends(s, i + |text|, e)
    ensures Unescaped(s, i) == Column(text, e.Comma?, Behind(i + |text|, e))
    decreases |text|
  {
    if text == "" {
      EndsReads(s, i, e);
    } else {
      assert text == [text[0]] + text[1..];
      AtSplits(s, i, [text[0]], text[1..]);
      AtReads(s, i, [text[0]], 0);
      ReadsUnescaped(s, i + 1, text[1..], e);
    }
  }

  lemma PrependsText(text: string, e: Ending, next: nat)
    requires text != ""
    ensures Prepend(text[0], Column(text[1..], e.Comma?, next)) == Column(text, e.Comma?, next)
  {
    assert text == [text[0]] + text[1..];
  }

  lemma EscapedReads(s: string, i: nat, c: char)
    requires At(s, i, Twice(c))
    ensures Escaped(s, i) == Prepend(c, Escaped(s, i + |Twice(c)|))
  {
    AtReads(s, i, Twice(c), 0);
    AtReads(s, i, Twice(c), |Twice(c)| - 1);
  }

  lemma {:induction false} ReadsEscaped(s: string, i: nat, text: string, j: nat, e: Ending)
    requires At(s, i, Doubled(text)) && j == i + |Doubled(text)| && At(s, j, "\"") && Ends(s, j + 1, e)
    ensures Escaped(s, i) == Column(text, e.Comma?, Behind(j + 1, e))
    decreases |text|
  {
    if text == "" {
      AtReads(s, i, "\"", 0);
      EndsReads(s, i + 1, e);
    } else {
      var head, tail := Twice(text[0]), Doubled(text[1..]);
      AtSplits(s, i, head, tail);
      EscapedReads(s, i, text[0]);
      ReadsEscaped(s, i + |head|, text[1..], j, e);
      PrependsText(text, e, Behind(j + 1, e));
    }
  }

  lemma FieldSplits(s: string, i: nat, text: string)
    requires !Plain(text) && At(s, i, Field(text))
    ensures At(s, i, "\"") && At(s, i + 1, Doubled(text)) && At(s, i + 1 + |Doubled(text)|, "\"")
    ensures |Field(text)| == |Doubled(text)| + 2
  {
    QuoteSplits(s, i, "\"", Doubled(text), Field(text));
  }

  lemma ReadsPlain(s: string, i: nat, text: string, e: Ending)
    requires text != "" && Plain(text) && At(s, i, text) && Ends(s, i + |text|, e)
    ensures i < |s| && !Special(s[i]) && Unescaped(s, i) == Column(text, e.Comma?, Behind(i + |text|, e))
  {
    AtReads(s, i, text, 0);
    ReadsUnescaped(s, i, text, e);
  }

  lemma ReadsQuoted(s: string, i: nat, text: string, j: nat, e: Ending)
    requires At(s, i, "\"") && At(s, i + 1, Doubled(text)) && j == i + 1 + |Doubled(text)| && At(s, j, "\"") &&
             Ends(s, j + 1, e)
    ensures i < |s| && s[i] == '"' && Escaped(s, i + 1) == Column(text, e.Comma?, Behind(j + 1, e))
  {
    AtReads(s, i, "\"", 0);
    ReadsEscaped(s, i + 1, text, j, e);
  }

  /** What ReadFrom does with a column. */
  function Followed(s: string, c: Column): (l: Line)
    requires c.next <= |s|
  {
    if c.more then var l := ReadFrom(s, c.next, true); Line([c.text] + l.cols, l.next) else Line([c.text], c.next)
  }

  /** Reading from `i` on begins with this column ... */
  ghost predicate Begins(s: string, i: nat, lastsep: bool, c: Column) {
    forall k: nat :: OpenIn(OfFieldRead, k) ==> i <= |s| && c.next <= |s| && ReadFrom(s, i, lastsep) == Followed(s, c)
  }

  /** ... and gives the columns of `row` from `k` on and ends there. */
  ghost predicate Gives(s: string, i: nat, lastsep: bool, row: seq<string>, k: nat, end: nat) {
    forall k': nat :: OpenIn(OfRowsRead, k') ==>
      i <= |s| && k <= |row| && ReadFrom(s, i, lastsep) == Line(row[k..], end)
  }

  lemma GivesLast(s: string, i: nat, lastsep: bool, row: seq<string>, k: nat, end: nat)
    requires k + 1 == |row| && Begins(s, i, lastsep, Column(row[k], false, end)) == true
    ensures Gives(s, i, lastsep, row, k, end) == true
  {
    assert OpenIn(OfRowsRead, 0) && OpenIn(OfFieldRead, 0);
    assert row[k..] == [row[k]];
  }

  lemma GivesMore(s: string, i: nat, lastsep: bool, row: seq<string>, k: nat, next: nat, end: nat)
    requires k + 1 < |row| && Begins(s, i, lastsep, Column(row[k], true, next)) == true
    requires Gives(s, next, true, row, k + 1, end) == true
    ensures Gives(s, i, lastsep, row, k, end) == true
  {
    assert OpenIn(OfRowsRead, 0) && OpenIn(OfFieldRead, 0);
    assert row[k..] == [row[k]] + row[k + 1..];
  }

  lemma PlainColumn(s: string, i: nat, text: string, j: nat, e: Ending, lastsep: bool)
    requires text != "" && Plain(text) && At(s, i, text) && j == i + |text| && Ends(s, j, e)
    ensures Begins(s, i, lastsep, Column(text, e.Comma?, Behind(j, e))) == true
  {
    EndsReads(s, j, e);
    ReadsPlain(s, i, text, e);
  }

  lemma QuotedColumn(s: string, i: nat, text: string, j: nat, e: Ending, lastsep: bool)
    requires At(s, i, "\"") && At(s, i + 1, Doubled(text)) && At(s, i + 1 + |Doubled(text)|, "\"")
    requires j == i + |Doubled(text)| + 2 && Ends(s, j, e)
    ensures Begins(s, i, lastsep, Column(text, e.Comma?, Behind(j, e))) == true
  {
    EndsReads(s, j, e);
    ReadsQuoted(s, i, text, j - 1, e);
  }

  lemma EmptyColumn(s: string, i: nat, e: Ending, lastsep: bool)
    requires Ends(s, i, e) && (lastsep || e.Comma?)
    ensures Begins(s, i, lastsep, Column("", e.Comma?, Behind(i, e))) == true
  {
    EndsReads(s, i, e);
  }

  /** The field stands from `i` to `j`, where the column ends. */
  ghost predicate FieldAt(s: string, i: nat, text: string, j: nat, e: Ending) {
    forall k: nat :: OpenIn(OfFieldText, k) ==> At(s, i, Field(text)) && j == i + |Field(text)| && Ends(s, j, e)
  }

  lemma QuotedField(s: string, i: nat, text: string, j: nat, e: Ending, lastsep: bool)
    requires !Plain(text) && FieldAt(s, i, text, j, e) == true
    ensures Begins(s, i, lastsep, Column(text, e.Comma?, Behind(j, e))) == true
  {
    assert OpenIn(OfFieldText, 0);
    FieldSplits(s, i, text);
    QuotedColumn(s, i, text, j, e, lastsep);
  }

  /** One column and what ends it. */
  lemma ReadsColumn(s: string, i: nat, text: string, j: nat, e: Ending, lastsep: bool)
    requires FieldAt(s, i, text, j, e) == true && (lastsep || text != "" || e.Comma?)
    ensures Begins(s, i, lastsep, Column(text, e.Comma?, Behind(j, e))) == true
  {
    if !Plain(text) {
      QuotedField(s, i, text, j, e, lastsep);
    } else {
      assert OpenIn(OfFieldText, 0);
      if text == "" {
        EmptyColumn(s, i, e, lastsep);
      } else {
        PlainColumn(s, i, text, j, e, lastsep);
      }
    }
  }

  /** The row from column `k` on stands from `i` to `end`. */
  ghost predicate RowAt(s: string, i: nat, row: seq<string>, k: nat, e: Ending, end: nat)
    requires k < |row|
  {
    forall k': nat :: OpenIn(OfRowText, k') ==>
      At(s, i, RowFrom(row, k, e)) && end == i + |RowFrom(row, k, e)| && Closed(s, end, e)
  }

  lemma RowReads(s: string, i: nat, row: seq<string>, k: nat, e: Ending, end: nat, j: nat)
    requires k < |row| && RowAt(s, i, row, k, e, end) == true && j == i + |Field(row[k])|
    ensures At(s, i, Field(row[k])) && At(s, j, RowRest(row, k, e)) && end == j + |RowRest(row, k, e)|
    ensures Closed(s, end, e)
  {
    assert OpenIn(OfRowText, 0);
    AtSplits(s, i, Field(row[k]), RowRest(row, k, e));
  }

  lemma IsField(s: string, i: nat, text: string, j: nat, e: Ending)
    requires At(s, i, Field(text)) && j == i + |Field(text)| && Ends(s, j, e)
    ensures FieldAt(s, i, text, j, e) == true
  {
  }

  lemma IsRow(s: string, i: nat, row: seq<string>, k: nat, e: Ending, end: nat)
    requires k < |row| && At(s, i, RowFrom(row, k, e)) && end == i + |RowFrom(row, k, e)| && Closed(s, end, e)
    ensures RowAt(s, i, row, k, e, end) == true
  {
  }

  lemma CommaSplits(s: string, j: nat, tail: string, rest: string)
    requires At(s, j, rest) && rest == "," + tail
    ensures Ends(s, j, Comma) && At(s, j + 1, tail) && |rest| == |tail| + 1
  {
    AtSplits(s, j, ",", tail);
  }

  lemma MarkEnds(s: string, j: nat, e: Ending, end: nat, rest: string)
    requires At(s, j, rest) && rest == Mark(e) && end == j + |rest| && Closed(s, end, e)
    ensures Ends(s, j, e) && end == Behind(j, e)
  {
  }

  lemma RowSplits(s: string, i: nat, row: seq<string>, k: nat, e: Ending, end: nat) returns (j: nat)
    requires k < |row| && RowAt(s, i, row, k, e, end) == true
    ensures if k + 1 < |row|
            then FieldAt(s, i, row[k], j, Comma) == true && RowAt(s, j + 1, row, k + 1, e, end) == true
            else FieldAt(s, i, row[k], j, e) == true && end == Behind(j, e)
  {
    j := i + |Field(row[k])|;
    RowReads(s, i, row, k, e, end, j);
    if k + 1 < |row| {
      CommaSplits(s, j, RowFrom(row, k + 1, e), RowRest(row, k, e));
      IsField(s, i, row[k], j, Comma);
      IsRow(s, j + 1, row, k + 1, e, end);
    } else {
      MarkEnds(s, j, e, end, RowRest(row, k, e));
      IsField(s, i, row[k], j, e);
    }
  }

  /** The columns from `k` on; an empty last one is seen only because a separator came before it. */
  lemma {:induction false} ReadsRow(s: string, i: nat, row: seq<string>, k: nat, e: Ending, end: nat, lastsep: bool)
    requires k < |row| && RowAt(s, i, row, k, e, end) == true && (lastsep || row[k] != "" || k + 1 < |row|) && !e.Comma?
    ensures Gives(s, i, lastsep, row, k, end) == true
    decreases |row| - k
  {
    var j := RowSplits(s, i, row, k, e, end);
    if k + 1 < |row| {
      ReadsRow(s, j + 1, row, k + 1, e, end, true);
      ReadsColumn(s, i, row[k], j, Comma, lastsep);
      GivesMore(s, i, lastsep, row, k, j + 1, end);
    } else {
      ReadsColumn(s, i, row[k], j, e, lastsep);
      GivesLast(s, i, lastsep, row, k, end);
    }
  }

  /** Every row but two kinds comes back from its text, however the line ends and whatever follows. */
  lemma AnyEndingReads(row: seq<string>, e: Ending, rest: string)
    requires row != [] && row != [""] && !e.Comma? && Closed(RowFrom(row, 0, e) + rest, |RowFrom(row, 0, e)|, e)
    ensures ReadFrom(RowFrom(row, 0, e) + rest, 0, false) == Line(row, |RowFrom(row, 0, e)|)
  {
    var text := RowFrom(row, 0, e);
    var s := text + rest;
    assert s[0..|text|] == text && row[0..] == row;
    if |row| == 1 {
      assert row == [row[0]];
    }
    ReadsRow(s, 0, row, 0, e, |text|, false);
    assert OpenIn(OfRowsRead, 0);
  }

  /** ... as from its encoding. */
  lemma RowRoundTrip(row: seq<string>, rest: string)
    requires row != [] && row != [""]
    ensures ReadFrom(Row(row) + rest, 0, false) == Line(row, |Row(row)|)
  {
    AnyEndingReads(row, CrLf, rest);
  }

  /** The two kinds: one empty column reads back as none, and no columns leave no trace. */
  lemma RowsThatDoNot(rest: string)
    ensures ReadFrom(Row([""]) + rest, 0, false) == Line([], |Row([""])|)
    ensures Row([]) + rest == rest
  {
    var s := Row([""]) + rest;
    assert Row([""]) == "" + Mark(CrLf) == Mark(CrLf);
    assert s[0] == '\r' && s[1] == '\n';
  }

  /** Rows that lib/util/csv_test.c encodes. */
  lemma Samples()
    ensures Row(["x", "y"]) == "x,y\r\n" && Row(["", "y"]) == ",y\r\n" && Row(["\""]) == "\"\"\"\"\r\n"
  {
    assert RowFrom(["x", "y"], 1, CrLf) == "y\r\n" && RowFrom(["", "y"], 1, CrLf) == "y\r\n";
    assert !Plain("\"") by {
      assert Special("\""[0]);
    }
    assert Doubled("\"") == "\"\"" + Doubled("") == "\"\"";
    assert Field("\"") == "\"\"\"\"";
    assert RowFrom(["\""], 0, CrLf) == Field("\"") + "\r\n";
  }

  /** A quote that nothing ends is passed over. */
  lemma Postel()
    ensures Escaped("f\"b,z", 0) == Column("fb,z", false, 5)
  {
    var s := "f\"b,z";
    assert Escaped(s, 5) == Column("", false, 5);
    assert Escaped(s, 4) == Column("z", false, 5);
    assert Escaped(s, 3) == Column(",z", false, 5);
    assert Escaped(s, 1) == Column("b,z", false, 5);
  }

  function Rows(rows: seq<seq<string>>): (s: string) {
    if rows == [] then "" else Row(rows[0]) + Rows(rows[1..])
  }

  /** The first `n` rows that are read, one call after another. */
  function ReadRows(s: string, n: nat): (rows: seq<seq<string>>) {
    if n == 0 then [] else
      var l := ReadFrom(s, 0, false);
      [l.cols] + ReadRows(s[l.next..], n - 1)
  }

  /** What is left of the rows in their encoding: those of no columns are gone, an empty column is none. */
  function Seen(rows: seq<seq<string>>): (seen: seq<seq<string>>)
    ensures |seen| <= |rows| && [""] !in seen
  {
    if rows == [] then []
    else if rows[0] == [] then Seen(rows[1..])
    else [if rows[0] == [""] then [] else rows[0]] + Seen(rows[1..])
  }

  /** Behind the end of the stream every row that is read has no columns. */
  function Padded(rows: seq<seq<string>>, n: nat): (all: seq<seq<string>>)
    requires |rows| <= n
    ensures |all| == n && rows <= all && forall i :: |rows| <= i < n ==> all[i] == []
  {
    rows + seq(n - |rows|, _ => [])
  }

  lemma {:induction false} ReadsNothing(n: nat)
    ensures ReadRows("", n) == Padded([], n)
  {
    if n > 0 {
      ReadsNothing(n - 1);
    }
  }

  lemma PaddedCons(row: seq<string>, rows: seq<seq<string>>, n: nat)
    requires |rows| < n
    ensures Padded([row] + rows, n) == [row] + Padded(rows, n - 1)
  {
  }

  /** One row, and the reading of the others. */
  lemma ReadsOne(row: seq<string>, rest: string, n: nat)
    requires row != [] && n > 0
    ensures ReadRows(Row(row) + rest, n) == [if row == [""] then [] else row] + ReadRows(rest, n - 1)
  {
    if row == [""] {
      RowsThatDoNot(rest);
    } else {
      RowRoundTrip(row, rest);
    }
    assert (Row(row) + rest)[|Row(row)|..] == rest;
  }

  /** The stream reads as `seen` and then nothing, whatever the number of rows asked for. */
  ghost predicate ReadsAs(s: string, n: nat, seen: seq<seq<string>>) {
    forall k: nat :: Open(k) ==> |seen| <= n && ReadRows(s, n) == Padded(seen, n)
  }

  lemma SeenCons(row: seq<string>, rest: string, seen: seq<seq<string>>, n: nat, s: string, all: seq<seq<string>>)
    requires row != [] && n > 0 && ReadsAs(rest, n - 1, seen) == true
    requires s == Row(row) + rest && all == [if row == [""] then [] else row] + seen
    ensures ReadsAs(s, n, all) == true
  {
    assert Open(0);
    ReadsOne(row, rest, n);
    PaddedCons(if row == [""] then [] else row, seen, n);
  }

  lemma NothingReads(n: nat)
    ensures ReadsAs("", n, []) == true
  {
    ReadsNothing(n);
  }

  lemma NoColumns(rows: seq<seq<string>>)
    requires rows != [] && rows[0] == []
    ensures Rows(rows) == Rows(rows[1..]) && Seen(rows) == Seen(rows[1..])
  {
    RowsThatDoNot(Rows(rows[1..]));
  }

  lemma {:induction false} StreamReads(rows: seq<seq<string>>, n: nat)
    requires |Seen(rows)| <= n
    ensures ReadsAs(Rows(rows), n, Seen(rows)) == true
    decreases |rows|
  {
    if rows == [] {
      NothingReads(n);
    } else if rows[0] == [] {
      NoColumns(rows);
      StreamReads(rows[1..], n);
    } else {
      StreamReads(rows[1..], n - 1);
      SeenCons(rows[0], Rows(rows[1..]), Seen(rows[1..]), n, Rows(rows), Seen(rows));
    }
  }

  /** What is read from any stream of encoded rows. */
  lemma ReadsSeen(rows: seq<seq<string>>, n: nat)
    requires |Seen(rows)| <= n
    ensures ReadRows(Rows(rows), n) == Padded(Seen(rows), n)
  {
    StreamReads(rows, n);
    assert Open(0);
  }

  /** No row is one empty column, and rows of no columns come last. */
  ghost predicate Comes(rows: seq<seq<string>>) {
    && (forall i :: 0 <= i < |rows| ==> rows[i] != [""])
    && (forall i, j :: 0 <= i < j < |rows| && rows[i] == [] ==> rows[j] == [])
  }

  lemma {:induction false} SeenNonEmpty(rows: seq<seq<string>>)
    requires [""] !in rows
    ensures [] !in Seen(rows)
    ensures Seen(rows) == [] ==> forall i :: 0 <= i < |rows| ==> rows[i] == []
  {
    if rows != [] {
      SeenNonEmpty(rows[1..]);
    }
  }

  lemma {:induction false} SeenNone(rows: seq<seq<string>>)
    requires forall i :: 0 <= i < |rows| ==> rows[i] == []
    ensures Seen(rows) == []
  {
    if rows != [] {
      SeenNone(rows[1..]);
    }
  }

  lemma {:induction false} SeenIsAll(rows: seq<seq<string>>)
    requires Comes(rows)
    ensures Padded(Seen(rows), |rows|) == rows
  {
    if rows != [] && rows[0] == [] {
      SeenNone(rows);
    } else if rows != [] {
      SeenIsAll(rows[1..]);
      assert rows == [rows[0]] + rows[1..];
    }
  }

  lemma {:induction false} AllIsSeen(rows: seq<seq<string>>)
    requires Padded(Seen(rows), |rows|) == rows
    ensures Comes(rows)
  {
    if rows != [] {
      assert [""] !in rows;
      SeenNonEmpty(rows);
      if rows[0] != [] {
        assert Seen(rows) == [rows[0]] + Seen(rows[1..]);
        assert Padded(Seen(rows[1..]), |rows| - 1) == rows[1..];
        AllIsSeen(rows[1..]);
        assert rows == [rows[0]] + rows[1..];
      }
    }
  }

  /** A stream of encoded rows is read back row by row exactly under that condition. */
  lemma StreamRoundTrip(rows: seq<seq<string>>)
    ensures ReadRows(Rows(rows), |rows|) == rows <==> Comes(rows)
  {
    ReadsSeen(rows, |rows|);
    if Comes(rows) {
      SeenIsAll(rows);
    } else if Padded(Seen(rows), |rows|) == rows {
      AllIsSeen(rows);
    }
  }

  // ----- the loops

  method AppendDoubled(buf: string, s: string) returns (out: string)
    ensures out == buf + "\"" + Doubled(s) + "\""
  {
    out := buf + "\"";
    for i := 0 to |s|
      invariant out + Doubled(s[i..]) == buf + "\"" + Doubled(s)
    {
      assert s[i..] == [s[i]] + s[i + 1..];
      Regroup(out, Twice(s[i]), Doubled(s[i + 1..]));
      out := out + Twice(s[i]);
    }
    assert out + "" == out;
    out := out + "\"";
  }

  /** strcspn: whether a field can stand as it is. */
  method IsPlain(s: string) returns (b: bool)
    ensures b == Plain(s)
  {
    var off := 0;
    while off < |s| && !Special(s[off])
      invariant off <= |s| && forall i :: 0 <= i < off ==> !Special(s[i])
    {
      off := off + 1;
    }
    b := off == |s|;
  }

  method AppendField(buf: string, s: string) returns (out: string)
    ensures out == buf + Field(s)
  {
    var plain := IsPlain(s);
    if plain {
      out := buf + s;
    } else {
      out := AppendDoubled(buf, s);
    }
  }

  function RowUpTo(row: seq<string>, n: nat): (t: string)
    requires n <= |row|
  {
    if n == 0 then "" else RowUpTo(row, n - 1) + (if n > 1 then "," else "") + Field(row[n - 1])
  }

  lemma {:induction false} RowJoins(row: seq<string>, n: nat)
    requires 0 < n <= |row|
    ensures RowUpTo(row, n) + RowRest(row, n - 1, CrLf) == Row(row)
  {
    if n == 1 {
      assert RowUpTo(row, 1) == "" + "" + Field(row[0]) == Field(row[0]);
    } else {
      RowJoins(row, n - 1);
      RowRegroups(RowUpTo(row, n - 1), Field(row[n - 1]), RowRest(row, n - 1, CrLf));
    }
  }

  lemma RowRegroups(a: string, b: string, c: string)
    ensures (a + "," + b) + c == a + ("," + (b + c))
  {
  }

  /** csv_encode. */
  method Encode(dst: string, row: seq<string>) returns (out: string)
    ensures out == dst + Row(row)
  {
    var cols := "";
    for i := 0 to |row|
      invariant cols == RowUpTo(row, i)
    {
      if i != 0 {
        cols := cols + ",";
      }
      cols := AppendField(cols, row[i]);
    }
    if |row| > 0 {
      RowJoins(row, |row|);
      cols := cols + Mark(CrLf);
    }
    out := dst + cols;
  }

  /** The column from `start` on is `text` and then the column from `i` on. */
  ghost predicate Partly(s: string, start: nat, i: nat, text: string) {
    forall k: nat :: Open(k) ==>
      start <= i <= |s| && Unescaped(s, start) == Unescaped(s, i).(text := text + Unescaped(s, i).text)
  }

  lemma PartlyMore(s: string, start: nat, i: nat, text: string)
    requires Partly(s, start, i, text) == true && i < |s| && s[i] != '\r' && s[i] != '\n' && s[i] != ','
    ensures Partly(s, start, i + 1, text + [s[i]]) == true
  {
    assert Open(0);
    Regroup(text, [s[i]], Unescaped(s, i + 1).text);
  }

  lemma PartlyAll(s: string, start: nat, i: nat, text: string)
    requires Partly(s, start, i, text) == true && start <= i <= |s|
    requires i == |s| || s[i] == '\r' || s[i] == '\n' || s[i] == ','
    ensures Unescaped(s, start) == Unescaped(s, i).(text := text)
  {
    assert Open(0);
    assert text + "" == text;
  }

  method ReadUnescaped(s: string, start: nat) returns (c: Column)
    requires start <= |s|
    ensures c == Unescaped(s, start)
  {
    var text, i := "", start;
    while i < |s| && s[i] != '\r' && s[i] != '\n' && s[i] != ','
      invariant start <= i <= |s| && Partly(s, start, i, text) == true
    {
      PartlyMore(s, start, i, text);
      text := text + [s[i]];
      i := i + 1;
    }
    PartlyAll(s, start, i, text);
    c := if i == |s| then Column(text, false, i)
         else if s[i] == '\r' then Column(text, false, PastLine(s, i))
         else Column(text, s[i] == ',', i + 1);
  }

  method ReadEscaped(s: string, start: nat) returns (c: Column)
    requires start <= |s|
    ensures c == Escaped(s, start)
  {
    var text, i := "", start;
    while i < |s|
      invariant start <= i <= |s|
      invariant Escaped(s, start) == Escaped(s, i).(text := text + Escaped(s, i).text)
      decreases |s| - i
    {
      var ch := s[i];
      if ch == '"' {
        i := i + 1;
        if i == |s| {
          assert text + "" == text;
          return Column(text, false, i);
        }
        ch := s[i];
        if ch == ',' || ch == '\n' {
          assert text + "" == text;
          return Column(text, ch == ',', i + 1);
        }
        if ch == '\r' {
          assert text + "" == text;
          return Column(text, false, PastLine(s, i));
        }
      }
      Regroup(text, [ch], Escaped(s, i + 1).text);
      text := text + [ch];
      i := i + 1;
    }
    assert text + "" == text;
    c := Column(text, false, i);
  }

  lemma RegroupCols(a: seq<string>, b: string, c: seq<string>)
    ensures a + ([b] + c) == (a + [b]) + c
  {
  }

  /** csv_read_row. */
  method ReadRow(s: string, start: nat) returns (l: Line)
    requires start <= |s|
    ensures l == ReadFrom(s, start, false)
  {
    var cols, i, more, lastsep := [], start, true, false;
    while more
      invariant start <= i <= |s|
      invariant ReadFrom(s, start, false) ==
                if more then var r := ReadFrom(s, i, lastsep); Line(cols + r.cols, r.next) else Line(cols, i)
      decreases more, |s| - i
    {
      if i == |s| || s[i] == '\r' || s[i] == '\n' {
        if i < |s| {
          i := if s[i] == '\r' then PastLine(s, i) else i + 1;
        }
        if lastsep {
          cols := cols + [""];
        }
        more := false;
      } else if s[i] == ',' {
        RegroupCols(cols, "", ReadFrom(s, i + 1, true).cols);
        cols, lastsep, i := cols + [""], true, i + 1;
      } else {
        var c;
        if s[i] == '"' {
          c := ReadEscaped(s, i + 1);
        } else {
          c := ReadUnescaped(s, i);
        }
        RegroupCols(cols, c.text, ReadFrom(s, c.next, true).cols);
        assert ReadFrom(s, i, lastsep) == Followed(s, c);
        cols, lastsep, more, i := cols + [c.text], c.more, c.more, c.next;
      }
    }
    l := Line(cols, i);
  }
}
