/**
 Record framing of lib/net/fcgi.c: records (section 3.3 of the FastCGI 1.0 specification) are cut
 from a byte stream that arrives in arbitrary pieces.
 */
module Fcgi {
  import opened Sequences
  import opened Wrappers

  type Byte = x: int | 0 <= x < 256

  // ----- records of a stream

  const HEADER: nat := 8

  /** The length of the record whose header comes first: header, content and padding. */
  function RecordLength(b: seq<Byte>): (n: nat)
    requires |b| >= HEADER
    ensures n >= HEADER
  {
    HEADER + (b[4] as int) * 256 + b[5] + b[6]
  }

  /** fcgi_is_complete_msg. */
  predicate Complete(b: seq<Byte>) {
    |b| >= HEADER && RecordLength(b) <= |b|
  }

  function RequestId(record: seq<Byte>): (id: (Byte, Byte))
    requires |record| >= HEADER
  {
    (record[2], record[3])
  }

  function Content(record: seq<Byte>): (c: seq<Byte>) {
    if Complete(record) then record[HEADER..HEADER + (record[4] as int) * 256 + record[5]] else []
  }

  function Records(s: seq<Byte>): (rs: seq<seq<Byte>>)
    decreases |s|
  {
    if Complete(s) then [s[..RecordLength(s)]] + Records(s[RecordLength(s)..]) else []
  }

  /** Where record `n` of the stream begins, or would begin. */
  function Offset(s: seq<Byte>, n: nat): (off: nat)
    requires n <= |Records(s)|
    ensures off <= |s|
    decreases n
  {
    if n == 0 then 0 else RecordLength(s) + Offset(s[RecordLength(s)..], n - 1)
  }

  lemma {:induction false} RecordsFrom(s: seq<Byte>, n: nat)
    requires n <= |Records(s)|
    ensures Records(s[Offset(s, n)..]) == Records(s)[n..]
    decreases n
  {
    if n == 0 {
      assert s[0..] == s;
    } else {
      var l := RecordLength(s);
      RecordsFrom(s[l..], n - 1);
      assert s[l..][Offset(s[l..], n - 1)..] == s[Offset(s, n)..];
      assert Records(s)[1..] == Records(s[l..]);
      assert Records(s)[n..] == Records(s)[1..][n - 1..];
    }
  }

  /** The next record moves the offset by its length. */
  lemma {:induction false} OffsetMoves(s: seq<Byte>, n: nat)
    requires n < |Records(s)|
    ensures var b := s[Offset(s, n)..];
            && Complete(b) && Records(s)[n] == b[..RecordLength(b)]
            && Offset(s, n + 1) == Offset(s, n) + RecordLength(b)
    decreases n
  {
    if n == 0 {
      assert s[0..] == s;
      assert Offset(s, 1) == RecordLength(s) + Offset(s[RecordLength(s)..], 0);
    } else {
      var l := RecordLength(s);
      OffsetMoves(s[l..], n - 1);
      assert s[l..][Offset(s[l..], n - 1)..] == s[Offset(s, n)..];
    }
  }

  /** More bytes never change the records already there. */
  lemma {:induction false} RecordsExtend(s: seq<Byte>, t: seq<Byte>, n: nat)
    requires n <= |Records(s)|
    ensures Records(s) <= Records(s + t) && Offset(s + t, n) == Offset(s, n)
    decreases |s|
  {
    if Complete(s) {
      var l := RecordLength(s);
      assert (s + t)[..l] == s[..l] && (s + t)[l..] == s[l..] + t;
      RecordsExtend(s[l..], t, if n == 0 then 0 else n - 1);
    }
  }

  // ----- what a sender writes

  /**
   A record of version 1, section 3.3: the length of the content in two bytes, the high one first, and of the
   padding.
   */
  function Frame(kind: Byte, id: (Byte, Byte), content: seq<Byte>, padding: seq<Byte>): (f: seq<Byte>)
    requires |content| < 0x1_0000 && |padding| < 0x100
  {
    [1, kind, id.0, id.1, |content| / 0x100, |content| % 0x100, |padding|, 0] + content + padding
  }

  lemma FrameLength(kind: Byte, id: (Byte, Byte), content: seq<Byte>, padding: seq<Byte>, rest: seq<Byte>)
    requires |content| < 0x1_0000 && |padding| < 0x100
    ensures var s := Frame(kind, id, content, padding) + rest;
            |s| >= HEADER && s[1] == kind && RequestId(s) == id && RecordLength(s) == HEADER + |content| + |padding|
  {
    var f := Frame(kind, id, content, padding);
    var s := f + rest;
    assert forall i :: 0 <= i < HEADER ==> s[i] == f[i];
  }

  /** A record is read from its bytes, whatever follows: none of them, and nothing more. */
  lemma ReadsFrame(kind: Byte, id: (Byte, Byte), content: seq<Byte>, padding: seq<Byte>, rest: seq<Byte>)
    requires |content| < 0x1_0000 && |padding| < 0x100
    ensures var f := Frame(kind, id, content, padding);
            && Records(f + rest) == [f] + Records(rest)
            && |f| >= HEADER && f[1] == kind && RequestId(f) == id && Content(f) == content
  {
    var f := Frame(kind, id, content, padding);
    var s := f + rest;
    FrameLength(kind, id, content, padding, rest);
    FrameLength(kind, id, content, padding, []);
    assert f + [] == f && s[..|f|] == f && s[|f|..] == rest;
    assert f[HEADER..HEADER + |content|] == content;
  }

  /** A record cut short is not one yet. */
  lemma CutFrame(kind: Byte, id: (Byte, Byte), content: seq<Byte>, padding: seq<Byte>, n: nat)
    requires |content| < 0x1_0000 && |padding| < 0x100 && n < |Frame(kind, id, content, padding)|
    ensures Records(Frame(kind, id, content, padding)[..n]) == []
  {
    var f := Frame(kind, id, content, padding);
    FrameLength(kind, id, content, padding, []);
    assert f + [] == f;
    if n >= HEADER {
      assert forall i :: 0 <= i < HEADER ==> f[..n][i] == f[i];
    }
  }

  // ----- the connection

  /** What a read returns: bytes (none at the end of the stream), nothing yet, or an error. */
  datatype Event = Bytes(chunk: seq<Byte>) | Again | Failed

  /** The descriptor: whatever the peer and the kernel make of the stream. */
  class Source {
    var events: seq<Event>
    ghost var given: seq<Byte>  // all bytes read so far

    constructor (es: seq<Event>)
      ensures events == es && given == []
    {
      events, given := es, [];
    }

    method Read() returns (e: Event)
      modifies this
      ensures if old(events) == [] then e == Again && events == []
              else e == old(events)[0] && events == old(events)[1..]
      ensures given == if e.Bytes? then old(given) + e.chunk else old(given)
    {
      if events == [] {
        e := Again;
      } else {
        e, events := events[0], events[1..];
      }
      if e.Bytes? {
        given := given + e.chunk;
      }
    }
  }

  datatype Status = Message(record: seq<Byte>) | TryAgain | Closed | Broken

  /** A record the caller is to see: any before the request's id is known, then those of the request. */
  predicate Wanted(record: seq<Byte>, any: bool, id: (Byte, Byte)) {
    any || (|record| >= HEADER && RequestId(record) == id)
  }

  /** None of the records from `i` up to `j` is wanted. */
  ghost predicate Unwanted(rs: seq<seq<Byte>>, i: nat, j: nat, any: bool, id: (Byte, Byte)) {
    forall k :: i <= k < j && k < |rs| ==> !Wanted(rs[k], any, id)
  }

  /** The stream has grown, and keeps its records. */
  ghost predicate Grown(given0: seq<Byte>, given: seq<Byte>) {
    forall k: nat :: OpenIn(OfStreams, k) ==> given0 <= given && Records(given0) <= Records(given)
  }

  lemma GrownOn(given0: seq<Byte>, given1: seq<Byte>, given: seq<Byte>)
    requires Grown(given0, given1) == true && Grown(given1, given) == true
    ensures Grown(given0, given) == true
  {
    assert OpenIn(OfStreams, 0);
  }

  /** The records from `i` up to `j` are there and were skipped. */
  ghost predicate Skipped(given: seq<Byte>, i: nat, j: nat, any: bool, id: (Byte, Byte)) {
    forall k: nat :: Open(k) ==> i <= j <= |Records(given)| && Unwanted(Records(given), i, j, any, id)
  }

  lemma SkipsNone(given: seq<Byte>, i: nat, any: bool, id: (Byte, Byte))
    requires i <= |Records(given)|
    ensures Skipped(given, i, i, any, id) == true
  {
  }

  lemma SkipsOne(given0: seq<Byte>, given: seq<Byte>, i: nat, j: nat, any: bool, id: (Byte, Byte))
    requires Skipped(given0, i, j, any, id) == true && Grown(given0, given) == true
    requires j < |Records(given0)| && !Wanted(Records(given0)[j], any, id)
    ensures Skipped(given, i, j + 1, any, id) == true
  {
    assert Open(0) && OpenIn(OfStreams, 0);
    assert forall k :: 0 <= k < |Records(given0)| ==> Records(given)[k] == Records(given0)[k];
  }

  /** The buffer holds the stream from where record `n` begins. */
  ghost predicate Buffered(given: seq<Byte>, n: nat, buf: seq<Byte>) {
    n <= |Records(given)| && buf == given[Offset(given, n)..]
  }

  lemma BufferedRecord(given: seq<Byte>, n: nat, buf: seq<Byte>)
    requires Buffered(given, n, buf)
    ensures Complete(buf) <==> n < |Records(given)|
    ensures Complete(buf) ==>
              Records(given)[n] == buf[..RecordLength(buf)] && Buffered(given, n + 1, buf[RecordLength(buf)..])
  {
    RecordsFrom(given, n);
    if n < |Records(given)| {
      OffsetMoves(given, n);
    }
  }

  lemma TailExtends(s: seq<Byte>, off: nat, t: seq<Byte>)
    requires off <= |s|
    ensures (s + t)[off..] == s[off..] + t
  {
  }

  lemma BufferedExtends(given: seq<Byte>, n: nat, buf: seq<Byte>, chunk: seq<Byte>)
    requires Buffered(given, n, buf)
    ensures Buffered(given + chunk, n, buf + chunk) && Records(given) <= Records(given + chunk)
  {
    RecordsExtend(given, chunk, n);
    TailExtends(given, Offset(given, n), chunk);
  }

  datatype Stage = ExpectBegin | ExpectParams | Done

  const BEGIN_REQUEST: Byte := 1
  const PARAMS: Byte := 4
  const MAX_PARAMS := 0x20_0000

  /** The contents, one after another, of the request's records from `i` up to `j`. */
  function Gather(rs: seq<seq<Byte>>, id: (Byte, Byte), i: nat, j: nat): (c: seq<Byte>)
    requires j <= |rs|
    decreases j
  {
    if j <= i then []
    else Gather(rs, id, i, j - 1) + if Wanted(rs[j - 1], false, id) then Content(rs[j - 1]) else []
  }

  lemma {:induction false} GatherExtends(rs: seq<seq<Byte>>, rs1: seq<seq<Byte>>, id: (Byte, Byte), i: nat, j: nat)
    requires rs <= rs1 && j <= |rs|
    ensures Gather(rs, id, i, j) == Gather(rs1, id, i, j)
    decreases j
  {
    if j > i {
      GatherExtends(rs, rs1, id, i, j - 1);
      assert rs[j - 1] == rs1[j - 1];
    }
  }

  /** Records of other requests add nothing. */
  lemma {:induction false} GatherSkips(rs: seq<seq<Byte>>, id: (Byte, Byte), i: nat, j: nat, k: nat)
    requires i <= j <= k <= |rs| && Unwanted(rs, j, k, false, id)
    ensures Gather(rs, id, i, k) == Gather(rs, id, i, j)
    decreases k
  {
    if k > j {
      GatherSkips(rs, id, i, j, k - 1);
      assert !Wanted(rs[k - 1], false, id);
    }
  }

  predicate Begins(record: seq<Byte>, id: (Byte, Byte)) {
    |record| >= HEADER && record[1] == BEGIN_REQUEST && RequestId(record) == id
  }

  datatype Progress = Finished | More | Refused

  /** How far the parameters of a request have been read. */
  datatype Request = Request(stage: Stage, id: (Byte, Byte), params: seq<Byte>, progress: Progress)

  /** What the next record does to it: only records of the request count, once its first one has given the id. */
  function Taking(q: Request, record: seq<Byte>): (q': Request) {
    if q.progress != More || |record| < HEADER || !Wanted(record, q.stage.ExpectBegin?, q.id) then q
    else match q.stage
      case ExpectBegin =>
        if record[1] != BEGIN_REQUEST then q.(progress := Refused)
        else Request(ExpectParams, RequestId(record), q.params, More)
      case ExpectParams =>
        if record[1] != PARAMS then q.(progress := Refused)
        else if Content(record) == [] then q.(stage := Done, progress := Finished)
        else if |q.params| + |Content(record)| > MAX_PARAMS then q.(progress := Refused)
        else q.(params := q.params + Content(record))
      case Done => q
  }

  /** The records from `i` up to `j`, one after another. */
  function TakingAll(rs: seq<seq<Byte>>, i: nat, j: nat, q: Request): (q': Request)
    requires j <= |rs|
    decreases j
  {
    if j <= i then q else Taking(TakingAll(rs, i, j - 1, q), rs[j - 1])
  }

  lemma {:induction false} TakingExtends(rs: seq<seq<Byte>>, rs1: seq<seq<Byte>>, i: nat, j: nat, q: Request)
    requires rs <= rs1 && j <= |rs|
    ensures TakingAll(rs, i, j, q) == TakingAll(rs1, i, j, q)
    decreases j
  {
    if j > i {
      TakingExtends(rs, rs1, i, j - 1, q);
      assert rs[j - 1] == rs1[j - 1];
    }
  }

  /** Once it has finished or failed nothing changes, and before that it was not so. */
  lemma {:induction false} TakingStops(rs: seq<seq<Byte>>, i: nat, j: nat, q: Request)
    requires i <= |rs| && j <= |rs| && TakingAll(rs, 0, i, q).progress != More
    ensures i <= j ==> TakingAll(rs, 0, j, q) == TakingAll(rs, 0, i, q)
    decreases j
  {
    if i < j {
      TakingStops(rs, i, j - 1, q);
    }
  }

  /** Records of other requests change nothing. */
  lemma {:induction false} TakingSkips(rs: seq<seq<Byte>>, i: nat, j: nat, k: nat, q: Request)
    requires i <= j <= k <= |rs|
    requires var q' := TakingAll(rs, i, j, q); Unwanted(rs, j, k, q'.stage.ExpectBegin?, q'.id)
    ensures TakingAll(rs, i, k, q) == TakingAll(rs, i, j, q)
    decreases k
  {
    if k > j {
      TakingSkips(rs, i, j, k - 1, q);
      var q' := TakingAll(rs, i, j, q);
      assert !Wanted(rs[k - 1], q'.stage.ExpectBegin?, q'.id);
    }
  }

  /** From `q0` before record `p0` to `q` before record `p`. */
  ghost predicate Took(given: seq<Byte>, p0: nat, q0: Request, p: nat, q: Request) {
    forall k: nat :: OpenIn(OfRequests, k) ==>
      p0 <= p <= |Records(given)| && q == TakingAll(Records(given), p0, p, q0)
  }

  lemma TookIs(given: seq<Byte>, p0: nat, q0: Request, p: nat, q: Request)
    requires Took(given, p0, q0, p, q) == true
    ensures p0 <= p <= |Records(given)| && q == TakingAll(Records(given), p0, p, q0)
  {
    assert OpenIn(OfRequests, 0);
  }

  lemma TookNone(given: seq<Byte>, p: nat, q: Request)
    requires p <= |Records(given)|
    ensures Took(given, p, q, p, q) == true
  {
  }

  lemma TookUnwanted(given0: seq<Byte>, given: seq<Byte>, p0: nat, q0: Request, p: nat, q: Request, j: nat)
    requires Took(given0, p0, q0, p, q) == true && Grown(given0, given) == true && p <= j <= |Records(given)|
    requires Unwanted(Records(given), p, j, q.stage.ExpectBegin?, q.id)
    ensures Took(given, p0, q0, j, q) == true
  {
    assert OpenIn(OfRequests, 0) && OpenIn(OfStreams, 0);
    TakingExtends(Records(given0), Records(given), p0, p, q0);
    TakingSkips(Records(given), p0, p, j, q0);
  }

  lemma TookWanted(given: seq<Byte>, p0: nat, q0: Request, j: nat, q: Request, record: seq<Byte>)
    requires Took(given, p0, q0, j, q) == true && j < |Records(given)| && record == Records(given)[j]
    ensures Took(given, p0, q0, j + 1, Taking(q, record)) == true
  {
    assert OpenIn(OfRequests, 0);
  }

  class FcgiCli {
    const io: Source
    var buf: seq<Byte>
    var complete: bool       // read_state: the first record in the buffer was returned
    var stage: Stage         // param_state
    var id: (Byte, Byte)
    var params: seq<Byte>
    ghost var passed: nat    // how many records of the stream were returned or skipped
    ghost var first: nat     // the record that began the request

    /** The buffer holds what follows the records passed, the last one of them included if it was returned. */
    ghost predicate Valid()
      reads this, io
    {
      forall k: nat :: Open(k) ==>
        && (complete ==> passed > 0) && Buffered(io.given, if complete then passed - 1 else passed, buf)
        && (complete <==> Complete(buf))
    }

    constructor (source: Source)
      requires source.given == []
      ensures Valid() && io == source && passed == 0 && Gathered()
    {
      io, buf, complete, stage, id, params, passed, first := source, [], false, ExpectBegin, (0, 0), [], 0, 0;
    }

    /** The record last passed is the first one in the buffer. */
    ghost predicate AtRecord()
      reads this, io
    {
      && 0 < passed <= |Records(io.given)| && Complete(buf)
      && buf[..RecordLength(buf)] == Records(io.given)[passed - 1]
    }

    /** Drops the record returned last; the bytes behind it move to the front. */
    method Shift() returns (got: bool)
      requires Valid() && complete
      modifies `buf, `complete, `passed
      ensures Valid() && complete == got && passed == (if got then old(passed) + 1 else old(passed)) &&
              |buf| < |old(buf)|
      ensures if got then AtRecord() else passed == |Records(io.given)|
    {
      assert Open(0);
      BufferedRecord(io.given, passed - 1, buf);
      buf := buf[RecordLength(buf)..];
      got := Complete(buf);
      complete := got;
      BufferedRecord(io.given, passed, buf);
      if got {
        passed := passed + 1;
      }
    }

    /** Reads until the buffer begins with a whole record. */
    method Fill() returns (got: bool, e: Event)
      requires Valid() && !complete
      modifies io, `buf, `complete, `passed
      ensures Valid() && complete == got && passed == if got then old(passed) + 1 else old(passed)
      ensures Grown(old(io.given), io.given) == true
      ensures |io.events| <= |old(io.events)| && (got ==> |io.events| < |old(io.events)|)
      ensures if got then AtRecord() else passed == |Records(io.given)| && (!e.Bytes? || e.chunk == [])
    {
      ghost var given;
      got, e, given := ReadOn();
      BufferedRecord(given, passed, buf);
      if got {
        complete, passed := true, passed + 1;
      }
      assert Open(0);
    }

    /** The reads of Fill. */
    method ReadOn() returns (got: bool, e: Event, ghost given: seq<Byte>)
      requires Valid() && !complete
      modifies io, `buf
      ensures given == io.given && Grown(old(io.given), given) == true
      ensures Buffered(given, passed, buf) && got == Complete(buf)
      ensures |io.events| <= |old(io.events)| && (got ==> |io.events| < |old(io.events)|)
      ensures got || !e.Bytes? || e.chunk == []
    {
      assert Open(0);
      BufferedExtends(io.given, passed, buf, []);
      given := io.given;
      ghost var given0 := given;
      var more := true;
      e, got := Again, false;
      while more
        invariant given == io.given && Grown(given0, given) == true
        invariant Buffered(given, passed, buf) && got == Complete(buf)
        invariant |io.events| <= |old(io.events)| && (got ==> |io.events| < |old(io.events)|)
        invariant if more then !got else got || !e.Bytes? || e.chunk == []
        decreases more, |io.events|
      {
        ghost var before := given;
        e, given := ReadOnce(given);
        GrownOn(given0, before, given);
        got := Complete(buf);
        more := !got && e.Bytes? && e.chunk != [];
      }
    }

    /** One read, appended to the buffer. */
    method ReadOnce(ghost given: seq<Byte>) returns (e: Event, ghost given': seq<Byte>)
      requires given == io.given && Buffered(given, passed, buf) && !Complete(buf)
      modifies io, `buf
      ensures given' == io.given && Grown(given, given') == true
      ensures Buffered(given', passed, buf) && (buf == old(buf) || e.Bytes?)
      ensures |io.events| <= |old(io.events)| && (e.Bytes? && e.chunk != [] ==> |io.events| < |old(io.events)|)
      ensures buf == old(buf) + if e.Bytes? then e.chunk else []
    {
      e := io.Read();
      given' := given;
      if e.Bytes? {
        BufferedExtends(given, passed, buf, e.chunk);
        buf := buf + e.chunk;
        given' := given + e.chunk;
      }
    }

    /** The next record of the stream, in the buffer or read; the others are left where they are. */
    method Advance() returns (got: bool, record: seq<Byte>, e: Event)
      requires Valid()
      modifies io, `buf, `complete, `passed
      ensures Valid() && complete == got && passed == if got then old(passed) + 1 else old(passed)
      ensures Grown(old(io.given), io.given) == true
      ensures got ==> passed <= |Records(io.given)| && |record| >= HEADER && record == Records(io.given)[passed - 1]
      ensures !got ==> passed == |Records(io.given)| && (!e.Bytes? || e.chunk == [])
      ensures |io.events| <= |old(io.events)| && (got && |io.events| == |old(io.events)| ==> |buf| < |old(buf)|)
    {
      e, got, record := Again, false, [];
      if complete {
        got := Shift();
      }
      if !got {
        got, e := Fill();
      }
      if got {
        record := buf[..RecordLength(buf)];
      }
    }

    /**
     fcgi_cli_readmsg: the next wanted record of the whole stream, however it was cut into reads;
     the records skipped on the way are not wanted. Without one, every record that has arrived was
     skipped, and what is left is buffered.
     */
    method ReadMsg() returns (r: Status)
      requires Valid()
      modifies io, `buf, `complete, `passed
      ensures Valid() == true && Grown(old(io.given), io.given) == true
      ensures old(passed) <= passed <= |Records(io.given)|
      ensures if r.Message?
              then passed > old(passed) && |r.record| >= HEADER && r.record == Records(io.given)[passed - 1]
              else passed == |Records(io.given)|
      ensures r.Message? ==> Wanted(r.record, stage.ExpectBegin?, id)
      ensures Unwanted(Records(io.given), old(passed), if r.Message? then passed - 1 else passed,
                       stage.ExpectBegin?, id)
      ensures |io.events| <= |old(io.events)| && (r.Message? && |io.events| == |old(io.events)| ==> |buf| < |old(buf)|)
    {
      var any := stage.ExpectBegin?;
      var got, record, e := Advance();
      ghost var given0, given, p0, p: nat := old(io.given), io.given, old(passed), old(passed);
      SkipsNone(given, p0, any, id);
      while got && !any && RequestId(record) != id
        invariant Valid() == true && complete == got && given == io.given && Grown(given0, given) == true
        invariant Skipped(given, p0, p, any, id) == true && p0 <= p && passed == if got then p + 1 else p
        invariant if got then p < |Records(given)| && |record| >= HEADER && record == Records(given)[p]
                  else p == |Records(given)| && (!e.Bytes? || e.chunk == [])
        invariant |io.events| <= |old(io.events)| && (got && |io.events| == |old(io.events)| ==> |buf| < |old(buf)|)
        decreases got, |io.events|, |buf|
      {
        ghost var before := given;
        got, record, e := Advance();
        given := io.given;
        SkipsOne(before, given, p0, p, any, id);
        GrownOn(given0, before, given);
        p := p + 1;
      }
      assert Open(0);
      if got {
        return Message(record);
      }
      r := match e case Again => TryAgain case Bytes(_) => Closed case Failed => Broken;
    }
  
    /** The parameters are the contents of the request's records since it began, up to record `j`. */
    ghost predicate GatheredTo(j: nat)
      reads this, io
    {
      if stage == ExpectBegin then params == []
      else
        && first < j <= |Records(io.given)| && Begins(Records(io.given)[first], id)
        && params == Gather(Records(io.given), id, first + 1, j)
    }

    ghost predicate Gathered()
      reads this, io
    {
      GatheredTo(passed)
    }

    /** What was gathered up to `j` is still that after unwanted records. */
    lemma GatheredUpTo(rs: seq<seq<Byte>>, p: nat, j: nat)
      requires stage != ExpectBegin && first < p <= |rs| && Begins(rs[first], id) &&
               params == Gather(rs, id, first + 1, p)
      requires rs <= Records(io.given) && p <= j <= |Records(io.given)| && Unwanted(Records(io.given), p, j, false, id)
      ensures Begins(Records(io.given)[first], id) && params == Gather(Records(io.given), id, first + 1, j)
    {
      GatherExtends(rs, Records(io.given), id, first + 1, p);
      GatherSkips(Records(io.given), id, first + 1, p, j);
    }

    /** What a record returned by ReadMsg does to the parameters. */
    method TakeParams(record: seq<Byte>) returns (r: Progress)
      requires |record| >= HEADER && stage != Done && 0 < passed <= |Records(io.given)| &&
               record == Records(io.given)[passed - 1]
      requires GatheredTo(passed - 1) && Wanted(record, stage.ExpectBegin?, id)
      modifies `stage, `id, `params, `first
      ensures r != Refused ==> Gathered() && (r == Finished <==> stage == Done)
      ensures Request(stage, id, params, r) == Taking(Request(old(stage), old(id), old(params), More), record)
    {
      r := More;
      var content := Content(record);
      match stage
      case ExpectBegin =>
        if record[1] != BEGIN_REQUEST {
          return Refused;
        }
        id, stage, first := RequestId(record), ExpectParams, passed - 1;
      case ExpectParams =>
        if record[1] != PARAMS {
          return Refused;
        }
        if content == [] {
          stage := Done;
          return Finished;
        }
        if |params| + |content| > MAX_PARAMS {
          return Refused;
        }
        params := params + content;
    }

    /** The next record of the request; those skipped add nothing. */
    method NextOfRequest() returns (m: Status)
      requires Valid() && Gathered()
      modifies io, `buf, `complete, `passed
      ensures m.Message? ==> 0 < passed <= |Records(io.given)| && m.record == Records(io.given)[passed - 1]
      ensures Valid() && GatheredTo(if m.Message? then passed - 1 else passed) == true
      ensures m.Message? ==> |m.record| >= HEADER && Wanted(m.record, stage.ExpectBegin?, id)
      ensures Grown(old(io.given), io.given) == true && old(passed) <= passed <= |Records(io.given)|
      ensures if m.Message? then passed > old(passed) else passed == |Records(io.given)|
      ensures Unwanted(Records(io.given), old(passed), if m.Message? then passed - 1 else passed,
                       stage.ExpectBegin?, id)
      ensures |io.events| <= |old(io.events)| && (m.Message? && |io.events| == |old(io.events)| ==> |buf| < |old(buf)|)
    {
      ghost var rs, p := Records(io.given), passed;
      m := ReadMsg();
      if stage != ExpectBegin {
        assert OpenIn(OfStreams, 0);
        GatheredUpTo(rs, p, if m.Message? then passed - 1 else passed);
      }
    }

    /** One record of the request, if it has arrived; `p0` and `q0` are where the reading of the parameters began. */
    method ReadParam(ghost p0: nat, ghost q0: Request) returns (r: Progress, got: bool)
      requires Valid() && Gathered() && stage != Done
      requires Took(io.given, p0, q0, passed, Request(stage, id, params, More)) == true
      modifies io, `buf, `complete, `passed, `stage, `id, `params, `first
      ensures Valid() && (r != Refused ==> Gathered() && (r == Finished <==> stage == Done))
      ensures !got ==> r == More && passed == |Records(io.given)|
      ensures Took(io.given, p0, q0, passed, Request(stage, id, params, r)) == true
      ensures |io.events| <= |old(io.events)| && (got && |io.events| == |old(io.events)| ==> |buf| < |old(buf)|)
    {
      ghost var given, p, q := io.given, passed, Request(stage, id, params, More);
      var m := NextOfRequest();
      r, got := More, m.Message?;
      TookUnwanted(given, io.given, p0, q0, p, q, if got then passed - 1 else passed);
      if got {
        TookWanted(io.given, p0, q0, passed - 1, q, m.record);
        r := TakeParams(m.record);
      }
    }

    lemma PassedInside()
      requires Valid()
      ensures passed <= |Records(io.given)|
    {
      assert Open(0);
      BufferedRecord(io.given, if complete then passed - 1 else passed, buf);
    }

    /**
     fcgi_cli_readparams: it comes to what the records read make of the request, one after another; it stops at the
     record that finishes or fails the parameters, and otherwise when no whole record is left. When it finishes, the
     parameters are the contents of the request's records in stream order, whatever records of other requests lie
     between and however the stream was cut.
     */
    method ReadParams() returns (r: Progress)
      requires Valid() && Gathered()
      modifies io, `buf, `complete, `passed, `stage, `id, `params, `first
      ensures Valid() && (r != Refused ==> Gathered() && (r == Finished <==> stage == Done))
      ensures old(passed) <= passed <= |Records(io.given)| && (r == More ==> passed == |Records(io.given)|)
      ensures Request(stage, id, params, r) ==
              TakingAll(Records(io.given), old(passed), passed,
                        Request(old(stage), old(id), old(params), if old(stage) == Done then Finished else More))
    {
      PassedInside();
      if stage == Done {
        return Finished;
      }
      ghost var p0, q0 := passed, Request(stage, id, params, More);
      TookNone(io.given, p0, q0);
      var got;
      r, got := ReadParam(p0, q0);
      while got && r == More
        invariant Valid() && (r != Refused ==> Gathered() && (r == Finished <==> stage == Done))
        invariant !got ==> r == More && passed == |Records(io.given)|
        invariant Took(io.given, p0, q0, passed, Request(stage, id, params, r)) == true
        decreases got && r == More, |io.events|, |buf|
      {
        r, got := ReadParam(p0, q0);
      }
      TookIs(io.given, p0, q0, passed, Request(stage, id, params, r));
    }
  }

  // ----- a request from a sender's stream

  datatype Sent = Sent(kind: Byte, id: (Byte, Byte), content: seq<Byte>, padding: seq<Byte>)

  predicate Sendable(sent: seq<Sent>) {
    forall k :: 0 <= k < |sent| ==> |sent[k].content| < 0x1_0000 && |sent[k].padding| < 0x100
  }

  function FrameOf(r: Sent): (f: seq<Byte>)
    requires Sendable([r])
  {
    assert [r][0] == r;
    Frame(r.kind, r.id, r.content, r.padding)
  }

  /** The bytes of the stream. */
  function Written(sent: seq<Sent>): (s: seq<Byte>)
    requires Sendable(sent)
  {
    if sent == [] then [] else
      assert [sent[0]][0] == sent[0];
      FrameOf(sent[0]) + Written(sent[1..])
  }

  lemma {:induction false} ReadsWritten(sent: seq<Sent>, rest: seq<Byte>)
    requires Sendable(sent)
    ensures |Records(Written(sent) + rest)| >= |sent|
    ensures forall k :: 0 <= k < |sent| ==>
              var f := Records(Written(sent) + rest)[k];
              |f| >= HEADER && f[1] == sent[k].kind && RequestId(f) == sent[k].id && Content(f) == sent[k].content
  {
    if sent != [] {
      var r := sent[0];
      assert [r][0] == r;
      ReadsFrame(r.kind, r.id, r.content, r.padding, Written(sent[1..]) + rest);
      Regroup(FrameOf(r), Written(sent[1..]), rest);
      ReadsWritten(sent[1..], rest);
    }
  }

  /** The contents of the records of `id` before record `j`, the first one not included. */
  function Text(sent: seq<Sent>, id: (Byte, Byte), j: nat): (t: seq<Byte>)
    requires j <= |sent|
  {
    if j <= 1 then [] else Text(sent, id, j - 1) + if sent[j - 1].id == id then sent[j - 1].content else []
  }

  /**
   A request as section 6.2 of the FastCGI specification has it: FCGI_BEGIN_REQUEST (1), then FCGI_PARAMS (4) with
   at most two megabytes in all, the last one empty, records of other requests between.
   */
  ghost predicate IsRequest(sent: seq<Sent>, id: (Byte, Byte)) {
    && |sent| >= 2 && sent[0].kind == 1 && sent[0].id == id
    && (forall k :: 1 <= k < |sent| - 1 && sent[k].id == id ==> sent[k].kind == 4 && sent[k].content != [])
    && sent[|sent| - 1].kind == 4 && sent[|sent| - 1].id == id && sent[|sent| - 1].content == []
    && |Text(sent, id, |sent|)| <= 0x20_0000
  }

  lemma {:induction false} TextGrows(sent: seq<Sent>, id: (Byte, Byte), j: nat, k: nat)
    requires j <= k <= |sent|
    ensures |Text(sent, id, j)| <= |Text(sent, id, k)|
  {
    if j < k {
      TextGrows(sent, id, j, k - 1);
    }
  }

  /** The record is the one that was sent. */
  predicate Carries(f: seq<Byte>, r: Sent) {
    |f| >= HEADER && f[1] == r.kind && RequestId(f) == r.id && Content(f) == r.content
  }

  lemma {:induction false} TakesText(rs: seq<seq<Byte>>, sent: seq<Sent>, id: (Byte, Byte), j: nat, q: Request)
    requires IsRequest(sent, id) && 1 <= j < |sent| <= |rs| && q.stage == ExpectBegin && q.params == [] &&
             q.progress == More
    requires forall k :: 0 <= k < |sent| ==> Carries(rs[k], sent[k])
    ensures TakingAll(rs, 0, j, q) == Request(ExpectParams, id, Text(sent, id, j), More)
  {
    assert Carries(rs[j - 1], sent[j - 1]);
    if j == 1 {
      assert TakingAll(rs, 0, 0, q) == q;
    } else {
      TakesText(rs, sent, id, j - 1, q);
      TextGrows(sent, id, j, |sent|);
    }
  }

  /** Reading a request's records finishes with its parameters. */
  lemma RequestIsTaken(sent: seq<Sent>, id: (Byte, Byte), rest: seq<Byte>, id0: (Byte, Byte))
    requires Sendable(sent) && IsRequest(sent, id)
    ensures |Records(Written(sent) + rest)| >= |sent|
    ensures TakingAll(Records(Written(sent) + rest), 0, |sent|, Request(ExpectBegin, id0, [], More)) ==
            Request(Done, id, Text(sent, id, |sent|), Finished)
  {
    ReadsWritten(sent, rest);
    var rs, n := Records(Written(sent) + rest), |sent|;
    TakesText(rs, sent, id, n - 1, Request(ExpectBegin, id0, [], More));
    assert Carries(rs[n - 1], sent[n - 1]);
    assert Text(sent, id, n) == Text(sent, id, n - 1) + [];
  }

  /** Wherever the reading stopped, it has come to what the whole request comes to. */
  lemma SameEnd(rs: seq<seq<Byte>>, n: nat, p: nat, q: Request, r: Progress)
    requires n <= |rs| && p <= |rs| && TakingAll(rs, 0, n, q).progress != More
    requires r == TakingAll(rs, 0, p, q).progress && (r == More ==> p == |rs|)
    ensures TakingAll(rs, 0, p, q) == TakingAll(rs, 0, n, q)
  {
    TakingStops(rs, n, p, q);
    if r != More {
      TakingStops(rs, p, n, q);
    }
  }

  /** So the parameters of a request that has arrived are read, however the stream was cut. */
  method ReadsRequest(cli: FcgiCli, ghost sent: seq<Sent>, ghost id: (Byte, Byte), ghost rest: seq<Byte>)
    returns (r: Progress)
    requires cli.Valid() && cli.Gathered() && cli.stage == ExpectBegin && cli.passed == 0
    requires Sendable(sent) && IsRequest(sent, id)
    modifies cli, cli.io
    ensures Written(sent) + rest == cli.io.given ==>
              r == Finished && cli.id == id && cli.params == Text(sent, id, |sent|)
  {
    ghost var q0 := Request(ExpectBegin, cli.id, [], More);
    r := cli.ReadParams();
    if Written(sent) + rest == cli.io.given {
      RequestIsTaken(sent, id, rest, q0.id);
      SameEnd(Records(cli.io.given), |sent|, cli.passed, q0, r);
    }
  }

  // ----- nothing is lost

  function Flat(rs: seq<seq<Byte>>): (s: seq<Byte>) {
    if rs == [] then [] else rs[0] + Flat(rs[1..])
  }

  /** The records passed and the bytes buffered after them are all the bytes read. */
  lemma {:induction false} PassedAndBuffered(given: seq<Byte>, n: nat)
    requires n <= |Records(given)|
    ensures Flat(Records(given)[..n]) + given[Offset(given, n)..] == given
    decreases n
  {
    if n > 0 {
      var l := RecordLength(given);
      var rest := given[l..];
      var passed := Records(given)[..n];
      PassedAndBuffered(rest, n - 1);
      assert passed[0] == given[..l] && passed[1..] == Records(rest)[..n - 1];
      assert rest[Offset(rest, n - 1)..] == given[Offset(given, n)..];
      Regroup(given[..l], Flat(passed[1..]), rest[Offset(rest, n - 1)..]);
    }
  }
}
