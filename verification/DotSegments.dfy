/** url_remove_dot_segments of lib/net/url.c against the two-buffer algorithm of section 5.2.4 of RFC 3986. */
module DotSegments {
  import opened Wrappers

  // ----- the algorithm of the RFC

  /** What the input buffer begins with, in the order of the RFC's cases A to E. */
  datatype Case = Here | Up | SlashHere | SlashHereEnds | SlashUp | SlashUpEnds | OnlyHere | OnlyUp | Segment

  function Classify(s: string): (c: Case)
    requires s != ""
  {
    if |s| > 1 && s[0] == '.' && s[1] == '/' then Here
    else if |s| > 2 && s[0] == '.' && s[1] == '.' && s[2] == '/' then Up
    else if |s| > 2 && s[0] == '/' && s[1] == '.' && s[2] == '/' then SlashHere
    else if |s| == 2 && s[0] == '/' && s[1] == '.' then SlashHereEnds
    else if |s| > 3 && s[0] == '/' && s[1] == '.' && s[2] == '.' && s[3] == '/' then SlashUp
    else if |s| == 3 && s[0] == '/' && s[1] == '.' && s[2] == '.' then SlashUpEnds
    else if |s| == 1 && s[0] == '.' then OnlyHere
    else if |s| == 2 && s[0] == '.' && s[1] == '.' then OnlyUp
    else Segment
  }

  /** The output without its last segment and the slash before it, if any. */
  function DropLast(out: string): (t: string)
    ensures |t| <= |out| && (out != "" ==> |t| < |out|)
  {
    if out == "" then ""
    else if out[|out| - 1] == '/' then out[..|out| - 1]
    else DropLast(out[..|out| - 1])
  }

  /** Where the first segment ends: at the first slash after its first character. */
  function SegmentEnd(s: string, i: nat): (j: nat)
    requires 0 < i <= |s|
    ensures i <= j <= |s| && (forall k :: i <= k < j ==> s[k] != '/') && (j < |s| ==> s[j] == '/')
    decreases |s| - i
  {
    if i == |s| || s[i] == '/' then i else SegmentEnd(s, i + 1)
  }

  function Remove(s: string, out: string): (t: string)
    decreases |s|
  {
    if s == "" then out
    else
      match Classify(s)
      case Here => Remove(s[2..], out)
      case Up => Remove(s[3..], out)
      case SlashHere => Remove(s[2..], out)
      case SlashHereEnds => Remove("/", out)
      case SlashUp => Remove(s[3..], DropLast(out))
      case SlashUpEnds => Remove("/", DropLast(out))
      case OnlyHere => out
      case OnlyUp => out
      case Segment => Remove(s[SegmentEnd(s, 1)..], out + s[..SegmentEnd(s, 1)])
  }

  // ----- in place

  /** `while (w > 0 && s[--w] != '/');` */
  method Backtrack(s: array<char>, w0: nat) returns (w: nat)
    requires w0 <= s.Length
    ensures w <= w0 && s[..w] == DropLast(s[..w0])
  {
    w := w0;
    var found := false;
    while w > 0 && !found
      invariant w <= w0 && DropLast(s[..w0]) == if found then s[..w] else DropLast(s[..w])
    {
      w := w - 1;
      assert s[..w + 1][..w] == s[..w];
      found := s[w] == '/';
    }
  }

  method CaseAt(s: array<char>, r: nat, len: nat) returns (c: Case)
    requires r < len <= s.Length
    ensures c == Classify(s[r..len])
  {
    ghost var t := s[r..len];
    assert forall k :: 0 <= k < |t| ==> t[k] == s[r + k];
    c := if r + 1 < len && s[r] == '.' && s[r + 1] == '/' then Here
         else if r + 2 < len && s[r] == '.' && s[r + 1] == '.' && s[r + 2] == '/' then Up
         else if r + 2 < len && s[r] == '/' && s[r + 1] == '.' && s[r + 2] == '/' then SlashHere
         else if r + 2 == len && s[r] == '/' && s[r + 1] == '.' then SlashHereEnds
         else if r + 3 < len && s[r] == '/' && s[r + 1] == '.' && s[r + 2] == '.' && s[r + 3] == '/' then SlashUp
         else if r + 3 == len && s[r] == '/' && s[r + 1] == '.' && s[r + 2] == '.' then SlashUpEnds
         else if r + 1 == len && s[r] == '.' then OnlyHere
         else if r + 2 == len && s[r] == '.' && s[r + 1] == '.' then OnlyUp
         else Segment;
  }

  /** The first `k` characters of the unread part `t` have been moved behind what was written. */
  ghost predicate Moving(written: string, unread: string, out: string, t: string, k: nat) {
    forall n: nat :: Open(n) ==> k <= |t| && written == out + t[..k] && unread == t[k..]
  }

  lemma MovingStarts(out: string, t: string)
    ensures Moving(out, t, out, t, 0) == true
  {
    assert out + t[..0] == out && t[0..] == t;
  }

  lemma MovingReads(s: string, r: nat, len: nat, written: string, out: string, t: string, k: nat)
    requires r < len <= |s| && Moving(written, s[r..len], out, t, k) == true
    ensures k < |t| && s[r] == t[k]
  {
    assert Open(0);
    assert s[r] == s[r..len][0];
  }

  lemma MovingEnds(written: string, unread: string, out: string, t: string, k: nat)
    requires Moving(written, unread, out, t, k) == true
    ensures k <= |t| && written == out + t[..k] && unread == t[k..]
  {
    assert Open(0);
  }

  lemma MovingOn(written: string, unread: string, out: string, t: string, k: nat)
    requires Moving(written, unread, out, t, k) == true && unread != ""
    ensures Moving(written + [unread[0]], unread[1..], out, t, k + 1) == true
  {
    assert Open(0);
    assert t[..k + 1] == t[..k] + [t[k]];
  }

  /** Moves the first segment of the unread part behind the written part. */
  method MoveSegment(s: array<char>, r0: nat, w0: nat, len: nat) returns (r: nat, w: nat)
    requires w0 <= r0 < len <= s.Length
    modifies s
    ensures r0 < r <= len && w <= r
    ensures var t := old(s[r0..len]); var n := SegmentEnd(t, 1);
            r == r0 + n && w == w0 + n && s[..w] == old(s[..w0]) + t[..n] && s[r..len] == t[n..]
    ensures s[len..] == old(s[len..])
  {
    ghost var t, out, k: nat := s[r0..len], s[..w0], 1;
    MovingStarts(out, t);
    r, w := CopyOne(s, r0, w0, len, out, t, 0);
    while r < len && s[r] != '/'
      invariant w <= r <= len && r == r0 + k && w == w0 + k && |t| == len - r0 && s[len..] == old(s[len..])
      invariant Moving(s[..w], s[r..len], out, t, k) == true && SegmentEnd(t, 1) == SegmentEnd(t, k)
      decreases len - r
    {
      MovingReads(s[..], r, len, s[..w], out, t, k);
      r, w := CopyOne(s, r, w, len, out, t, k);
      k := k + 1;
    }
    if r < len {
      MovingReads(s[..], r, len, s[..w], out, t, k);
    }
    MovingEnds(s[..w], s[r..len], out, t, k);
  }

  method CopyOne(s: array<char>, r0: nat, w0: nat, len: nat, ghost out: string, ghost t: string, ghost k: nat)
    returns (r: nat, w: nat)
    requires w0 <= r0 < len <= s.Length && Moving(s[..w0], s[r0..len], out, t, k) == true
    modifies s
    ensures r == r0 + 1 && w == w0 + 1 && s[len..] == old(s[len..])
    ensures Moving(s[..w], s[r..len], out, t, k + 1) == true
  {
    ghost var written, unread := s[..w0], s[r0..len];
    MovingOn(written, unread, out, t, k);
    s[w0] := s[r0];
    r, w := r0 + 1, w0 + 1;
    assert s[..w] == written + [unread[0]] && s[r..len] == unread[1..];
  }

  /** One round of the loop: what is unread and what is written stand for the same result as before. */
  method Step(s: array<char>, r0: nat, w0: nat, len: nat) returns (r: nat, w: nat)
    requires w0 <= r0 < len <= s.Length
    modifies s
    ensures r0 < r <= len && w <= r && s[len..] == old(s[len..])
    ensures Remove(s[r..len], s[..w]) == old(Remove(s[r0..len], s[..w0]))
  {
    ghost var t := s[r0..len];
    r, w := r0, w0;
    var c := CaseAt(s, r, len);
    match c
    case Here =>
      r := r + 2;
      assert s[r..len] == t[2..];
    case Up =>
      r := r + 3;
      assert s[r..len] == t[3..];
    case SlashHere =>
      r := r + 2;
      assert s[r..len] == t[2..];
    case SlashHereEnds =>
      r := r + 1;
      ghost var out := s[..w];
      s[r] := '/';
      assert s[r..len] == "/" && s[..w] == out;
    case SlashUp =>
      r := r + 3;
      assert s[r..len] == t[3..];
      w := Backtrack(s, w);
    case SlashUpEnds =>
      r := r + 2;
      ghost var out := s[..w];
      s[r] := '/';
      assert s[r..len] == "/" && s[..w] == out;
      w := Backtrack(s, w);
    case OnlyHere =>
      r := r + 1;
      assert s[r..len] == "";
    case OnlyUp =>
      r := r + 2;
      assert s[r..len] == "";
    case Segment => r, w := MoveSegment(s, r, w, len);
  }

  /**
   url_remove_dot_segments: the result of the RFC's algorithm, in the same memory; nothing behind `len` is touched.
   */
  method RemoveDotSegments(s: array<char>, len: nat) returns (w: nat)
    requires len <= s.Length
    modifies s
    ensures w <= len && s[..w] == Remove(old(s[..len]), "") && s[len..] == old(s[len..])
  {
    var r := 0;
    w := 0;
    assert s[0..len] == s[..len] && s[..0] == "";
    while r < len
      invariant w <= r <= len && s[len..] == old(s[len..])
      invariant Remove(s[r..len], s[..w]) == Remove(old(s[..len]), "")
    {
      r, w := Step(s, r, w, len);
    }
    assert s[r..len] == "";
  }

  // ----- segment by segment

  predicate Dots(t: string) {
    t == "." || t == ".."
  }

  /** A path as the list of its segments, each behind its slash. */
  function Path(segs: seq<string>): (s: string) {
    if segs == [] then "" else "/" + segs[0] + Path(segs[1..])
  }

  predicate Segments(segs: seq<string>) {
    forall k :: 0 <= k < |segs| ==> '/' !in segs[k]
  }

  /** "." stays where it is, ".." takes back the segment before, and either leaves an empty last segment. */
  function Resolve(segs: seq<string>, kept: seq<string>): (r: seq<string>) {
    if segs == [] then kept
    else
      var back := if segs[0] == ".." && kept != [] then kept[..|kept| - 1] else kept;
      if !Dots(segs[0]) then Resolve(segs[1..], kept + [segs[0]])
      else if |segs| == 1 then back + [""]
      else Resolve(segs[1..], back)
  }

  lemma {:induction false} PathAppends(segs: seq<string>, seg: string)
    ensures Path(segs + [seg]) == Path(segs) + ("/" + seg)
  {
    if segs == [] {
      assert [] + [seg] == [seg];
      assert Path([seg]) == "/" + seg + "";
    } else {
      PathAppends(segs[1..], seg);
      assert (segs + [seg])[1..] == segs[1..] + [seg];
    }
  }

  /** What goes back is the last segment and its slash. */
  lemma {:induction false} DropLastDrops(out: string, seg: string)
    requires '/' !in seg
    ensures DropLast(out + ("/" + seg)) == out
  {
    var t := out + ("/" + seg);
    if seg == "" {
      assert t[..|t| - 1] == out;
    } else {
      var shorter := seg[..|seg| - 1];
      assert seg[|seg| - 1] in seg && t[|t| - 1] == seg[|seg| - 1];
      assert t[..|t| - 1] == out + ("/" + shorter);
      DropLastDrops(out, shorter);
    }
  }

  lemma DropLastOfPath(kept: seq<string>)
    requires Segments(kept)
    ensures DropLast(Path(kept)) == Path(if kept == [] then [] else kept[..|kept| - 1])
  {
    if kept != [] {
      var front, last := kept[..|kept| - 1], kept[|kept| - 1];
      assert kept == front + [last];
      PathAppends(front, last);
      DropLastDrops(Path(front), last);
    }
  }

  lemma SegmentIs(seg: string, rest: string)
    requires '/' !in seg && (rest == "" || rest[0] == '/')
    ensures SegmentEnd("/" + seg + rest, 1) == |seg| + 1
  {
    var s := "/" + seg + rest;
    forall k | 1 <= k < |seg| + 1 ensures s[k] != '/' {
      assert s[k] == seg[k - 1];
    }
    assert rest != "" ==> s[|seg| + 1] == rest[0];
    EndsAt(s, |seg| + 1);
  }

  lemma EndsAt(s: string, n: nat)
    requires 1 <= n <= |s| && (forall k :: 1 <= k < n ==> s[k] != '/') && (n < |s| ==> s[n] == '/')
    ensures SegmentEnd(s, 1) == n
  {
  }

  /** One segment of the path. */
  lemma RemoveSegment(seg: string, rest: string, out: string)
    requires '/' !in seg && (rest == "" || rest[0] == '/')
    ensures !Dots(seg) ==> Remove("/" + seg + rest, out) == Remove(rest, out + ("/" + seg))
    ensures seg == "." ==> Remove("/" + seg + rest, out) == Remove(if rest == "" then "/" else rest, out)
    ensures seg == ".." ==> Remove("/" + seg + rest, out) == Remove(if rest == "" then "/" else rest, DropLast(out))
  {
    var s := "/" + seg + rest;
    if !Dots(seg) {
      SegmentIs(seg, rest);
      assert s[1..|seg| + 1] == seg && s[..|seg| + 1] == "/" + seg && s[|seg| + 1..] == rest;
      NotDotsAhead(s, 1);
    } else {
      assert s[|seg| + 1..] == rest;
      DotsAhead(s, seg, rest);
    }
  }

  lemma DotsAhead(s: string, seg: string, rest: string)
    requires s == "/" + seg + rest && Dots(seg) && (rest == "" || rest[0] == '/')
    ensures seg == "." ==> Classify(s) == if rest == "" then SlashHereEnds else SlashHere
    ensures seg == ".." ==> Classify(s) == if rest == "" then SlashUpEnds else SlashUp
  {
    assert s[1] == seg[0] && (rest != "" ==> s[|seg| + 1] == rest[0]);
    assert |seg| == 2 ==> s[2] == seg[1];
  }

  lemma RemoveSlash(out: string)
    ensures Remove("/", out) == out + "/"
  {
    assert "/" == "/" + "" + "";
    RemoveSegment("", "", out);
    assert "/" + "" == "/";
  }

  /** A whole path: what is removed is what resolving its segments one by one leaves out. */
  lemma {:induction false} RemoveResolves(segs: seq<string>, kept: seq<string>)
    requires Segments(segs) && Segments(kept)
    ensures Remove(Path(segs), Path(kept)) == Path(Resolve(segs, kept))
    decreases |segs|
  {
    if segs != [] {
      var seg, rest := segs[0], segs[1..];
      RemoveSegment(seg, Path(rest), Path(kept));
      if !Dots(seg) {
        PathAppends(kept, seg);
        RemoveResolves(rest, kept + [seg]);
      } else {
        DropLastOfPath(kept);
        var back := if seg == ".." && kept != [] then kept[..|kept| - 1] else kept;
        if rest == [] {
          RemoveSlash(Path(back));
          PathAppends(back, "");
        } else {
          RemoveResolves(rest, back);
        }
      }
    }
  }

  /** Every path that begins with a slash has such segments. */
  lemma {:induction false} PathHasSegments(s: string) returns (segs: seq<string>)
    requires s != "" ==> s[0] == '/'
    ensures Segments(segs) && s == Path(segs)
  {
    if s == "" {
      segs := [];
    } else {
      var n := SegmentEnd(s, 1);
      var tail := PathHasSegments(s[n..]);
      segs := [s[1..n]] + tail;
      assert s == "/" + s[1..n] + s[n..];
    }
  }

  // ----- what is left

  /** The segment that begins at `i` ends at `j`. */
  predicate SegmentAt(s: string, i: nat, j: nat) {
    && i <= j <= |s| && (i == 0 || s[i - 1] == '/') && (j == |s| || s[j] == '/')
    && forall k :: i <= k < j ==> s[k] != '/'
  }

  /** No segment is "." or "..". */
  ghost predicate NoDots(s: string) {
    forall i: nat, j: nat :: SegmentAt(s, i, j) ==> !Dots(s[i..j])
  }

  /** Between rounds: once something is written, the rest begins with a slash. */
  predicate Ready(s: string, out: string) {
    out == "" || s == "" || s[0] == '/'
  }

  lemma {:induction false} DropLastIsPrefix(out: string)
    ensures DropLast(out) == out[..|DropLast(out)|]
    ensures DropLast(out) != out ==> DropLast(out) == "" || out[|DropLast(out)|] == '/'
  {
    if out != "" && out[|out| - 1] != '/' {
      DropLastIsPrefix(out[..|out| - 1]);
    }
  }

  lemma SliceOfPrefix(s: string, n: nat, i: nat, j: nat)
    requires i <= j <= n <= |s|
    ensures s[..n][i..j] == s[i..j]
  {
  }

  /** What comes before a slash has the segments it had, so dropping segments leaves no dots. */
  lemma PrefixHasNoDots(out: string, n: nat)
    requires NoDots(out) && n <= |out| && (n == 0 || n == |out| || out[n] == '/')
    ensures NoDots(out[..n])
  {
    var t := out[..n];
    forall i: nat, j: nat | SegmentAt(t, i, j) ensures !Dots(t[i..j]) {
      if n > 0 {
        assert SegmentAt(out, i, j);
        SliceOfPrefix(out, n, i, j);
      } else {
        assert |t[i..j]| == 0;
      }
    }
  }

  /** Appending a segment that begins with a slash, or the first one. */
  lemma AppendHasNoDots(out: string, seg: string)
    requires NoDots(out) && seg != "" && (forall k :: 1 <= k < |seg| ==> seg[k] != '/')
    requires if seg[0] == '/' then !Dots(seg[1..]) else out == "" && !Dots(seg)
    ensures NoDots(out + seg)
  {
    var t := out + seg;
    forall i: nat, j: nat | SegmentAt(t, i, j) ensures !Dots(t[i..j]) {
      if seg[0] == '/' && j <= |out| {
        assert forall k :: 0 <= k < |out| ==> out[k] == t[k];
        assert SegmentAt(out, i, j);
        assert t[i..j] == out[i..j];
      } else if seg[0] == '/' {
        assert t[|out|] == '/' && t[j - 1] == seg[j - 1 - |out|];
        assert i > |out|;
        assert i == |out| + 1;
        assert j == |t|;
        assert t[i..j] == seg[1..];
      } else {
        assert i == 0 && j == |t|;
        assert t[i..j] == seg;
      }
    }
  }

  lemma SegmentIsNotDots(s: string, out: string)
    requires s != "" && Ready(s, out) && Classify(s) == Segment
    ensures var seg := s[..SegmentEnd(s, 1)];
            if seg[0] == '/' then !Dots(seg[1..]) else out == "" && !Dots(seg)
  {
    var seg := s[..SegmentEnd(s, 1)];
    assert forall k :: 0 <= k < |seg[1..]| ==> seg[1..][k] == s[k + 1];
    assert forall k :: 0 <= k < |seg| ==> seg[k] == s[k];
  }

  lemma {:induction false} RemovesDots(s: string, out: string)
    requires NoDots(out) && Ready(s, out)
    ensures NoDots(Remove(s, out))
    decreases |s|
  {
    if s != "" {
      DropLastIsPrefix(out);
      PrefixHasNoDots(out, |DropLast(out)|);
      match Classify(s)
      case Here => RemovesDots(s[2..], out);
      case Up => RemovesDots(s[3..], out);
      case SlashHere => RemovesDots(s[2..], out);
      case SlashHereEnds => RemovesDots("/", out);
      case SlashUp => RemovesDots(s[3..], DropLast(out));
      case SlashUpEnds => RemovesDots("/", DropLast(out));
      case OnlyHere =>
      case OnlyUp =>
      case Segment =>
        var n := SegmentEnd(s, 1);
        SegmentIsNotDots(s, out);
        AppendHasNoDots(out, s[..n]);
        RemovesDots(s[n..], out + s[..n]);
    }
  }

  /** Whatever the path, no dot segment is left. */
  lemma ResultHasNoDots(s: string)
    ensures NoDots(Remove(s, ""))
  {
    RemovesDots(s, "");
  }

  /** Without dot segments every round moves a segment. */
  lemma NoDotsMoves(s: string, out: string)
    requires s != "" && NoDots(out + s) && Ready(s, out)
    ensures Classify(s) == Segment
  {
    var t := out + s;
    if s[0] == '/' {
      var i := |out| + 1;
      assert t[i - 1] == '/';
      var j := |out| + SegmentEnd(s, 1);
      assert forall k :: |out| <= k < |t| ==> t[k] == s[k - |out|];
      assert SegmentAt(t, i, j);
      assert t[i..j] == s[1..SegmentEnd(s, 1)];
      NotDotsAhead(s, 1);
    } else {
      assert t == s;
      var j := SegmentEnd(s, 1);
      assert SegmentAt(s, 0, j);
      NotDotsAhead(s, 0);
    }
  }

  /** If the segment at `i` (0 or 1) is not made of dots, no case but the last applies. */
  lemma NotDotsAhead(s: string, i: nat)
    requires s != "" && i == (if s[0] == '/' then 1 else 0) && !Dots(s[i..SegmentEnd(s, 1)])
    ensures Classify(s) == Segment
  {
    var n := SegmentEnd(s, 1);
    assert n == i + 1 ==> s[i..n] == [s[i]];
    assert n == i + 2 ==> s[i..n] == [s[i], s[i + 1]];
  }

  lemma {:induction false} RemoveKeeps(s: string, out: string)
    requires NoDots(out + s) && Ready(s, out)
    ensures Remove(s, out) == out + s
    decreases |s|
  {
    if s == "" {
      assert out + s == out;
    } else {
      NoDotsMoves(s, out);
      var n := SegmentEnd(s, 1);
      assert out + s == (out + s[..n]) + s[n..];
      RemoveKeeps(s[n..], out + s[..n]);
    }
  }

  /** Removing dot segments twice is removing them once. */
  lemma RemoveIsIdempotent(s: string)
    ensures Remove(Remove(s, ""), "") == Remove(s, "")
  {
    var t := Remove(s, "");
    ResultHasNoDots(s);
    assert "" + t == t;
    RemoveKeeps(t, "");
  }
}
