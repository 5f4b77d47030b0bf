/**
 The host tokenizer of lib/net/dnstres.c: the maximal runs without delimiters of a request's
 host string, handed out one at a time from a buffer that is cut up in place.
 */
module HostTokens {
  import opened Wrappers

  datatype Run = Run(start: nat, end: nat)

  predicate Delim(c: char) {
    c == '\r' || c == '\n' || c == '\t' || c == ' ' || c == ','
  }

  /** strspn: the first position from `i` on that holds no delimiter. */
  function Skip(s: string, i: nat): (j: nat)
    requires i <= |s|
    ensures i <= j <= |s| && (forall k :: i <= k < j ==> Delim(s[k])) && (j < |s| ==> !Delim(s[j]))
    decreases |s| - i
  {
    if i < |s| && Delim(s[i]) then Skip(s, i + 1) else i
  }

  /** strcspn: the first delimiter from `i` on, or the end. */
  function Span(s: string, i: nat): (j: nat)
    requires i <= |s|
    ensures i <= j <= |s| && (forall k :: i <= k < j ==> !Delim(s[k])) && (j < |s| ==> Delim(s[j]))
    decreases |s| - i
  {
    if i < |s| && !Delim(s[i]) then Span(s, i + 1) else i
  }

  /** The next run from `i` on and where the search goes on after it. */
  function NextRun(s: string, i: nat): (r: Option<(Run, nat)>)
    requires i <= |s|
    ensures r.Some? ==> i <= r.value.0.start < r.value.0.end <= r.value.1 <= |s|
  {
    var a := Skip(s, i);
    if a == |s| then None
    else
      var b := Span(s, a);
      Some((Run(a, b), if b < |s| then b + 1 else b))
  }

  function RunsFrom(s: string, i: nat): (rs: seq<Run>)
    requires i <= |s|
    decreases |s| - i
  {
    match NextRun(s, i)
    case None => []
    case Some((r, j)) => [r] + RunsFrom(s, j)
  }

  // ----- what the runs are

  /** A longest stretch without delimiters. */
  predicate Maximal(s: string, r: Run) {
    && r.start < r.end <= |s| && (forall k :: r.start <= k < r.end ==> !Delim(s[k]))
    && (r.start > 0 ==> Delim(s[r.start - 1])) && (r.end < |s| ==> Delim(s[r.end]))
  }

  /** The first run from `i` on, and the others. */
  lemma FirstRun(s: string, i: nat, a: nat, b: nat, j: nat, r: Run)
    requires i <= |s| && (i > 0 && i < |s| ==> Delim(s[i - 1]))
    requires a == Skip(s, i) < |s| && b == Span(s, a) && j == if b < |s| then b + 1 else b
    ensures Maximal(s, r) && i <= r.start <==> r == Run(a, b) || (Maximal(s, r) && j <= r.start)
  {
    assert Maximal(s, Run(a, b));
    if Maximal(s, r) && i <= r.start < j {
      OneRun(s, Run(a, b), r, i);
    }
  }

  lemma {:induction false} RunsAreMaximal(s: string, i: nat, r: Run)
    requires i <= |s| && (i > 0 && i < |s| ==> Delim(s[i - 1]))
    ensures r in RunsFrom(s, i) <==> Maximal(s, r) && i <= r.start
    decreases |s| - i
  {
    var a := Skip(s, i);
    if a < |s| {
      var b := Span(s, a);
      var j := if b < |s| then b + 1 else b;
      FirstRun(s, i, a, b, j, r);
      RunsAreMaximal(s, j, r);
      assert RunsFrom(s, i) == [Run(a, b)] + RunsFrom(s, j);
    } else {
      assert Maximal(s, r) ==> !Delim(s[r.start]);
    }
  }

  /** Between `i` and the end of the first run there is no other maximal run. */
  lemma OneRun(s: string, first: Run, r: Run, i: nat)
    requires Maximal(s, first) && Maximal(s, r) && i <= first.start && i <= r.start <= first.end
    requires forall k :: i <= k < first.start ==> Delim(s[k])
    ensures r == first
  {
    assert !Delim(s[r.start]);
    assert r.start == first.start;
    assert r.end < |s| ==> Delim(s[r.end]);
    assert first.end < |s| ==> Delim(s[first.end]);
  }

  lemma {:induction false} RunsAscend(s: string, i: nat)
    requires i <= |s|
    ensures forall k :: 0 <= k < |RunsFrom(s, i)| ==> i <= RunsFrom(s, i)[k].start
    ensures forall k, l :: 0 <= k < l < |RunsFrom(s, i)| ==> RunsFrom(s, i)[k].end <= RunsFrom(s, i)[l].start
    decreases |s| - i
  {
    match NextRun(s, i)
    case None =>
    case Some((r, j)) => RunsAscend(s, j);
  }

  /** The characters that separate hosts. */
  lemma Delimiters(c: char)
    ensures Delim(c) <==> c in "\r\n\t ,"
  {
    var all := "\r\n\t ,";
    assert all[0] == '\r' && all[1] == '\n' && all[2] == '\t' && all[3] == ' ' && all[4] == ',';
  }

  // ----- the buffer

  const NUL := '\0'

  /** struct dnstres_hosts' `hosts` and `next_host`. */
  class HostBuffer {
    const hosts: array<char>
    var nextHost: nat
    ghost const text: string

    /** From the cursor on the buffer still holds the text, and then its terminator. */
    ghost predicate Valid()
      reads this, hosts
    {
      && hosts.Length == |text| + 1 && nextHost <= |text| && NUL !in text
      && hosts[nextHost..] == text[nextHost..] + [NUL]
    }

    constructor (s: string)
      requires NUL !in s
      ensures Valid() && text == s && nextHost == 0 && fresh(hosts)
    {
      var a := new char[|s| + 1](i requires 0 <= i <= |s| => if i < |s| then s[i] else NUL);
      hosts, nextHost, text := a, 0, s;
      new;
      assert hosts[0..] == s + [NUL];
    }

    method Scan(from: nat, delims: bool) returns (j: nat)
      requires Valid() && nextHost <= from <= |text|
      ensures j == if delims then Skip(text, from) else Span(text, from)
    {
      j := from;
      while hosts[j] != NUL && Delim(hosts[j]) == delims
        invariant from <= j <= |text|
        invariant (if delims then Skip(text, j) else Span(text, j)) ==
                  if delims then Skip(text, from) else Span(text, from)
        decreases |text| - j
      {
        assert hosts[j] == hosts[nextHost..][j - nextHost];
        j := j + 1;
      }
      assert hosts[j] == hosts[nextHost..][j - nextHost];
    }

    /** Ends the string before `b` and moves the cursor behind it. */
    method Cut(b: nat)
      requires Valid() && nextHost <= b <= |text|
      modifies this, hosts
      ensures Valid() && nextHost == (if b < |text| then b + 1 else b)
      ensures hosts[b] == NUL && hosts[..b] == old(hosts[..b])
    {
      assert hosts[b] == hosts[nextHost..][b - nextHost];
      if hosts[b] != NUL {
        ghost var tail := hosts[nextHost..][b + 1 - nextHost..];
        hosts[b] := NUL;
        assert hosts[b + 1..] == tail;
        nextHost := b + 1;
      } else {
        assert hosts[b..] == hosts[nextHost..][b - nextHost..];
        nextHost := b;
      }
    }

    /**
     _dnstres_hosts_next: the next run, ended by a terminator in the buffer. What was handed out
     before stays as it is, and the rest of the text is untouched.
     */
    method Next() returns (r: Option<Run>)
      requires Valid()
      modifies this, hosts
      ensures Valid()
      ensures NextRun(text, old(nextHost)).None? ==>
                r == None && nextHost == old(nextHost) && hosts[..] == old(hosts[..])
      ensures match NextRun(text, old(nextHost))
              case None => true
              case Some((run, j)) =>
                && r == Some(run) && nextHost == j
                && hosts[run.start..run.end] == text[run.start..run.end] && hosts[run.end] == NUL
                && hosts[..run.end] == old(hosts[..run.end])
    {
      var a := Scan(nextHost, true);
      assert hosts[a] == hosts[nextHost..][a - nextHost];
      if hosts[a] == NUL {
        return None;
      }
      var b := Scan(a, false);
      assert hosts[b] == hosts[nextHost..][b - nextHost];
      forall k | a <= k < b ensures hosts[k] == text[k] {
        assert hosts[k] == hosts[nextHost..][k - nextHost];
      }
      Cut(b);
      assert hosts[a..b] == hosts[..b][a..b];
      r := Some(Run(a, b));
    }
  }
}
