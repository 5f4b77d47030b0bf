/** os_cleanpath of lib/util/os.c: a path cleaned in place, against a stack of its components. */
module CleanPath {
  // ----- on values

  /** Where the component at the start of `s` ends. */
  function CompEnd(s: string, i: nat): (k: nat)
    requires i <= |s|
    ensures i <= k <= |s| && (forall j :: i <= j < k ==> s[j] != '/') && (k < |s| ==> s[k] == '/')
    decreases |s| - i
  {
    if i == |s| || s[i] == '/' then i else CompEnd(s, i + 1)
  }

  /** The non-empty components between slashes. */
  function Comps(s: string): (cs: seq<string>)
    decreases |s|
  {
    if s == "" then []
    else if s[0] == '/' then Comps(s[1..])
    else [s[..CompEnd(s, 0)]] + Comps(s[CompEnd(s, 0)..])
  }

  /** What a component does to the stack: ".." takes back the one before, or stays at the front of a relative path. */
  function Push(abs: bool, stack: seq<string>, c: string): (t: seq<string>) {
    if c == "." then stack
    else if c != ".." then stack + [c]
    else if stack != [] && stack[|stack| - 1] != ".." then stack[..|stack| - 1]
    else if abs then stack
    else stack + [c]
  }

  function Fold(abs: bool, stack: seq<string>, cs: seq<string>): (t: seq<string>)
    decreases |cs|
  {
    if cs == [] then stack else Fold(abs, Push(abs, stack, cs[0]), cs[1..])
  }

  function Sep(stack: seq<string>): (s: string) {
    if stack == [] then "" else "/"
  }

  /** The path a stack spells. */
  function Text(abs: bool, stack: seq<string>): (s: string)
    decreases |stack|
  {
    if stack == [] then (if abs then "/" else "")
    else var n := |stack| - 1; Text(abs, stack[..n]) + Sep(stack[..n]) + stack[n]
  }

  predicate Absolute(s: string) {
    s != "" && s[0] == '/'
  }

  function Clean(s: string): (t: string) {
    Text(Absolute(s), Fold(Absolute(s), [], Comps(s)))
  }

  // ----- the shape of a stack

  predicate Name(c: string) {
    c != "" && c != "." && forall i :: 0 <= i < |c| ==> c[i] != '/' && c[i] != '\0'
  }

  /** `d` times "..", only in a relative path, then proper names. */
  predicate Shaped(abs: bool, stack: seq<string>, d: nat) {
    && d <= |stack| && (abs ==> d == 0)
    && (forall i :: 0 <= i < |stack| ==> Name(stack[i]) && (stack[i] == ".." <==> i < d))
  }

  function Dots(abs: bool, stack: seq<string>, d: nat, c: string): (d': nat) {
    if c == ".." && !abs && d == |stack| then d + 1 else d
  }

  lemma PushShaped(abs: bool, stack: seq<string>, d: nat, c: string)
    requires Shaped(abs, stack, d) && (c == "." || Name(c))
    ensures Shaped(abs, Push(abs, stack, c), Dots(abs, stack, d, c))
  {
  }

  lemma TextAppends(abs: bool, stack: seq<string>, c: string)
    ensures Text(abs, stack + [c]) == Text(abs, stack) + Sep(stack) + c
  {
    assert (stack + [c])[..|stack|] == stack;
  }

  lemma TextPops(abs: bool, stack: seq<string>)
    requires stack != []
    ensures var n := |stack| - 1; Text(abs, stack) == Text(abs, stack[..n]) + Sep(stack[..n]) + stack[n]
  {
  }

  // ----- in place

  const NUL := '\0'

  /** The loop's ghost state: the stack, how many ".." it begins with, and what is to be read. */
  datatype Ghost = Ghost(abs: bool, stack: seq<string>, d: nat, rest: string)

  /** How the written part, the limit for ".." and the unread part stand for a ghost state. */
  ghost predicate Stands(a: seq<char>, n: nat, g: Ghost, r: nat, w: nat, leftlim: nat) {
    && w <= r <= n < |a| && a[n] == NUL && NUL !in g.rest && a[r..n] == g.rest
    && Shaped(g.abs, g.stack, g.d) && a[..w] == Text(g.abs, g.stack) && leftlim == |Text(g.abs, g.stack[..g.d])|
    && (w < r || g.stack == [] || g.rest == "" || g.rest[0] == '/')
  }

  lemma {:induction false} TextGrows(abs: bool, stack: seq<string>, k: nat)
    requires k <= |stack|
    ensures |Text(abs, stack[..k])| <= |Text(abs, stack)|
    decreases |stack|
  {
    if k < |stack| {
      var n := |stack| - 1;
      TextGrows(abs, stack[..n], k);
      assert stack[..n][..k] == stack[..k];
    } else {
      assert stack[..k] == stack;
    }
  }

  lemma {:induction false} TextLonger(abs: bool, stack: seq<string>, k: nat)
    requires k < |stack| && forall i :: 0 <= i < |stack| ==> stack[i] != ""
    ensures |Text(abs, stack[..k])| < |Text(abs, stack)|
  {
    var n := |stack| - 1;
    TextPops(abs, stack);
    TextGrows(abs, stack[..n], k);
    assert stack[..n][..k] == stack[..k];
  }

  /** `x` is `below`, a separator unless it begins at `lim`, and a name. */
  ghost predicate EndsInName(x: string, below: string, lim: nat) {
    && lim <= |below| < |x| && x[..|below|] == below && (forall k :: |below| < k < |x| ==> x[k] != '/')
    && (x[|below|] == '/' || |below| == lim)
  }

  lemma NameEnds(below: string, sep: string, name: string, lim: nat)
    requires Name(name) && lim <= |below| && (sep == "/" || (sep == "" && |below| == lim))
    ensures EndsInName(below + sep + name, below, lim)
  {
  }

  /** Behind what is below it, a last component holds no slash but its separator. */
  lemma LastSlash(abs: bool, stack: seq<string>, d: nat)
    requires Shaped(abs, stack, d) && d < |stack|
    ensures EndsInName(Text(abs, stack), Text(abs, stack[..|stack| - 1]), |Text(abs, stack[..d])|)
  {
    var m := |stack| - 1;
    TextPops(abs, stack);
    TextGrows(abs, stack[..m], d);
    assert stack[..m][..d] == stack[..d];
    assert m == 0 ==> stack[..m] == stack[..d];
    NameEnds(Text(abs, stack[..m]), Sep(stack[..m]), stack[m], |Text(abs, stack[..d])|);
  }

  method PopName(a: array<char>, w0: nat, leftlim: nat, ghost x: string, ghost below: string) returns (w: nat)
    requires w0 <= a.Length && a[..w0] == x && EndsInName(x, below, leftlim)
    ensures leftlim <= w < w0 && a[..w] == below
  {
    w := w0 - 1;
    while w > leftlim && a[w] != '/'
      invariant leftlim <= |below| <= w < w0
    {
      assert x[w] == a[w];
      w := w - 1;
    }
    assert x[w] == a[w];
    assert a[..w] == x[..w];
  }

  /** Takes back the last component: backwards to its slash, but not beyond the limit. */
  method Pop(a: array<char>, w0: nat, leftlim: nat, ghost g: Ghost) returns (w: nat)
    requires w0 <= a.Length && a[..w0] == Text(g.abs, g.stack) && Shaped(g.abs, g.stack, g.d) && g.d < |g.stack|
    requires leftlim == |Text(g.abs, g.stack[..g.d])|
    ensures leftlim <= w < w0 && a[..w] == Text(g.abs, g.stack[..|g.stack| - 1])
  {
    LastSlash(g.abs, g.stack, g.d);
    w := PopName(a, w0, leftlim, Text(g.abs, g.stack), Text(g.abs, g.stack[..|g.stack| - 1]));
  }

  ghost function Goal(g: Ghost): (stack: seq<string>) {
    Fold(g.abs, g.stack, Comps(g.rest))
  }

  /** A separator is needed exactly when something has been written. */
  lemma WrittenMeansStack(abs: bool, stack: seq<string>, d: nat)
    requires Shaped(abs, stack, d)
    ensures |Text(abs, stack)| >= if abs then 1 else 0
    ensures stack == [] <==> |Text(abs, stack)| == if abs then 1 else 0
    ensures d < |stack| <==> |Text(abs, stack)| > |Text(abs, stack[..d])|
  {
    TextGrows(abs, stack, 0);
    assert stack[..0] == [] && stack[..|stack|] == stack;
    if stack != [] {
      TextLonger(abs, stack, 0);
    }
    if d < |stack| {
      TextLonger(abs, stack, d);
    }
  }

  method CopyComp(a: array<char>, r0: nat, w0: nat, ghost n: nat, ghost base: string, ghost rest: string)
    returns (r: nat, w: nat)
    requires w0 <= r0 <= n < a.Length && a[n] == NUL && NUL !in rest && a[r0..n] == rest && a[..w0] == base
    modifies a
    ensures var k := CompEnd(rest, 0); r == r0 + k && w == w0 + k && a[..w] == base + rest[..k] && a[r..n] == rest[k..]
    ensures r <= n && a[n] == NUL
  {
    r, w := r0, w0;
    ghost var k := 0;
    assert base + rest[..0] == base;
    while a[r] != NUL && a[r] != '/'
      invariant w <= r <= n && r == r0 + k && w == w0 + k && k <= |rest| && a[n] == NUL
      invariant a[..w] == base + rest[..k] && a[r..n] == rest[k..] && CompEnd(rest, 0) == CompEnd(rest, k)
      decreases n - r
    {
      assert a[r] == a[r..n][0];
      CopyChar(a, r, w, n, base, rest, k);
      r, w, k := r + 1, w + 1, k + 1;
    }
    if r < n {
      assert a[r] == a[r..n][0];
      assert rest[k] in rest;
    }
  }

  method CopyChar(a: array<char>, r: nat, w: nat, ghost n: nat, ghost base: string, ghost rest: string, ghost k: nat)
    requires w <= r < n < a.Length && a[n] == NUL && k < |rest| && a[r..n] == rest[k..] && a[..w] == base + rest[..k]
    modifies a
    ensures a[n] == NUL && a[r + 1..n] == rest[k + 1..] && a[..w + 1] == base + rest[..k + 1]
  {
    assert a[r] == a[r..n][0];
    assert a[r + 1..n] == a[r..n][1..];
    assert rest[..k + 1] == rest[..k] + [rest[k]];
    a[w] := a[r];
  }

  /** The first component of what is unread, and what follows it. */
  function First(s: string): (c: string) {
    s[..CompEnd(s, 0)]
  }

  function After(s: string): (t: string) {
    s[CompEnd(s, 0)..]
  }

  lemma CompsSplit(s: string)
    requires s != "" && s[0] != '/'
    ensures Comps(s) == [First(s)] + Comps(After(s))
    ensures First(s) != "" && (After(s) == "" || After(s)[0] == '/')
    ensures '\0' !in s ==> First(s) == "." || Name(First(s))
  {
    if '\0' !in s {
      forall i | 0 <= i < |First(s)| ensures First(s)[i] != '\0' {
        assert s[i] in s;
      }
    }
  }

  /** The ghost state after the first component. */
  ghost function Taken(g: Ghost): (g': Ghost) {
    Ghost(g.abs, Push(g.abs, g.stack, First(g.rest)), Dots(g.abs, g.stack, g.d, First(g.rest)), After(g.rest))
  }

  lemma TakenGoal(g: Ghost)
    requires g.rest != "" && g.rest[0] != '/'
    ensures Goal(Taken(g)) == Goal(g)
  {
    CompsSplit(g.rest);
  }

  /** After a component, whatever it did to the stack: only what is written and the limit need a look. */
  lemma TakenStands(a: seq<char>, n: nat, g: Ghost, r: nat, w: nat, leftlim: nat)
    requires g.rest != "" && g.rest[0] != '/' && NUL !in g.rest && Shaped(g.abs, g.stack, g.d)
    requires w <= r <= n < |a| && a[n] == NUL && a[r..n] == After(g.rest)
    requires a[..w] == Text(g.abs, Taken(g).stack) && leftlim == |Text(g.abs, Taken(g).stack[..Taken(g).d])|
    ensures Stands(a, n, Taken(g), r, w, leftlim)
  {
    CompsSplit(g.rest);
    PushShaped(g.abs, g.stack, g.d, First(g.rest));
    forall c | c in After(g.rest) ensures c in g.rest {
    }
  }

  /** The separator, written where a slash or more has been read. */
  method Separate(a: array<char>, ghost n: nat, ghost g: Ghost, r: nat, w0: nat, leftlim: nat, abs: bool)
    returns (w: nat)
    requires Stands(a[..], n, g, r, w0, leftlim) && g.abs == abs && g.rest != "" && g.rest[0] != '/'
    modifies a
    ensures w <= r <= n && a[n] == NUL && a[r..n] == g.rest && a[..w] == Text(abs, g.stack) + Sep(g.stack)
  {
    WrittenMeansStack(abs, g.stack, g.d);
    w := w0;
    ghost var x := a[..w0];
    assert a[..w0] == a[..][..w0] && a[r..n] == a[..][r..n];
    if (abs && w != 1) || (!abs && w > 0) {
      a[w] := '/';
      w := w + 1;
    }
    assert a[..w] == x + Sep(g.stack);
  }

  /** A component that is neither "." nor "..". */
  method TakeName(a: array<char>, ghost n: nat, ghost g: Ghost, r0: nat, w0: nat, leftlim: nat, abs: bool)
    returns (r: nat, w: nat)
    requires Stands(a[..], n, g, r0, w0, leftlim) && g.abs == abs && g.rest != "" && g.rest[0] != '/'
    requires First(g.rest) != "." && First(g.rest) != ".."
    modifies a
    ensures Stands(a[..], n, Taken(g), r, w, leftlim) && r > r0
  {
    w := Separate(a, n, g, r0, w0, leftlim, abs);
    r, w := CopyComp(a, r0, w, n, a[..w], g.rest);
    NameWritten(g);
    assert a[..][..w] == a[..w] && a[..][r..n] == a[r..n];
    TakenStands(a[..], n, g, r, w, leftlim);
  }

  lemma NameWritten(g: Ghost)
    requires First(g.rest) != "." && First(g.rest) != ".." && g.d <= |g.stack|
    ensures Text(g.abs, Taken(g).stack) == Text(g.abs, g.stack) + Sep(g.stack) + First(g.rest)
    ensures Taken(g).stack[..Taken(g).d] == g.stack[..g.d]
  {
    TextAppends(g.abs, g.stack, First(g.rest));
  }

  lemma UpWritten(g: Ghost)
    requires Shaped(g.abs, g.stack, g.d) && First(g.rest) == ".."
    ensures if g.d < |g.stack| then Taken(g).stack == g.stack[..|g.stack| - 1] && Taken(g).d == g.d
            else if g.abs then Taken(g).stack == g.stack && Taken(g).d == g.d
            else Taken(g).stack == g.stack + [".."] && Taken(g).d == |g.stack| + 1
    ensures Taken(g).d <= |Taken(g).stack|
    ensures g.d < |g.stack| || g.abs ==> Taken(g).stack[..Taken(g).d] == g.stack[..g.d]
  {
    if g.d < |g.stack| {
      assert g.stack[|g.stack| - 1] != "..";
    }
  }

  method WriteUp(a: array<char>, ghost n: nat, ghost g: Ghost, r0: nat, w0: nat, leftlim: nat) returns (w: nat)
    requires Stands(a[..], n, g, r0, w0, leftlim) && !g.abs && First(g.rest) == ".." && g.rest[0] != '/' && r0 + 2 <= n
    modifies a
    ensures w <= r0 + 2 && a[n] == NUL && a[r0 + 2..n] == g.rest[2..] && a[..w] == Text(false, g.stack + [".."])
  {
    w := Separate(a, n, g, r0, w0, leftlim, false);
    TextAppends(false, g.stack, "..");
    PutDots(a, n, w, r0, a[..w], g.rest);
    w := w + 2;
  }

  method PutDots(a: array<char>, ghost n: nat, w: nat, ghost r: nat, ghost x: string, ghost rest: string)
    requires w <= r && r + 2 <= n < a.Length && a[..w] == x && a[r..n] == rest && a[n] == NUL
    modifies a
    ensures a[..w + 2] == x + ".." && a[r + 2..n] == rest[2..] && a[n] == NUL
  {
    assert a[r + 2..n] == a[r..n][2..];
    a[w], a[w + 1] := '.', '.';
  }

  lemma UpStarts(a: seq<char>, n: nat, g: Ghost, r: nat, w: nat, leftlim: nat)
    requires Stands(a, n, g, r, w, leftlim) && First(g.rest) == ".." && g.rest[0] != '/'
    ensures r + 2 <= n && a[r + 2..n] == After(g.rest) && (w > leftlim <==> g.d < |g.stack|)
  {
    assert |g.rest| >= 2 && After(g.rest) == g.rest[2..];
    assert a[r + 2..n] == a[r..n][2..];
    WrittenMeansStack(g.abs, g.stack, g.d);
  }

  lemma Above(a: seq<char>, n: nat, g: Ghost, r: nat, w: nat, leftlim: nat)
    requires Stands(a, n, g, r, w, leftlim)
    ensures w > leftlim <==> g.d < |g.stack|
  {
    WrittenMeansStack(g.abs, g.stack, g.d);
  }

  /** The front of a relative path: the ".." is kept. */
  method KeepUp(a: array<char>, ghost n: nat, ghost g: Ghost, r0: nat, w0: nat, leftlim: nat) returns (w: nat)
    requires Stands(a[..], n, g, r0, w0, leftlim) && !g.abs && First(g.rest) == ".." && g.rest[0] != '/'
    requires g.d >= |g.stack|
    modifies a
    ensures Stands(a[..], n, Taken(g), r0 + 2, w, w) == true
  {
    UpStarts(a[..], n, g, r0, w0, leftlim);
    UpWritten(g);
    w := WriteUp(a, n, g, r0, w0, leftlim);
    assert Taken(g).stack[..Taken(g).d] == Taken(g).stack;
    assert a[..][..w] == a[..w] && a[..][r0 + 2..n] == a[r0 + 2..n];
    TakenStands(a[..], n, g, r0 + 2, w, w);
  }

  method PopUp(a: array<char>, ghost n: nat, ghost g: Ghost, r0: nat, w0: nat, leftlim: nat) returns (w: nat)
    requires Stands(a[..], n, g, r0, w0, leftlim) && First(g.rest) == ".." && g.rest[0] != '/' && g.d < |g.stack|
    ensures Stands(a[..], n, Taken(g), r0 + 2, w, leftlim) == true
  {
    UpStarts(a[..], n, g, r0, w0, leftlim);
    UpWritten(g);
    assert a[..][..w0] == a[..w0];
    w := Pop(a, w0, leftlim, g);
    assert a[..][..w] == a[..w];
    TakenStands(a[..], n, g, r0 + 2, w, leftlim);
  }

  /** Nothing is above the root. */
  lemma NoUp(a: seq<char>, n: nat, g: Ghost, r: nat, w: nat, leftlim: nat)
    requires Stands(a, n, g, r, w, leftlim) && First(g.rest) == ".." && g.rest[0] != '/' && g.d >= |g.stack| && g.abs
    ensures Stands(a, n, Taken(g), r + 2, w, leftlim) == true
  {
    UpStarts(a, n, g, r, w, leftlim);
    UpWritten(g);
    TakenStands(a, n, g, r + 2, w, leftlim);
  }

  /** "..": takes back a component, or is kept at the front of a relative path, or has no effect. */
  method TakeUp(a: array<char>, ghost n: nat, ghost g: Ghost, r0: nat, w0: nat, leftlim0: nat, abs: bool)
    returns (r: nat, w: nat, leftlim: nat)
    requires Stands(a[..], n, g, r0, w0, leftlim0) && g.abs == abs && First(g.rest) == ".." && g.rest[0] != '/'
    modifies a
    ensures Stands(a[..], n, Taken(g), r, w, leftlim) == true && r > r0
  {
    r, w, leftlim := r0 + 2, w0, leftlim0;
    Above(a[..], n, g, r0, w0, leftlim0);
    if w > leftlim {
      w := PopUp(a, n, g, r0, w0, leftlim0);
    } else if !abs {
      w := KeepUp(a, n, g, r0, w0, leftlim0);
      leftlim := w;
    } else {
      NoUp(a[..], n, g, r0, w0, leftlim0);
    }
  }

  /** ".": nothing but reading on. */
  lemma TakeHere(a: seq<char>, n: nat, g: Ghost, r: nat, w: nat, leftlim: nat)
    requires Stands(a, n, g, r, w, leftlim) && First(g.rest) == "." && g.rest[0] != '/'
    ensures Stands(a, n, Taken(g), r + 1, w, leftlim)
  {
    assert a[r + 1..n] == a[r..n][1..];
    TakenStands(a, n, g, r + 1, w, leftlim);
  }

  lemma TakeSlash(a: seq<char>, n: nat, g: Ghost, r: nat, w: nat, leftlim: nat)
    requires Stands(a, n, g, r, w, leftlim) && g.rest != "" && g.rest[0] == '/'
    ensures Stands(a, n, g.(rest := g.rest[1..]), r + 1, w, leftlim) && Goal(g.(rest := g.rest[1..])) == Goal(g)
  {
    assert a[r + 1..n] == a[r..n][1..];
  }

  /** What the characters at `r` say about the first component. */
  method Look(a: array<char>, ghost n: nat, r: nat, ghost rest: string) returns (here: bool, up: bool)
    requires r < n < a.Length && a[n] == NUL && NUL !in rest && a[r..n] == rest && rest[0] != '/'
    ensures here <==> First(rest) == "."
    ensures up <==> First(rest) == ".."
  {
    forall k | 0 <= k < |rest| ensures a[r + k] == rest[k] && rest[k] != NUL {
      assert a[r + k] == a[r..n][k];
      assert rest[k] in rest;
    }
    here := a[r] == '.' && (a[r + 1] == NUL || a[r + 1] == '/');
    up := a[r] == '.' && a[r + 1] == '.' && (a[r + 2] == NUL || a[r + 2] == '/');
    Firsts(rest);
  }

  lemma Firsts(s: string)
    requires s != "" && s[0] != '/'
    ensures First(s) == "." <==> s[0] == '.' && (|s| == 1 || s[1] == '/')
    ensures First(s) == ".." <==> |s| > 1 && s[0] == '.' && s[1] == '.' && (|s| == 2 || s[2] == '/')
  {
    assert |First(s)| == 1 ==> First(s) == [s[0]];
    assert |First(s)| == 2 ==> First(s) == [s[0], s[1]];
  }

  /** One round of the loop. */
  method Step(a: array<char>, ghost n: nat, ghost g: Ghost, r0: nat, w0: nat, leftlim0: nat, abs: bool)
    returns (r: nat, w: nat, leftlim: nat, ghost g': Ghost)
    requires Stands(a[..], n, g, r0, w0, leftlim0) && g.abs == abs && r0 < n
    modifies a
    ensures Stands(a[..], n, g', r, w, leftlim) && g'.abs == abs && Goal(g') == Goal(g) && r > r0
  {
    r, w, leftlim := r0, w0, leftlim0;
    assert a[..][r..n] == a[r..n];
    assert a[r] == g.rest[0];
    if a[r] == '/' {
      TakeSlash(a[..], n, g, r, w, leftlim);
      r, g' := r + 1, g.(rest := g.rest[1..]);
      return;
    }
    g' := Taken(g);
    TakenGoal(g);
    var here, up := Look(a, n, r, g.rest);
    if here {
      TakeHere(a[..], n, g, r, w, leftlim);
      r := r + 1;
    } else if up {
      r, w, leftlim := TakeUp(a, n, g, r, w, leftlim, abs);
    } else {
      r, w := TakeName(a, n, g, r, w, leftlim, abs);
    }
  }

  /** os_cleanpath: the path spelt by the stack of its components, in the same memory. */
  method CleanInPlace(a: array<char>, ghost s: string) returns (w: nat)
    requires |s| < a.Length && a[..|s|] == s && a[|s|] == NUL && NUL !in s
    modifies a
    ensures w <= |s| && a[..w] == Clean(s) && a[w] == NUL
  {
    var abs := a[0] == '/';
    assert s != "" ==> s[0] == a[0];
    var r: nat := if abs then 1 else 0;
    w := r;
    var leftlim := r;
    ghost var n := |s|;
    ghost var g := Ghost(abs, [], 0, s[r..]);
    assert a[..][r..n] == s[r..] && a[..][..w] == Text(abs, []);
    while a[r] != NUL
      invariant Stands(a[..], n, g, r, w, leftlim) && g.abs == abs == Absolute(s) && Goal(g) == Fold(abs, [], Comps(s))
      decreases n - r
    {
      r, w, leftlim, g := Step(a, n, g, r, w, leftlim, abs);
    }
    UnreadIsNotNul(a[..], n, g, r, w, leftlim);
    assert a[..][..w] == a[..w];
    a[w] := NUL;
  }

  lemma UnreadIsNotNul(a: seq<char>, n: nat, g: Ghost, r: nat, w: nat, leftlim: nat)
    requires Stands(a, n, g, r, w, leftlim)
    ensures r < n ==> a[r] != NUL
    ensures r == n ==> g.rest == ""
  {
    if r < n {
      assert a[r] == a[r..n][0];
      assert g.rest[0] in g.rest;
    }
  }

  // ----- cleaning twice

  lemma {:induction false} FoldShaped(abs: bool, stack: seq<string>, d: nat, cs: seq<string>) returns (d': nat)
    requires Shaped(abs, stack, d) && forall i :: 0 <= i < |cs| ==> cs[i] == "." || Name(cs[i])
    ensures Shaped(abs, Fold(abs, stack, cs), d')
    decreases |cs|
  {
    d' := d;
    if cs != [] {
      PushShaped(abs, stack, d, cs[0]);
      d' := FoldShaped(abs, Push(abs, stack, cs[0]), Dots(abs, stack, d, cs[0]), cs[1..]);
    }
  }

  lemma {:induction false} CompsAreNames(s: string)
    requires NUL !in s
    ensures forall i :: 0 <= i < |Comps(s)| ==> Comps(s)[i] == "." || Name(Comps(s)[i])
    decreases |s|
  {
    if s != "" && s[0] == '/' {
      CompsAreNames(s[1..]);
    } else if s != "" {
      CompsSplit(s);
      CompsAreNames(After(s));
    }
  }

  /** A shaped stack is pushed back as it is. */
  lemma {:induction false} FoldKeeps(abs: bool, stack: seq<string>, d: nat, k: nat)
    requires Shaped(abs, stack, d) && k <= |stack|
    ensures Fold(abs, stack[..k], stack[k..]) == stack
    decreases |stack| - k
  {
    if k == |stack| {
      assert stack[..k] == stack;
    } else {
      var c := stack[k];
      assert Name(c) && (c == ".." <==> k < d);
      assert k > 0 && c == ".." ==> stack[..k][k - 1] == "..";
      assert Push(abs, stack[..k], c) == stack[..k + 1];
      assert stack[k..][1..] == stack[k + 1..];
      FoldKeeps(abs, stack, d, k + 1);
    }
  }

  /** Components of a text to which a slash and a name are appended. */
  lemma {:induction false} CompsAppend(s: string, c: string)
    requires c != "" && '/' !in c
    ensures Comps(s + "/" + c) == Comps(s) + [c]
    decreases |s|
  {
    if s == "" {
      assert s + "/" + c == "/" + c && ("/" + c)[1..] == c;
      CompsOfName(c);
    } else if s[0] == '/' {
      assert (s + "/" + c)[1..] == s[1..] + "/" + c;
      CompsAppend(s[1..], c);
    } else {
      var t, k := s + "/" + c, CompEnd(s, 0);
      assert forall j :: 0 <= j < |s| ==> t[j] == s[j];
      assert k == |s| ==> t[k] == '/';
      CompEndIs(t, 0, k);
      assert t[..k] == s[..k] && t[k..] == s[k..] + "/" + c;
      CompsAppend(s[k..], c);
    }
  }

  lemma {:induction false} CompEndIs(t: string, i: nat, k: nat)
    requires i <= k <= |t| && (forall j :: i <= j < k ==> t[j] != '/') && (k == |t| || t[k] == '/')
    ensures CompEnd(t, i) == k
    decreases k - i
  {
    if i < k {
      CompEndIs(t, i + 1, k);
    }
  }

  lemma CompsOfName(c: string)
    requires c != "" && '/' !in c
    ensures Comps(c) == [c]
  {
    CompEndIs(c, 0, |c|);
    assert c[..|c|] == c && c[|c|..] == "";
  }

  /** The text of a shaped stack has the stack as its components. */
  lemma {:induction false} CompsOfText(abs: bool, stack: seq<string>, d: nat)
    requires Shaped(abs, stack, d)
    ensures Comps(Text(abs, stack)) == stack
    decreases |stack|
  {
    if stack == [] {
      assert abs ==> Text(abs, stack)[1..] == "";
    } else {
      var n := |stack| - 1;
      var c := stack[n];
      TextPops(abs, stack);
      assert stack == stack[..n] + [c];
      if n == 0 {
        assert stack[..n] == [];
        CompsOfName(c);
        assert abs ==> ("/" + "" + c)[1..] == c;
        assert !abs ==> "" + "" + c == c;
      } else {
        CompsOfText(abs, stack[..n], if d > n then n else d);
        CompsAppend(Text(abs, stack[..n]), c);
      }
    }
  }

  lemma {:induction false} TextStart(abs: bool, stack: seq<string>, d: nat)
    requires Shaped(abs, stack, d)
    ensures Absolute(Text(abs, stack)) <==> abs
    decreases |stack|
  {
    if stack != [] {
      var n := |stack| - 1;
      TextPops(abs, stack);
      TextStart(abs, stack[..n], if d > n then n else d);
      if n > 0 {
        TextLonger(abs, stack[..n], 0);
      }
      assert Name(stack[n]);
    }
  }

  /** Cleaning a cleaned path changes nothing. */
  lemma CleanIsIdempotent(s: string)
    requires NUL !in s
    ensures Clean(Clean(s)) == Clean(s)
  {
    var abs := Absolute(s);
    var stack := Fold(abs, [], Comps(s));
    CompsAreNames(s);
    var d := FoldShaped(abs, [], 0, Comps(s));
    CompsOfText(abs, stack, d);
    TextStart(abs, stack, d);
    assert stack[..0] == [] && stack[0..] == stack;
    FoldKeeps(abs, stack, d, 0);
  }

  // ----- what the components at the end of a path do

  lemma {:induction false} FoldAppend(abs: bool, stack: seq<string>, cs: seq<string>, c: string)
    ensures Fold(abs, stack, cs + [c]) == Push(abs, Fold(abs, stack, cs), c)
    decreases |cs|
  {
    if cs == [] {
      assert [] + [c] == [c];
      assert Fold(abs, stack, [c]) == Fold(abs, Push(abs, stack, c), []);
    } else {
      assert (cs + [c])[1..] == cs[1..] + [c];
      FoldAppend(abs, Push(abs, stack, cs[0]), cs[1..], c);
    }
  }

  /** One more component is pushed. */
  lemma CleanPushes(s: string, c: string)
    requires s != "" && c != "" && '/' !in c
    ensures var abs := Absolute(s);
            Clean(s + "/" + c) == Text(abs, Push(abs, Fold(abs, [], Comps(s)), c))
  {
    CompsAppend(s, c);
    assert Absolute(s + "/" + c) == Absolute(s);
    FoldAppend(Absolute(s), [], Comps(s), c);
  }

  /** "." goes away ... */
  lemma CleanDropsHere(s: string)
    requires s != ""
    ensures Clean(s + "/.") == Clean(s)
  {
    assert s + "/" + "." == s + "/.";
    CleanPushes(s, ".");
  }

  /** ... and ".." with the name before it. */
  lemma CleanDropsUp(s: string, name: string)
    requires s != "" && name != "" && '/' !in name && name != "." && name != ".."
    ensures Clean(s + "/" + name + "/..") == Clean(s)
  {
    var t, abs := s + "/" + name, Absolute(s);
    assert Absolute(t) == abs && t + "/" + ".." == t + "/..";
    CleanPushes(t, "..");
    CompsAppend(s, name);
    FoldAppend(abs, [], Comps(s), name);
    UpUndoes(abs, Fold(abs, [], Comps(s)), name);
  }

  lemma UpUndoes(abs: bool, stack: seq<string>, name: string)
    requires name != "." && name != ".."
    ensures Push(abs, Push(abs, stack, name), "..") == stack
  {
  }

  /** ".." with nothing before it stays in a relative path and goes away at the root. */
  lemma CleanUp()
    ensures Clean("..") == ".." && Clean("/..") == "/" && Clean("../..") == "../.."
  {
    CompsOfName("..");
    CompsAppend("..", "..");
    CompsOfName("..");
    assert Comps("/..") == Comps("..") == [".."];
    assert Fold(false, [], [".."]) == [".."] && Fold(true, [], [".."]) == [];
    assert Text(false, [".."]) == "" + "" + "..";
    assert ".." + "/" + ".." == "../..";
    CleanPushes("..", "..");
    assert Text(false, [".."] + [".."]) == "../..";
  }
}
