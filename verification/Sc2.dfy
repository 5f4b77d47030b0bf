/**
 The slot table of apps/sc2/main.c: a loop that forks one child per connection and a SIGCHLD
 handler that may run between any two of its steps while the signal is not masked. One step
 here is one access to the table, so the handler can strike inside sc2_reset_reaped too.
 */
module Sc2 {
  import opened Wrappers

  /** pid 0 is a free slot. */
  datatype Slot = Slot(pid: nat, waited: bool)

  datatype Pc =
    | Head
    | Checking(i: nat)         // sc2_reset_reaped: at slot i
    | Discounted(i: nat)       // after used--
    | Emptied(i: nat)          // after pid = 0
    | Decide
    | Polling
    | Accepted
    | Masked
    | Forked(p: nat)
    | Registered
    | Counted
    | Stopped

  /** `failed` is set when one of the two slot assertions would fail. */
  datatype State = State(slots: seq<Slot>, used: int, pc: Pc, live: set<nat>, zombies: set<nat>, failed: bool)

  datatype Step =
    | Exit(p: nat)             // a child ends
    | Reap(p: nat)             // the handler: waitpid returns p
    | Reset
    | Accept
    | Fork(p: nat)
    | Register
    | Loop(go: Pc)             // the choices of the loop and of poll

  /** The first slot with the given pid, or the number of slots. */
  function Find(slots: seq<Slot>, p: nat, i: nat): (k: nat)
    requires i <= |slots|
    ensures i <= k <= |slots| && (k < |slots| ==> slots[k].pid == p) && forall j :: i <= j < k ==> slots[j].pid != p
    decreases |slots| - i
  {
    if i == |slots| || slots[i].pid == p then i else Find(slots, p, i + 1)
  }

  function Occupied(slots: seq<Slot>): (n: nat)
    ensures n <= |slots|
  {
    if slots == [] then 0 else Occupied(slots[..|slots| - 1]) + if slots[|slots| - 1].pid > 0 then 1 else 0
  }

  predicate SignalMasked(pc: Pc) {
    pc == Masked || pc.Forked? || pc == Registered || pc == Counted
  }

  predicate Enabled(s: State, step: Step) {
    match step
    case Exit(p) => p in s.live
    case Reap(p) => p in s.zombies && !SignalMasked(s.pc)
    case Reset => s.pc == Head || (s.pc.Checking? && s.pc.i <= |s.slots|) ||
      ((s.pc.Discounted? || s.pc.Emptied?) && s.pc.i < |s.slots|)
    case Accept => s.pc == Accepted
    case Fork(p) =>  // the kernel gives out no pid in use, nor (as assumed) one still recorded here
      s.pc == Masked && p > 0 && p !in s.live && p !in s.zombies && forall i :: 0 <= i < |s.slots| ==>
          s.slots[i].pid != p
    case Register => s.pc.Forked? || s.pc == Registered
    case Loop(go) =>
      match s.pc
      case Decide => go == Stopped || go == if s.used >= |s.slots| then Head else Polling
      case Polling => go == Head || go == Accepted || go == Stopped
      case Accepted => go == Stopped
      case Masked => go == Stopped
      case Counted => go == Head
      case _ => false
  }

  function Do(s: State, step: Step): (s': State)
    requires Enabled(s, step)
  {
    match step
    case Exit(p) => s.(live := s.live - {p}, zombies := s.zombies + {p})
    case Reap(p) =>
      var k := Find(s.slots, p, 0);
      if k == |s.slots| then s.(zombies := s.zombies - {p}, failed := true)
      else s.(zombies := s.zombies - {p}, slots := s.slots[k := s.slots[k].(waited := true)])
    case Reset =>
      (match s.pc
       case Head => s.(pc := Checking(0))
       case Checking(i) =>
         if i == |s.slots| then s.(pc := Decide)
         else if s.slots[i].waited then s.(used := s.used - 1, pc := Discounted(i))
         else s.(pc := Checking(i + 1))
       case Discounted(i) => s.(slots := s.slots[i := s.slots[i].(pid := 0)], pc := Emptied(i))
       case Emptied(i) => s.(slots := s.slots[i := s.slots[i].(waited := false)], pc := Checking(i + 1))
       case _ => s)
    case Accept => s.(pc := Masked)
    case Fork(p) => s.(live := s.live + {p}, pc := Forked(p))
    case Register =>
      (match s.pc
       case Forked(p) =>
         var k := Find(s.slots, 0, 0);
         if k == |s.slots| then s.(failed := true, pc := Registered)
         else s.(slots := s.slots[k := Slot(p, false)], pc := Registered)
       case _ => s.(used := s.used + 1, pc := Counted))
    case Loop(go) => s.(pc := go)
  }

  predicate Initial(s: State) {
    && s.used == 0 && s.pc == Head && s.live == {} && s.zombies == {} && !s.failed
    && forall i :: 0 <= i < |s.slots| ==> s.slots[i] == Slot(0, false)
  }

  // ----- the invariant

  ghost predicate OnePidEach(slots: seq<Slot>) {
    forall i, j :: 0 <= i < j < |slots| && slots[i].pid > 0 ==> slots[i].pid != slots[j].pid
  }

  /** `p` is recorded in a slot and not marked as waited for. */
  ghost predicate Tracked(slots: seq<Slot>, p: nat) {
    exists i :: 0 <= i < |slots| && slots[i].pid == p && !slots[i].waited
  }

  /** Every child not yet waited for is tracked, but for one just forked, and nothing else is. */
  ghost predicate Family(s: State) {
    && s.live !! s.zombies
    && forall p: nat :: p in s.live || p in s.zombies <==> (p > 0 && Tracked(s.slots, p)) || s.pc == Forked(p)
  }

  /** A slot waited for is occupied, but for the one being reset. */
  ghost predicate Marks(s: State) {
    && (forall i :: 0 <= i < |s.slots| && s.slots[i].waited && s.slots[i].pid == 0 ==> s.pc == Emptied(i))
    && (s.pc.Discounted? ==> s.pc.i < |s.slots| && s.slots[s.pc.i].pid > 0 && s.slots[s.pc.i].waited)
    && (s.pc.Emptied? ==> s.pc.i < |s.slots| && s.slots[s.pc.i].pid == 0)
    && (s.pc.Checking? ==> s.pc.i <= |s.slots|)
    && (s.pc.Forked? ==> s.pc.p > 0 && forall i :: 0 <= i < |s.slots| ==> s.slots[i].pid != s.pc.p)
  }

  /** `used` counts the occupied slots, but for the moments between changing the one and the other. */
  ghost predicate Counts(s: State) {
    && 0 <= s.used == Occupied(s.slots) - (if s.pc.Discounted? || s.pc == Registered then 1 else 0)
    && (s.pc == Polling || s.pc == Accepted || s.pc == Masked || s.pc.Forked? ==> s.used < |s.slots|)
  }

  ghost predicate Inv(s: State) {
    !s.failed && OnePidEach(s.slots) && Family(s) && Marks(s) && Counts(s)
  }

  lemma {:induction false} OccupiedNone(slots: seq<Slot>)
    requires forall i :: 0 <= i < |slots| ==> slots[i].pid == 0
    ensures Occupied(slots) == 0
  {
    if slots != [] {
      OccupiedNone(slots[..|slots| - 1]);
    }
  }

  lemma {:induction false} OccupiedUpdate(slots: seq<Slot>, k: nat, c: Slot)
    requires k < |slots|
    ensures Occupied(slots[k := c]) == Occupied(slots) - (if slots[k].pid > 0 then 1 else 0) + (if c.pid > 0 then 1
            else 0)
  {
    var n := |slots| - 1;
    if k < n {
      OccupiedUpdate(slots[..n], k, c);
      assert slots[k := c][..n] == slots[..n][k := c];
    } else {
      assert slots[k := c][..n] == slots[..n];
    }
  }

  /** With fewer occupied slots than slots, one is free. */
  lemma {:induction false} SomeFree(slots: seq<Slot>)
    ensures Occupied(slots) < |slots| ==> exists i :: 0 <= i < |slots| && slots[i].pid == 0
  {
    if slots != [] {
      var n := |slots| - 1;
      SomeFree(slots[..n]);
      if Occupied(slots) < |slots| && slots[n].pid > 0 {
        var i :| 0 <= i < n && slots[..n][i].pid == 0;
        assert slots[i].pid == 0;
      }
    }
  }

  lemma InitialInv(s: State)
    requires Initial(s)
    ensures Inv(s)
  {
    OccupiedNone(s.slots);
  }

  // ----- every step keeps it

  /** Changing slot `k` changes whether a pid is tracked only for the pids involved. */
  lemma TrackedUpdate(slots: seq<Slot>, k: nat, c: Slot, p: nat)
    requires k < |slots| && OnePidEach(slots) && (p == slots[k].pid ==> p > 0)
    ensures Tracked(slots[k := c], p) <==> (c.pid == p && !c.waited) || (p != slots[k].pid && Tracked(slots, p))
  {
    var t := slots[k := c];
    if Tracked(t, p) {
      var i :| 0 <= i < |t| && t[i].pid == p && !t[i].waited;
      if i != k {
        assert slots[i].pid == p && !slots[i].waited;
      }
    }
    if c.pid == p && !c.waited {
      assert t[k].pid == p && !t[k].waited;
    }
    if p != slots[k].pid && Tracked(slots, p) {
      var i :| 0 <= i < |slots| && slots[i].pid == p && !slots[i].waited;
      assert t[i].pid == p && !t[i].waited;
    }
  }

  /** The handler always finds the slot of the child it has waited for. */
  lemma ReapFinds(s: State, p: nat)
    requires Inv(s) && p in s.zombies && !SignalMasked(s.pc)
    ensures var k := Find(s.slots, p, 0); k < |s.slots| && p > 0 && s.slots[k] == Slot(p, false)
  {
    assert Tracked(s.slots, p);
    var i :| 0 <= i < |s.slots| && s.slots[i].pid == p && !s.slots[i].waited;
  }

  lemma KeepsReap(s: State, p: nat)
    requires Inv(s) && Enabled(s, Reap(p))
    ensures Inv(Do(s, Reap(p)))
  {
    var s' := Do(s, Reap(p));
    ReapFinds(s, p);
    var k := Find(s.slots, p, 0);
    OccupiedUpdate(s.slots, k, Slot(p, true));
    assert s'.slots == s.slots[k := Slot(p, true)];
    forall q: nat | q > 0 ensures Tracked(s'.slots, q) <==> q != p && Tracked(s.slots, q) {
      TrackedUpdate(s.slots, k, Slot(p, true), q);
    }
  }

  lemma KeepsDiscounted(s: State)
    requires Inv(s) && s.pc.Discounted?
    ensures Inv(Do(s, Reset))
  {
    var s', i := Do(s, Reset), s.pc.i;
    var c := s.slots[i].(pid := 0);
    OccupiedUpdate(s.slots, i, c);
    forall q: nat | q > 0 ensures Tracked(s'.slots, q) <==> Tracked(s.slots, q) {
      TrackedUpdate(s.slots, i, c, q);
      if q == s.slots[i].pid {
        assert forall j :: 0 <= j < |s.slots| && s.slots[j].pid == q ==> j == i;
      }
    }
  }

  lemma KeepsEmptied(s: State)
    requires Inv(s) && s.pc.Emptied?
    ensures Inv(Do(s, Reset))
  {
    var s', i := Do(s, Reset), s.pc.i;
    OccupiedUpdate(s.slots, i, Slot(0, false));
    forall q: nat | q > 0 ensures Tracked(s'.slots, q) <==> Tracked(s.slots, q) {
      TrackedUpdate(s.slots, i, Slot(0, false), q);
    }
  }

  lemma SameSlots(s: State, s': State)
    requires Inv(s) && s'.slots == s.slots && s'.live == s.live && s'.zombies == s.zombies && !s'.failed
    requires !s.pc.Forked? && !s'.pc.Forked? && !s.pc.Emptied?
    ensures OnePidEach(s'.slots) && Family(s')
    ensures forall i :: 0 <= i < |s'.slots| && s'.slots[i].waited ==> s'.slots[i].pid > 0
  {
  }

  lemma KeepsChecking(s: State)
    requires Inv(s) && (s.pc == Head || s.pc.Checking?)
    ensures Inv(Do(s, Reset))
  {
    SameSlots(s, Do(s, Reset));
    if s.pc.Checking? && s.pc.i < |s.slots| && s.slots[s.pc.i].waited {
      OccupiedUpdate(s.slots, s.pc.i, Slot(0, false));
    }
  }

  lemma KeepsRegister(s: State)
    requires Inv(s) && s.pc.Forked?
    ensures Inv(Do(s, Register))
  {
    var s', p := Do(s, Register), s.pc.p;
    SomeFree(s.slots);
    var k := Find(s.slots, 0, 0);
    OccupiedUpdate(s.slots, k, Slot(p, false));
    forall q: nat | q > 0 ensures Tracked(s'.slots, q) <==> q == p || Tracked(s.slots, q) {
      TrackedUpdate(s.slots, k, Slot(p, false), q);
    }
  }

  lemma KeepsInv(s: State, step: Step)
    requires Inv(s) && Enabled(s, step)
    ensures Inv(Do(s, step))
  {
    match step
    case Exit(p) =>
    case Reap(p) => KeepsReap(s, p);
    case Reset =>
      if s.pc.Discounted? {
        KeepsDiscounted(s);
      } else if s.pc.Emptied? {
        KeepsEmptied(s);
      } else {
        KeepsChecking(s);
      }
    case Accept => SameSlots(s, Do(s, step));
    case Fork(p) => KeepsFork(s, p);
    case Register =>
      if s.pc.Forked? {
        KeepsRegister(s);
      } else {
        SameSlots(s, Do(s, step));
      }
    case Loop(go) => SameSlots(s, Do(s, step));
  }

  lemma KeepsFork(s: State, p: nat)
    requires Inv(s) && Enabled(s, Fork(p))
    ensures Inv(Do(s, Fork(p)))
  {
    assert !Tracked(s.slots, p);
  }

  // ----- runs

  ghost predicate Run(states: seq<State>, steps: seq<Step>) {
    && |states| == |steps| + 1 && Initial(states[0])
    && forall i :: 0 <= i < |steps| ==> Enabled(states[i], steps[i]) && states[i + 1] == Do(states[i], steps[i])
  }

  lemma {:induction false} RunKeepsInv(states: seq<State>, steps: seq<Step>, n: nat)
    requires Run(states, steps) && n < |states|
    ensures Inv(states[n])
  {
    if n == 0 {
      InitialInv(states[0]);
    } else {
      RunKeepsInv(states, steps, n - 1);
      KeepsInv(states[n - 1], steps[n - 1]);
    }
  }

  /**
   In every run: neither slot assertion fails, `used` never exceeds the number of slots, it equals
   the number of occupied ones whenever the loop is at its head, and every child that has not been
   waited for has exactly one slot, unless it was forked a moment ago.
   */
  lemma SlotsAreSafe(states: seq<State>, steps: seq<Step>, n: nat, p: nat)
    requires Run(states, steps) && n < |states|
    ensures var s := states[n];
            && !s.failed && 0 <= s.used <= |s.slots| && (s.pc == Head ==> s.used == Occupied(s.slots))
            && (p in s.live || p in s.zombies ==>
                  s.pc == Forked(p) || exists i :: 0 <= i < |s.slots| && s.slots[i] == Slot(p, false)
                                                   && forall j :: 0 <= j < |s.slots| && s.slots[j].pid == p ==> j == i)
  {
    RunKeepsInv(states, steps, n);
    var s := states[n];
    if (p in s.live || p in s.zombies) && s.pc != Forked(p) {
      var i :| 0 <= i < |s.slots| && s.slots[i].pid == p && !s.slots[i].waited;
      assert s.slots[i] == Slot(p, false);
    }
  }

  // ----- what a pass of sc2_reset_reaped does

  predicate InPass(pc: Pc) {
    pc.Checking? || pc.Discounted? || pc.Emptied?
  }

  /**
   A slot the pass has behind it: free if it was waited for at the start; otherwise as it was, or freed after its
   child was reaped.
   */
  ghost predicate Swept(c0: Slot, c: Slot, live: set<nat>, zombies: set<nat>) {
    && (c0.waited ==> c == Slot(0, false))
    && (c.pid == c0.pid || (c == Slot(0, false) && c0.pid !in live && c0.pid !in zombies))
  }

  /** A slot the pass has yet to see: the handler may have marked it. */
  predicate Ahead(c0: Slot, c: Slot) {
    c.pid == c0.pid && (c0.waited ==> c.waited)
  }

  /** Where the pass that began with the slots `slots0` stands, the handler running at any point of it. */
  ghost predicate Sweeping(slots0: seq<Slot>, s: State) {
    && InPass(s.pc) && |s.slots| == |slots0| && s.pc.i <= |s.slots|
    && (forall j :: 0 <= j < s.pc.i ==> Swept(slots0[j], s.slots[j], s.live, s.zombies))
    && (forall j :: s.pc.i <= j < |s.slots| && !(j == s.pc.i && s.pc.Emptied?) ==> Ahead(slots0[j], s.slots[j]))
    && (!s.pc.Checking? ==>
          && s.pc.i < |s.slots| && s.slots[s.pc.i].waited
          && slots0[s.pc.i].pid !in s.live && slots0[s.pc.i].pid !in s.zombies)
  }

  lemma SweepStarts(s: State)
    requires s.pc == Checking(0)
    ensures Sweeping(s.slots, s)
  {
  }

  /** A child that has been waited for is gone. */
  lemma WaitedIsGone(s: State, i: nat)
    requires Inv(s) && i < |s.slots| && s.slots[i].waited && !s.pc.Forked?
    ensures s.slots[i].pid !in s.live && s.slots[i].pid !in s.zombies
  {
    var p := s.slots[i].pid;
    forall j | 0 <= j < |s.slots| && s.slots[j].pid == p && p > 0 ensures s.slots[j].waited {
      assert j == i;
    }
  }

  lemma SweepsHandler(slots0: seq<Slot>, s: State, step: Step)
    requires Sweeping(slots0, s) && Inv(s) && Enabled(s, step) && (step.Exit? || step.Reap?)
    ensures Sweeping(slots0, Do(s, step))
  {
    if step.Reap? {
      ReapFinds(s, step.p);
    }
  }

  lemma SweepsReset(slots0: seq<Slot>, s: State)
    requires Sweeping(slots0, s) && Inv(s) && Enabled(s, Reset) && !(s.pc.Checking? && s.pc.i == |s.slots|)
    ensures Sweeping(slots0, Do(s, Reset))
  {
    var i := s.pc.i;
    if s.slots[i].waited {
      WaitedIsGone(s, i);
    }
  }

  /** What the pass leaves: at its end everything is behind it, and `used` counts what is occupied. */
  ghost predicate PassDone(slots0: seq<Slot>, s: State) {
    && s.pc == Decide && |s.slots| == |slots0| && s.used == Occupied(s.slots)
    && forall j :: 0 <= j < |s.slots| ==> Swept(slots0[j], s.slots[j], s.live, s.zombies)
  }

  lemma SweepEnds(slots0: seq<Slot>, s: State)
    requires Sweeping(slots0, s) && Inv(s) && s.pc == Checking(|s.slots|)
    ensures Enabled(s, Reset) && PassDone(slots0, Do(s, Reset))
  {
  }

  /** From state `n` to state `k` of the run, one pass. */
  ghost predicate IsPass(states: seq<State>, n: nat, k: nat) {
    && n < k < |states| && states[n].pc == Checking(0) && states[k].pc == Decide
    && forall i {:trigger states[i]} :: n <= i < k ==> InPass(states[i].pc)
  }

  ghost predicate SweepingAt(states: seq<State>, n: nat, i: nat)
    requires n <= i < |states|
  {
    forall k: nat :: OpenIn(OfPasses, k) ==> Sweeping(states[n].slots, states[i])
  }

  lemma SweepsNext(states: seq<State>, steps: seq<Step>, n: nat, i: nat)
    requires Run(states, steps) && n <= i < |steps| && SweepingAt(states, n, i) == true
    ensures InPass(states[i].pc) && InPass(states[i + 1].pc) ==> SweepingAt(states, n, i + 1) == true
    ensures InPass(states[i].pc) && states[i + 1].pc == Decide ==> PassDone(states[n].slots, states[i + 1])
  {
    assert OpenIn(OfPasses, 0);
    var s, step := states[i], steps[i];
    RunKeepsInv(states, steps, i);
    if InPass(s.pc) {
      if step.Exit? || step.Reap? {
        SweepsHandler(states[n].slots, s, step);
      } else if s.pc == Checking(|s.slots|) {
        SweepEnds(states[n].slots, s);
      } else if step.Reset? {
        SweepsReset(states[n].slots, s);
      }
    }
  }

  lemma {:induction false} SweepsOn(states: seq<State>, steps: seq<Step>, n: nat, k: nat, i: nat)
    requires Run(states, steps) == true && IsPass(states, n, k) && n <= i < k && k <= |steps|
    ensures SweepingAt(states, n, i) == true
    decreases i
  {
    if n < i {
      SweepsOn(states, steps, n, k, i - 1);
      SweepsNext(states, steps, n, i - 1);
    } else {
      SweepStarts(states[n]);
    }
  }

  /**
   In every run, with the handler at any point: a pass frees every slot whose child was reaped before it began. A
   slot is otherwise as it was, or free because its child was reaped while the pass had yet to see it. `used` is
   afterwards the number of occupied slots.
   */
  lemma PassFrees(states: seq<State>, steps: seq<Step>, n: nat, k: nat)
    requires Run(states, steps) == true && IsPass(states, n, k) && k <= |steps|
    ensures PassDone(states[n].slots, states[k])
  {
    SweepsOn(states, steps, n, k, k - 1);
    SweepsNext(states, steps, n, k - 1);
  }

  function Waited(slots: seq<Slot>): (n: nat) {
    if slots == [] then 0 else Waited(slots[..|slots| - 1]) + if slots[|slots| - 1].waited then 1 else 0
  }

  lemma {:induction false} OccupiedFalls(slots0: seq<Slot>, slots: seq<Slot>)
    requires |slots| == |slots0| && forall i :: 0 <= i < |slots0| && slots0[i].waited ==> slots0[i].pid > 0
    requires forall i :: 0 <= i < |slots| ==>
               (slots0[i].waited ==> slots[i].pid == 0) && (slots[i].pid == slots0[i].pid || slots[i].pid == 0)
    ensures Occupied(slots) + Waited(slots0) <= Occupied(slots0)
  {
    if slots != [] {
      OccupiedFalls(slots0[..|slots| - 1], slots[..|slots| - 1]);
    }
  }

  /** So `used` falls by the number of slots whose children were reaped before, or by more. */
  lemma PassLowersUsed(states: seq<State>, steps: seq<Step>, n: nat, k: nat)
    requires Run(states, steps) == true && IsPass(states, n, k) && k <= |steps|
    ensures states[n].used == Occupied(states[n].slots)
    ensures states[k].used + Waited(states[n].slots) <= states[n].used
  {
    PassFrees(states, steps, n, k);
    RunKeepsInv(states, steps, n);
    OccupiedFalls(states[n].slots, states[k].slots);
  }

  /** If every child was reaped before it, all slots are free after it, and the server goes on to accept connections. */
  lemma PassReopens(states: seq<State>, steps: seq<Step>, n: nat, k: nat)
    requires Run(states, steps) == true && IsPass(states, n, k) && k <= |steps|
    requires forall i :: 0 <= i < |states[n].slots| && states[n].slots[i].pid > 0 ==> states[n].slots[i].waited
    ensures states[k].used == 0 && forall i :: 0 <= i < |states[k].slots| ==> states[k].slots[i].pid == 0
    ensures |states[k].slots| > 0 ==> Enabled(states[k], Loop(Polling))
  {
    PassFrees(states, steps, n, k);
    OccupiedNone(states[k].slots);
  }

  /** One child reaped is enough for a server at capacity to go on. */
  lemma PassMakesRoom(states: seq<State>, steps: seq<Step>, n: nat, k: nat, i: nat)
    requires Run(states, steps) == true && IsPass(states, n, k) && k <= |steps|
    requires i < |states[n].slots| && states[n].slots[i].waited
    ensures states[k].used < |states[k].slots| && Enabled(states[k], Loop(Polling))
  {
    PassFrees(states, steps, n, k);
    AllOccupied(states[k].slots, i);
  }

  lemma {:induction false} AllOccupied(slots: seq<Slot>, i: nat)
    requires i < |slots| && slots[i].pid == 0
    ensures Occupied(slots) < |slots|
  {
    if i < |slots| - 1 {
      AllOccupied(slots[..|slots| - 1], i);
    }
  }

  // ----- a pass comes to an end

  /** The steps a pass has left: its own, and those of the children that end or are waited for meanwhile. */
  ghost function PassRank(s: State): (r: int)
    requires InPass(s.pc)
  {
    var own := match s.pc
               case Checking(i) => 3 * (|s.slots| - i) + 1
               case Discounted(i) => 3 * (|s.slots| - i)
               case _ => 3 * (|s.slots| - s.pc.i) - 1;
    own + 2 * |s.live| + |s.zombies|
  }

  lemma HandlerRank(s: State, step: Step)
    requires Inv(s) && InPass(s.pc) && Enabled(s, step) && (step.Exit? || step.Reap?)
    ensures Do(s, step).pc == s.pc && |Do(s, step).slots| == |s.slots| && PassRank(Do(s, step)) < PassRank(s)
  {
    if step.Exit? {
      assert |s.live - {step.p}| == |s.live| - 1 && |s.zombies + {step.p}| == |s.zombies| + 1;
    } else {
      assert |s.zombies - {step.p}| == |s.zombies| - 1;
    }
  }

  /** It can always go on, and each step brings its end closer. */
  lemma PassGoesOn(s: State, step: Step)
    requires Inv(s) && InPass(s.pc)
    ensures Enabled(s, Reset) && PassRank(s) > 0
    ensures Enabled(s, step) ==>
              var s' := Do(s, step); s'.pc == Decide || (InPass(s'.pc) && PassRank(s') < PassRank(s))
  {
    if Enabled(s, step) && (step.Exit? || step.Reap?) {
      HandlerRank(s, step);
    }
  }
}
