/**
 The job scheduler of apps/knegd/kng.c: running jobs, execution slots, the queue and the signals
 of its tick. Whether a process could be started, its pid and the clock come in as parameters.
 */
module Kng {
  import opened Sequences
  import opened Wrappers

  /**
   A running job. `queued` says that it was started through the queue; `termed` that SIGTERM has
   been sent; `marked` is the tick that set `sentTerm` (KNG_SENTSIGTERM).
   */
  datatype Job = Job(pid: nat, id: string, timeout: int, started: int, stopped: bool, sentTerm: bool,
                     queued: bool, termed: bool, marked: nat)

  /**
   An entry of the queue directory; `ticket` is its sequence number. One that cannot be opened or
   parsed is not readable, one without a type or an id is not complete.
   */
  datatype Entry = Entry(ticket: nat, id: string, timeout: int, readable: bool, complete: bool)

  /** A process that was started: its pid, the id that the store has given the job, and the time. */
  datatype Process = Process(pid: nat, id: string, started: int)

  const ID_SIZE := 48

  /** job_new: `asked` is the timeout of the request, `dfl` the one of the daemon. */
  function NewJob(p: Process, asked: int, dfl: int, queued: bool): (j: Job)
    ensures j.pid == p.pid && j.started == p.started
    ensures j.id <= p.id && |j.id| == if |p.id| < ID_SIZE then |p.id| else ID_SIZE - 1
    ensures j.timeout == if asked > 0 then asked else dfl
    ensures !j.stopped && !j.sentTerm && !j.termed && j.queued == queued
  {
    Job(p.pid, if |p.id| < ID_SIZE then p.id else p.id[..ID_SIZE - 1], if asked > 0 then asked else dfl, p.started,
        false, false, queued, false, 0)
  }

  datatype Signal = Term(pid: nat) | Kill(pid: nat)

  function Queued(jobs: seq<Job>): (n: nat)
    ensures n <= |jobs|
  {
    if jobs == [] then 0 else Queued(jobs[1..]) + if jobs[0].queued then 1 else 0
  }

  lemma {:induction false} QueuedRemove(jobs: seq<Job>, k: nat)
    requires k < |jobs|
    ensures Queued(jobs[..k] + jobs[k + 1..]) <= Queued(jobs)
  {
    var t := jobs[..k] + jobs[k + 1..];
    if k == 0 {
      assert t == jobs[1..];
    } else {
      QueuedRemove(jobs[1..], k - 1);
      assert t[1..] == jobs[1..][..k - 1] + jobs[1..][k..];
    }
  }

  lemma {:induction false} QueuedSame(a: seq<Job>, b: seq<Job>)
    requires |a| == |b| && forall i :: 0 <= i < |a| ==> a[i].queued == b[i].queued
    ensures Queued(a) == Queued(b)
  {
    if a != [] {
      QueuedSame(a[1..], b[1..]);
    }
  }

  /** The jobs without the first one that has the pid. */
  function Without(jobs: seq<Job>, pid: nat): (js: seq<Job>) {
    if jobs == [] then []
    else if jobs[0].pid == pid then jobs[1..]
    else [jobs[0]] + Without(jobs[1..], pid)
  }

  lemma LeftOut(jobs: seq<Job>, k: nat)
    requires 0 < k < |jobs|
    ensures jobs[..k] + jobs[k + 1..] == [jobs[0]] + (jobs[1..][..k - 1] + jobs[1..][k..])
  {
    assert jobs[..k] == [jobs[0]] + jobs[1..][..k - 1] && jobs[k + 1..] == jobs[1..][k..];
  }

  lemma {:induction false} WithoutIs(jobs: seq<Job>, pid: nat, k: nat)
    requires k <= |jobs| && (forall i :: 0 <= i < k ==> jobs[i].pid != pid) && (k < |jobs| ==> jobs[k].pid == pid)
    ensures Without(jobs, pid) == if k < |jobs| then jobs[..k] + jobs[k + 1..] else jobs
  {
    if jobs != [] && k > 0 {
      WithoutIs(jobs[1..], pid, k - 1);
      assert k == |jobs| ==> jobs == [jobs[0]] + jobs[1..];
      if k < |jobs| {
        LeftOut(jobs, k);
      }
    }
  }

  // ----- dispatching, for any order in which the directory gives out its entries

  /** How far a dispatch gets in the order, how many jobs it starts, and whether an unreadable entry ended it. */
  datatype Dispatched = Dispatched(taken: nat, started: nat, broken: bool)

  /** Up to `n` jobs from the entries of `order` from `k` on; `processes[k]` is what starting entry `k` gives. */
  function Dispatching(n: int, order: seq<Entry>, processes: seq<Option<Process>>, k: nat): (d: Dispatched)
    requires k <= |order| == |processes|
    ensures k <= d.taken <= |order| && d.started <= d.taken - k && (n > 0 ==> d.started <= n)
    decreases |order| - k
  {
    if n <= 0 || k == |order| then Dispatched(k, 0, false)
    else if !order[k].readable then Dispatched(k + 1, 0, true)
    else
      var start := Bit(Starts(order[k], processes[k]));
      var d := Dispatching(n - start, order, processes, k + 1);
      Dispatched(d.taken, d.started + start, d.broken)
  }

  predicate Starts(entry: Entry, process: Option<Process>) {
    entry.readable && entry.complete && process.Some?
  }

  function Bit(b: bool): (n: nat) {
    if b then 1 else 0
  }

  /** How many of the entries from `i` up to `j` start a job. */
  function Startable(order: seq<Entry>, processes: seq<Option<Process>>, i: nat, j: nat): (n: nat)
    requires i <= j <= |order| == |processes|
    decreases j - i
  {
    if i == j then 0 else Bit(Starts(order[i], processes[i])) + Startable(order, processes, i + 1, j)
  }

  /** Entry `j` is the first unreadable one from `k` on, and fewer than `n` before it start a job. */
  ghost predicate BreaksAt(n: int, order: seq<Entry>, processes: seq<Option<Process>>, k: nat, j: nat)
    requires k <= |order| == |processes|
  {
    && k <= j < |order| && !order[j].readable && (forall i :: k <= i < j ==> order[i].readable)
    && Startable(order, processes, k, j) < n
  }

  /** It ends right behind the entry at which it breaks. */
  lemma {:induction false} BreakGives(n: int, order: seq<Entry>, processes: seq<Option<Process>>, k: nat, j: nat)
    requires k <= |order| == |processes| && BreaksAt(n, order, processes, k, j)
    ensures Dispatching(n, order, processes, k) == Dispatched(j + 1, Startable(order, processes, k, j), true)
    decreases j - k
  {
    if k < j {
      BreakGives(n - Bit(Starts(order[k], processes[k])), order, processes, k + 1, j);
    }
  }

  /** Without one it starts all jobs it may, or runs out of entries. */
  lemma {:induction false} GivesBreak(n: int, order: seq<Entry>, processes: seq<Option<Process>>, k: nat)
    requires k <= |order| == |processes|
    ensures var d := Dispatching(n, order, processes, k);
            if d.broken then BreaksAt(n, order, processes, k, d.taken - 1) else d.started >= n || d.taken == |order|
    decreases |order| - k
  {
    if n > 0 && k < |order| && order[k].readable {
      GivesBreak(n - Bit(Starts(order[k], processes[k])), order, processes, k + 1);
    }
  }

  /** `d` is what the whole dispatch comes to when `k` entries are taken and `started` jobs are started. */
  ghost predicate Reaches(d: Dispatched, n: int, order: seq<Entry>, processes: seq<Option<Process>>, k: nat,
                          started: nat,
                          broken: bool)
    requires k <= |order| == |processes|
  {
    if broken then d == Dispatched(k, started, true)
    else var e := Dispatching(n, order, processes, k); d == Dispatched(e.taken, e.started + started, e.broken)
  }

  lemma ReachesNext(d: Dispatched, n: int, order: seq<Entry>, processes: seq<Option<Process>>, k: nat, started: nat)
    requires k < |order| == |processes| && n > 0 && Reaches(d, n, order, processes, k, started, false)
    ensures var start := Bit(Starts(order[k], processes[k]));
            Reaches(d, n - start, order, processes, k + 1, started + start, !order[k].readable)
  {
  }

  lemma ReachesEnd(d: Dispatched, n: int, order: seq<Entry>, processes: seq<Option<Process>>, k: nat, started: nat,
                   broken: bool)
    requires k <= |order| == |processes| && Reaches(d, n, order, processes, k, started, broken)
    requires n <= 0 || k == |order| || broken
    ensures d.taken == k && d.started == started
  {
  }

  /** An unreadable entry that is not the last comes before `n` entries that start a job. */
  ghost predicate Stuck(n: int, order: seq<Entry>, processes: seq<Option<Process>>)
    requires |processes| == |order|
  {
    exists j: nat :: BreaksAt(n, order, processes, 0, j) && j + 1 < |order|
  }

  /** A dispatch ends with jobs still to start and entries left if and only if it is stuck. */
  lemma DispatchLeaves(n: int, order: seq<Entry>, processes: seq<Option<Process>>)
    requires |processes| == |order|
    ensures var d := Dispatching(n, order, processes, 0);
            d.started < n && d.taken < |order| <==> Stuck(n, order, processes)
  {
    var d := Dispatching(n, order, processes, 0);
    GivesBreak(n, order, processes, 0);
    if Stuck(n, order, processes) {
      var j: nat :| BreaksAt(n, order, processes, 0, j) && j + 1 < |order|;
      BreakGives(n, order, processes, 0, j);
    }
    if d.broken {
      BreakGives(n, order, processes, 0, d.taken - 1);
    }
  }

  /** Two slots free, a truncated entry and a good one: nothing is started, and the good one stays queued. */
  lemma TruncatedEntryBlocks(a: Process, b: Process)
    ensures var order := [Entry(0, "a", 0, false, true), Entry(1, "b", 0, true, true)];
            && Dispatching(2, order, [Some(a), Some(b)], 0) == Dispatched(1, 0, true)
            && Stuck(2, order, [Some(a), Some(b)])
  {
    assert BreaksAt(2, [Entry(0, "a", 0, false, true), Entry(1, "b", 0, true, true)], [Some(a), Some(b)], 0, 0);
  }

  /** The jobs that the entries up to `k` start, the newest first. */
  function Begun(order: seq<Entry>, processes: seq<Option<Process>>, dfl: int, k: nat): (js: seq<Job>)
    requires k <= |order| == |processes|
  {
    if k == 0 then []
    else
      (if Starts(order[k - 1], processes[k - 1])
       then [NewJob(processes[k - 1].value, order[k - 1].timeout, dfl, true)] else [])
      + Begun(order, processes, dfl, k - 1)
  }

  /** Their tickets, the oldest first. */
  function Tickets(order: seq<Entry>, processes: seq<Option<Process>>, k: nat): (ts: seq<nat>)
    requires k <= |order| == |processes|
  {
    if k == 0 then []
    else
      Tickets(order, processes, k - 1) + (if Starts(order[k - 1], processes[k - 1]) then [order[k - 1].ticket] else [])
  }

  lemma BegunMore(order: seq<Entry>, processes: seq<Option<Process>>, dfl: int, k: nat, before: seq<Job>)
    requires k < |order| == |processes|
    ensures Begun(order, processes, dfl, k + 1) + before ==
            (if Starts(order[k], processes[k])
             then [NewJob(processes[k].value, order[k].timeout, dfl, true)] else [])
            + (Begun(order, processes, dfl, k) + before)
  {
  }

  /** What was there before a dispatch. */
  datatype Before = Before(jobs: seq<Job>, taken: set<nat>, begun: seq<nat>)

  /** What a tick does to a job, and the signal it sends. */
  function Ticked(j: Job, now: int, tick: nat): (r: (Job, Option<Signal>)) {
    if j.sentTerm then (j, Some(Kill(j.pid)))
    else if j.stopped then (j.(sentTerm := true, marked := tick), None)
    else if now - j.started >= j.timeout then (j.(sentTerm := true, termed := true, marked := tick), Some(Term(j.pid)))
    else (j, None)
  }

  /** The signals of consecutive ticks. */
  function Ticks(j: Job, nows: seq<int>, tick: nat): (signals: seq<Option<Signal>>)
    ensures |signals| == |nows|
    decreases |nows|
  {
    if nows == [] then []
    else
      var (j', signal) := Ticked(j, nows[0], tick);
      [signal] + Ticks(j', nows[1..], tick + 1)
  }

  lemma {:induction false} MarkedIsKilled(j: Job, nows: seq<int>, tick: nat)
    requires j.sentTerm
    ensures forall i :: 0 <= i < |nows| ==> Ticks(j, nows, tick)[i] == Some(Kill(j.pid))
  {
    if nows != [] {
      MarkedIsKilled(j, nows[1..], tick + 1);
    }
  }

  /** A job that was stopped is left alone by the next tick, and then sent SIGKILL by each. */
  lemma StoppedIsKilled(j: Job, nows: seq<int>, tick: nat)
    requires j.stopped && !j.sentTerm
    ensures forall i :: 0 <= i < |nows| ==> Ticks(j, nows, tick)[i] == if i == 0 then None else Some(Kill(j.pid))
  {
    if nows != [] {
      MarkedIsKilled(Ticked(j, nows[0], tick).0, nows[1..], tick + 1);
    }
  }

  /**
   A running job gets no signal before its timeout, SIGTERM at the first tick after it, and SIGKILL at every later
   one; `f` is that tick, or the number of ticks.
   */
  lemma {:induction false} RunsForItsTime(j: Job, nows: seq<int>, tick: nat, f: nat)
    requires !j.stopped && !j.sentTerm && f <= |nows|
    requires forall i :: 0 <= i < f ==> nows[i] < j.started + j.timeout
    requires f < |nows| ==> nows[f] >= j.started + j.timeout
    ensures forall i :: 0 <= i < |nows| ==>
              Ticks(j, nows, tick)[i] == if i < f then None else if i == f then Some(Term(j.pid)) else Some(Kill(j.pid))
  {
    if nows != [] {
      if f > 0 {
        RunsForItsTime(j, nows[1..], tick + 1, f - 1);
      } else {
        MarkedIsKilled(Ticked(j, nows[0], tick).0, nows[1..], tick + 1);
      }
    }
  }

  ghost predicate JobOk(j: Job, tick: nat) {
    (j.stopped ==> j.termed) && (j.sentTerm ==> j.termed && j.marked < tick)
  }

  /** The entries of `order` from `k` on. */
  ghost function Rest(order: seq<Entry>, k: nat): (queue: set<Entry>)
    requires k <= |order|
    ensures queue == {} <==> k == |order|
    decreases |order| - k
  {
    if k == |order| then {} else {order[k]} + Rest(order, k + 1)
  }

  /** `order` lists the entries of the queue, each once: some order in which they may be given out. */
  ghost predicate Orders(order: seq<Entry>, queue: set<Entry>) {
    queue == Rest(order, 0) && Once(order) == true
  }

  ghost predicate Once(order: seq<Entry>) {
    forall k: nat :: OpenIn(OfTallies, k) ==> forall i, j :: 0 <= i < j < |order| ==> order[i] != order[j]
  }

  lemma {:induction false} RestMember(order: seq<Entry>, k: nat, e: Entry)
    requires k <= |order|
    ensures e in Rest(order, k) <==> exists i :: k <= i < |order| && order[i] == e
    decreases |order| - k
  {
    if k < |order| {
      RestMember(order, k + 1, e);
    }
  }

  lemma RestTake(order: seq<Entry>, k: nat)
    requires k < |order| && Once(order) == true
    ensures order[k] in Rest(order, k) && Rest(order, k + 1) == Rest(order, k) - {order[k]}
  {
    assert OpenIn(OfTallies, 0);
    RestMember(order, k + 1, order[k]);
  }

  lemma {:induction false} RestShrinks(order: seq<Entry>, i: nat, k: nat)
    requires i <= k <= |order|
    ensures Rest(order, k) <= Rest(order, i)
    decreases k - i
  {
    if i < k {
      RestShrinks(order, i + 1, k);
    }
  }

  /** The first job with the id, or the number of jobs. */
  function FindJob(jobs: seq<Job>, id: string, i: nat): (k: nat)
    requires i <= |jobs|
    ensures i <= k <= |jobs| && (forall j :: i <= j < k ==> jobs[j].id != id) && (k < |jobs| ==> jobs[k].id == id)
    decreases |jobs| - i
  {
    if i == |jobs| || jobs[i].id == id then i else FindJob(jobs, id, i + 1)
  }

  /** Jobs started through the queue fit the slots, and each job's marks are in order. */
  ghost predicate JobsOk(jobs: seq<Job>, nslots: nat, tick: nat) {
    Queued(jobs) <= nslots && forall i :: 0 <= i < |jobs| ==> JobOk(jobs[i], tick)
  }

  /** No ticket is in the queue twice, none that was taken is in it, and no two jobs were started from one. */
  ghost predicate QueueOk(queue: set<Entry>, taken: set<nat>, begun: seq<nat>) {
    && (forall e, f :: e in queue && f in queue && e.ticket == f.ticket ==> e == f)
    && (forall e :: e in queue ==> e.ticket !in taken)
    && Distinct(begun) && forall t :: t in begun ==> t in taken
  }

  ghost predicate Booked(jobs: seq<Job>, nslots: nat, tick: nat, queue: set<Entry>, taken: set<nat>, begun: seq<nat>) {
    forall k: nat :: Open(k) ==> JobsOk(jobs, nslots, tick) && QueueOk(queue, taken, begun)
  }

  lemma BookedWithout(jobs: seq<Job>, nslots: nat, tick: nat, queue: set<Entry>, taken: set<nat>, begun: seq<nat>,
                      k: nat)
    requires Booked(jobs, nslots, tick, queue, taken, begun) == true && k < |jobs|
    ensures Booked(jobs[..k] + jobs[k + 1..], nslots, tick, queue, taken, begun) == true
  {
    assert Open(0);
    QueuedRemove(jobs, k);
  }

  class Scheduler {
    const nslots: nat
    const timeout: int
    var nrunning: int
    var jobs: seq<Job>
    var queue: set<Entry>
    var tick: nat                // the tick to come
    ghost var taken: set<nat>    // tickets of the entries taken from the queue
    ghost var begun: seq<nat>    // tickets of the entries jobs were started from, one by one

    ghost predicate Valid()
      reads this
    {
      nrunning == |jobs| && Booked(jobs, nslots, tick, queue, taken, begun) == true
    }

    constructor (slots: nat, dfl: int, entries: set<Entry>)
      requires forall e, f :: e in entries && f in entries && e.ticket == f.ticket ==> e == f
      ensures Valid() && nslots == slots && timeout == dfl && jobs == [] && queue == entries
      ensures taken == {} && begun == []
    {
      nslots, timeout, nrunning, jobs, queue, tick, taken, begun := slots, dfl, 0, [], entries, 0, {}, [];
    }

    /** kngq_navailable. */
    function Available(): (n: int)
      reads this
      ensures 0 <= n <= nslots && (n > 0 && nrunning >= 0 ==> n == nslots - nrunning)
    {
      var n := nslots - nrunning;
      if n < 0 then 0 else if n > nslots then nslots else n
    }

    /** start_knegd_job: no process, no job; `asked` is the timeout that was requested. */
    method Start(process: Option<Process>, asked: int, queued: bool) returns (ok: bool)
      requires Valid() && (queued ==> Available() > 0)
      modifies `jobs, `nrunning
      ensures Valid() && ok == process.Some?
      ensures jobs == (if ok then [NewJob(process.value, asked, timeout, queued)] else []) + old(jobs)
    {
      assert Open(0);
      ok := process.Some?;
      if ok {
        var j := NewJob(process.value, asked, timeout, queued);
        ghost var before := jobs;
        jobs := [j] + jobs;
        nrunning := nrunning + 1;
        assert jobs[1..] == before;
      }
    }

    /** The "queue" action: started at once if there is a slot, and put in the queue otherwise, if `put` succeeds. */
    method Request(process: Option<Process>, entry: Entry, put: bool) returns (ok: bool)
      requires Valid() && entry.ticket !in taken && forall e :: e in queue ==> e.ticket != entry.ticket
      modifies `jobs, `nrunning, `queue
      ensures Valid()
      ensures old(Available()) == 0 ==> jobs == old(jobs) && ok == put
      ensures old(Available()) > 0 ==>
                && ok == process.Some?
                && jobs == (if ok then [NewJob(process.value, entry.timeout, timeout, true)] else []) + old(jobs)
      ensures queue == if old(Available()) == 0 && put then old(queue) + {entry} else old(queue)
    {
      if Available() > 0 {
        ok := Start(process, entry.timeout, true);
      } else {
        assert Open(0);
        ok := put;
        if put {
          queue := queue + {entry};
        }
      }
    }

    /** No two jobs were ever started from one entry of the queue. */
    lemma StartedAtMostOnce()
      requires Valid()
      ensures Distinct(begun)
      ensures forall e :: e in queue ==> e.ticket !in begun
      ensures nrunning == |jobs| && Queued(jobs) <= nslots
    {
      assert Open(0);
    }

    /** One entry of a dispatch: it leaves the queue for good, whatever comes of it. */
    method Take(entry: Entry, process: Option<Process>) returns (ok: bool)
      requires Valid() && entry in queue && Available() > 0
      modifies `jobs, `nrunning, `queue, `taken, `begun
      ensures Valid() && queue == old(queue) - {entry} && taken == old(taken) + {entry.ticket}
      ensures ok == Starts(entry, process)
      ensures jobs == (if ok then [NewJob(process.value, entry.timeout, timeout, true)] else []) + old(jobs)
      ensures begun == old(begun) + if ok then [entry.ticket] else []
    {
      assert Open(0);
      queue := queue - {entry};
      taken := taken + {entry.ticket};
      ok := false;
      if entry.readable && entry.complete {
        ok := Start(process, entry.timeout, true);
      }
      if ok {
        begun := begun + [entry.ticket];
      }
    }

    /** What a dispatch has done when `k` entries are taken. */
    ghost predicate Underway(order: seq<Entry>, processes: seq<Option<Process>>, k: nat, started: nat, was: Before)
      requires k <= |order| == |processes|
      reads this
    {
      forall l: nat :: OpenIn(OfMoves, l) ==>
        && Once(order) == true && queue == Rest(order, k) && was.taken <= taken
        && (forall i :: 0 <= i < k ==> order[i].ticket in taken)
        && jobs == Begun(order, processes, timeout, k) + was.jobs && |jobs| == |was.jobs| + started
        && begun == was.begun + Tickets(order, processes, k)
    }

    method DispatchOne(order: seq<Entry>, processes: seq<Option<Process>>, k: nat, ghost started: nat,
                       ghost was: Before) returns (ok: bool)
      requires k < |order| == |processes| && Underway(order, processes, k, started, was) == true
      requires Valid() && Available() > 0
      modifies `jobs, `nrunning, `queue, `taken, `begun
      ensures Valid() && ok == Starts(order[k], processes[k]) && Available() >= old(Available()) - Bit(ok)
      ensures Underway(order, processes, k + 1, started + Bit(ok), was) == true
    {
      assert OpenIn(OfMoves, 0);
      RestTake(order, k);
      BegunMore(order, processes, timeout, k, was.jobs);
      ok := Take(order[k], processes[k]);
    }

    /**
     dispatch_n_jobs, for any order in which the entries may be given out: what it takes and starts
     is `Dispatching`, and the jobs that are new are those of the entries taken that start. An entry
     leaves the queue for good when it is taken, so no two jobs are ever started from one, and no
     slot is overbooked.
     */
    method Dispatch(n0: int, order: seq<Entry>, processes: seq<Option<Process>>)
      requires Valid() && n0 <= Available() && |processes| == |order| && Orders(order, queue)
      modifies `jobs, `nrunning, `queue, `taken, `begun
      ensures Valid() && old(taken) <= taken
      ensures var d := Dispatching(n0, order, processes, 0);
              && queue == Rest(order, d.taken) && (forall i :: 0 <= i < d.taken ==> order[i].ticket in taken)
              && jobs == Begun(order, processes, timeout, d.taken) + old(jobs) && |jobs| == |old(jobs)| + d.started
              && begun == old(begun) + Tickets(order, processes, d.taken)
    {
      var n, k, broken := n0, 0, false;
      ghost var d, started, was := Dispatching(n0, order, processes, 0), 0, Before(jobs, taken, begun);
      assert [] + jobs == jobs && begun + [] == begun;
      while n > 0 && k < |order| && !broken
        invariant 0 <= k <= |order| && 0 <= started && Valid() == true && (n > 0 ==> n <= Available())
        invariant Underway(order, processes, k, started, was) == true
        invariant Reaches(d, n, order, processes, k, started, broken) == true
        decreases |order| - k
      {
        ReachesNext(d, n, order, processes, k, started);
        var ok := DispatchOne(order, processes, k, started, was);
        if ok {
          n, started := n - 1, started + 1;
        }
        broken, k := !order[k].readable, k + 1;
      }
      ReachesEnd(d, n, order, processes, k, started, broken);
      assert OpenIn(OfMoves, 0);
    }

    /**
     kng_on_svc_reaped_child: exactly the reaped job leaves the list, and the jobs that are new are those of the
     dispatch. Afterwards a slot is free while entries are queued if and only if the dispatch was stuck at an
     unreadable entry.
     */
    method Reaped(pid: nat, order: seq<Entry>, processes: seq<Option<Process>>)
      requires Valid() && |processes| == |order| && Orders(order, queue)
      modifies `jobs, `nrunning, `queue, `taken, `begun
      ensures Valid() && queue <= old(queue)
      ensures var n := nslots - |Without(old(jobs), pid)|;
              var k := if n > 0 then Dispatching(n, order, processes, 0).taken else 0;
              && jobs == Begun(order, processes, timeout, k) + Without(old(jobs), pid)
              && queue == Rest(order, k)
              && (Available() > 0 && queue != {} <==> n > 0 && Stuck(n, order, processes))
    {
      Drop(pid);
      var n := Available();
      DispatchLeaves(n, order, processes);
      assert [] + jobs == jobs;
      if n > 0 {
        Dispatch(n, order, processes);
        RestShrinks(order, 0, Dispatching(n, order, processes, 0).taken);
      }
    }

    /** jobs_remove and the counter. */
    method Drop(pid: nat)
      requires Valid()
      modifies `jobs, `nrunning
      ensures Valid() && jobs == Without(old(jobs), pid)
    {
      var k := 0;
      while k < |jobs| && jobs[k].pid != pid
        invariant 0 <= k <= |jobs| && forall i :: 0 <= i < k ==> jobs[i].pid != pid
      {
        k := k + 1;
      }
      WithoutIs(jobs, pid, k);
      if k < |jobs| {
        BookedWithout(jobs, nslots, tick, queue, taken, begun, k);
        jobs := jobs[..k] + jobs[k + 1..];
        nrunning := nrunning - 1;
      }
    }

    /**
     jobs_stop: SIGTERM now to the first job with the id; the next tick marks it, and only the one after that kills
     it.
     */
    method Stop(id: string) returns (signal: Option<Signal>)
      requires Valid()
      modifies `jobs
      ensures Valid()
      ensures var k := FindJob(old(jobs), id, 0);
              if k == |old(jobs)| then signal == None && jobs == old(jobs)
              else
                && signal == Some(Term(old(jobs)[k].pid))
                && jobs == old(jobs)[k := old(jobs)[k].(stopped := true, termed := true)]
    {
      assert Open(0);
      var k := 0;
      while k < |jobs| && jobs[k].id != id
        invariant 0 <= k <= |jobs| && FindJob(jobs, id, 0) == FindJob(jobs, id, k)
      {
        k := k + 1;
      }
      signal := None;
      if k < |jobs| {
        ghost var before := jobs;
        signal := Some(Term(jobs[k].pid));
        jobs := jobs[k := jobs[k].(stopped := true, termed := true)];
        QueuedSame(before, jobs);
      }
    }

    /**
     jobs_check_times: a job is sent SIGKILL exactly when an earlier tick has marked it, and by
     then it has been sent SIGTERM.
     */
    method Tick(now: int) returns (signals: seq<Option<Signal>>)
      requires Valid()
      modifies `jobs, `tick
      ensures Valid() && tick == old(tick) + 1 && |signals| == |jobs| == |old(jobs)|
      ensures forall i :: 0 <= i < |jobs| ==> (jobs[i], signals[i]) == Ticked(old(jobs)[i], now, old(tick))
      ensures forall i :: 0 <= i < |jobs| ==>
                (signals[i] == Some(Kill(jobs[i].pid)) <==> old(jobs)[i].sentTerm)
                && (old(jobs)[i].sentTerm ==> old(jobs)[i].termed && old(jobs)[i].marked < old(tick))
    {
      assert Open(0);
      signals := [];
      ghost var before := jobs;
      for k := 0 to |jobs|
        invariant |jobs| == |before| && |signals| == k && tick == old(tick)
        invariant forall i :: 0 <= i < k ==> (jobs[i], signals[i]) == Ticked(before[i], now, tick)
        invariant forall i :: k <= i < |jobs| ==> jobs[i] == before[i]
      {
        var j, signal := jobs[k], None;
        if j.sentTerm {
          signal := Some(Kill(j.pid));
        } else if j.stopped {
          j := j.(sentTerm := true, marked := tick);
        } else if now - j.started >= j.timeout {
          signal := Some(Term(j.pid));
          j := j.(sentTerm := true, termed := true, marked := tick);
        }
        jobs := jobs[k := j];
        signals := signals + [signal];
      }
      QueuedSame(before, jobs);
      tick := tick + 1;
    }
  }
}
