/**
 The resolver pool of lib/net/dnstres.c as a state machine over the atomic steps of its threads:
 callers that add requests, workers, and the caller that shuts the pool down. Steps between
 taking and releasing the pool mutex that no other thread can observe are one step.
 */
module Dnstres {
  import opened HostTokens
  import opened Sequences
  import opened Wrappers

  datatype Thread = Caller(id: nat) | Worker(id: nat) | Closer

  /** Who holds a reference: the caller adding the request, the pool's list, or a worker. */
  datatype Holder = ByCaller | ByList | ByWorker(w: nat)

  datatype Phase = Live | Dying(cleaner: Thread) | Freed

  /** What became of the request: queued, never allocated, or shut out by the closing of the pool. */
  datatype Fate = Queued | Failed | ShutOut

  datatype CallerPc = Calling | Inside | Signalling | Dropping | Cleaning | Returned

  /**
   A request's reference count, how often on_done ran, and what they are about: who holds it, and whether it is
   freed.
   */
  datatype Ref = Ref(count: int, dones: nat, holders: set<Holder>, phase: Phase)

  /** A request's host string and the cursor into it; the runs handed out so far. */
  datatype Hosts = Hosts(text: string, cursor: nat, handed: seq<Run>, fate: Fate)

  datatype WorkerPc =
    | AtLock
    | Locked
    | Asleep
    | Woken
    | Resolving(h: nat, run: Run)
    | CleaningLocked(h: nat)
    | CleaningAfter(h: nat)
    | Exited

  datatype CloserPc =
    | Away
    | Entered
    | Notifying(taken: seq<nat>)
    | Freeing(taken: seq<nat>)
    | CleaningTaken(h: nat, taken: seq<nat>)
    | Joined

  /** Requests are numbered by the calls of dnstres_pool_add_hosts that make them. */
  datatype State = State(callers: map<nat, CallerPc>, refs: map<nat, Ref>, hosts: map<nat, Hosts>,
                         list: seq<nat>, done: bool, owner: Option<Thread>,
                         workers: map<nat, WorkerPc>, closer: CloserPc)

  datatype Step =
    | Call(h: nat, text: string, made: bool)
    | CallerLock(h: nat)
    | CallerInsert(h: nat)
    | CallerRefuse(h: nat)
    | CallerBroadcast(h: nat)
    | CallerDrop(h: nat)
    | CallerClean(h: nat)
    | WorkerLock(w: nat)
    | WorkerExit(w: nat)
    | WorkerSleep(w: nat)
    | WorkerDeplete(w: nat)
    | WorkerTake(w: nat)
    | WorkerPut(w: nat)
    | WorkerClean(w: nat)
    | WorkerSpurious(w: nat)
    | CloserLock
    | CloserTake
    | CloserBroadcast
    | CloserPut
    | CloserClean
    | CloserJoin

  // ----- the steps

  predicate CallerAt(s: State, h: nat, pc: CallerPc) {
    h in s.callers && s.callers[h] == pc
  }

  predicate WorkerAt(s: State, w: nat, pc: WorkerPc) {
    w in s.workers && s.workers[w] == pc
  }

  predicate Cleaner(pc: WorkerPc) {
    pc.CleaningLocked? || pc.CleaningAfter?
  }

  /** No run is left. */
  predicate Depleted(t: Hosts) {
    t.cursor <= |t.text| ==> NextRun(t.text, t.cursor).None?
  }

  predicate Known(s: State, h: nat) {
    h in s.refs && h in s.hosts
  }

  predicate Enabled(s: State, step: Step) {
    match step
    case Call(h, text, _) => h !in s.callers
    case CallerLock(h) => CallerAt(s, h, Calling) && s.owner == None
    case CallerInsert(h) => CallerAt(s, h, Inside) && Known(s, h) && !s.done
    case CallerRefuse(h) => CallerAt(s, h, Inside) && Known(s, h) && s.done
    case CallerBroadcast(h) => CallerAt(s, h, Signalling)
    case CallerDrop(h) => CallerAt(s, h, Dropping) && Known(s, h)
    case CallerClean(h) => CallerAt(s, h, Cleaning) && Known(s, h)
    case WorkerLock(w) => (WorkerAt(s, w, AtLock) || WorkerAt(s, w, Woken)) && s.owner == None
    case WorkerExit(w) => WorkerAt(s, w, Locked) && s.done
    case WorkerSleep(w) => WorkerAt(s, w, Locked) && !s.done && s.list == []
    case WorkerDeplete(w) =>
      WorkerAt(s, w, Locked) && !s.done && s.list != [] && Known(s, s.list[0]) && Depleted(s.hosts[s.list[0]])
    case WorkerTake(w) =>
      WorkerAt(s, w, Locked) && !s.done && s.list != [] && Known(s, s.list[0]) && !Depleted(s.hosts[s.list[0]])
    case WorkerPut(w) => w in s.workers && s.workers[w].Resolving? && Known(s, s.workers[w].h)
    case WorkerClean(w) => w in s.workers && Cleaner(s.workers[w]) && Known(s, s.workers[w].h)
    case WorkerSpurious(w) => WorkerAt(s, w, Asleep)
    case CloserLock => s.closer == Away && s.owner == None
    case CloserTake => s.closer == Entered
    case CloserBroadcast => s.closer.Notifying?
    case CloserPut => s.closer.Freeing? && s.closer.taken != [] && Known(s, s.closer.taken[0])
    case CloserClean => s.closer.CleaningTaken? && Known(s, s.closer.h)
    case CloserJoin => s.closer == Freeing([]) && forall w <- s.workers :: s.workers[w] == Exited
  }

  /** pthread_cond_broadcast. */
  function Wake(workers: map<nat, WorkerPc>): (ws: map<nat, WorkerPc>)
    ensures ws.Keys == workers.Keys
    ensures forall w <- ws :: ws[w] == if workers[w] == Asleep then Woken else workers[w]
  {
    map w | w in workers :: if workers[w] == Asleep then Woken else workers[w]
  }

  /** dnstres_hosts_put: the one who takes the count from 1 to 0 has to clean up. */
  function Put(r: Ref, x: Holder, t: Thread): (r': Ref) {
    Ref(r.count - 1, r.dones, r.holders - {x}, if r.count == 1 then Dying(t) else r.phase)
  }

  /** _dnstres_hosts_cleanup: on_done, then free. */
  function Clean(r: Ref): (r': Ref) {
    Ref(r.count, r.dones + 1, r.holders, Freed)
  }

  function ShutOutAll(hosts: map<nat, Hosts>, hs: seq<nat>): (ts: map<nat, Hosts>)
    ensures ts.Keys == hosts.Keys
    ensures forall h <- ts :: ts[h] == if h in hs then hosts[h].(fate := ShutOut) else hosts[h]
  {
    map h | h in hosts :: if h in hs then hosts[h].(fate := ShutOut) else hosts[h]
  }

  function Do(s: State, step: Step): (s': State)
    requires Enabled(s, step)
  {
    match step
    case Call(h, text, made) =>
      s.(callers := s.callers[h := if made then Calling else Returned],
         refs := s.refs[h := if made then Ref(1, 0, {ByCaller}, Live) else Ref(0, 1, {}, Freed)],
         hosts := s.hosts[h := Hosts(text, 0, [], if made then Queued else Failed)])
    case CallerLock(h) => s.(callers := s.callers[h := Inside], owner := Some(Caller(h)))
    case CallerInsert(h) =>
      s.(callers := s.callers[h := Signalling], list := s.list + [h], owner := None,
         refs := s.refs[h := s.refs[h].(holders := s.refs[h].holders - {ByCaller} + {ByList})])
    case CallerRefuse(h) =>
      s.(callers := s.callers[h := Dropping], owner := None, hosts := s.hosts[h := s.hosts[h].(fate := ShutOut)])
    case CallerBroadcast(h) => s.(callers := s.callers[h := Returned], workers := Wake(s.workers))
    case CallerDrop(h) =>
      s.(callers := s.callers[h := if s.refs[h].count == 1 then Cleaning else Returned],
         refs := s.refs[h := Put(s.refs[h], ByCaller, Caller(h))])
    case CallerClean(h) => s.(callers := s.callers[h := Returned], refs := s.refs[h := Clean(s.refs[h])])
    case WorkerLock(w) => s.(workers := s.workers[w := Locked], owner := Some(Worker(w)))
    case WorkerExit(w) => s.(workers := s.workers[w := Exited], owner := None)
    case WorkerSleep(w) => s.(workers := s.workers[w := Asleep], owner := None)
    case WorkerDeplete(w) =>
      var h := s.list[0];
      s.(list := s.list[1..], refs := s.refs[h := Put(s.refs[h], ByList, Worker(w))],
         workers := s.workers[w := if s.refs[h].count == 1 then CleaningLocked(h) else Locked])
    case WorkerTake(w) =>
      var h := s.list[0];
      var t, r := s.hosts[h], s.refs[h];
      var (run, next) := NextRun(t.text, t.cursor).value;
      s.(hosts := s.hosts[h := t.(cursor := next, handed := t.handed + [run])],
         refs := s.refs[h := r.(count := r.count + 1, holders := r.holders + {ByWorker(w)})],
         workers := s.workers[w := Resolving(h, run)], owner := None)
    case WorkerPut(w) =>
      var h := s.workers[w].h;
      s.(refs := s.refs[h := Put(s.refs[h], ByWorker(w), Worker(w))],
         workers := s.workers[w := if s.refs[h].count == 1 then CleaningAfter(h) else AtLock])
    case WorkerClean(w) =>
      var h := s.workers[w].h;
      s.(refs := s.refs[h := Clean(s.refs[h])],
         workers := s.workers[w := if s.workers[w].CleaningLocked? then Locked else AtLock])
    case WorkerSpurious(w) => s.(workers := s.workers[w := Woken])
    case CloserLock => s.(closer := Entered, owner := Some(Closer))
    case CloserTake =>
      s.(closer := Notifying(s.list), hosts := ShutOutAll(s.hosts, s.list), list := [], done := true, owner := None)
    case CloserBroadcast => s.(closer := Freeing(s.closer.taken), workers := Wake(s.workers))
    case CloserPut =>
      var h, rest := s.closer.taken[0], s.closer.taken[1..];
      s.(refs := s.refs[h := Put(s.refs[h], ByList, Closer)],
         closer := if s.refs[h].count == 1 then CleaningTaken(h, rest) else Freeing(rest))
    case CloserClean =>
      s.(refs := s.refs[s.closer.h := Clean(s.refs[s.closer.h])], closer := Freeing(s.closer.taken))
    case CloserJoin => s.(closer := Joined)
  }

  predicate Initial(s: State) {
    && s.callers == map[] && s.refs == map[] && s.hosts == map[] && s.list == [] && !s.done && s.owner == None &&
      s.closer == Away
    && forall w <- s.workers :: s.workers[w] == AtLock || s.workers[w] == Exited
  }

  // ----- the invariant

  /** The count is the number of holders, there is a holder until the last one leaves, and on_done runs at the end. */
  ghost predicate Counts(r: Ref, pc: CallerPc) {
    && r.count == |r.holders|
    && (ByCaller in r.holders <==> pc == Calling || pc == Inside || pc == Dropping)
    && (ByCaller in r.holders ==> r.holders == {ByCaller})
    && (r.holders != {} <==> r.phase == Live)
    && r.dones == (if r.phase == Freed then 1 else 0)
  }

  ghost predicate Counted(callers: map<nat, CallerPc>, refs: map<nat, Ref>) {
    callers.Keys == refs.Keys && forall h <- refs :: Counts(refs[h], callers[h])
  }

  /** What was handed out and what is left make up all runs of the host string, in order. */
  ghost predicate Whole(t: Hosts) {
    t.cursor <= |t.text| && t.handed + RunsFrom(t.text, t.cursor) == RunsFrom(t.text, 0)
  }

  ghost predicate Tokenized(hosts: map<nat, Hosts>) {
    forall h <- hosts :: Whole(hosts[h])
  }

  function Taken(c: CloserPc): (hs: seq<nat>) {
    if c.Notifying? || c.Freeing? || c.CleaningTaken? then c.taken else []
  }

  /** The list holds its reference exactly for the requests in it, or taken out of it by the closer. */
  ghost predicate Linked(refs: map<nat, Ref>, list: seq<nat>, taken: seq<nat>) {
    && Distinct(list) && Distinct(taken) && (list == [] || taken == [])
    && (forall h <- list :: h in refs) && (forall h <- taken :: h in refs)
    && forall h <- refs :: ByList in refs[h].holders <==> h in list || h in taken
  }

  predicate Resolves(workers: map<nat, WorkerPc>, w: nat, h: nat) {
    w in workers && workers[w].Resolving? && workers[w].h == h
  }

  /** A worker holds a reference exactly while it resolves a host of the request. */
  ghost predicate Held(refs: map<nat, Ref>, workers: map<nat, WorkerPc>) {
    && (forall w <- workers :: workers[w].Resolving? ==> workers[w].h in refs)
    && forall h <- refs, w: nat :: ByWorker(w) in refs[h].holders <==> Resolves(workers, w, h)
  }

  /** The thread that has to clean up a request is the one that dropped its last reference. */
  ghost predicate Cleanable(callers: map<nat, CallerPc>, refs: map<nat, Ref>, workers: map<nat, WorkerPc>,
                            closer: CloserPc) {
    && (forall h <- refs :: refs[h].phase.Dying? ==>
          match refs[h].phase.cleaner
          case Caller(c) => c == h && h in callers && callers[h] == Cleaning
          case Worker(w) => w in workers && Cleaner(workers[w]) && workers[w].h == h
          case Closer => closer.CleaningTaken? && closer.h == h)
    && (forall h <- callers :: callers[h] == Cleaning ==> h in refs && refs[h].phase == Dying(Caller(h)))
    && (forall w <- workers :: Cleaner(workers[w]) ==>
          workers[w].h in refs && refs[workers[w].h].phase == Dying(Worker(w)))
    && (closer.CleaningTaken? ==> closer.h in refs && refs[closer.h].phase == Dying(Closer))
  }

  /** Only the owner of the mutex is between taking and releasing it. */
  ghost predicate Mutex(callers: map<nat, CallerPc>, workers: map<nat, WorkerPc>, closer: CloserPc,
                        owner: Option<Thread>) {
    && (forall h <- callers :: callers[h] == Inside ==> owner == Some(Caller(h)))
    && (forall w <- workers :: workers[w] == Locked || workers[w].CleaningLocked? ==> owner == Some(Worker(w)))
    && (closer == Entered ==> owner == Some(Closer))
    && match owner
       case None => true
       case Some(Caller(h)) => h in callers && callers[h] == Inside
       case Some(Worker(w)) => w in workers && (workers[w] == Locked || workers[w].CleaningLocked?)
       case Some(Closer) => closer == Entered
  }

  /** A broadcast is still to come. */
  ghost predicate Notice(callers: map<nat, CallerPc>, closer: CloserPc) {
    closer.Notifying? || exists h :: h in callers && callers[h] == Signalling
  }

  /** No wakeup is lost: whoever sleeps has nothing to do, or will be woken. */
  ghost predicate Wakeful(callers: map<nat, CallerPc>, workers: map<nat, WorkerPc>, closer: CloserPc, list: seq<nat>,
                          done: bool) {
    (exists w :: w in workers && workers[w] == Asleep) ==> (list == [] && !done) || Notice(callers, closer)
  }

  ghost predicate Closing(closer: CloserPc, list: seq<nat>, done: bool) {
    (done <==> closer != Away && closer != Entered) && (done ==> list == [])
  }

  /** dnstres_pool_free returns after every worker. */
  ghost predicate Stopped(workers: map<nat, WorkerPc>, closer: CloserPc) {
    closer == Joined ==> forall w <- workers :: workers[w] == Exited
  }

  /**
   A queued request leaves the list only when all its runs are handed out; the others were shut out, or never made.
   */
  ghost predicate Fated(callers: map<nat, CallerPc>, hosts: map<nat, Hosts>, list: seq<nat>, taken: seq<nat>,
                        done: bool) {
    && hosts.Keys == callers.Keys
    && forall h <- hosts ::
         && (hosts[h].fate == ShutOut ==> done) && (callers[h] == Dropping ==> hosts[h].fate == ShutOut)
         && (h in taken ==> hosts[h].fate == ShutOut)
         && (hosts[h].fate == Queued && callers[h] != Calling && callers[h] != Inside && h !in list ==>
             Depleted(hosts[h]))
  }

  /** Each worker resolves a run that was handed out, and no two the same one of a request. */
  ghost predicate Assigned(hosts: map<nat, Hosts>, workers: map<nat, WorkerPc>) {
    && (forall w <- workers :: workers[w].Resolving? ==>
          workers[w].h in hosts && workers[w].run in hosts[workers[w].h].handed)
    && forall w, v | w in workers && v in workers && w != v && workers[w].Resolving? && workers[v].Resolving? ::
         workers[w].h == workers[v].h ==> workers[w].run != workers[v].run
  }

  ghost predicate Inv(s: State) {
    && Counted(s.callers, s.refs) && Tokenized(s.hosts)
    && Linked(s.refs, s.list, Taken(s.closer)) && Held(s.refs, s.workers)
    && Cleanable(s.callers, s.refs, s.workers, s.closer) && Mutex(s.callers, s.workers, s.closer, s.owner)
    && Wakeful(s.callers, s.workers, s.closer, s.list, s.done) && Closing(s.closer, s.list, s.done)
    && Fated(s.callers, s.hosts, s.list, Taken(s.closer), s.done) && Stopped(s.workers, s.closer)
    && Assigned(s.hosts, s.workers)
  }

  lemma InitialInv(s: State)
    requires Initial(s)
    ensures Inv(s)
  {
  }

  // ----- every step keeps it

  /** What the invariant says about the request a step is about to release, pass on or free. */
  ghost predicate Grounds(s: State, step: Step)
    requires Enabled(s, step)
  {
    match step
    case Call(h, _, _) => h !in s.refs && h !in s.hosts
    case CallerInsert(h) => s.refs[h].holders == {ByCaller} && s.refs[h].phase == Live && s.refs[h].count == 1 &&
      h !in s.list
    case CallerDrop(h) => s.refs[h].holders == {ByCaller} && s.refs[h].phase == Live
    case CallerClean(h) => s.refs[h].phase == Dying(Caller(h))
    case WorkerDeplete(w) => ByList in s.refs[s.list[0]].holders && s.refs[s.list[0]].phase == Live
    case WorkerTake(w) => ByList in s.refs[s.list[0]].holders && s.refs[s.list[0]].phase == Live &&
      ByWorker(w) !in s.refs[s.list[0]].holders
    case WorkerPut(w) => ByWorker(w) in s.refs[s.workers[w].h].holders && s.refs[s.workers[w].h].phase == Live
    case WorkerClean(w) => s.refs[s.workers[w].h].phase == Dying(Worker(w))
    case CloserPut => ByList in s.refs[s.closer.taken[0]].holders && s.refs[s.closer.taken[0]].phase == Live
    case CloserClean => s.refs[s.closer.h].phase == Dying(Closer)
    case _ => true
  }

  lemma GroundsOfCaller(s: State, step: Step)
    requires Enabled(s, step) && Counted(s.callers, s.refs) && s.hosts.Keys == s.callers.Keys &&
             Linked(s.refs, s.list, Taken(s.closer))
    requires Cleanable(s.callers, s.refs, s.workers, s.closer) &&
             (step.Call? || step.CallerInsert? || step.CallerDrop? || step.CallerClean?)
    ensures Grounds(s, step)
  {
    if !step.Call? {
      assert step.h in s.refs && Counts(s.refs[step.h], s.callers[step.h]);
    }
  }

  lemma GroundsOfList(s: State, step: Step)
    requires Enabled(s, step) && Counted(s.callers, s.refs) && Held(s.refs, s.workers) &&
             Linked(s.refs, s.list, Taken(s.closer))
    requires step.WorkerDeplete? || step.WorkerTake? || step.WorkerPut? || step.CloserPut?
    ensures Grounds(s, step)
  {
    match step
    case WorkerDeplete(w) => assert s.list[0] in s.list;
    case WorkerTake(w) => assert s.list[0] in s.list && !Resolves(s.workers, w, s.list[0]);
    case WorkerPut(w) => assert Resolves(s.workers, w, s.workers[w].h);
    case CloserPut => assert s.closer.taken[0] in Taken(s.closer);
  }

  lemma GroundsHold(s: State, step: Step)
    requires Inv(s) && Enabled(s, step)
    ensures Grounds(s, step)
  {
    if step.Call? || step.CallerInsert? || step.CallerDrop? || step.CallerClean? {
      GroundsOfCaller(s, step);
    } else if step.WorkerDeplete? || step.WorkerTake? || step.WorkerPut? || step.CloserPut? {
      GroundsOfList(s, step);
    }
  }

  lemma PutCounts(r: Ref, pc: CallerPc, x: Holder, t: Thread)
    requires Counts(r, pc) && x in r.holders && x != ByCaller
    ensures Counts(Put(r, x, t), pc)
  {
    var rest := r.holders - {x};
    assert |rest| == |r.holders| - 1;
    assert |rest| == 0 <==> rest == {};
  }

  lemma TakeCounts(r: Ref, pc: CallerPc, w: nat)
    requires Counts(r, pc) && ByList in r.holders && ByWorker(w) !in r.holders
    ensures Counts(r.(count := r.count + 1, holders := r.holders + {ByWorker(w)}), pc)
  {
    assert |r.holders + {ByWorker(w)}| == |r.holders| + 1;
  }

  lemma CountedRef(callers: map<nat, CallerPc>, refs: map<nat, Ref>, h: nat, r: Ref)
    requires Counted(callers, refs) && h in refs && Counts(r, callers[h])
    ensures Counted(callers, refs[h := r])
  {
  }

  lemma CountedUpdate(callers: map<nat, CallerPc>, refs: map<nat, Ref>, h: nat, pc: CallerPc, r: Ref)
    requires Counted(callers, refs) && Counts(r, pc)
    ensures Counted(callers[h := pc], refs[h := r])
  {
  }

  lemma CountedByCaller(s: State, step: Step)
    requires Enabled(s, step) && Counted(s.callers, s.refs) && Grounds(s, step) &&
             (step.Call? || step.CallerInsert? || step.CallerDrop? || step.CallerClean?)
    ensures var s' := Do(s, step); Counted(s'.callers, s'.refs)
  {
    var s' := Do(s, step);
    CountedUpdate(s.callers, s.refs, step.h, s'.callers[step.h], s'.refs[step.h]);
  }

  lemma CountedByWorker(s: State, step: Step)
    requires Enabled(s, step) && Counted(s.callers, s.refs) && Grounds(s, step) &&
             (step.WorkerDeplete? || step.WorkerTake? || step.WorkerPut? || step.WorkerClean?)
    ensures var s' := Do(s, step); Counted(s'.callers, s'.refs)
  {
    var h := if step.WorkerDeplete? || step.WorkerTake? then s.list[0] else s.workers[step.w].h;
    var r := s.refs[h];
    if step.WorkerTake? {
      TakeCounts(r, s.callers[h], step.w);
    } else if !step.WorkerClean? {
      PutCounts(r, s.callers[h], if step.WorkerPut? then ByWorker(step.w) else ByList, Worker(step.w));
    }
    CountedRef(s.callers, s.refs, h, Do(s, step).refs[h]);
  }

  lemma CountedByCloser(s: State, step: Step)
    requires Enabled(s, step) && Counted(s.callers, s.refs) && Grounds(s, step) &&
             (step.CloserPut? || step.CloserClean?)
    ensures var s' := Do(s, step); Counted(s'.callers, s'.refs)
  {
    var h := if step.CloserPut? then s.closer.taken[0] else s.closer.h;
    if step.CloserPut? {
      PutCounts(s.refs[h], s.callers[h], ByList, Closer);
    }
    CountedRef(s.callers, s.refs, h, Do(s, step).refs[h]);
  }

  lemma KeepsCounted(s: State, step: Step)
    requires Enabled(s, step) && Counted(s.callers, s.refs) && Grounds(s, step)
    ensures var s' := Do(s, step); Counted(s'.callers, s'.refs)
  {
    if step.Call? || step.CallerInsert? || step.CallerDrop? || step.CallerClean? {
      CountedByCaller(s, step);
    } else if step.WorkerDeplete? || step.WorkerTake? || step.WorkerPut? || step.WorkerClean? {
      CountedByWorker(s, step);
    } else if step.CloserPut? || step.CloserClean? {
      CountedByCloser(s, step);
    }
  }

  lemma TakeWhole(t: Hosts)
    requires Whole(t) && !Depleted(t)
    ensures var (run, next) := NextRun(t.text, t.cursor).value; Whole(t.(cursor := next, handed := t.handed + [run]))
  {
    var (run, next) := NextRun(t.text, t.cursor).value;
    assert RunsFrom(t.text, t.cursor) == [run] + RunsFrom(t.text, next);
  }

  lemma TokenizedUpdate(hosts: map<nat, Hosts>, h: nat, t: Hosts)
    requires Tokenized(hosts) && Whole(t)
    ensures Tokenized(hosts[h := t])
  {
  }

  lemma KeepsTokenized(s: State, step: Step)
    requires Enabled(s, step) && Tokenized(s.hosts)
    ensures var s' := Do(s, step); Tokenized(s'.hosts)
  {
    match step
    case Call(h, text, made) => TokenizedUpdate(s.hosts, h, Hosts(text, 0, [], if made then Queued else Failed));
    case WorkerTake(w) =>
      TakeWhole(s.hosts[s.list[0]]);
      TokenizedUpdate(s.hosts, s.list[0], Do(s, step).hosts[s.list[0]]);
    case CallerRefuse(h) => TokenizedUpdate(s.hosts, h, s.hosts[h].(fate := ShutOut));
    case _ =>
  }

  lemma LinkedByPut(s: State, step: Step)
    requires Enabled(s, step) && Linked(s.refs, s.list, Taken(s.closer)) && Grounds(s, step) &&
             (step.WorkerDeplete? || step.CloserPut?)
    ensures var s' := Do(s, step); Linked(s'.refs, s'.list, Taken(s'.closer))
  {
  }

  lemma LinkedByInsert(s: State, step: Step)
    requires Enabled(s, step) && Linked(s.refs, s.list, Taken(s.closer)) && Closing(s.closer, s.list, s.done) &&
             Grounds(s, step) && step.CallerInsert?
    ensures var s' := Do(s, step); Linked(s'.refs, s'.list, Taken(s'.closer))
  {
  }

  lemma KeepsLinked(s: State, step: Step)
    requires Enabled(s, step) && Linked(s.refs, s.list, Taken(s.closer)) && Closing(s.closer, s.list, s.done) &&
             Grounds(s, step)
    ensures var s' := Do(s, step); Linked(s'.refs, s'.list, Taken(s'.closer))
  {
    if step.WorkerDeplete? || step.CloserPut? {
      LinkedByPut(s, step);
    } else if step.CallerInsert? {
      LinkedByInsert(s, step);
    }
  }

  lemma HeldByWorker(s: State, step: Step)
    requires Enabled(s, step) && Held(s.refs, s.workers) && Grounds(s, step) && (step.WorkerTake? || step.WorkerPut?)
    ensures var s' := Do(s, step); Held(s'.refs, s'.workers)
  {
  }

  lemma KeepsHeld(s: State, step: Step)
    requires Enabled(s, step) && Held(s.refs, s.workers) && Grounds(s, step)
    ensures var s' := Do(s, step); Held(s'.refs, s'.workers)
  {
    if step.WorkerTake? || step.WorkerPut? {
      HeldByWorker(s, step);
    }
  }

  lemma CleanableByDrop(s: State, step: Step)
    requires Enabled(s, step) && Cleanable(s.callers, s.refs, s.workers, s.closer) && Grounds(s, step) &&
             (step.CallerDrop? || step.CallerClean?)
    ensures var s' := Do(s, step); Cleanable(s'.callers, s'.refs, s'.workers, s'.closer)
  {
  }

  lemma CleanableByDeplete(s: State, step: Step)
    requires Enabled(s, step) && Cleanable(s.callers, s.refs, s.workers, s.closer) && Grounds(s, step) &&
             step.WorkerDeplete?
    ensures var s' := Do(s, step); Cleanable(s'.callers, s'.refs, s'.workers, s'.closer)
  {
  }

  lemma CleanableByPut(s: State, step: Step)
    requires Enabled(s, step) && Cleanable(s.callers, s.refs, s.workers, s.closer) && Grounds(s, step) &&
             step.WorkerPut?
    ensures var s' := Do(s, step); Cleanable(s'.callers, s'.refs, s'.workers, s'.closer)
  {
  }

  lemma CleanableByClean(s: State, step: Step)
    requires Enabled(s, step) && Cleanable(s.callers, s.refs, s.workers, s.closer) && Grounds(s, step) &&
             step.WorkerClean?
    ensures var s' := Do(s, step); Cleanable(s'.callers, s'.refs, s'.workers, s'.closer)
  {
  }

  lemma CleanableByCloser(s: State, step: Step)
    requires Enabled(s, step) && Cleanable(s.callers, s.refs, s.workers, s.closer) && Grounds(s, step) &&
             (step.CloserPut? || step.CloserClean?)
    ensures var s' := Do(s, step); Cleanable(s'.callers, s'.refs, s'.workers, s'.closer)
  {
  }

  lemma CleanableByCall(s: State, step: Step)
    requires Enabled(s, step) && Cleanable(s.callers, s.refs, s.workers, s.closer) && Grounds(s, step) &&
             (step.Call? || step.CallerInsert?)
    ensures var s' := Do(s, step); Cleanable(s'.callers, s'.refs, s'.workers, s'.closer)
  {
  }

  /** A caller, or a worker, that is not cleaning up and does not begin to. */
  lemma CleanableCaller(callers: map<nat, CallerPc>, refs: map<nat, Ref>, workers: map<nat, WorkerPc>,
                        closer: CloserPc, h: nat, pc: CallerPc)
    requires Cleanable(callers, refs, workers, closer) && h in callers && callers[h] != Cleaning && pc != Cleaning
    ensures Cleanable(callers[h := pc], refs, workers, closer)
  {
  }

  lemma CleanableWorker(callers: map<nat, CallerPc>, refs: map<nat, Ref>, workers: map<nat, WorkerPc>,
                        closer: CloserPc, w: nat, pc: WorkerPc)
    requires Cleanable(callers, refs, workers, closer) && w in workers && !Cleaner(workers[w]) && !Cleaner(pc)
    ensures Cleanable(callers, refs, workers[w := pc], closer)
  {
  }

  lemma CleanableWake(callers: map<nat, CallerPc>, refs: map<nat, Ref>, workers: map<nat, WorkerPc>, closer: CloserPc)
    requires Cleanable(callers, refs, workers, closer)
    ensures Cleanable(callers, refs, Wake(workers), closer)
  {
  }

  lemma CleanableByLock(s: State, step: Step)
    requires Enabled(s, step) && Cleanable(s.callers, s.refs, s.workers, s.closer) == true
    requires step.CallerLock? || step.CallerRefuse? || step.CallerBroadcast?
    ensures var s' := Do(s, step); Cleanable(s'.callers, s'.refs, s'.workers, s'.closer) == true
  {
    CleanableCaller(s.callers, s.refs, s.workers, s.closer, step.h, Do(s, step).callers[step.h]);
    if step.CallerBroadcast? {
      CleanableWake(s.callers[step.h := Returned], s.refs, s.workers, s.closer);
    }
  }

  lemma CleanableByTake(s: State, step: Step)
    requires Enabled(s, step) && Cleanable(s.callers, s.refs, s.workers, s.closer) && Grounds(s, step) &&
             step.WorkerTake?
    ensures var s' := Do(s, step); Cleanable(s'.callers, s'.refs, s'.workers, s'.closer)
  {
  }

  lemma CleanableByWait(s: State, step: Step)
    requires Enabled(s, step) && Cleanable(s.callers, s.refs, s.workers, s.closer) == true
    requires step.WorkerLock? || step.WorkerExit? || step.WorkerSleep? || step.WorkerSpurious?
    ensures var s' := Do(s, step); Cleanable(s'.callers, s'.refs, s'.workers, s'.closer) == true
  {
    CleanableWorker(s.callers, s.refs, s.workers, s.closer, step.w, Do(s, step).workers[step.w]);
  }

  lemma KeepsCleanable(s: State, step: Step)
    requires Enabled(s, step) && Cleanable(s.callers, s.refs, s.workers, s.closer) && Grounds(s, step)
    ensures var s' := Do(s, step); Cleanable(s'.callers, s'.refs, s'.workers, s'.closer)
  {
    if step.CallerDrop? || step.CallerClean? {
      CleanableByDrop(s, step);
    } else if step.WorkerDeplete? {
      CleanableByDeplete(s, step);
    } else if step.WorkerPut? {
      CleanableByPut(s, step);
    } else if step.WorkerClean? {
      CleanableByClean(s, step);
    } else if step.CloserPut? || step.CloserClean? {
      CleanableByCloser(s, step);
    } else if step.Call? || step.CallerInsert? {
      CleanableByCall(s, step);
    } else if step.CallerLock? || step.CallerRefuse? || step.CallerBroadcast? {
      CleanableByLock(s, step);
    } else if step.WorkerTake? {
      CleanableByTake(s, step);
    } else if step.WorkerLock? || step.WorkerExit? || step.WorkerSleep? || step.WorkerSpurious? {
      CleanableByWait(s, step);
    }
  }

  lemma MutexByCaller(s: State, step: Step)
    requires Enabled(s, step) && Mutex(s.callers, s.workers, s.closer, s.owner) &&
             (step.Call? || step.CallerLock? || step.CallerInsert? || step.CallerRefuse? || step.CallerBroadcast? ||
               step.CallerDrop? || step.CallerClean?)
    ensures var s' := Do(s, step); Mutex(s'.callers, s'.workers, s'.closer, s'.owner)
  {
  }

  lemma KeepsMutex(s: State, step: Step)
    requires Enabled(s, step) && Mutex(s.callers, s.workers, s.closer, s.owner)
    ensures var s' := Do(s, step); Mutex(s'.callers, s'.workers, s'.closer, s'.owner)
  {
    if step.Call? || step.CallerLock? || step.CallerInsert? || step.CallerRefuse? || step.CallerBroadcast? ||
       step.CallerDrop? || step.CallerClean? {
      MutexByCaller(s, step);
    }
  }

  lemma KeepsWakeful(s: State, step: Step)
    requires Enabled(s, step) && Wakeful(s.callers, s.workers, s.closer, s.list, s.done)
    ensures var s' := Do(s, step); Wakeful(s'.callers, s'.workers, s'.closer, s'.list, s'.done)
  {
    var s' := Do(s, step);
    if step.CallerInsert? {
      assert s'.callers[step.h] == Signalling;
    } else if !step.CallerBroadcast? && exists h :: h in s.callers && s.callers[h] == Signalling {
      var h :| h in s.callers && s.callers[h] == Signalling;
      assert s'.callers[h] == Signalling;
    }
  }

  lemma KeepsClosing(s: State, step: Step)
    requires Enabled(s, step) && Closing(s.closer, s.list, s.done)
    ensures var s' := Do(s, step); Closing(s'.closer, s'.list, s'.done)
  {
  }

  lemma KeepsStopped(s: State, step: Step)
    requires Enabled(s, step) && Stopped(s.workers, s.closer)
    ensures var s' := Do(s, step); Stopped(s'.workers, s'.closer)
  {
  }

  lemma FatedByCaller(s: State, step: Step)
    requires Enabled(s, step) && Fated(s.callers, s.hosts, s.list, Taken(s.closer), s.done) &&
             Linked(s.refs, s.list, Taken(s.closer)) && Closing(s.closer, s.list, s.done) && Grounds(s, step) &&
               (step.CallerDrop? || step.CallerInsert? || step.CallerRefuse? || step.Call?)
    ensures var s' := Do(s, step); Fated(s'.callers, s'.hosts, s'.list, Taken(s'.closer), s'.done)
  {
  }

  lemma FatedByTake(s: State, step: Step)
    requires Enabled(s, step) && Fated(s.callers, s.hosts, s.list, Taken(s.closer), s.done) &&
             Linked(s.refs, s.list, Taken(s.closer)) && Grounds(s, step) && (step.WorkerTake? || step.WorkerDeplete?)
    ensures var s' := Do(s, step); Fated(s'.callers, s'.hosts, s'.list, Taken(s'.closer), s'.done)
  {
  }

  lemma KeepsFated(s: State, step: Step)
    requires Enabled(s, step) && Fated(s.callers, s.hosts, s.list, Taken(s.closer), s.done) &&
             Linked(s.refs, s.list, Taken(s.closer)) && Closing(s.closer, s.list, s.done) && Grounds(s, step)
    ensures var s' := Do(s, step); Fated(s'.callers, s'.hosts, s'.list, Taken(s'.closer), s'.done)
  {
    if step.CallerDrop? || step.CallerInsert? || step.CallerRefuse? || step.Call? {
      FatedByCaller(s, step);
    } else if step.WorkerTake? || step.WorkerDeplete? {
      FatedByTake(s, step);
    }
  }

  /** The runs of a text are all different. */
  lemma NextRunIsNew(t: Hosts, run: Run, next: nat)
    requires Whole(t) && NextRun(t.text, t.cursor) == Some((run, next))
    ensures run !in t.handed
  {
    var all, k := RunsFrom(t.text, 0), |t.handed|;
    assert RunsFrom(t.text, t.cursor) == [run] + RunsFrom(t.text, next);
    assert all[k] == run;
    RunsAscend(t.text, 0);
    forall i | 0 <= i < k ensures t.handed[i] != run {
      assert all[i] == t.handed[i];
      RunIsProper(t.text, 0, i);
    }
  }

  lemma {:induction false} RunIsProper(s: string, i: nat, k: nat)
    requires i <= |s| && k < |RunsFrom(s, i)|
    ensures RunsFrom(s, i)[k].start < RunsFrom(s, i)[k].end
    decreases k
  {
    if k > 0 {
      RunIsProper(s, NextRun(s, i).value.1, k - 1);
    }
  }

  /** No worker has begun to resolve, and what was handed out still is. */
  lemma AssignedKept(hosts: map<nat, Hosts>, workers: map<nat, WorkerPc>, hosts': map<nat, Hosts>,
                     workers': map<nat, WorkerPc>)
    requires Assigned(hosts, workers) && workers'.Keys == workers.Keys
    requires forall w <- workers' :: workers'[w].Resolving? ==> workers'[w] == workers[w]
    requires forall h <- hosts :: h in hosts' && hosts'[h].handed == hosts[h].handed
    ensures Assigned(hosts', workers')
  {
  }

  lemma AssignedTake(hosts: map<nat, Hosts>, workers: map<nat, WorkerPc>, w: nat, h: nat, run: Run, t: Hosts)
    requires Assigned(hosts, workers) && w in workers && h in hosts && run !in hosts[h].handed
    requires t.handed == hosts[h].handed + [run]
    ensures Assigned(hosts[h := t], workers[w := Resolving(h, run)])
  {
  }

  /** What a worker is given is the run that is handed out. */
  lemma TakeHandsOut(s: State, w: nat)
    requires Enabled(s, WorkerTake(w))
    ensures var s', h := Do(s, WorkerTake(w)), s.list[0];
            && s'.workers == s.workers[w := s'.workers[w]] && s'.workers[w].Resolving? && s'.workers[w].h == h
            && s'.hosts == s.hosts[h := s'.hosts[h]]
            && s'.hosts[h].handed == s.hosts[h].handed + [s'.workers[w].run]
            && Some((s'.workers[w].run, s'.hosts[h].cursor)) == NextRun(s.hosts[h].text, s.hosts[h].cursor)
  {
  }

  /** Only a take begins to resolve, and hands anything out. */
  lemma OthersKeep(s: State, step: Step)
    requires Enabled(s, step) && Grounds(s, step) && !step.WorkerTake?
    ensures var s' := Do(s, step);
            && s'.workers.Keys == s.workers.Keys
            && (forall w <- s'.workers :: s'.workers[w].Resolving? ==> s'.workers[w] == s.workers[w])
            && (forall h <- s.hosts :: h in s'.hosts && s'.hosts[h].handed == s.hosts[h].handed)
  {
  }

  lemma AssignedByTake(s: State, w: nat)
    requires Enabled(s, WorkerTake(w)) && Assigned(s.hosts, s.workers) && Tokenized(s.hosts)
    ensures var s' := Do(s, WorkerTake(w)); Assigned(s'.hosts, s'.workers)
  {
    var s', h := Do(s, WorkerTake(w)), s.list[0];
    TakeHandsOut(s, w);
    assert Whole(s.hosts[h]);
    NextRunIsNew(s.hosts[h], s'.workers[w].run, s'.hosts[h].cursor);
    AssignedTake(s.hosts, s.workers, w, h, s'.workers[w].run, s'.hosts[h]);
  }

  lemma KeepsAssigned(s: State, step: Step)
    requires Enabled(s, step) && Assigned(s.hosts, s.workers) && Tokenized(s.hosts) && Grounds(s, step)
    ensures var s' := Do(s, step); Assigned(s'.hosts, s'.workers)
  {
    if step.WorkerTake? {
      AssignedByTake(s, step.w);
    } else {
      OthersKeep(s, step);
      AssignedKept(s.hosts, s.workers, Do(s, step).hosts, Do(s, step).workers);
    }
  }

  lemma KeepsInv(s: State, step: Step)
    requires Inv(s) && Enabled(s, step)
    ensures Inv(Do(s, step))
  {
    GroundsHold(s, step);
    KeepsCounted(s, step);
    KeepsTokenized(s, step);
    KeepsLinked(s, step);
    KeepsHeld(s, step);
    KeepsCleanable(s, step);
    KeepsMutex(s, step);
    KeepsWakeful(s, step);
    KeepsClosing(s, step);
    KeepsStopped(s, step);
    KeepsFated(s, step);
    KeepsAssigned(s, step);
  }

  // ----- runs

  /** Any interleaving of the threads' steps. */
  ghost predicate Run(states: seq<State>, steps: seq<Step>) {
    && |states| == |steps| + 1 && Initial(states[0])
    && forall i {:trigger steps[i]} :: 0 <= i < |steps| ==>
         Enabled(states[i], steps[i]) && states[i + 1] == Do(states[i], steps[i])
  }

  /** The same, looked into only for a step at a time. */
  ghost predicate IsRun(states: seq<State>, steps: seq<Step>) {
    forall k: nat :: OpenIn(OfRuns, k) ==> Run(states, steps)
  }

  lemma {:induction false} RunKeepsInv(states: seq<State>, steps: seq<Step>, n: nat)
    requires Run(states, steps) && n < |states|
    ensures Inv(states[n])
  {
    if n == 0 {
      InitialInv(states[0]);
    } else {
      RunKeepsInv(states, steps, n - 1);
      KeepsInv(states[n - 1], steps[n - 1]);
    }
  }

  /** What a step that leads to `s'` gives a worker of request `h`. */
  function GivenBy(step: Step, s': State, h: nat): (runs: seq<Run>) {
    if step.WorkerTake? && step.w in s'.workers && s'.workers[step.w].Resolving? && s'.workers[step.w].h == h
    then [s'.workers[step.w].run] else []
  }

  /** The runs of request `h` that workers were given in the first `n` steps. */
  function Given(states: seq<State>, steps: seq<Step>, h: nat, n: nat): (runs: seq<Run>)
    requires n <= |steps| < |states|
  {
    if n == 0 then [] else Given(states, steps, h, n - 1) + GivenBy(steps[n - 1], states[n], h)
  }

  function HandedOf(s: State, h: nat): (runs: seq<Run>) {
    if h in s.hosts then s.hosts[h].handed else []
  }

  lemma StepHandsOut(s: State, step: Step, h: nat)
    requires Enabled(s, step) && Grounds(s, step)
    ensures HandedOf(Do(s, step), h) == HandedOf(s, h) + GivenBy(step, Do(s, step), h)
  {
    if step.WorkerTake? {
      TakeHandsOut(s, step.w);
    }
  }

  lemma RunHandsOut(states: seq<State>, steps: seq<Step>, h: nat, n: nat, before: seq<Run>, after: seq<Run>)
    requires IsRun(states, steps) == true && n < |steps| < |states| && before == HandedOf(states[n], h)
    requires after == HandedOf(states[n + 1], h)
    ensures after == before + GivenBy(steps[n], states[n + 1], h)
  {
    assert OpenIn(OfRuns, 0);
    RunKeepsInv(states, steps, n);
    GroundsHold(states[n], steps[n]);
    StepHandsOut(states[n], steps[n], h);
  }

  lemma {:induction false} GivenIsHanded(states: seq<State>, steps: seq<Step>, h: nat, n: nat)
    requires IsRun(states, steps) == true && n <= |steps| < |states|
    ensures Given(states, steps, h, n) == HandedOf(states[n], h)
  {
    if n > 0 {
      GivenIsHanded(states, steps, h, n - 1);
      RunHandsOut(states, steps, h, n - 1, HandedOf(states[n - 1], h), HandedOf(states[n], h));
    } else {
      NothingHanded(states, steps, h);
    }
  }

  lemma NothingHanded(states: seq<State>, steps: seq<Step>, h: nat)
    requires IsRun(states, steps) == true && |states| > 0
    ensures HandedOf(states[0], h) == []
  {
    assert OpenIn(OfRuns, 0);
  }

  lemma {:induction false} RunsDiffer(s: string, i: nat)
    requires i <= |s|
    ensures forall k, l :: 0 <= k < l < |RunsFrom(s, i)| ==> RunsFrom(s, i)[k] != RunsFrom(s, i)[l]
  {
    RunsAscend(s, i);
    forall k | 0 <= k < |RunsFrom(s, i)| ensures RunsFrom(s, i)[k].start < RunsFrom(s, i)[k].end {
      RunIsProper(s, i, k);
    }
  }

  /**
   In every run each run of a request's host string goes to at most one worker, in the order of the string; and to
   exactly one before on_done has run, unless the request was never made or the pool was shut down.
   */
  lemma EachRunIsGivenOnce(states: seq<State>, steps: seq<Step>, h: nat, n: nat)
    requires Run(states, steps) && n < |states| && h in states[n].hosts
    ensures var s := states[n];
            var given, all := Given(states, steps, h, n), RunsFrom(s.hosts[h].text, 0);
            && h in s.refs && given <= all && (forall k, l :: 0 <= k < l < |given| ==> given[k] != given[l])
            && (s.refs[h].dones == 1 && s.hosts[h].fate == Queued ==> given == all)
  {
    RunKeepsInv(states, steps, n);
    GivenIsHanded(states, steps, h, n);
    HandedInOrder(states[n], h);
    RunsDiffer(states[n].hosts[h].text, 0);
  }

  // ----- what it means

  function Bit(b: bool): (n: nat) {
    if b then 1 else 0
  }

  ghost function Holding(workers: map<nat, WorkerPc>, h: nat): (ws: set<nat>) {
    set w | w in workers && Resolves(workers, w, h)
  }

  lemma {:induction false} WorkersCount(hs: set<Holder>, ws: set<nat>)
    requires forall x :: x in hs <==> x.ByWorker? && x.w in ws
    ensures |hs| == |ws|
  {
    if ws == {} {
      assert hs == {};
    } else {
      var w :| w in ws;
      assert ByWorker(w) in hs;
      WorkersCount(hs - {ByWorker(w)}, ws - {w});
    }
  }

  /**
   The reference count: list membership, plus the workers holding the request, plus its caller before it is queued.
   */
  lemma CountIsMembership(s: State, h: nat)
    requires Inv(s) && h in s.refs
    ensures s.refs[h].count ==
            Bit(h in s.list || h in Taken(s.closer)) + |Holding(s.workers, h)|
            + Bit(s.callers[h] == Calling || s.callers[h] == Inside || s.callers[h] == Dropping)
  {
    forall w: nat ensures ByWorker(w) in s.refs[h].holders <==> w in Holding(s.workers, h) {
      assert ByWorker(w) in s.refs[h].holders <==> Resolves(s.workers, w, h);
    }
    HoldersCount(s.refs[h].holders, Holding(s.workers, h));
  }

  lemma HoldersCount(hs: set<Holder>, ws: set<nat>)
    requires forall w: nat :: ByWorker(w) in hs <==> w in ws
    ensures |hs| == Bit(ByList in hs) + |ws| + Bit(ByCaller in hs)
  {
    var rest := hs - {ByList} - {ByCaller};
    forall x ensures x in rest <==> x.ByWorker? && x.w in ws {
      match x
      case ByWorker(w) => assert ByWorker(w) in hs <==> w in ws;
      case ByList =>
      case ByCaller =>
    }
    WorkersCount(rest, ws);
    Remove(hs, ByList);
    Remove(hs - {ByList}, ByCaller);
  }

  lemma Remove(hs: set<Holder>, x: Holder)
    ensures |hs| == |hs - {x}| + Bit(x in hs)
  {
    if x !in hs {
      assert hs - {x} == hs;
    }
  }

  /** on_done has run at most once, and not while anyone holds the request. */
  lemma DoneAtMostOnce(s: State, h: nat, w: nat)
    requires Inv(s) && h in s.refs
    ensures s.refs[h].dones <= 1
    ensures s.refs[h].dones == 1 ==> s.refs[h].count == 0 && h !in s.list && !Resolves(s.workers, w, h)
  {
    assert ByWorker(w) in s.refs[h].holders <==> Resolves(s.workers, w, h);
  }

  /** The requests whose memory a step reads or writes. */
  ghost predicate Touches(s: State, step: Step, h: nat)
    requires Enabled(s, step)
  {
    match step
    case CallerInsert(c) => h == c || (s.list != [] && h == s.list[|s.list| - 1])
    case CallerDrop(c) => h == c
    case CallerClean(c) => h == c
    case WorkerDeplete(_) => h == s.list[0] || (|s.list| > 1 && h == s.list[1])
    case WorkerTake(_) => h == s.list[0]
    case WorkerPut(w) => h == s.workers[w].h
    case WorkerClean(w) => h == s.workers[w].h
    case CloserPut => h == s.closer.taken[0]
    case CloserClean => h == s.closer.h
    case _ => false
  }

  /** No step touches a request that has been freed. */
  lemma FreedIsLeftAlone(s: State, step: Step, h: nat)
    requires Inv(s) && Enabled(s, step) && Touches(s, step, h)
    ensures h in s.refs && s.refs[h].phase != Freed
  {
    GroundsHold(s, step);
    if step.CallerInsert? || step.WorkerDeplete? {
      assert h in s.list || h == step.h;
    }
  }

  /**
   The runs of the host string are handed out in order, each at most once. When on_done has run,
   all of them were, unless the request was never made or the pool was shut down.
   */
  lemma HandedInOrder(s: State, h: nat)
    requires Inv(s) && h in s.hosts
    ensures s.hosts[h].handed <= RunsFrom(s.hosts[h].text, 0)
    ensures s.refs[h].dones == 1 ==> match s.hosts[h].fate
            case Queued => s.hosts[h].handed == RunsFrom(s.hosts[h].text, 0)
            case ShutOut => s.done
            case Failed => true
  {
  }

  /** A request that nobody holds and nobody is cleaning up is done. */
  lemma UnusedIsDone(s: State, h: nat)
    requires Counted(s.callers, s.refs) && Linked(s.refs, s.list, Taken(s.closer)) && Held(s.refs, s.workers)
    requires Cleanable(s.callers, s.refs, s.workers, s.closer)
    requires h in s.refs && s.callers[h] == Returned && s.list == [] && Taken(s.closer) == [] &&
             !s.closer.CleaningTaken?
    requires forall w <- s.workers :: s.workers[w] == Asleep || s.workers[w] == Exited
    ensures s.refs[h].dones == 1
  {
    var hs := s.refs[h].holders;
    forall x ensures x !in hs {
      match x
      case ByWorker(w) => assert ByWorker(w) in hs <==> Resolves(s.workers, w, h);
      case ByList =>
      case ByCaller =>
    }
    assert hs == {};
  }

  /** A shut down pool whose callers have returned has run on_done once for every request. */
  lemma AllDoneInTheEnd(s: State, h: nat)
    requires Inv(s) && s.closer == Joined && h in s.callers && s.callers[h] == Returned
    ensures s.refs[h].dones == 1
  {
    UnusedIsDone(s, h);
  }

  /** So has an idle pool; with HandedInOrder, it has handed out every host of every queued request. */
  lemma AllDoneWhenIdle(s: State, h: nat)
    requires Inv(s) && !s.done && s.list == [] && h in s.callers && s.callers[h] == Returned
    requires forall w <- s.workers :: s.workers[w] == Asleep || s.workers[w] == Exited
    ensures s.refs[h].dones == 1
  {
    UnusedIsDone(s, h);
  }

  /** While a host string waits and a worker lives, some thread can move without a spurious wakeup. */
  lemma NoDeadlock(s: State, w: nat) returns (step: Step)
    requires Inv(s) && s.list != [] && w in s.workers && s.workers[w] != Exited
    ensures Enabled(s, step) && !step.WorkerSpurious? && !step.Call? && !step.CloserLock?
  {
    step := WorkerMoves(s, w);
  }

  /** Until shutdown is complete some thread can move, again without a spurious wakeup. */
  lemma ShutdownMoves(s: State) returns (step: Step)
    requires Inv(s) && s.done && s.closer != Joined
    ensures Enabled(s, step) && !step.WorkerSpurious? && !step.Call?
  {
    if !s.closer.Freeing? || s.closer.taken != [] {
      step := CloserMoves(s);
    } else if w :| w in s.workers && s.workers[w] != Exited {
      step := WorkerMoves(s, w);
    } else {
      step := CloserJoin;
    }
  }

  lemma CloserMoves(s: State) returns (step: Step)
    requires s.hosts.Keys == s.refs.Keys && Linked(s.refs, s.list, Taken(s.closer))
    requires Cleanable(s.callers, s.refs, s.workers, s.closer)
    requires s.closer.Notifying? || s.closer.CleaningTaken? || (s.closer.Freeing? && s.closer.taken != [])
    ensures Enabled(s, step) && !step.WorkerSpurious? && !step.Call?
  {
    if s.closer.Notifying? {
      step := CloserBroadcast;
    } else if s.closer.CleaningTaken? {
      step := CloserClean;
    } else {
      assert s.closer.taken[0] in Taken(s.closer);
      step := CloserPut;
    }
  }

  lemma WorkerMoves(s: State, w: nat) returns (step: Step)
    requires Inv(s) && (s.list != [] || s.done) && w in s.workers && s.workers[w] != Exited
    ensures Enabled(s, step) && !step.WorkerSpurious? && !step.Call? && !step.CloserLock?
  {
    match s.owner
    case Some(t) => step := OwnerMoves(s, t);
    case None =>
      assert s.workers[w] != Locked && !s.workers[w].CleaningLocked?;
      match s.workers[w]
      case AtLock => step := WorkerLock(w);
      case Woken => step := WorkerLock(w);
      case Resolving(h, _) => step := WorkerPut(w);
      case CleaningAfter(h) => step := WorkerClean(w);
      case Asleep =>
        if s.closer.Notifying? {
          step := CloserBroadcast;
        } else {
          var h :| h in s.callers && s.callers[h] == Signalling;
          step := CallerBroadcast(h);
        }
  }

  lemma OwnerMoves(s: State, t: Thread) returns (step: Step)
    requires Inv(s) && s.owner == Some(t)
    ensures Enabled(s, step) && !step.WorkerSpurious? && !step.Call? && !step.CloserLock?
  {
    match t
    case Caller(h) => step := if s.done then CallerRefuse(h) else CallerInsert(h);
    case Closer => step := CloserTake;
    case Worker(w) =>
      if s.workers[w] != Locked {
        step := WorkerClean(w);
      } else if s.done {
        step := WorkerExit(w);
      } else if s.list == [] {
        step := WorkerSleep(w);
      } else {
        assert s.list[0] in s.list;
        step := if Depleted(s.hosts[s.list[0]]) then WorkerDeplete(w) else WorkerTake(w);
      }
  }

  // ----- shutdown comes to an end

  ghost function Total(f: map<nat, nat>): (n: nat)
    decreases |f|
  {
    if f == map[] then 0
    else
      var k :| k in f;
      f[k] + Total(f - {k})
  }

  lemma {:induction false} TotalSplits(f: map<nat, nat>, k: nat)
    requires k in f
    ensures Total(f) == f[k] + Total(f - {k})
    decreases |f|
  {
    var j :| j in f && Total(f) == f[j] + Total(f - {j});
    if j != k {
      TotalSplits(f - {j}, k);
      TotalSplits(f - {k}, j);
      assert f - {j} - {k} == f - {k} - {j};
    }
  }

  lemma TotalUpdates(f: map<nat, nat>, k: nat, v: nat)
    ensures Total(f[k := v]) + (if k in f then f[k] else 0) == Total(f) + v
  {
    var g := f[k := v];
    TotalSplits(g, k);
    assert g - {k} == f - {k};
    if k in f {
      TotalSplits(f, k);
    } else {
      assert f - {k} == f;
    }
  }

  lemma {:induction false} TotalMonotone(f: map<nat, nat>, g: map<nat, nat>)
    requires f.Keys == g.Keys && forall k <- f :: f[k] <= g[k]
    ensures Total(f) <= Total(g)
    decreases |f|
  {
    if k :| k in f {
      TotalSplits(f, k);
      TotalSplits(g, k);
      TotalMonotone(f - {k}, g - {k});
    } else {
      assert g == map[];
    }
  }

  /** How many more steps a thread takes once the pool is shut down. */
  function CallerRank(pc: CallerPc): (n: nat) {
    match pc
    case Calling => 5
    case Inside => 4
    case Dropping => 2
    case Signalling => 1
    case Cleaning => 1
    case Returned => 0
  }

  function WorkerRank(pc: WorkerPc): (n: nat) {
    match pc
    case Resolving(_, _) => 5
    case Asleep => 4
    case CleaningAfter(_) => 4
    case Woken => 3
    case AtLock => 3
    case CleaningLocked(_) => 3
    case Locked => 2
    case Exited => 0
  }

  function CloserRank(pc: CloserPc): (n: nat) {
    match pc
    case Notifying(taken) => 2 * |taken| + 2
    case Freeing(taken) => 2 * |taken| + 1
    case CleaningTaken(_, taken) => 2 * |taken| + 2
    case _ => 0
  }

  function CallerRanks(callers: map<nat, CallerPc>): (f: map<nat, nat>) {
    map h | h in callers :: CallerRank(callers[h])
  }

  function WorkerRanks(workers: map<nat, WorkerPc>): (f: map<nat, nat>) {
    map w | w in workers :: WorkerRank(workers[w])
  }

  ghost function Rank(s: State): (n: nat) {
    Total(CallerRanks(s.callers)) + Total(WorkerRanks(s.workers)) + CloserRank(s.closer)
  }

  lemma CallerMoves(callers: map<nat, CallerPc>, h: nat, pc: CallerPc)
    ensures Total(CallerRanks(callers[h := pc])) + (if h in callers then CallerRank(callers[h]) else 0)
            == Total(CallerRanks(callers)) + CallerRank(pc)
  {
    var f := CallerRanks(callers);
    TotalUpdates(f, h, CallerRank(pc));
    assert CallerRanks(callers[h := pc]) == f[h := CallerRank(pc)];
  }

  lemma WorkerSteps(workers: map<nat, WorkerPc>, w: nat, pc: WorkerPc)
    requires w in workers
    ensures Total(WorkerRanks(workers[w := pc])) + WorkerRank(workers[w])
            == Total(WorkerRanks(workers)) + WorkerRank(pc)
  {
    var f := WorkerRanks(workers);
    TotalUpdates(f, w, WorkerRank(pc));
    assert WorkerRanks(workers[w := pc]) == f[w := WorkerRank(pc)];
  }

  lemma WakeLowers(workers: map<nat, WorkerPc>)
    ensures Total(WorkerRanks(Wake(workers))) <= Total(WorkerRanks(workers))
  {
    TotalMonotone(WorkerRanks(Wake(workers)), WorkerRanks(workers));
  }

  predicate IsCallers(step: Step) {
    || step.Call? || step.CallerLock? || step.CallerInsert? || step.CallerRefuse? || step.CallerBroadcast?
    || step.CallerDrop? || step.CallerClean?
  }

  lemma RankByCaller(s: State, step: Step)
    requires s.done && Enabled(s, step) && IsCallers(step)
    ensures if step.Call? then Rank(Do(s, step)) <= Rank(s) + 5 else Rank(Do(s, step)) < Rank(s)
  {
    CallerMoves(s.callers, step.h, Do(s, step).callers[step.h]);
    if step.CallerBroadcast? {
      WakeLowers(s.workers);
    }
  }

  lemma RankByWorker(s: State, step: Step)
    requires s.done && Enabled(s, step) && !IsCallers(step)
    requires step.WorkerLock? || step.WorkerExit? || step.WorkerPut? || step.WorkerClean? || step.WorkerSpurious?
    ensures Rank(Do(s, step)) < Rank(s)
  {
    WorkerSteps(s.workers, step.w, Do(s, step).workers[step.w]);
  }

  lemma RankByCloser(s: State, step: Step)
    requires Closing(s.closer, s.list, s.done) && s.done && Enabled(s, step)
    requires step.CloserBroadcast? || step.CloserPut? || step.CloserClean? || step.CloserJoin?
    ensures Rank(Do(s, step)) < Rank(s)
  {
    if step.CloserBroadcast? {
      WakeLowers(s.workers);
    }
  }

  /** Once the pool is shut down every step but a new call brings its end closer. */
  lemma RankFalls(s: State, step: Step)
    requires Closing(s.closer, s.list, s.done) && s.done && Enabled(s, step)
    ensures Do(s, step).done
    ensures if step.Call? then Rank(Do(s, step)) <= Rank(s) + 5 else Rank(Do(s, step)) < Rank(s)
  {
    if IsCallers(step) {
      RankByCaller(s, step);
    } else if step.CloserBroadcast? || step.CloserPut? || step.CloserClean? || step.CloserJoin? {
      RankByCloser(s, step);
    } else {
      RankByWorker(s, step);
    }
  }

  lemma RunRankFalls(states: seq<State>, steps: seq<Step>, k: nat)
    requires Run(states, steps) && k < |steps| && states[k].done
    ensures states[k + 1].done
    ensures Rank(states[k + 1]) + 1 <= Rank(states[k]) + if steps[k].Call? then 6 else 0
  {
    RunKeepsInv(states, steps, k);
    RankFalls(states[k], steps[k]);
  }

  /** How many of the steps from `n` up to `k` are new calls. */
  function Calls(steps: seq<Step>, n: nat, k: nat): (c: nat)
    requires n <= k <= |steps|
  {
    if k == n then 0 else Calls(steps, n, k - 1) + if steps[k - 1].Call? then 1 else 0
  }

  /** From step `n` on the pool is shut down, and at step `k` so many steps have been taken. */
  ghost predicate Ending(states: seq<State>, steps: seq<Step>, n: nat, k: nat)
    requires n <= k <= |steps| < |states|
  {
    forall j: nat :: Open(j) ==>
      states[k].done && (k - n) + Rank(states[k]) <= Rank(states[n]) + 6 * Calls(steps, n, k)
  }

  lemma EndingStarts(states: seq<State>, steps: seq<Step>, n: nat)
    requires n <= |steps| < |states| && states[n].done
    ensures Ending(states, steps, n, n) == true
  {
  }

  lemma EndingMore(states: seq<State>, steps: seq<Step>, n: nat, k: nat)
    requires IsRun(states, steps) == true && n <= k < |steps| < |states| && Ending(states, steps, n, k) == true
    ensures Ending(states, steps, n, k + 1) == true
  {
    assert Open(0) && OpenIn(OfRuns, 0);
    RunRankFalls(states, steps, k);
  }

  lemma {:induction false} StaysEnding(states: seq<State>, steps: seq<Step>, n: nat, k: nat)
    requires IsRun(states, steps) == true && n <= k <= |steps| < |states| && states[n].done
    ensures Ending(states, steps, n, k) == true
    decreases k
  {
    if n < k {
      StaysEnding(states, steps, n, k - 1);
      EndingMore(states, steps, n, k - 1);
    } else {
      EndingStarts(states, steps, n);
    }
  }

  /**
   However the threads are scheduled, a pool that is shut down takes a bounded number of steps, new calls aside;
   with ShutdownMoves, it is joined when no step is left.
   */
  lemma ShutdownEnds(states: seq<State>, steps: seq<Step>, n: nat, k: nat)
    requires Run(states, steps) == true && n <= k <= |steps| < |states| && states[n].done
    ensures states[k].done && (k - n) + Rank(states[k]) <= Rank(states[n]) + 6 * Calls(steps, n, k)
  {
    StaysEnding(states, steps, n, k);
    assert Open(0);
  }

  // ----- an open pool becomes idle

  /** How many more steps a thread of an open pool takes, `n` being the number of workers it may have to wake. */
  function OpenCallerRank(pc: CallerPc, n: nat): (r: nat) {
    match pc
    case Calling => 2 * n + 8
    case Inside => 2 * n + 7
    case Signalling => 2 * n + 1
    case Dropping => 2
    case Cleaning => 1
    case Returned => 0
  }

  function OpenWorkerRank(pc: WorkerPc): (r: nat) {
    match pc
    case Resolving(_, _) => 4
    case CleaningAfter(_) => 3
    case AtLock => 2
    case Woken => 2
    case CleaningLocked(_) => 2
    case Locked => 1
    case Asleep => 0
    case Exited => 0
  }

  function OpenCallerRanks(callers: map<nat, CallerPc>, n: nat): (f: map<nat, nat>) {
    map h | h in callers :: OpenCallerRank(callers[h], n)
  }

  function OpenWorkerRanks(workers: map<nat, WorkerPc>): (f: map<nat, nat>) {
    map w | w in workers :: OpenWorkerRank(workers[w])
  }

  /** The runs of a request that are still to be handed out. */
  function RunsLeft(t: Hosts): (n: nat) {
    if t.cursor <= |t.text| then |RunsFrom(t.text, t.cursor)| else 0
  }

  function AllRunsLeft(hosts: map<nat, Hosts>): (f: map<nat, nat>) {
    map h | h in hosts :: RunsLeft(hosts[h])
  }

  ghost function OpenRankOf(callers: map<nat, CallerPc>, workers: map<nat, WorkerPc>, list: seq<nat>,
                            hosts: map<nat, Hosts>): (n: nat)
  {
    Total(OpenCallerRanks(callers, |workers|)) + Total(OpenWorkerRanks(workers)) + 2 * |list|
    + 4 * Total(AllRunsLeft(hosts))
  }

  ghost function OpenRank(s: State): (n: nat) {
    OpenRankOf(s.callers, s.workers, s.list, s.hosts)
  }

  /** What a step that is not the pool's own work may add to it. */
  function Cost(step: Step, n: nat): (c: nat) {
    match step
    case Call(_, text, _) => 2 * n + 9 + 4 * |RunsFrom(text, 0)|
    case WorkerSpurious(_) => 3
    case CloserLock => 1
    case _ => 0
  }

  lemma OpenCallerMoves(callers: map<nat, CallerPc>, n: nat, h: nat, pc: CallerPc)
    ensures Total(OpenCallerRanks(callers[h := pc], n)) + (if h in callers then OpenCallerRank(callers[h], n) else 0)
            == Total(OpenCallerRanks(callers, n)) + OpenCallerRank(pc, n)
  {
    var f := OpenCallerRanks(callers, n);
    TotalUpdates(f, h, OpenCallerRank(pc, n));
    assert OpenCallerRanks(callers[h := pc], n) == f[h := OpenCallerRank(pc, n)];
  }

  lemma OpenWorkerSteps(workers: map<nat, WorkerPc>, w: nat, pc: WorkerPc)
    requires w in workers
    ensures Total(OpenWorkerRanks(workers[w := pc])) + OpenWorkerRank(workers[w])
            == Total(OpenWorkerRanks(workers)) + OpenWorkerRank(pc)
    ensures |workers[w := pc]| == |workers|
  {
    var f := OpenWorkerRanks(workers);
    TotalUpdates(f, w, OpenWorkerRank(pc));
    assert OpenWorkerRanks(workers[w := pc]) == f[w := OpenWorkerRank(pc)];
    SameSize(workers, workers[w := pc]);
  }

  lemma SameSize(a: map<nat, WorkerPc>, b: map<nat, WorkerPc>)
    requires a.Keys == b.Keys
    ensures |a| == |b|
  {
    assert |a| == |a.Keys| && |b| == |b.Keys|;
  }

  lemma HostsChange(hosts: map<nat, Hosts>, h: nat, t: Hosts)
    ensures Total(AllRunsLeft(hosts[h := t])) + (if h in hosts then RunsLeft(hosts[h]) else 0)
            == Total(AllRunsLeft(hosts)) + RunsLeft(t)
  {
    var f := AllRunsLeft(hosts);
    TotalUpdates(f, h, RunsLeft(t));
    assert AllRunsLeft(hosts[h := t]) == f[h := RunsLeft(t)];
  }

  lemma {:induction false} TotalWithin(f: map<nat, nat>, g: map<nat, nat>)
    requires f.Keys == g.Keys && forall k <- f :: f[k] <= g[k] + 2
    ensures Total(f) <= Total(g) + 2 * |f|
    decreases |f|
  {
    if k :| k in f {
      TotalSplits(f, k);
      TotalSplits(g, k);
      TotalWithin(f - {k}, g - {k});
    } else {
      assert g == map[];
    }
  }

  lemma WakeRaises(workers: map<nat, WorkerPc>)
    ensures Total(OpenWorkerRanks(Wake(workers))) <= Total(OpenWorkerRanks(workers)) + 2 * |workers|
    ensures |Wake(workers)| == |workers|
  {
    SameSize(workers, Wake(workers));
    var f := OpenWorkerRanks(Wake(workers));
    assert |f| == |f.Keys| == |workers.Keys|;
    TotalWithin(f, OpenWorkerRanks(workers));
  }

  lemma CallerRankOf(callers: map<nat, CallerPc>, workers: map<nat, WorkerPc>, list: seq<nat>,
                     hosts: map<nat, Hosts>, h: nat, pc: CallerPc)
    requires h in callers
    ensures OpenRankOf(callers[h := pc], workers, list, hosts) + OpenCallerRank(callers[h], |workers|)
            == OpenRankOf(callers, workers, list, hosts) + OpenCallerRank(pc, |workers|)
  {
    OpenCallerMoves(callers, |workers|, h, pc);
  }

  lemma WorkerRankOf(callers: map<nat, CallerPc>, workers: map<nat, WorkerPc>, list: seq<nat>,
                     hosts: map<nat, Hosts>, w: nat, pc: WorkerPc)
    requires w in workers
    ensures |workers[w := pc]| == |workers|
    ensures OpenRankOf(callers, workers[w := pc], list, hosts) + OpenWorkerRank(workers[w])
            == OpenRankOf(callers, workers, list, hosts) + OpenWorkerRank(pc)
  {
    OpenWorkerSteps(workers, w, pc);
  }

  lemma WakeRankOf(callers: map<nat, CallerPc>, workers: map<nat, WorkerPc>, list: seq<nat>, hosts: map<nat, Hosts>)
    ensures |Wake(workers)| == |workers|
    ensures OpenRankOf(callers, Wake(workers), list, hosts) <= OpenRankOf(callers, workers, list, hosts) + 2 * |workers|
  {
    WakeRaises(workers);
  }

  lemma HostsRankOf(callers: map<nat, CallerPc>, workers: map<nat, WorkerPc>, list: seq<nat>, hosts: map<nat, Hosts>,
                    h: nat, t: Hosts)
    ensures OpenRankOf(callers, workers, list, hosts[h := t]) + 4 * (if h in hosts then RunsLeft(hosts[h]) else 0)
            == OpenRankOf(callers, workers, list, hosts) + 4 * RunsLeft(t)
  {
    HostsChange(hosts, h, t);
  }

  lemma NewRankOf(callers: map<nat, CallerPc>, workers: map<nat, WorkerPc>, list: seq<nat>, hosts: map<nat, Hosts>,
                  h: nat, pc: CallerPc)
    requires h !in callers
    ensures OpenRankOf(callers[h := pc], workers, list, hosts)
            == OpenRankOf(callers, workers, list, hosts) + OpenCallerRank(pc, |workers|)
  {
    OpenCallerMoves(callers, |workers|, h, pc);
  }

  lemma OpenByCall(s: State, h: nat, text: string, made: bool)
    requires Enabled(s, Call(h, text, made))
    ensures var s' := Do(s, Call(h, text, made));
            && OpenRank(s') + 1 <= OpenRank(s) + Cost(Call(h, text, made), |s.workers|) && s'.workers == s.workers
  {
    var pc := if made then Calling else Returned;
    NewRankOf(s.callers, s.workers, s.list, s.hosts, h, pc);
    HostsRankOf(s.callers[h := pc], s.workers, s.list, s.hosts, h,
                Hosts(text, 0, [], if made then Queued else Failed));
  }

  lemma OpenByInsert(s: State, h: nat)
    requires Enabled(s, CallerInsert(h))
    ensures var s' := Do(s, CallerInsert(h)); OpenRank(s') + 1 <= OpenRank(s) && s'.workers == s.workers
  {
    CallerRankOf(s.callers, s.workers, s.list, s.hosts, h, Signalling);
  }

  lemma OpenByBroadcast(s: State, h: nat)
    requires Enabled(s, CallerBroadcast(h))
    ensures var s' := Do(s, CallerBroadcast(h)); OpenRank(s') + 1 <= OpenRank(s) && |s'.workers| == |s.workers|
  {
    CallerRankOf(s.callers, s.workers, s.list, s.hosts, h, Returned);
    WakeRankOf(s.callers[h := Returned], s.workers, s.list, s.hosts);
  }

  lemma OpenByCaller(s: State, step: Step)
    requires Enabled(s, step) && (step.CallerLock? || step.CallerDrop? || step.CallerClean?)
    ensures OpenRank(Do(s, step)) + 1 <= OpenRank(s) && Do(s, step).workers == s.workers
  {
    CallerRankOf(s.callers, s.workers, s.list, s.hosts, step.h, Do(s, step).callers[step.h]);
  }

  /** Handing out a run leaves one less. */
  lemma RunHanded(t: Hosts, run: Run, next: nat)
    requires Whole(t) && NextRun(t.text, t.cursor) == Some((run, next))
    ensures RunsLeft(t.(cursor := next, handed := t.handed + [run])) + 1 == RunsLeft(t)
  {
  }

  lemma TakeRankOf(callers: map<nat, CallerPc>, workers: map<nat, WorkerPc>, list: seq<nat>, hosts: map<nat, Hosts>,
                   h: nat, t: Hosts, w: nat, pc: WorkerPc)
    requires h in hosts && RunsLeft(t) + 1 == RunsLeft(hosts[h])
    requires w in workers && workers[w] == Locked && pc.Resolving?
    ensures |workers[w := pc]| == |workers|
    ensures OpenRankOf(callers, workers[w := pc], list, hosts[h := t]) + 1 <= OpenRankOf(callers, workers, list, hosts)
  {
    HostsRankOf(callers, workers, list, hosts, h, t);
    WorkerRankOf(callers, workers, list, hosts[h := t], w, pc);
  }

  /** What a worker that takes a run makes of the request. */
  lemma TakeDoes(s: State, w: nat) returns (h: nat, t: Hosts, pc: WorkerPc)
    requires Tokenized(s.hosts) && Enabled(s, WorkerTake(w))
    ensures h in s.hosts && RunsLeft(t) + 1 == RunsLeft(s.hosts[h]) && pc.Resolving?
    ensures var s' := Do(s, WorkerTake(w));
            && s'.callers == s.callers && s'.list == s.list
            && s'.hosts == s.hosts[h := t] && s'.workers == s.workers[w := pc]
  {
    h := s.list[0];
    assert Whole(s.hosts[h]);
    var (run, next) := NextRun(s.hosts[h].text, s.hosts[h].cursor).value;
    RunHanded(s.hosts[h], run, next);
    t := s.hosts[h].(cursor := next, handed := s.hosts[h].handed + [run]);
    pc := Resolving(h, run);
  }

  lemma OpenByTake(s: State, w: nat)
    requires Tokenized(s.hosts) && Enabled(s, WorkerTake(w))
    ensures var s' := Do(s, WorkerTake(w)); OpenRank(s') + 1 <= OpenRank(s) && |s'.workers| == |s.workers|
  {
    var h, t, pc := TakeDoes(s, w);
    TakeRankOf(s.callers, s.workers, s.list, s.hosts, h, t, w, pc);
  }

  lemma OpenByDeplete(s: State, w: nat)
    requires Enabled(s, WorkerDeplete(w))
    ensures var s' := Do(s, WorkerDeplete(w)); OpenRank(s') + 1 <= OpenRank(s) && |s'.workers| == |s.workers|
  {
    WorkerRankOf(s.callers, s.workers, s.list[1..], s.hosts, w, Do(s, WorkerDeplete(w)).workers[w]);
  }

  lemma OpenByWorker(s: State, step: Step)
    requires !s.done && Enabled(s, step)
    requires step.WorkerLock? || step.WorkerSleep? || step.WorkerPut? || step.WorkerClean? || step.WorkerSpurious?
    ensures OpenRank(Do(s, step)) + 1 <= OpenRank(s) + Cost(step, |s.workers|)
    ensures |Do(s, step).workers| == |s.workers|
  {
    WorkerRankOf(s.callers, s.workers, s.list, s.hosts, step.w, Do(s, step).workers[step.w]);
  }

  /** While the pool is open, each step of its own work brings it closer to having nothing to do. */
  lemma OpenRankFalls(s: State, step: Step)
    requires Closing(s.closer, s.list, s.done) && Tokenized(s.hosts) && Enabled(s, step) && !Do(s, step).done
    ensures OpenRank(Do(s, step)) + 1 <= OpenRank(s) + Cost(step, |s.workers|)
    ensures !s.done && |Do(s, step).workers| == |s.workers|
  {
    if step.Call? {
      OpenByCall(s, step.h, step.text, step.made);
    } else if step.CallerInsert? {
      OpenByInsert(s, step.h);
    } else if step.CallerBroadcast? {
      OpenByBroadcast(s, step.h);
    } else if step.CallerLock? || step.CallerDrop? || step.CallerClean? {
      OpenByCaller(s, step);
    } else if step.WorkerTake? {
      OpenByTake(s, step.w);
    } else if step.WorkerDeplete? {
      OpenByDeplete(s, step.w);
    } else if !step.CloserLock? {
      OpenByWorker(s, step);
    }
  }

  /** What the steps from `n` up to `k` may add, with `m` workers. */
  function Costs(steps: seq<Step>, m: nat, n: nat, k: nat): (c: nat)
    requires n <= k <= |steps|
  {
    if k == n then 0 else Costs(steps, m, n, k - 1) + Cost(steps[k - 1], m)
  }

  lemma RunOpenRankFalls(states: seq<State>, steps: seq<Step>, k: nat)
    requires Run(states, steps) && k < |steps| && !states[k + 1].done
    ensures OpenRank(states[k + 1]) + 1 <= OpenRank(states[k]) + Cost(steps[k], |states[k].workers|)
    ensures !states[k].done && |states[k + 1].workers| == |states[k].workers|
  {
    RunKeepsInv(states, steps, k);
    OpenRankFalls(states[k], steps[k]);
  }

  lemma {:induction false} WasOpen(states: seq<State>, steps: seq<Step>, n: nat, k: nat)
    requires Run(states, steps) == true && n <= k <= |steps| < |states| && !states[k].done
    ensures !states[n].done && |states[n].workers| == |states[k].workers|
    decreases k - n
  {
    if n < k {
      RunOpenRankFalls(states, steps, k - 1);
      WasOpen(states, steps, n, k - 1);
    }
  }

  /** Of the `m` workers' pool, from step `n` to step `k`. */
  ghost predicate Within(states: seq<State>, steps: seq<Step>, m: nat, n: nat, k: nat)
    requires n <= k <= |steps| < |states|
  {
    forall j: nat :: Open(j) ==>
      && |states[k].workers| == m
      && (k - n) + OpenRank(states[k]) <= OpenRank(states[n]) + Costs(steps, m, n, k)
  }

  lemma WithinStarts(states: seq<State>, steps: seq<Step>, m: nat, n: nat)
    requires n <= |steps| < |states| && m == |states[n].workers|
    ensures Within(states, steps, m, n, n) == true
  {
  }

  lemma WithinMore(states: seq<State>, steps: seq<Step>, m: nat, n: nat, k: nat, last: nat)
    requires IsRun(states, steps) == true && n <= k < last <= |steps| < |states| && !states[last].done
    requires Within(states, steps, m, n, k) == true
    ensures Within(states, steps, m, n, k + 1) == true
  {
    assert Open(0) && OpenIn(OfRuns, 0);
    WasOpen(states, steps, k + 1, last);
    RunOpenRankFalls(states, steps, k);
  }

  lemma {:induction false} StaysWithin(states: seq<State>, steps: seq<Step>, m: nat, n: nat, k: nat, last: nat)
    requires IsRun(states, steps) == true && n <= k <= last <= |steps| < |states| && !states[last].done
    requires m == |states[n].workers|
    ensures Within(states, steps, m, n, k) == true
    decreases k
  {
    if n < k {
      StaysWithin(states, steps, m, n, k - 1, last);
      WithinMore(states, steps, m, n, k - 1, last);
    } else {
      WithinStarts(states, steps, m, n);
    }
  }

  /**
   However the threads are scheduled, an open pool takes a bounded number of steps, new calls and spurious
   wakeups aside; when none is left, StuckIsDone says that its work is done.
   */
  lemma OpenEnds(states: seq<State>, steps: seq<Step>, n: nat, k: nat)
    requires Run(states, steps) == true && n <= k <= |steps| < |states| && !states[k].done
    ensures (k - n) + OpenRank(states[k]) <= OpenRank(states[n]) + Costs(steps, |states[n].workers|, n, k)
  {
    StaysWithin(states, steps, |states[n].workers|, n, k, k);
    assert Open(0);
  }

  /** In an open pool that is not idle some thread can move. */
  lemma OpenMoves(s: State, w: nat, h: nat, v: nat) returns (step: Step)
    requires Inv(s) && !s.done && s.closer == Away && w in s.workers && s.workers[w] != Exited
    requires s.list != [] || (h in s.callers && s.callers[h] != Returned)
             || (v in s.workers && s.workers[v] != Asleep && s.workers[v] != Exited)
    ensures Enabled(s, step) && !step.WorkerSpurious? && !step.Call? && !step.CloserLock?
  {
    if s.owner.Some? {
      step := OwnerMoves(s, s.owner.value);
    } else if s.list != [] {
      step := NoDeadlock(s, w);
    } else if h in s.callers && s.callers[h] != Returned {
      step := CallerGoesOn(s, h);
    } else {
      match s.workers[v]
      case AtLock => step := WorkerLock(v);
      case Woken => step := WorkerLock(v);
      case Resolving(_, _) => step := WorkerPut(v);
      case CleaningAfter(_) => step := WorkerClean(v);
    }
  }

  lemma CallerGoesOn(s: State, h: nat) returns (step: Step)
    requires Mutex(s.callers, s.workers, s.closer, s.owner) && s.owner == None && h in s.callers && Known(s, h)
    requires s.callers[h] != Returned
    ensures Enabled(s, step) && !step.WorkerSpurious? && !step.Call? && !step.CloserLock?
  {
    match s.callers[h]
    case Calling => step := CallerLock(h);
    case Signalling => step := CallerBroadcast(h);
    case Dropping => step := CallerDrop(h);
    case Cleaning => step := CallerClean(h);
  }

  /**
   When an open pool with a live worker has no step left but new calls, spurious wakeups and its closing, every
   call has returned, on_done has run exactly once for every request, and all runs of every queued request have been
   handed out.
   */
  lemma StuckIsDone(s: State, w: nat, h: nat)
    requires Inv(s) && !s.done && s.closer == Away && w in s.workers && s.workers[w] != Exited
    requires forall step :: Enabled(s, step) ==> step.Call? || step.WorkerSpurious? || step.CloserLock?
    requires h in s.callers
    ensures s.callers[h] == Returned && s.refs[h].dones == 1
    ensures s.hosts[h].fate == Failed || s.hosts[h].handed == RunsFrom(s.hosts[h].text, 0)
  {
    if s.list != [] || s.callers[h] != Returned {
      var step := OpenMoves(s, w, h, w);
      assert false;
    }
    forall v | v in s.workers ensures s.workers[v] == Asleep || s.workers[v] == Exited {
      if s.workers[v] != Asleep && s.workers[v] != Exited {
        var step := OpenMoves(s, w, h, v);
        assert false;
      }
    }
    AllDoneWhenIdle(s, h);
    HandedInOrder(s, h);
  }
}
