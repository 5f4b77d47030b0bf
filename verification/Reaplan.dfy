/**
 The connection slots of the event loop in lib/net/reaplan.c. What the callbacks and the kernel
 decide comes in as parameters.
 */
module Reaplan {
  import opened IdSet
  import opened Sequences
  import opened Wrappers

  /**
   What on_connect did with the slot it was given: connected, with so many kinds of events to wait for, or not;
   then `stray` says whether it has left an open descriptor in the slot all the same.
   */
  datatype Outcome = Connected(events: nat, expires: int) | NotConnected(stray: bool)

  /** The timer, or an event for a connection and how often handling it asks for the connection to be closed. */
  datatype Event = Timer | Ready(slot: nat, asks: nat)

  /**
   What has happened: what the callbacks did, one after another; the slots of the connections, and for each slot how
   many connections were established, how often on_done ran and how often it ran for a stray descriptor, which was
   never counted as a connection; how many strays were closed so in all slots, and how many were forgotten, still
   open, when their slot was taken for a new connection.
   */
  datatype Log = Log(calls: seq<Outcome>, used: set<nat>, made: seq<nat>, ended: seq<nat>, undue: seq<nat>,
                     lost: nat, forgotten: nat)

  /** How many descriptors failing callbacks have left open. */
  function LeftOpen(calls: seq<Outcome>): (n: nat) {
    if calls == [] then 0
    else LeftOpen(calls[..|calls| - 1]) + if calls[|calls| - 1] == NotConnected(true) then 1 else 0
  }

  lemma {:induction false} LeftOpenNone(calls: seq<Outcome>)
    ensures LeftOpen(calls) == 0 <==> NotConnected(true) !in calls
  {
    if calls != [] {
      LeftOpenNone(calls[..|calls| - 1]);
      assert calls == calls[..|calls| - 1] + [calls[|calls| - 1]];
    }
  }

  lemma LeftOpenMore(calls: seq<Outcome>, outcome: Outcome)
    ensures LeftOpen(calls + [outcome]) == LeftOpen(calls) + if outcome == NotConnected(true) then 1 else 0
  {
    assert (calls + [outcome])[..|calls|] == calls;
  }

  function Closed(l: Log, i: nat): (l': Log)
    requires i < |l.ended| && i < |l.undue|
  {
    var l1 := l.(used := l.used - {i}, ended := l.ended[i := l.ended[i] + 1]);
    if i in l.used then l1 else l1.(undue := l.undue[i := l.undue[i] + 1], lost := l.lost + 1)
  }

  function Established(l: Log, i: nat, outcome: Outcome): (l': Log)
    requires i < |l.made|
  {
    l.(calls := l.calls + [outcome], used := l.used + {i}, made := l.made[i := l.made[i] + 1])
  }

  function Failed(l: Log, outcome: Outcome): (l': Log) {
    l.(calls := l.calls + [outcome])
  }

  function Cleared(l: Log, open: bool): (l': Log) {
    l.(forgotten := l.forgotten + if open then 1 else 0)
  }

  /** What a call of on_connect for slot `i` comes to; `open` is whether a stray descriptor was in it. */
  function Called(l: Log, i: nat, open: bool, outcome: Outcome): (l': Log)
    requires i < |l.made| && i < |l.ended| && i < |l.undue|
  {
    var c := Cleared(l, open);
    if outcome.NotConnected? then Failed(c, outcome)
    else if outcome.events > 0 then Established(c, i, outcome)
    else Closed(Established(c, i, outcome), i)
  }

  ghost predicate Sized(n: nat, live: seq<bool>, l: Log) {
    |live| == |l.made| == |l.ended| == |l.undue| == n
  }

  /** The ids in use are those of connections, whose slots are open; every connection is counted, and ends once. */
  ghost predicate Slots(n: nat, free: set<nat>, live: seq<bool>, active: int, l: Log) {
    forall k: nat :: Open(k) ==>
      && Sized(n, live, l)
      && (forall i: nat :: i in l.used <==> i < n && i !in free)
      && (forall i: nat :: i in l.used ==> i < n && live[i])
      && active + l.lost == |l.used|
      && LeftOpen(l.calls) == |Strays(live, l.used)| + l.forgotten + l.lost
      && (forall i: nat :: i < n ==> l.made[i] + l.undue[i] == l.ended[i] + if i in l.used then 1 else 0)
  }

  ghost function OpenSlots(live: seq<bool>): (s: set<nat>) {
    set i: nat | i < |live| && live[i]
  }

  /** The slots whose open descriptor is not a connection's. */
  ghost function Strays(live: seq<bool>, used: set<nat>): (s: set<nat>) {
    set i: nat | i < |live| && live[i] && i !in used
  }

  /** No open descriptor is without a connection. */
  ghost predicate NoStray(live: seq<bool>, l: Log) {
    forall i: nat :: i < |live| && live[i] ==> i in l.used
  }

  ghost predicate LeastUnused(used: set<nat>, n: nat, i: nat) {
    i < n && i !in used && forall j: nat :: j < i ==> j in used
  }

  lemma {:induction false} SubsetCounts(a: set<nat>, b: set<nat>)
    requires a <= b
    ensures |a| <= |b| && (|a| == |b| <==> a == b)
  {
    if a != {} {
      var x :| x in a;
      SubsetCounts(a - {x}, b - {x});
      assert a == a - {x} + {x} && b == b - {x} + {x};
    }
  }

  /**
   The number of active connections never exceeds the limit. It is that of the ids in use, and of the open
   descriptors, those forgotten included, if and only if no callback has ever failed and left a descriptor open. Each
   of those left is still in its slot, or was forgotten, or was closed and taken from the count of connections.
   */
  lemma CountsAgree(n: nat, free: set<nat>, live: seq<bool>, active: int, l: Log)
    requires Slots(n, free, live, active, l) == true
    ensures active <= |l.used| <= |OpenSlots(live)| <= n && l.used == Below(n) - free
    ensures LeftOpen(l.calls) == |Strays(live, l.used)| + l.forgotten + l.lost && l.lost == |l.used| - active
    ensures active == |l.used| == |OpenSlots(live)| + l.forgotten <==> NotConnected(true) !in l.calls
  {
    assert Open(0);
    var open := OpenSlots(live);
    SubsetCounts(l.used, open);
    SubsetCounts(open, Below(n));
    LeftOpenNone(l.calls);
    assert open == l.used + Strays(live, l.used);
  }

  /** Then all descriptors in the slots are connections', and every connection is counted. */
  lemma NoneLeftOpen(n: nat, free: set<nat>, live: seq<bool>, active: int, l: Log)
    requires Slots(n, free, live, active, l) == true && NotConnected(true) !in l.calls
    ensures NoStray(live, l) && l.lost == 0 && l.forgotten == 0
  {
    assert Open(0);
    LeftOpenNone(l.calls);
    assert Strays(live, l.used) == {};
    assert forall i: nat :: i < |live| && live[i] && i !in l.used ==> i in Strays(live, l.used);
  }

  lemma CloseUsed(n: nat, free: set<nat>, live: seq<bool>, active: int, l: Log, i: nat)
    requires Slots(n, free, live, active, l) == true && Sized(n, live, l) && i in l.used && i < n
    ensures Slots(n, free + {i}, live[i := false], active - 1, Closed(l, i)) == true
  {
    assert Open(0);
    assert |l.used - {i}| == |l.used| - 1;
    assert Strays(live[i := false], l.used - {i}) == Strays(live, l.used);
  }

  lemma CloseStray(n: nat, free: set<nat>, live: seq<bool>, active: int, l: Log, i: nat)
    requires Slots(n, free, live, active, l) == true && Sized(n, live, l) && i !in l.used && i < n && live[i]
    ensures Slots(n, free + {i}, live[i := false], active - 1, Closed(l, i)) == true
  {
    assert Open(0);
    assert l.used - {i} == l.used && i in free;
    FewerStrays(live, l.used, i);
  }

  lemma FewerStrays(live: seq<bool>, used: set<nat>, i: nat)
    requires i < |live| && i !in used
    ensures |Strays(live, used)| == |Strays(live[i := false], used)| + if live[i] then 1 else 0
  {
    assert Strays(live[i := false], used) == Strays(live, used) - {i};
    assert live[i] <==> i in Strays(live, used);
  }

  lemma SlotsClose(n: nat, free: set<nat>, live: seq<bool>, active: int, l: Log, i: nat)
    requires Slots(n, free, live, active, l) == true && i < n && Sized(n, live, l) && live[i]
    ensures Slots(n, free + {i}, live[i := false], active - 1, Closed(l, i)) == true
    ensures Sized(n, live[i := false], Closed(l, i)) == true
  {
    if i in l.used {
      CloseUsed(n, free, live, active, l, i);
    } else {
      CloseStray(n, free, live, active, l, i);
    }
  }

  /** One open slot less, and no stray descriptor that was not there. */
  lemma CloseOpen(live: seq<bool>, l: Log, i: nat)
    requires i < |live| && Sized(|live|, live, l) && live[i]
    ensures |OpenSlots(live[i := false])| == |OpenSlots(live)| - 1
    ensures NoStray(live, l) ==> NoStray(live[i := false], Closed(l, i))
  {
    assert i in OpenSlots(live) && OpenSlots(live[i := false]) == OpenSlots(live) - {i};
  }

  /** The slot of an unused id is cleared. */
  lemma SlotsClear(n: nat, free: set<nat>, live: seq<bool>, active: int, l: Log, i: nat)
    requires Slots(n, free, live, active, l) == true && Sized(n, live, l) && i < n && i in free
    ensures Slots(n, free, live[i := false], active, Cleared(l, live[i])) == true
  {
    assert Open(0);
    FewerStrays(live, l.used, i);
  }

  /** A callback that fails leaves no descriptor in the slot, or a stray one. */
  lemma SlotsFail(n: nat, free: set<nat>, live: seq<bool>, active: int, l: Log, i: nat, stray: bool)
    requires Slots(n, free, live, active, l) == true && Sized(n, live, l) && i < n && i in free && !live[i]
    ensures Slots(n, free, live[i := stray], active, Failed(l, NotConnected(stray))) == true
  {
    FreeIsUnused(n, free, live, active, l, i);
    LeftOpenMore(l.calls, NotConnected(stray));
    FewerStrays(live[i := stray], l.used, i);
    assert live[i := stray][i := false] == live;
    FailKeeps(n, free, live, active, l, i, live[i := stray], Failed(l, NotConnected(stray)));
  }

  lemma FreeIsUnused(n: nat, free: set<nat>, live: seq<bool>, active: int, l: Log, i: nat)
    requires Slots(n, free, live, active, l) == true && i in free
    ensures i !in l.used
  {
    assert Open(0);
  }

  lemma FailKeeps(n: nat, free: set<nat>, live: seq<bool>, active: int, l: Log, i: nat, live': seq<bool>, l': Log)
    requires Slots(n, free, live, active, l) == true && Sized(n, live, l) && i < n && i in free
    requires |live'| == n && (forall j :: 0 <= j < n && j != i ==> live'[j] == live[j]) && l' == l.(calls := l'.calls)
    requires LeftOpen(l'.calls) - LeftOpen(l.calls) == |Strays(live', l.used)| - |Strays(live, l.used)|
    ensures Slots(n, free, live', active, l') == true
  {
    assert Open(0);
  }

  lemma SlotsEstablish(n: nat, free: set<nat>, live: seq<bool>, active: int, l: Log, i: nat, outcome: Outcome)
    requires Slots(n, free, live, active, l) == true && Sized(n, live, l) && i < n && i in free && !live[i]
    requires outcome.Connected?
    ensures Slots(n, free - {i}, live[i := true], active + 1, Established(l, i, outcome)) == true
  {
    assert Open(0);
    LeftOpenMore(l.calls, outcome);
    assert |l.used + {i}| == |l.used| + 1;
    assert Strays(live[i := true], l.used + {i}) == Strays(live, l.used);
  }

  /** Whether an id is left. */
  lemma SlotsFull(n: nat, free: set<nat>, live: seq<bool>, active: int, l: Log)
    requires Slots(n, free, live, active, l) == true && free <= Below(n)
    ensures free == {} <==> |l.used| == n
  {
    assert Open(0);
    assert l.used <= Below(n);
    SubsetCounts(l.used, Below(n));
    assert free == Below(n) - l.used;
  }

  lemma SlotsUnused(n: nat, free: set<nat>, live: seq<bool>, active: int, l: Log, i: nat)
    requires Slots(n, free, live, active, l) == true && i < n && i in free && forall j: nat :: j < i ==> j !in free
    ensures LeastUnused(l.used, n, i)
  {
    assert Open(0);
  }

  lemma OverwrittenBy<T>(s: seq<T>, i: nat, a: T, b: T)
    requires i < |s|
    ensures s[i := a][i := b] == s[i := b]
  {
  }

  class Reaplan {
    const ids: IdSet
    const maxClients: nat
    const perTick: nat
    var live: seq<bool>  // the slot has an open descriptor
    var expires: seq<int>
    var active: int
    var closeQueue: seq<nat>
    var timerActive: bool
    var throttle: bool
    ghost var log: Log

    ghost predicate Valid()
      reads this, ids, ids.bits
    {
      && ids.Valid() && ids.lastId == maxClients - 1 && 0 < perTick <= maxClients
      && Sized(maxClients, live, log) == true && |expires| == maxClients && |closeQueue| <= perTick
      && Slots(maxClients, ids.Free(), live, active, log) == true
    }

    /** The same while `id` is reserved for a connection that is not open yet. */
    ghost predicate Reserving(id: nat, free: set<nat>)
      reads this, ids, ids.bits
    {
      && ids.Valid() && ids.lastId == maxClients - 1 && 0 < perTick <= maxClients
      && Sized(maxClients, live, log) && |expires| == maxClients && |closeQueue| <= perTick
      && id < maxClients && id in free && ids.Free() == free - {id} && !live[id]
      && Slots(maxClients, free, live, active, log) == true
    }

    constructor (clients: nat, ticks: nat)
      requires 0 < ticks <= clients
      ensures Valid() && active == 0 && maxClients == clients && perTick == ticks
      ensures log.calls == [] && log.used == {} && forall i :: 0 <= i < clients ==> !live[i]
      ensures fresh(ids) && fresh(ids.bits)
    {
      ids := new IdSet(clients);
      maxClients, perTick, active, closeQueue := clients, ticks, 0, [];
      live, expires := seq(clients, _ => false), seq(clients, _ => 0);
      timerActive, throttle := false, false;
      log := Log([], {}, seq(clients, _ => 0), seq(clients, _ => 0), seq(clients, _ => 0), 0, 0);
      assert Strays(seq(clients, _ => false), {}) == {};
    }

    /** reaplan_conn_close: the slot and its id are free again, and on_done has run. */
    method Close(i: nat)
      requires Valid() && i < maxClients && live[i]
      modifies `live, `active, `log, ids, ids.bits
      ensures Valid() && live == old(live)[i := false] && active == old(active) - 1
      ensures log == Closed(old(log), i)
    {
      ghost var free, l := ids.Free(), Closed(log, i);
      SlotsClose(maxClients, free, live, active, log, i);
      ids.Clear(i);
      live, active, log := live[i := false], active - 1, l;
    }

    /** enqueue_close_conn: a connection already queued is not queued twice. */
    method Enqueue(i: nat)
      requires Valid()
      modifies `closeQueue
      ensures Valid()
      ensures |old(closeQueue)| < perTick || i in old(closeQueue) ==> i in closeQueue
      ensures closeQueue == old(closeQueue) || closeQueue == old(closeQueue) + [i]
      ensures i in old(closeQueue) ==> closeQueue == old(closeQueue)
    {
      if |closeQueue| == perTick {
        return;
      }
      for k := 0 to |closeQueue|
        invariant forall j :: 0 <= j < k ==> closeQueue[j] != i
      {
        if closeQueue[k] == i {
          return;
        }
      }
      closeQueue := closeQueue + [i];
    }
  
    /** The slots an event list asks to close. */
    ghost predicate Asked(evs: seq<Event>, n: nat, i: nat) {
      exists k :: 0 <= k < n && k < |evs| && evs[k].Ready? && evs[k].slot == i && evs[k].asks > 0
    }

    /** The kernel reports at most one tick's worth of events: the timer, and events for connections. */
    ghost predicate Reported(evs: seq<Event>)
      reads this
    {
      |evs| <= perTick && forall k :: 0 <= k < |evs| && evs[k].Ready? ==> evs[k].slot in log.used
    }

    /** The first half of reaplan_handle_events: no connection that is to be closed is dropped from the queue. */
    method Queue(evs: seq<Event>)
      requires Valid() && Reported(evs)
      modifies `closeQueue, `timerActive, `throttle
      ensures Valid() && Distinct(closeQueue)
      ensures forall i: nat :: i in closeQueue <==> Asked(evs, |evs|, i)
      ensures timerActive == (old(timerActive) && Timer !in evs) && throttle == (old(throttle) && Timer !in evs)
    {
      closeQueue := [];
      for k := 0 to |evs|
        invariant Valid() && Distinct(closeQueue) && |closeQueue| <= k
        invariant forall i: nat :: i in closeQueue <==> Asked(evs, k, i)
        invariant timerActive == (old(timerActive) && Timer !in evs[..k])
        invariant throttle == (old(throttle) && Timer !in evs[..k])
      {
        match evs[k] {
          case Timer => timerActive, throttle := false, false;
          case Ready(slot, asks) => Ask(slot, asks);
        }
        assert evs[..k + 1] == evs[..k] + [evs[k]];
        forall i: nat ensures i in closeQueue <==> Asked(evs, k + 1, i) {
          AskedNext(evs, k, i);
        }
      }
      assert evs[..|evs|] == evs;
    }

    /** What handling one event adds to the queue. */
    method Ask(slot: nat, asks: nat)
      requires Valid() && Distinct(closeQueue) && |closeQueue| < perTick
      modifies `closeQueue
      ensures Valid() && Distinct(closeQueue) && |closeQueue| <= |old(closeQueue)| + 1
      ensures forall i: nat :: i in closeQueue <==> i in old(closeQueue) || (asks > 0 && i == slot)
    {
      for n := 0 to asks
        invariant Valid() && Distinct(closeQueue)
        invariant if n == 0 then closeQueue == old(closeQueue) else slot in closeQueue
        invariant closeQueue == old(closeQueue) || closeQueue == old(closeQueue) + [slot]
      {
        Enqueue(slot);
      }
    }

    lemma AskedNext(evs: seq<Event>, k: nat, i: nat)
      requires k < |evs|
      ensures Asked(evs, k + 1, i) <==> Asked(evs, k, i) || (evs[k].Ready? && evs[k].slot == i && evs[k].asks > 0)
    {
    }

    /** close_conns. */
    method CloseQueued()
      requires Valid() && Distinct(closeQueue) && forall i <- closeQueue :: i < maxClients && i in log.used && live[i]
      modifies `live, `active, `log, ids, ids.bits
      ensures Valid() && log == old(log).(used := log.used, ended := log.ended)
      ensures forall i: nat :: i < maxClients ==> (live[i] <==> old(live[i]) && i !in closeQueue)
      ensures forall i: nat :: i in log.used <==> i in old(log.used) && i !in closeQueue
      ensures forall i: nat :: i < maxClients ==> log.ended[i] == old(log.ended[i]) + if i in closeQueue then 1 else 0
    {
      for k := 0 to |closeQueue|
        invariant Valid() && log == old(log).(used := log.used, ended := log.ended)
        invariant forall i: nat :: i < maxClients ==> (live[i] <==> old(live[i]) && i !in closeQueue[..k])
        invariant forall i: nat :: i in log.used <==> i in old(log.used) && i !in closeQueue[..k]
        invariant forall i: nat :: i < maxClients ==>
                    log.ended[i] == old(log.ended[i]) + if i in closeQueue[..k] then 1 else 0
      {
        assert closeQueue[..k + 1] == closeQueue[..k] + [closeQueue[k]];
        assert closeQueue[k] in closeQueue && closeQueue[k] !in closeQueue[..k];
        Close(closeQueue[k]);
      }
      assert closeQueue[..|closeQueue|] == closeQueue;
    }

    /** reaplan_handle_events: the connections that were to be closed are, once each, and no others. */
    method HandleEvents(evs: seq<Event>)
      requires Valid() && Reported(evs)
      modifies `closeQueue, `live, `active, `log, `timerActive, `throttle, ids, ids.bits
      ensures Valid() && log == old(log).(used := log.used, ended := log.ended)
      ensures forall i: nat :: i < maxClients ==> (live[i] <==> old(live[i]) && !Asked(evs, |evs|, i))
      ensures forall i: nat :: i in log.used <==> i in old(log.used) && !Asked(evs, |evs|, i)
      ensures forall i: nat :: i < maxClients ==>
                log.ended[i] == old(log.ended[i]) + if Asked(evs, |evs|, i) then 1 else 0
      ensures timerActive == (old(timerActive) && Timer !in evs) && throttle == (old(throttle) && Timer !in evs)
    {
      Queue(evs);
      UsedAreOpen();
      CloseQueued();
    }

    lemma UsedAreOpen()
      requires Valid()
      ensures forall i: nat :: i in log.used ==> i < maxClients && live[i]
    {
      assert Open(0);
    }

    /** The least unused id; its slot is cleared, so that a stray descriptor in it is forgotten. */
    method Reserve() returns (id: int, ghost free: set<nat>)
      requires Valid()
      modifies `live, `expires, `log, ids`full, ids.bits
      ensures id < 0 <==> |old(log.used)| == maxClients
      ensures id < 0 ==> Valid() && live == old(live) && expires == old(expires) && log == old(log)
      ensures id >= 0 ==> LeastUnused(log.used, maxClients, id) && Reserving(id, free) && live == old(live)[id := false]
      ensures id >= 0 ==> expires == old(expires)[id := 0] && log == Cleared(old(log), old(live)[id])
    {
      free := ids.Free();
      SlotsFull(maxClients, free, live, active, log);
      id := ids.UseNext();
      if id >= 0 {
        assert forall j: nat :: j < id ==> j !in free;
        SlotsUnused(maxClients, free, live, active, log, id);
        SlotsClear(maxClients, free, live, active, log, id);
        log := Cleared(log, live[id]);
        live, expires := live[id := false], expires[id := 0];
      }
    }

    method Release(id: nat, stray: bool, ghost free: set<nat>)
      requires Reserving(id, free)
      modifies `live, `log, ids, ids.bits
      ensures Valid() && live == old(live)[id := stray] && log == Failed(old(log), NotConnected(stray))
    {
      SlotsFail(maxClients, free, live, active, log, id, stray);
      live, log := live[id := stray], Failed(log, NotConnected(stray));
      ids.Clear(id);
      assert ids.Free() == free;
    }

    method Establish(id: nat, outcome: Outcome, ghost free: set<nat>)
      requires Reserving(id, free) && outcome.Connected?
      modifies `live, `expires, `active, `log
      ensures Valid() && live == old(live)[id := true] && expires == old(expires)[id := outcome.expires]
      ensures active == old(active) + 1 && log == Established(old(log), id, outcome)
    {
      SlotsEstablish(maxClients, free, live, active, log, id, outcome);
      live, expires := live[id := true], expires[id := outcome.expires];
      log := Established(log, id, outcome);
      active := active + 1;
    }

    /**
     One connection of setup_connections, under the least unused id if there is one; `ok` says
     whether the loop goes on. A connection that is interested in nothing is closed at once.
     */
    method Connect(outcome: Outcome) returns (ok: bool, id: int)
      requires Valid()
      modifies `live, `expires, `active, `log, ids, ids.bits
      ensures Valid() && (id < 0 <==> |old(log.used)| == maxClients)
      ensures id < 0 ==> live == old(live) && expires == old(expires) && log == old(log)
      ensures id >= 0 ==> LeastUnused(old(log.used), maxClients, id)
      ensures id >= 0 ==> live == old(live)[id := if outcome.Connected? then outcome.events > 0 else outcome.stray]
      ensures id >= 0 ==> expires == old(expires)[id := if outcome.Connected? then outcome.expires else 0]
      ensures id >= 0 ==> log == Called(old(log), id, old(live)[id], outcome)
      ensures ok <==> id >= 0 && outcome.Connected?
      ensures active == old(active) + if ok && outcome.events > 0 then 1 else 0
    {
      ghost var free;
      id, free := Reserve();
      if id < 0 {
        return false, id;
      }
      OverwrittenBy(old(live), id, false, outcome.Connected? || outcome.stray);
      if outcome.NotConnected? {
        Release(id, outcome.stray, free);
        return false, id;
      }
      OverwrittenBy(old(expires), id, 0, outcome.expires);
      OverwrittenBy(old(live), id, true, false);
      Establish(id, outcome, free);
      if outcome.events == 0 {
        Close(id);
      }
      ok := true;
    }

    /** The loop stopped with outcomes left, and room in the event array and for connections: the callback failed. */
    ghost predicate Stopped(outcomes: seq<Outcome>, room: nat, nevs: nat, n: nat)
      reads this
    {
      nevs + 2 <= room && n < |outcomes| && |log.used| < maxClients
    }

    /**
     setup_connections: one connection after another under the least unused ids, until a callback
     fails, all ids are in use or the next two events might not fit; the event array never overflows.
     If every open descriptor was a connection's, this stays so unless the callback that failed left one.
     */
    method Setup(outcomes: seq<Outcome>, room: nat) returns (nevs: nat, n: nat, calls: nat)
      requires Valid() && room >= 2 && Served(outcomes)
      modifies `live, `expires, `active, `log, ids, ids.bits
      ensures Valid() && nevs <= room && n <= |outcomes|
      ensures forall k :: 0 <= k < n ==> outcomes[k].Connected?
      ensures Stopped(outcomes, room, nevs, n) ==> outcomes[n].NotConnected?
      ensures calls == (if Stopped(outcomes, room, nevs, n) then n + 1 else n) <= |outcomes|
      ensures log.calls == old(log.calls) + outcomes[..calls] && Spared(old(log), log) == true
      ensures StraysAre(old(log), old(live), log, live, outcomes[..calls], maxClients) == true
      ensures old(NoStray(live, log)) ==> (NoStray(live, log) <==> !LeavesOpen(outcomes[..calls]))
    {
      ghost var log0, live0 := log, live;
      nevs, n, calls := ConnectAll(outcomes, room);
      SetUpIs(log0, live0, log, live, outcomes[..calls], maxClients);
      if NoStray(live0, log0) {
        StraysLeft(log0, live0, log, live, outcomes[..calls], maxClients);
      }
    }

    /** The loop. */
    method ConnectAll(outcomes: seq<Outcome>, room: nat) returns (nevs: nat, n: nat, calls: nat)
      requires Valid() && room >= 2 && Served(outcomes)
      modifies `live, `expires, `active, `log, ids, ids.bits
      ensures Valid() && nevs <= room && n <= |outcomes|
      ensures forall k :: 0 <= k < n ==> outcomes[k].Connected?
      ensures Stopped(outcomes, room, nevs, n) ==> outcomes[n].NotConnected?
      ensures calls == (if Stopped(outcomes, room, nevs, n) then n + 1 else n) <= |outcomes|
      ensures SetUp(old(log), old(live), log, live, outcomes[..calls], maxClients) == true
    {
      ghost var log0, live0 := log, live;
      UsedAreOpen();
      SetUpStarts(log, live, maxClients);
      assert outcomes[..0] == [];
      nevs, n, calls := 0, 0, 0;
      while nevs + 2 <= room && n < |outcomes|
        invariant Valid() && nevs <= room && n == calls <= |outcomes|
        invariant forall k :: 0 <= k < n ==> outcomes[k].Connected?
        invariant SetUp(log0, live0, log, live, outcomes[..n], maxClients) == true
        decreases |outcomes| - n
      {
        assert outcomes[..n + 1] == outcomes[..n] + [outcomes[n]];
        LastConnected(outcomes, n);
        var ok, asked := ConnectNext(outcomes[n], log0, live0, outcomes[..n]);
        calls := if asked then n + 1 else n;
        if !ok {
          return;
        }
        nevs, n := nevs + outcomes[n].events, n + 1;
      }
    }

    method ConnectNext(outcome: Outcome, ghost log0: Log, ghost live0: seq<bool>, ghost called: seq<Outcome>)
      returns (ok: bool, asked: bool)
      requires Valid() && SetUp(log0, live0, log, live, called, maxClients) == true && !LeavesOpen(called)
      modifies `live, `expires, `active, `log, ids, ids.bits
      ensures Valid()
      ensures ok <==> asked && outcome.Connected?
      ensures asked <==> ok || |log.used| < maxClients
      ensures SetUp(log0, live0, log, live, if asked then called + [outcome] else called, maxClients) == true
    {
      CountsAgree(maxClients, ids.Free(), live, active, log);
      ghost var l, live1 := log, live;
      var id;
      ok, id := Connect(outcome);
      asked := id >= 0;
      if asked {
        SetUpMore(log0, live0, l, live1, called, maxClients, id, outcome);
      }
    }

    /** The three counts are the same; open descriptors that were forgotten count too. */
    ghost predicate Agree()
      reads this
    {
      active == |log.used| == |OpenSlots(live)| + log.forgotten
    }

    /** What the kernel reports of these events: those for connections, at most one tick's worth. */
    method Report(evs: seq<Event>) returns (reported: seq<Event>)
      requires Valid()
      ensures Reported(reported) && (Reported(evs) ==> reported == evs)
    {
      reported := [];
      for k := 0 to |evs|
        invariant Reported(reported) && (Reported(evs) ==> reported == evs[..k])
      {
        assert evs[..k + 1] == evs[..k] + [evs[k]];
        var known := true;
        if evs[k].Ready? {
          known := UsedSlot(evs[k].slot);
        }
        if known && |reported| < perTick {
          reported := reported + [evs[k]];
        }
      }
      assert evs[..|evs|] == evs;
    }

    method UsedSlot(slot: nat) returns (used: bool)
      requires Valid()
      ensures used <==> slot in log.used
    {
      UsedAreTaken();
      used := slot < maxClients && !ids.bits[slot];
    }

    lemma UsedAreTaken()
      requires Valid()
      ensures forall i: nat :: i in log.used <==> i < maxClients && !ids.bits[i]
    {
      assert Open(0);
      assert forall i: nat :: i in ids.Free() <==> i < maxClients && ids.bits[i];
    }

    /** One step, and what the callbacks called in it did. */
    method Take(step: Step) returns (called: seq<Outcome>)
      requires Valid() && Proper(step)
      modifies this, ids, ids.bits
      ensures Valid() && log.calls == old(log.calls) + called
      ensures if step.Connecting? then called <= step.outcomes else called == []
    {
      called := [];
      match step
      case Connecting(outcomes, room) =>
        var nevs, n, calls := Setup(outcomes, room);
        called := outcomes[..calls];
      case Handling(evs) =>
        var reported := Report(evs);
        HandleEvents(reported);
      case Expiring(now) =>
        ghost var upto := Expire(now);
    }

    /**
     reaplan_update_timer: closes what has expired, slot by slot, until nothing is active. If the counts agree it
     closes all of it: stopping early misses nothing.
     */
    method Expire(now: int) returns (ghost upto: nat)
      requires Valid()
      modifies `live, `active, `log, ids, ids.bits
      ensures Valid() && upto <= maxClients && (upto < maxClients ==> active <= 0)
      ensures forall i: nat :: i < maxClients ==> (live[i] <==> old(live[i]) && (i < upto ==> expires[i] > now))
      ensures active - |OpenSlots(live)| == old(active - |OpenSlots(live)|)
      ensures forall i: nat :: i in log.used <==> i in old(log.used) && i < maxClients && live[i]
      ensures log.calls == old(log.calls) && log.forgotten == old(log.forgotten)
      ensures NotConnected(true) !in log.calls ==>
                forall i: nat :: i < maxClients ==> (live[i] <==> old(live[i]) && expires[i] > now)
      ensures old(NoStray(live, log) && log.lost == 0) ==>
                && NoStray(live, log) && log.lost == 0
                && forall i: nat :: i < maxClients ==> (live[i] <==> old(live[i]) && expires[i] > now)
    {
      UsedAreOpen();
      if NotConnected(true) !in log.calls {
        NoneLeftOpen(maxClients, ids.Free(), live, active, log);
      }
      var k: nat := 0;
      while k < maxClients && active > 0
        invariant Valid() && k <= maxClients
        invariant forall i: nat :: i < maxClients ==> (live[i] <==> old(live[i]) && (i < k ==> expires[i] > now))
        invariant active - |OpenSlots(live)| == old(active - |OpenSlots(live)|)
        invariant forall i: nat :: i in log.used <==> i in old(log.used) && i < maxClients && live[i]
        invariant log.calls == old(log.calls) && log.forgotten == old(log.forgotten)
        invariant old(NoStray(live, log) && log.lost == 0) ==> NoStray(live, log) && log.lost == 0
        decreases maxClients - k
      {
        if live[k] && expires[k] <= now {
          CloseOpen(live, log, k);
          Close(k);
        }
        k := k + 1;
      }
      upto := k;
      CountsAgree(maxClients, ids.Free(), live, active, log);
      assert NoStray(live, log) && log.lost == 0 && active == 0 ==> log.used == {};
    }
  }

  // ----- any number of steps

  /** What reaplan_run does over and over, in any order: make connections, handle events, close what has expired. */
  datatype Step = Connecting(outcomes: seq<Outcome>, room: nat) | Handling(evs: seq<Event>) | Expiring(now: int)

  predicate Proper(step: Step) {
    step.Connecting? ==> step.room >= 2 && Served(step.outcomes)
  }

  /** The callbacks called in these steps do `called`: in each step the first of its outcomes. */
  ghost predicate Answers(called: seq<Outcome>, steps: seq<Step>)
    decreases |steps|
  {
    if steps == [] then called == []
    else
      var n := |steps| - 1;
      exists k :: 0 <= k <= |called| && Answers(called[..k], steps[..n])
                  && if steps[n].Connecting? then called[k..] <= steps[n].outcomes else called[k..] == []
  }

  lemma AnswersMore(called: seq<Outcome>, more: seq<Outcome>, steps: seq<Step>, n: nat)
    requires n < |steps| && Answers(called, steps[..n])
    requires if steps[n].Connecting? then more <= steps[n].outcomes else more == []
    ensures Answers(called + more, steps[..n + 1])
  {
    var all, k := called + more, |called|;
    assert all[..k] == called && all[k..] == more && steps[..n + 1][..n] == steps[..n];
  }

  /**
   Whatever the callbacks and the kernel do, and after any number of steps: the number of active connections, of
   ids in use and of open descriptors is the same if and only if no callback that was called has failed and left a
   descriptor open.
   */
  method Run(clients: nat, ticks: nat, steps: seq<Step>) returns (r: Reaplan, called: seq<Outcome>)
    requires 0 < ticks <= clients && forall i :: 0 <= i < |steps| ==> Proper(steps[i])
    ensures fresh(r) && r.Valid() && Answers(called, steps)
    ensures r.Agree() <==> NotConnected(true) !in called
    ensures r.active <= |r.log.used| <= |OpenSlots(r.live)| <= clients
  {
    r := new Reaplan(clients, ticks);
    called := [];
    assert steps[..0] == [];
    for n := 0 to |steps|
      invariant fresh(r) && fresh(r.ids) && fresh(r.ids.bits) && r.Valid() && r.maxClients == clients
      invariant r.log.calls == called && Answers(called, steps[..n])
    {
      var more := r.Take(steps[n]);
      AnswersMore(called, more, steps, n);
      called := called + more;
    }
    assert steps[..|steps|] == steps;
    CountsAgree(clients, r.ids.Free(), r.live, r.active, r.log);
  }

  /** No connection waits for more than two kinds of events: for TLS both, otherwise those asked for. */
  predicate Served(outcomes: seq<Outcome>) {
    forall k :: 0 <= k < |outcomes| && outcomes[k].Connected? ==> outcomes[k].events <= 2
  }

  /** A stray descriptor that expires takes the count with it: a connection is left that is not counted. */
  method StrayMiscounts() returns (r: Reaplan)
    ensures fresh(r) && r.Valid() && r.active == 0 && |r.live| == 2 && r.live[0] && r.log.used == {0}
  {
    r := new Reaplan(2, 1);
    ghost var none := r.log.used;
    var ok, id := r.Connect(Connected(1, 100));
    assert id == 0 by {
      assert 0 !in none;
    }
    assert r.log.used == {0};
    ok, id := r.Connect(NotConnected(true));
    assert id == 1;
    ghost var before := r.live;
    assert OpenSlots(before) == {0, 1} && r.active == 1;
    ghost var upto := r.Expire(50);
    assert OpenSlots(r.live) == if r.live[1] then {0, 1} else {0};
  }

  /** The connections are still there, and nothing happened to them. */
  ghost predicate Spared(l: Log, l': Log) {
    && |l'.made| == |l.made| && |l'.ended| == |l.ended| && l'.undue == l.undue && l'.lost == l.lost
    && forall i <- l.used ::
         i in l'.used && i < |l.made| && i < |l.ended| && l'.made[i] == l.made[i] && l'.ended[i] == l.ended[i]
  }

  /**
   Descriptors without a connection were there before, but for one the last callback may have left, in the slot of
   the least unused id.
   */
  ghost predicate StraysAre(l0: Log, live0: seq<bool>, l: Log, live: seq<bool>, called: seq<Outcome>, n: nat) {
    && |live| == |live0| == n
    && (forall i: nat :: i < n && live[i] && i !in l.used ==>
          (live0[i] && i !in l0.used) || (LeavesOpen(called) && LeastUnused(l.used, n, i)))
    && (LeavesOpen(called) ==> exists i: nat :: i < n && LeastUnused(l.used, n, i) && live[i])
  }

  predicate LeavesOpen(called: seq<Outcome>) {
    called != [] && called[|called| - 1] == NotConnected(true)
  }

  /** What setup_connections makes of the slots when the callbacks do `called`, the last of which alone may fail. */
  ghost predicate SetUp(l0: Log, live0: seq<bool>, l: Log, live: seq<bool>, called: seq<Outcome>, n: nat) {
    forall k: nat :: Open(k) ==>
      l.calls == l0.calls + called && Spared(l0, l) && StraysAre(l0, live0, l, live, called, n)
  }

  lemma SetUpIs(l0: Log, live0: seq<bool>, l: Log, live: seq<bool>, called: seq<Outcome>, n: nat)
    requires SetUp(l0, live0, l, live, called, n) == true
    ensures l.calls == l0.calls + called && Spared(l0, l) && StraysAre(l0, live0, l, live, called, n)
  {
    assert Open(0);
  }

  lemma StraysLeft(l0: Log, live0: seq<bool>, l: Log, live: seq<bool>, called: seq<Outcome>, n: nat)
    requires StraysAre(l0, live0, l, live, called, n) && NoStray(live0, l0)
    ensures NoStray(live, l) <==> !LeavesOpen(called)
  {
  }

  lemma SetUpStarts(l: Log, live: seq<bool>, n: nat)
    requires |live| == n && forall i <- l.used :: i < |l.made| && i < |l.ended|
    ensures SetUp(l, live, l, live, [], n) == true
  {
  }

  lemma SparedByCall(l0: Log, l: Log, id: nat, open: bool, outcome: Outcome)
    requires Spared(l0, l) && id !in l.used && id < |l.made| && id < |l.ended| && id < |l.undue|
    ensures Spared(l0, Called(l, id, open, outcome))
  {
  }

  lemma StraysOfCall(l0: Log, live0: seq<bool>, l: Log, live: seq<bool>, called: seq<Outcome>, n: nat, id: nat,
                     outcome: Outcome, l': Log, live': seq<bool>)
    requires StraysAre(l0, live0, l, live, called, n) && !LeavesOpen(called) && LeastUnused(l.used, n, id)
    requires live' == live[id := if outcome.Connected? then outcome.events > 0 else outcome.stray]
    requires l'.used == if outcome.Connected? && outcome.events > 0 then l.used + {id} else l.used
    ensures StraysAre(l0, live0, l', live', called + [outcome], n)
  {
    if LeavesOpen(called + [outcome]) {
      assert LeastUnused(l'.used, n, id) && live'[id];
    }
  }

  /** One more call, after others that did not fail. */
  lemma SetUpMore(l0: Log, live0: seq<bool>, l: Log, live: seq<bool>, called: seq<Outcome>, n: nat, id: nat,
                  outcome: Outcome)
    requires SetUp(l0, live0, l, live, called, n) == true && !LeavesOpen(called)
    requires |live| == |l.made| == |l.ended| == |l.undue| == n && LeastUnused(l.used, n, id)
    ensures SetUp(l0, live0, Called(l, id, live[id], outcome),
                  live[id := if outcome.Connected? then outcome.events > 0 else outcome.stray],
                  called + [outcome], n) == true
  {
    SetUpIs(l0, live0, l, live, called, n);
    var l' := Called(l, id, live[id], outcome);
    var live' := live[id := if outcome.Connected? then outcome.events > 0 else outcome.stray];
    assert l.used + {id} - {id} == l.used;
    SparedByCall(l0, l, id, live[id], outcome);
    StraysOfCall(l0, live0, l, live, called, n, id, outcome, l', live');
  }

  lemma LastConnected(outcomes: seq<Outcome>, n: nat)
    requires n <= |outcomes| && forall k :: 0 <= k < n ==> outcomes[k].Connected?
    ensures !LeavesOpen(outcomes[..n])
  {
  }
}
