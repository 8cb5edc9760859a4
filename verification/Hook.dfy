// The hooked calls of hook/hook.cpp:64-168 on one worker: a call that would block arms a
// timer, registers its event and parks its fiber, which comes back by readiness or by its
// timeout. The timers are those of TimerSets, the event table is that of EventTables, and
// the task queue is the scheduler's.
//
// With one worker, one task runs at a time, until its fiber parks or ends; collecting
// timers and delivering events, the two halves of an idle round, come between tasks. The
// hooked calls are the only users of the timers and the event table.
module Hooks {
  import opened Options
  import T = TimerSets
  import E = EventTables

  // A hooked call in progress. `canceled` is the shared timer information; `armed` are the
  // times at which its waits have armed a timer; refused: epoll_ctl failed on its timeout.
  datatype Call = Call(fiber: nat, fd: nat, event: E.Event, timeout: int,
                       canceled: bool, timer: Option<T.Address>, armed: seq<nat>, refused: bool)

  // What a fiber is doing. A call is known by its number, which no other call ever has.
  datatype Status = Spawned | Free | InCall(call: nat) | Done

  // A fiber to resume, or the timer callback of a call.
  datatype Task = Resume(fiber: nat) | Timeout(call: nat)

  datatype State = State(
    timers: T.State,
    table: E.State,
    queue: seq<Task>,
    fibers: map<nat, Status>,
    calls: map<nat, Call>,
    cur: Option<nat>,
    clock: nat,
    nextCall: nat)

  // What a call returns, when it does.
  datatype Result = Answer | Refused | TimedOut

  // ----- Which fiber waits where -----

  function Waiter(f: nat): E.Task {
    E.Task(0, E.Fiber(f))
  }

  function Slot(s: State, fd: nat, e: E.Event): E.Status
    requires E.AllEntries(s.table)
  {
    E.StatusNow(s.table, fd, e)
  }

  // Fiber f is inside a call and not running.
  predicate Parked(s: State, f: nat) {
    f in s.fibers && s.fibers[f].InCall? && s.fibers[f].call in s.calls && s.cur != Some(f)
  }

  // Its call's event is registered for it.
  predicate Registered(s: State, f: nat)
    requires E.AllEntries(s.table)
  {
    && f in s.fibers && s.fibers[f].InCall? && s.fibers[f].call in s.calls
    && var c := s.calls[s.fibers[f].call];
       Slot(s, c.fd, c.event) == E.Waiting(Waiter(f))
  }

  function Resumes(queue: seq<Task>, f: nat): nat {
    if queue == [] then 0 else (if queue[0] == Resume(f) then 1 else 0) + Resumes(queue[1..], f)
  }

  // How often a fiber should be queued.
  function Due(s: State, f: nat): nat
    requires E.AllEntries(s.table)
  {
    if f !in s.fibers then 0
    else
      match s.fibers[f]
      case Spawned => 1
      case InCall(_) => if s.cur == Some(f) || Registered(s, f) then 0 else 1
      case _ => 0
  }

  // Calls and fibers name each other.
  ghost predicate Linked(s: State) {
    && (forall f :: f in s.fibers && s.fibers[f].InCall? ==>
          s.fibers[f].call in s.calls && s.calls[s.fibers[f].call].fiber == f)
    && (forall id :: id in s.calls ==>
          id < s.nextCall && s.calls[id].fiber in s.fibers && s.fibers[s.calls[id].fiber] == InCall(id))
    && (s.cur.Some? ==> s.cur.value in s.fibers && (s.fibers[s.cur.value].Free? || s.fibers[s.cur.value].InCall?))
    && (forall f :: f in s.fibers && s.fibers[f].Free? ==> s.cur == Some(f))
  }

  // Whoever is registered is parked, in a call for just that event.
  ghost predicate Owned(s: State)
    requires E.AllEntries(s.table)
  {
    forall fd: nat, e :: Slot(s, fd, e).Waiting? ==>
      exists f :: Slot(s, fd, e) == E.Waiting(Waiter(f)) && OwnedBy(s, fd, e, f)
  }

  ghost predicate OwnedBy(s: State, fd: nat, e: E.Event, f: nat) {
    Parked(s, f) && s.calls[s.fibers[f].call].fd == fd && s.calls[s.fibers[f].call].event == e
  }

  // Every fiber is queued as often as it should be.
  ghost predicate QueuedRight(s: State)
    requires E.AllEntries(s.table)
  {
    forall f :: Resumes(s.queue, f) == Due(s, f)
  }

  ghost predicate Waits(s: State) {
    E.AllEntries(s.table) && |s.table.entries| >= 2 && Linked(s) && Owned(s) && QueuedRight(s)
  }

  // ----- Queue lemmas -----

  lemma {:induction false} ResumesAppend(queue: seq<Task>, more: seq<Task>, f: nat)
    ensures Resumes(queue + more, f) == Resumes(queue, f) + Resumes(more, f)
  {
    if queue == [] {
      assert queue + more == more;
    } else {
      assert (queue + more)[1..] == queue[1..] + more;
      ResumesAppend(queue[1..], more, f);
    }
  }

  lemma ResumesOne(t: Task, f: nat)
    ensures Resumes([t], f) == if t == Resume(f) then 1 else 0
  {
    assert [t][1..] == [];
  }

  // ----- Waking a waiter -----

  // The task that a trigger queues.
  function ToTask(t: E.Task): Task {
    match t.waiter
    case Fiber(f) => Resume(f)
    case Callback(cb) => Timeout(cb)
  }

  // `triggerEvent` for a bit that is set.
  function Wake(s: State, fd: nat, e: E.Event): State
    requires fd < |s.table.entries| && E.EntryInv(s.table.entries[fd])
  {
    if e in s.table.entries[fd].event then
      s.(table := E.Trigger(s.table, fd, e),
         queue := s.queue + [ToTask(E.TaskOf(E.GetContext(s.table.entries[fd], e)))])
    else s
  }

  lemma TriggerSlots(t: E.State, fd: nat, e: E.Event)
    requires E.AllEntries(t) && fd < |t.entries| && e in t.entries[fd].event
    ensures var r := E.Trigger(t, fd, e);
            && E.AllEntries(r) && |r.entries| == |t.entries|
            && forall f: nat, d :: E.StatusNow(r, f, d) == if f == fd && d == e then E.Idle else E.StatusNow(t, f, d)
  {
    var r := E.Trigger(t, fd, e);
    assert E.EntryInv(t.entries[fd]);
    assert E.EntryInv(r.entries[fd]);
  }

  // Waking moves one fiber from the table to the queue.
  lemma WakeWaits(s: State, fd: nat, e: E.Event)
    requires Waits(s) && fd < |s.table.entries|
    ensures Waits(Wake(s, fd, e))
  {
    if e in s.table.entries[fd].event {
      assert E.EntryInv(s.table.entries[fd]);
      TriggerSlots(s.table, fd, e);
      var r := Wake(s, fd, e);
      assert Slot(s, fd, e).Waiting?;
      var g :| Slot(s, fd, e) == E.Waiting(Waiter(g)) && OwnedBy(s, fd, e, g);
      forall f
        ensures Resumes(r.queue, f) == Due(r, f)
      {
        ResumesAppend(s.queue, [Resume(g)], f);
        ResumesOne(Resume(g), f);
        assert Resumes(s.queue, f) == Due(s, f);
      }
      WakeOwned(s, fd, e);
    }
  }

  lemma WakeOwned(s: State, fd: nat, e: E.Event)
    requires Waits(s) && fd < |s.table.entries| && e in s.table.entries[fd].event && E.EntryInv(s.table.entries[fd])
    requires E.AllEntries(Wake(s, fd, e).table)
    ensures Owned(Wake(s, fd, e))
  {
    var r := Wake(s, fd, e);
    TriggerSlots(s.table, fd, e);
    forall f: nat, d | Slot(r, f, d).Waiting?
      ensures exists g :: Slot(r, f, d) == E.Waiting(Waiter(g)) && OwnedBy(r, f, d, g)
    {
      assert Slot(s, f, d) == Slot(r, f, d);
      var g :| Slot(s, f, d) == E.Waiting(Waiter(g)) && OwnedBy(s, f, d, g);
      assert OwnedBy(r, f, d, g);
    }
  }

  // ----- Steps -----

  datatype Step =
    | Spawn(f: nat)
    | RunFiber
    | RunTimeout(fault: bool)
    | Begin(fd: nat, event: E.Event, timeout: int)
    | Try(blocks: bool, now: nat, t: T.Address, fault: bool)
    | Close(fd: nat, fault: bool)
    | Finish
    | Collect(now: nat)
    | Deliver(ready: E.Ready, fault: bool)

  predicate Calling(s: State) {
    && s.cur.Some? && s.cur.value in s.fibers && s.fibers[s.cur.value].InCall?
    && s.fibers[s.cur.value].call in s.calls
  }

  predicate Idle(s: State) {
    s.cur.Some? && s.cur.value in s.fibers && s.fibers[s.cur.value].Free?
  }

  // The clock does not go back, a deadline does not wrap around, and no delivered mask is
  // partly stale (see EventTables).
  predicate Enabled(s: State, step: Step)
    requires E.AllEntries(s.table) && |s.table.entries| >= 2
  {
    match step
    case Spawn(f) => f !in s.fibers
    case RunFiber => s.cur.None? && s.queue != [] && s.queue[0].Resume? && s.queue[0].fiber in s.fibers
    case RunTimeout(_) => s.cur.None? && s.queue != [] && s.queue[0].Timeout?
    case Begin(_, _, timeout) => Idle(s) && timeout < 0x8000_0000_0000_0000
    case Try(_, now, t, _) =>
      && Calling(s) && s.clock <= now && t !in s.timers.entries && T.Known(s.timers.entries, s.timers.queue)
      && now + s.calls[s.fibers[s.cur.value].call].timeout < T.WORD
    case Close(_, _) => Idle(s)
    case Finish => Idle(s)
    case Collect(now) => s.cur.None? && s.clock <= now && T.Known(s.timers.entries, s.timers.queue)
    case Deliver(ready, _) =>
      s.cur.None? && ready.fd < |s.table.entries| && !E.PartlyStale(s.table.entries[ready.fd], ready)
  }

  // The call of the running fiber returns.
  function EndCall(s: State): State
    requires Calling(s)
  {
    var f := s.cur.value;
    s.(fibers := s.fibers[f := Free], calls := s.calls - {s.fibers[f].call})
  }

  function CancelTimer(s: State, timer: Option<T.Address>): State {
    if timer.Some? && timer.value in s.timers.entries then
      s.(timers := T.Cancel(s.timers, timer.value).0)
    else s
  }

  // A fiber begins, or comes back from its park: it cancels its timer, and returns if its
  // timeout has come.
  function AfterResume(s: State): (State, Option<Result>)
    requires s.cur.None? && s.queue != [] && s.queue[0].Resume? && s.queue[0].fiber in s.fibers
  {
    var f := s.queue[0].fiber;
    var s' := s.(queue := s.queue[1..], cur := Some(f));
    if Calling(s') then
      var c := s.calls[s.fibers[f].call];
      var s'' := CancelTimer(s', c.timer);
      if c.canceled then (EndCall(s''), Some(TimedOut)) else (s'', None)
    else (s'.(fibers := s.fibers[f := Free]), None)
  }

  // The timer's callback: nothing if the call has returned or been cancelled already.
  function AfterTimeout(s: State, fault: bool): State
    requires E.AllEntries(s.table) && s.queue != [] && s.queue[0].Timeout?
  {
    var id := s.queue[0].call;
    var s' := s.(queue := s.queue[1..]);
    if id !in s.calls || s.calls[id].canceled then s'
    else
      var c := s.calls[id];
      var isSet := c.fd < |s.table.entries| && c.event in s.table.entries[c.fd].event;
      var s'' := s'.(calls := s.calls[id := c.(canceled := true, refused := c.refused || (isSet && fault))]);
      if !isSet then s''
      else
        var (table, ok) := E.Narrow(s.table, c.fd, s.table.entries[c.fd].event - {c.event}, fault);
        if ok then Wake(s''.(table := table), c.fd, c.event) else s''
  }

  function AfterBegin(s: State, fd: nat, e: E.Event, timeout: int): State
    requires Idle(s)
  {
    var f := s.cur.value;
    s.(fibers := s.fibers[f := InCall(s.nextCall)], nextCall := s.nextCall + 1,
       calls := s.calls[s.nextCall := Call(f, fd, e, timeout, false, None, [], false)])
  }

  // Arms the timer of a wait, if the call has a timeout.
  function Arm(s: State, id: nat, now: nat, t: T.Address): State
    requires id in s.calls && T.Known(s.timers.entries, s.timers.queue)
  {
    var c := s.calls[id];
    if c.timeout >= 0 then
      s.(timers := T.Add(s.timers, t, id, false, c.timeout, now), clock := now,
         calls := s.calls[id := c.(timer := Some(t), armed := c.armed + [now])])
    else s.(clock := now, calls := s.calls[id := c.(timer := None)])
  }

  // One attempt. If it would block: timer first, then the event; if the event is refused
  // the timer is cancelled and the call returns, otherwise the fiber parks.
  function AfterTry(s: State, blocks: bool, now: nat, t: T.Address, fault: bool): (State, Option<Result>)
    requires Calling(s) && |s.table.entries| >= 2 && T.Known(s.timers.entries, s.timers.queue)
  {
    if !blocks then (EndCall(s), Some(Answer))
    else
      var f := s.cur.value;
      var id := s.fibers[f].call;
      var armed := Arm(s, id, now, t);
      var c := armed.calls[id];
      var (table, code) := E.AddEvent(s.table, c.fd, c.event, Waiter(f), fault);
      if code != 0 then (EndCall(CancelTimer(armed.(table := table), c.timer)), Some(Refused))
      else (armed.(table := table, cur := None), None)
  }

  // The kernel's part, and then a trigger for each bit found.
  function WakeAll(s: State, fd: nat, found: E.Events, fault: bool): State
    requires E.AllEntries(s.table) && fd < |s.table.entries|
  {
    var (table, ok) := E.Narrow(s.table, fd, s.table.entries[fd].event - found, fault);
    if !ok then s
    else
      var s1 := s.(table := table);
      assert E.EntryInv(s1.table.entries[fd]);
      var s2 := if E.Read in found then Wake(s1, fd, E.Read) else s1;
      if E.Write in found && fd < |s2.table.entries| && E.EntryInv(s2.table.entries[fd])
      then Wake(s2, fd, E.Write)
      else s2
  }

  function AfterDeliver(s: State, r: E.Ready, fault: bool): State
    requires E.AllEntries(s.table) && r.fd < |s.table.entries|
  {
    var found := E.RealEvents(s.table.entries[r.fd], r);
    if s.table.entries[r.fd].event * found == {} then s else WakeAll(s, r.fd, found, fault)
  }

  // `close` cancels whatever waits for the descriptor.
  function AfterClose(s: State, fd: nat, fault: bool): State
    requires E.AllEntries(s.table)
  {
    if fd >= |s.table.entries| || s.table.entries[fd].event == {} then s
    else WakeAll(s, fd, {E.Read, E.Write}, fault)
  }

  function Timeouts(cbs: seq<Option<T.Callback>>): seq<Task> {
    if cbs == [] then []
    else (if cbs[0].Some? then [Timeout(cbs[0].value)] else []) + Timeouts(cbs[1..])
  }

  function AfterCollect(s: State, now: nat): State
    requires T.Known(s.timers.entries, s.timers.queue)
  {
    var (timers, cbs) := T.Collect(s.timers, now);
    s.(timers := timers, clock := now, queue := s.queue + Timeouts(cbs))
  }

  function Apply(s: State, step: Step): (State, Option<Result>)
    requires E.AllEntries(s.table) && |s.table.entries| >= 2 && Enabled(s, step)
  {
    match step
    case Spawn(f) => (s.(fibers := s.fibers[f := Spawned], queue := s.queue + [Resume(f)]), None)
    case RunFiber => AfterResume(s)
    case RunTimeout(fault) => (AfterTimeout(s, fault), None)
    case Begin(fd, e, timeout) => (AfterBegin(s, fd, e, timeout), None)
    case Try(blocks, now, t, fault) => AfterTry(s, blocks, now, t, fault)
    case Close(fd, fault) => (AfterClose(s, fd, fault), None)
    case Finish => (s.(fibers := s.fibers[s.cur.value := Done], cur := None), None)
    case Collect(now) => (AfterCollect(s, now), None)
    case Deliver(ready, fault) => (AfterDeliver(s, ready, fault), None)
  }

  // ----- The steps on the event table -----

  // The table is the event table after the same operation.
  lemma WakeAllTable(s: State, fd: nat, found: E.Events, fault: bool)
    requires E.Inv(s.table) && fd < |s.table.entries| && s.table.entries[fd].event != {}
    ensures var (table, ok) := E.Narrow(s.table, fd, s.table.entries[fd].event - found, fault);
            WakeAll(s, fd, found, fault).table ==
              if !ok then s.table
              else
                var r := if E.Read in found then E.TriggerIf(table, fd, E.Read) else table;
                if E.Write in found then E.TriggerIf(r, fd, E.Write) else r
  {
    var (table, ok) := E.Narrow(s.table, fd, s.table.entries[fd].event - found, fault);
    assert E.EntryInv(s.table.entries[fd]);
  }

  lemma DeliverTable(s: State, r: E.Ready, fault: bool)
    requires E.Inv(s.table) && r.fd < |s.table.entries| && !E.PartlyStale(s.table.entries[r.fd], r)
    ensures Some(AfterDeliver(s, r, fault).table) == E.Dispatch(s.table, r, fault)
  {
    var found := E.RealEvents(s.table.entries[r.fd], r);
    if s.table.entries[r.fd].event * found != {} {
      WakeAllTable(s, r.fd, found, fault);
      E.DispatchKeeps(s.table, r, fault);
      assert E.EntryInv(s.table.entries[r.fd]);
    }
  }

  lemma CloseTable(s: State, fd: nat, fault: bool)
    requires E.Inv(s.table)
    ensures AfterClose(s, fd, fault).table == E.CancelAll(s.table, fd, fault).0
  {
    if fd < |s.table.entries| && s.table.entries[fd].event != {} {
      WakeAllTable(s, fd, {E.Read, E.Write}, fault);
      E.BothEvents(s.table.entries[fd].event);
    }
  }

  lemma TimeoutTable(s: State, fault: bool)
    requires E.Inv(s.table) && s.queue != [] && s.queue[0].Timeout?
    ensures AfterTimeout(s, fault).table ==
              if s.queue[0].call in s.calls && !s.calls[s.queue[0].call].canceled
              then E.CancelEvent(s.table, s.calls[s.queue[0].call].fd, s.calls[s.queue[0].call].event, fault).0
              else s.table
  {
  }
}
