// What holds in every reachable state of the hooked calls, and over whole runs.
module HookRuns {
  import opened Options
  import opened Hooks
  import opened HookWaits
  import opened HookTimeouts
  import T = TimerSets
  import E = EventTables

  // ----- Every reachable state -----

  ghost predicate Inv(s: State) {
    E.Inv(s.table) && Waits(s) && Timed(s)
  }

  lemma TryTable(s: State, blocks: bool, now: nat, t: T.Address, fault: bool)
    requires Inv(s) && Enabled(s, Try(blocks, now, t, fault))
    ensures E.Inv(AfterTry(s, blocks, now, t, fault).0.table)
  {
    var f, r := s.cur.value, AfterTry(s, blocks, now, t, fault).0;
    var c := s.calls[s.fibers[f].call];
    E.AddEventKeeps(s.table, c.fd, c.event, Waiter(f), fault);
    assert r.table == if blocks then E.AddEvent(s.table, c.fd, c.event, Waiter(f), fault).0 else s.table;
  }

  lemma TableKept(s: State, step: Step)
    requires Inv(s) && Enabled(s, step)
    ensures E.Inv(Apply(s, step).0.table)
  {
    match step
    case RunTimeout(fault) =>
      TimeoutTable(s, fault);
      if s.queue[0].call in s.calls {
        var c := s.calls[s.queue[0].call];
        E.CancelEventKeeps(s.table, c.fd, c.event, fault);
      }
    case Try(blocks, now, t, fault) =>
      TryTable(s, blocks, now, t, fault);
    case Close(fd, fault) =>
      CloseTable(s, fd, fault);
      E.CancelAllKeeps(s.table, fd, fault);
    case Deliver(ready, fault) =>
      DeliverTable(s, ready, fault);
      E.DispatchKeeps(s.table, ready, fault);
    case _ =>
  }

  lemma StepKeeps(s: State, step: Step)
    requires Inv(s) && Enabled(s, step)
    ensures Inv(Apply(s, step).0)
  {
    TableKept(s, step);
    match step
    case Spawn(f) =>
      SpawnWaits(s, f);
      TimedFrame(s, Apply(s, step).0);
    case RunFiber =>
      ResumeWaits(s);
      ResumeTimed(s);
    case RunTimeout(fault) =>
      TimeoutWaits(s, fault);
      TimeoutTimed(s, fault);
    case Begin(fd, e, timeout) =>
      BeginWaits(s, fd, e, timeout);
      BeginTimed(s, fd, e, timeout);
    case Try(blocks, now, t, fault) =>
      TryWaits(s, blocks, now, t, fault);
      TryTimed(s, blocks, now, t, fault);
    case Close(fd, fault) =>
      if fd < |s.table.entries| {
        WakeAllTimed(s, fd, {E.Read, E.Write}, fault);
      }
    case Finish =>
      FinishWaits(s);
      TimedFrame(s, Apply(s, step).0);
    case Collect(now) =>
      CollectWaits(s, now);
      CollectTimed(s, now);
    case Deliver(ready, fault) =>
      WakeAllTimed(s, ready.fd, E.RealEvents(s.table.entries[ready.fd], ready), fault);
  }

  function Start(now: nat): State {
    State(T.Start(now), E.Start(), [], map[], map[], None, now, 0)
  }

  lemma StartInv(now: nat)
    ensures Inv(Start(now))
  {
    var s := Start(now);
    E.FreeInv(s.table, |s.table.entries|);
    forall fd: nat, e
      ensures Slot(s, fd, e) == E.Idle
    {
      assert fd < |s.table.entries| ==> s.table.entries[fd] == E.FREE;
    }
  }

  ghost predicate Next(s: State, step: Step, r: State) {
    E.AllEntries(s.table) && |s.table.entries| >= 2 && Enabled(s, step) && r == Apply(s, step).0
  }

  // The states a run goes through, from the start.
  ghost predicate Run(states: seq<State>, steps: seq<Step>) {
    && |states| == |steps| + 1 && (exists now :: states[0] == Start(now))
    && forall i {:trigger steps[i]} :: 0 <= i < |steps| ==> Next(states[i], steps[i], states[i + 1])
  }

  lemma RunNext(states: seq<State>, steps: seq<Step>, i: nat)
    requires Run(states, steps) && i < |steps|
    ensures Next(states[i], steps[i], states[i + 1])
  {
  }

  ghost predicate Reachable(s: State) {
    exists states, steps :: Run(states, steps) && states[|steps|] == s
  }

  lemma {:induction false} RunKeeps(states: seq<State>, steps: seq<Step>, n: nat)
    requires Run(states, steps) && n <= |steps|
    ensures Inv(states[n])
  {
    if n == 0 {
      var now :| states[0] == Start(now);
      StartInv(now);
    } else {
      RunKeeps(states, steps, n - 1);
      RunNext(states, steps, n - 1);
      StepKeeps(states[n - 1], steps[n - 1]);
    }
  }

  lemma ReachableInv(s: State)
    requires Reachable(s)
    ensures Inv(s)
  {
    var states, steps :| Run(states, steps) && states[|steps|] == s;
    RunKeeps(states, steps, |steps|);
  }

  // A parked fiber is registered for its event or queued exactly once, and never both; a
  // fiber that runs or has ended is neither.
  lemma ParkedOnce(s: State, f: nat)
    requires Reachable(s) && f in s.fibers && s.fibers[f] != Spawned
    ensures E.AllEntries(s.table)
    ensures Parked(s, f) ==> Resumes(s.queue, f) == if Registered(s, f) then 0 else 1
    ensures !Parked(s, f) ==> Resumes(s.queue, f) == 0 && !Registered(s, f)
  {
    ReachableInv(s);
    assert Resumes(s.queue, f) == Due(s, f);
    PendingIs(s, f);
  }

  // Waiting for its first turn, or for its next.
  predicate Pending(s: State, f: nat) {
    f in s.fibers && (s.fibers[f].Spawned? || Parked(s, f))
  }

  lemma PendingIs(s: State, f: nat)
    requires Inv(s)
    ensures Resumes(s.queue, f) + OneIf(Registered(s, f)) == OneIf(Pending(s, f))
    ensures Registered(s, f) ==> Parked(s, f)
  {
    assert Resumes(s.queue, f) == Due(s, f);
  }

  function OneIf(b: bool): int {
    if b then 1 else 0
  }

  // A parked fiber with a timeout is queued, or its timer is in the set or its timeout
  // callback queued and will take effect (TimeoutReaches). The one exception is a call on
  // whose timeout epoll_ctl failed.
  lemma TimeoutNotLost(s: State, f: nat)
    requires Reachable(s) && Parked(s, f) && s.calls[s.fibers[f].call].timeout >= 0
    ensures var id := s.fibers[f].call;
            var c := s.calls[id];
            || Resumes(s.queue, f) == 1
            || (c.refused && c.canceled)
            || (!c.refused && !c.canceled
                && ((c.timer.Some? && c.timer.value in s.timers.queue) || Timeout(id) in s.queue))
  {
    ReachableInv(s);
    ParkedOnce(s, f);
    assert CallOk(s, s.fibers[f].call);
    if Registered(s, f) {
      assert GuardedFiber(s, f);
    }
  }

  // The state in which the timeout callback of a call is next.
  function TimeoutNext(s: State, id: nat): State {
    s.(queue := [Timeout(id)] + s.queue)
  }

  // Whenever its timeout callback is run, a fiber that is still registered is queued if and
  // only if epoll_ctl has not failed on its timeout before; otherwise nothing happens.
  lemma TimeoutReaches(s: State, f: nat)
    requires Inv(s) && Registered(s, f)
    ensures var id := s.fibers[f].call;
            var m := AfterTimeout(TimeoutNext(s, id), false);
            && (Resumes(m.queue, f) == 1 <==> !s.calls[id].refused)
            && (s.calls[id].refused ==> m == s)
            && (!s.calls[id].refused ==> m.calls[id].canceled && Slot(s, s.calls[id].fd, s.calls[id].event).Waiting?)
  {
    var id := s.fibers[f].call;
    var c, n := s.calls[id], TimeoutNext(s, id);
    assert n.queue[1..] == s.queue;
    assert CallOk(s, id) && GuardedFiber(s, f);
    PendingIs(s, f);
    if !c.refused {
      assert E.EntryInv(s.table.entries[c.fd]);
      E.CtlAlwaysLegal(s.table, c.fd, s.table.entries[c.fd].event - {c.event});
      ResumesAppend(s.queue, [Resume(f)], f);
      ResumesOne(Resume(f), f);
    }
  }

  // The call has timed out or returned.
  predicate Over(s: State, id: nat) {
    id < s.nextCall && (id in s.calls ==> s.calls[id].canceled)
  }

  // It stays so, and from then on its timeout callbacks do nothing.
  lemma OverStays(s: State, step: Step, id: nat)
    requires Inv(s) && Enabled(s, step) && Over(s, id)
    ensures var r := Apply(s, step).0;
            && Over(r, id)
            && (step.RunTimeout? && s.queue[0] == Timeout(id) ==> r == s.(queue := s.queue[1..]))
  {
    match step
    case RunFiber => ResumeOver(s, id);
    case RunTimeout(fault) => TimeoutOver(s, fault, id);
    case Try(blocks, now, t, fault) => TryOver(s, blocks, now, t, fault, id);
    case Close(fd, fault) =>
      if fd < |s.table.entries| {
        WakeAllSame(s, fd, {E.Read, E.Write}, fault);
      }
    case Deliver(ready, fault) =>
      WakeAllSame(s, ready.fd, E.RealEvents(s.table.entries[ready.fd], ready), fault);
    case _ =>
  }

  lemma ResumeOver(s: State, id: nat)
    requires E.AllEntries(s.table) && |s.table.entries| >= 2 && Enabled(s, RunFiber) && Over(s, id)
    ensures Over(AfterResume(s).0, id)
  {
  }

  lemma TimeoutOver(s: State, fault: bool, id: nat)
    requires E.AllEntries(s.table) && s.queue != [] && s.queue[0].Timeout? && Over(s, id)
    ensures Over(AfterTimeout(s, fault), id)
    ensures s.queue[0] == Timeout(id) ==> AfterTimeout(s, fault) == s.(queue := s.queue[1..])
  {
  }

  lemma TryOver(s: State, blocks: bool, now: nat, t: T.Address, fault: bool, id: nat)
    requires E.AllEntries(s.table) && |s.table.entries| >= 2 && Enabled(s, Try(blocks, now, t, fault)) && Over(s, id)
    ensures Over(AfterTry(s, blocks, now, t, fault).0, id)
  {
    if blocks {
      var f := s.cur.value;
      var armed := Arm(s, s.fibers[f].call, now, t);
      var c := armed.calls[s.fibers[f].call];
      assert Over(armed, id);
      var (table, code) := E.AddEvent(s.table, c.fd, c.event, Waiter(f), fault);
      if code != 0 {
        assert Over(CancelTimer(armed.(table := table), c.timer), id);
      }
    }
  }

  lemma OverNext(states: seq<State>, steps: seq<Step>, i: nat, id: nat)
    requires Run(states, steps) && i < |steps| && Over(states[i], id)
    ensures Over(states[i + 1], id)
    ensures steps[i].RunTimeout? && states[i].queue[..1] == [Timeout(id)] ==>
              states[i + 1] == states[i].(queue := states[i].queue[1..])
  {
    RunKeeps(states, steps, i);
    RunNext(states, steps, i);
    OverStays(states[i], steps[i], id);
  }

  lemma {:induction false} OverForGood(states: seq<State>, steps: seq<Step>, i: nat, j: nat, id: nat)
    requires Run(states, steps) && i <= j <= |steps| && Over(states[i], id)
    ensures Over(states[j], id)
  {
    if i < j {
      OverForGood(states, steps, i, j - 1, id);
      OverNext(states, steps, j - 1, id);
    }
  }

  lemma RefusedIsOver(states: seq<State>, steps: seq<Step>, i: nat, id: nat)
    requires Run(states, steps) && i <= |steps| && id in states[i].calls && states[i].calls[id].refused
    ensures Over(states[i], id)
  {
    RunKeeps(states, steps, i);
    assert CallOk(states[i], id);
  }

  // So once epoll_ctl has failed on its timeout, no later timeout of the call wakes its fiber.
  lemma RefusedForGood(states: seq<State>, steps: seq<Step>, i: nat, j: nat, id: nat)
    requires Run(states, steps) && i <= j < |steps| && id in states[i].calls && states[i].calls[id].refused
    requires steps[j].RunTimeout? && states[j].queue != [] && states[j].queue[0] == Timeout(id)
    ensures states[j + 1] == states[j].(queue := states[j].queue[1..])
  {
    RefusedIsOver(states, steps, i, id);
    OverForGood(states, steps, i, j, id);
    OverNext(states, steps, j, id);
  }

  // A call times out only when its timeout has passed since one of its own waits.
  lemma TimedOutHonestly(s: State)
    requires Reachable(s) && E.AllEntries(s.table) && |s.table.entries| >= 2 && Enabled(s, RunFiber)
    requires Apply(s, RunFiber).1 == Some(TimedOut)
    ensures var f := s.queue[0].fiber;
            && s.fibers[f].InCall? && s.fibers[f].call in s.calls
            && Elapsed(s.calls[s.fibers[f].call], s.clock)
  {
    ReachableInv(s);
    assert CallOk(s, s.fibers[s.queue[0].fiber].call);
  }

  // ----- Parks and resumptions -----

  // The step from s to r parks fiber f: an attempt after which it no longer runs.
  predicate ParksNow(s: State, step: Step, r: State, f: nat) {
    step.Try? && s.cur == Some(f) && r.cur.None?
  }

  // How often the step queues fiber f.
  function Queues(s: State, step: Step, r: State, f: nat): int {
    Resumes(r.queue, f) - Resumes(s.queue, f) + OneIf(step.RunFiber? && s.queue != [] && s.queue[0] == Resume(f))
  }

  // Waking fibers changes neither what they do nor their calls.
  lemma WakeAllSame(s: State, fd: nat, found: E.Events, fault: bool)
    requires E.AllEntries(s.table) && fd < |s.table.entries|
    ensures var r := WakeAll(s, fd, found, fault);
            r.fibers == s.fibers && r.cur == s.cur && r.calls == s.calls && r.nextCall == s.nextCall
  {
  }

  lemma PendingMoves(s: State, step: Step, f: nat)
    requires Inv(s) && Enabled(s, step)
    ensures OneIf(Pending(Apply(s, step).0, f)) + OneIf(step.RunFiber? && s.queue[0] == Resume(f))
         == OneIf(Pending(s, f)) + OneIf(step == Spawn(f)) + OneIf(ParksNow(s, step, Apply(s, step).0, f))
  {
    match step
    case Spawn(_) =>
    case RunFiber => ResumePending(s, f);
    case RunTimeout(fault) => TimeoutPending(s, fault, f);
    case Begin(_, _, _) =>
    case Try(blocks, now, t, fault) => TryPending(s, blocks, now, t, fault, f);
    case Close(fd, fault) =>
      if fd < |s.table.entries| {
        WakeAllSame(s, fd, {E.Read, E.Write}, fault);
      }
    case Finish =>
    case Collect(_) =>
    case Deliver(ready, fault) =>
      WakeAllSame(s, ready.fd, E.RealEvents(s.table.entries[ready.fd], ready), fault);
  }

  lemma ResumePending(s: State, f: nat)
    requires Inv(s) && Enabled(s, RunFiber)
    ensures OneIf(Pending(AfterResume(s).0, f)) + OneIf(s.queue[0] == Resume(f)) == OneIf(Pending(s, f))
  {
    HeadOfQueue(s);
  }

  lemma TimeoutPending(s: State, fault: bool, f: nat)
    requires Inv(s) && Enabled(s, RunTimeout(fault))
    ensures Pending(AfterTimeout(s, fault), f) == Pending(s, f)
  {
  }

  // The call of the running fiber returns; its timer and the table do not matter.
  lemma EndPending(s: State, r: State, f: nat)
    requires Linked(s) && Calling(s) && r.fibers == s.fibers && r.cur == s.cur && r.calls.Keys == s.calls.Keys
    ensures Calling(r) && Pending(EndCall(r), f) == Pending(s, f)
  {
  }

  lemma TryPending(s: State, blocks: bool, now: nat, t: T.Address, fault: bool, f: nat)
    requires Waits(s) && Enabled(s, Try(blocks, now, t, fault))
    ensures var r := AfterTry(s, blocks, now, t, fault).0;
            OneIf(Pending(r, f)) == OneIf(Pending(s, f)) + OneIf(s.cur == Some(f) && r.cur.None?)
  {
    if !blocks {
      EndPending(s, s, f);
    } else {
      BlockPending(s, now, t, fault, f);
    }
  }

  lemma BlockPending(s: State, now: nat, t: T.Address, fault: bool, f: nat)
    requires Linked(s) && E.AllEntries(s.table) && |s.table.entries| >= 2 && Enabled(s, Try(true, now, t, fault))
    ensures var r := AfterTry(s, true, now, t, fault).0;
            OneIf(Pending(r, f)) == OneIf(Pending(s, f)) + OneIf(s.cur == Some(f) && r.cur.None?)
  {
    var g := s.cur.value;
    var armed := Arm(s, s.fibers[g].call, now, t);
    var c := armed.calls[s.fibers[g].call];
    var (table, code) := E.AddEvent(s.table, c.fd, c.event, Waiter(g), fault);
    if code != 0 {
      var m := CancelTimer(armed.(table := table), c.timer);
      EndPending(s, m, f);
      assert AfterTry(s, true, now, t, fault).0 == EndCall(m);
    } else {
      var r := armed.(table := table, cur := None);
      assert AfterTry(s, true, now, t, fault).0 == r;
      assert r.fibers == s.fibers && r.calls.Keys == s.calls.Keys;
    }
  }

  // Only its start, and the end of a registration, queue a fiber.
  lemma StepBalance(s: State, step: Step, f: nat)
    requires Inv(s) && Enabled(s, step)
    ensures E.AllEntries(Apply(s, step).0.table)
    ensures Queues(s, step, Apply(s, step).0, f) + OneIf(Registered(Apply(s, step).0, f))
         == OneIf(step == Spawn(f)) + OneIf(ParksNow(s, step, Apply(s, step).0, f)) + OneIf(Registered(s, f))
  {
    StepKeeps(s, step);
    PendingIs(s, f);
    PendingIs(Apply(s, step).0, f);
    PendingMoves(s, step, f);
  }

  lemma BalanceNext(states: seq<State>, steps: seq<Step>, i: nat, f: nat)
    requires Run(states, steps) && i < |steps| && E.AllEntries(states[i].table)
    ensures E.AllEntries(states[i + 1].table)
    ensures Queues(states[i], steps[i], states[i + 1], f) + OneIf(Registered(states[i + 1], f))
         == OneIf(steps[i] == Spawn(f)) + OneIf(ParksNow(states[i], steps[i], states[i + 1], f))
            + OneIf(Registered(states[i], f))
  {
    RunKeeps(states, steps, i);
    RunNext(states, steps, i);
    StepBalance(states[i], steps[i], f);
  }

  // The fiber's starts and parks in the first n steps of a run, and how often it is queued.
  ghost function Parks(states: seq<State>, steps: seq<Step>, f: nat, n: nat): int
    requires |states| == |steps| + 1 && n <= |steps|
  {
    if n == 0 then 0
    else
      Parks(states, steps, f, n - 1)
      + OneIf(steps[n - 1] == Spawn(f)) + OneIf(ParksNow(states[n - 1], steps[n - 1], states[n], f))
  }

  ghost function Schedulings(states: seq<State>, steps: seq<Step>, f: nat, n: nat): int
    requires |states| == |steps| + 1 && n <= |steps|
  {
    if n == 0 then 0
    else Schedulings(states, steps, f, n - 1) + Queues(states[n - 1], steps[n - 1], states[n], f)
  }

  // Over a whole run: each park of a fiber, and its start, is matched by one scheduling,
  // but for the park that still waits.
  lemma {:induction false} ParksMatched(states: seq<State>, steps: seq<Step>, f: nat, n: nat)
    requires Run(states, steps) && n <= |steps|
    ensures E.AllEntries(states[n].table)
    ensures Parks(states, steps, f, n) == Schedulings(states, steps, f, n) + OneIf(Registered(states[n], f))
  {
    if n == 0 {
      StartRegistersNone(states[0], f);
    } else {
      ParksMatched(states, steps, f, n - 1);
      BalanceNext(states, steps, n - 1, f);
    }
  }

  lemma StartRegistersNone(s: State, f: nat)
    requires exists now :: s == Start(now)
    ensures E.AllEntries(s.table) && !Registered(s, f)
  {
    var now :| s == Start(now);
    StartInv(now);
  }

  // ----- Without the assumptions -----

  // If other code calls delEvent for the descriptor, a parked fiber is lost: it is neither
  // registered nor queued, and when its timeout comes, that does not queue it either.
  lemma ForeignDeleteLosesFiber(s: State, f: nat)
    requires Reachable(s) && E.AllEntries(s.table) && Registered(s, f)
    ensures var c := s.calls[s.fibers[f].call];
            var r := s.(table := E.DelEvent(s.table, c.fd, c.event, false).0);
            && E.Inv(r.table) && Parked(r, f) && !Registered(r, f) && Resumes(r.queue, f) == 0
            && AfterTimeout(r.(queue := [Timeout(s.fibers[f].call)]), false).queue == []
  {
    var c := s.calls[s.fibers[f].call];
    ReachableInv(s);
    PendingIs(s, f);
    E.DelEventKeeps(s.table, c.fd, c.event, false);
    var t := E.DelEvent(s.table, c.fd, c.event, false).0;
    assert c.event !in t.entries[c.fd].event;
    assert E.StatusNow(t, c.fd, c.event) == E.Idle;
  }
}
