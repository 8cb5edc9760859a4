// What a hooked call returns, on each way out of it (hook/hook.cpp:93-165).
module HookResults {
  import opened Options
  import opened Hooks
  import opened HookWaits
  import opened HookTimeouts
  import opened HookRuns
  import T = TimerSets
  import E = EventTables

  // The call of the running fiber has returned, and the fiber goes on.
  predicate Returned(s: State, r: State)
    requires Calling(s)
  {
    var f := s.cur.value;
    && r.cur == s.cur && r.fibers == s.fibers[f := Free] && r.calls == s.calls - {s.fibers[f].call}
    && r.queue == s.queue
  }

  // The event is registered already, or epoll refuses it.
  predicate CannotWait(s: State, fault: bool)
    requires Calling(s)
  {
    var c := s.calls[s.fibers[s.cur.value].call];
    fault || (c.fd < |s.table.entries| && c.event in s.table.entries[c.fd].event)
  }

  // An attempt that does not block ends the call with its answer, whatever else is the case.
  lemma AnswerMeans(s: State, now: nat, t: T.Address, fault: bool)
    requires Inv(s) && Enabled(s, Try(false, now, t, fault))
    ensures var (r, result) := Apply(s, Try(false, now, t, fault));
            result == Some(Answer) && Returned(s, r) && r.timers == s.timers && r.table == s.table
  {
  }

  // One that blocks ends the call with -1 if and only if it cannot wait for the event; the
  // timer it has armed is no longer in the set then. Otherwise the fiber parks, without a
  // result.
  lemma BlockedMeans(s: State, now: nat, t: T.Address, fault: bool)
    requires Inv(s) && Enabled(s, Try(true, now, t, fault))
    ensures var (r, result) := Apply(s, Try(true, now, t, fault));
            if CannotWait(s, fault)
            then result == Some(Refused) && Returned(s, r) && forall x :: x in r.timers.queue <==> x in s.timers.queue
            else result == None && r.cur.None? && r.fibers == s.fibers && r.queue == s.queue
  {
    var f := s.cur.value;
    var id := s.fibers[f].call;
    var c := s.calls[id];
    var armed := Arm(s, id, now, t);
    E.AddEventOutcome(s.table, c.fd, c.event, Waiter(f), fault);
    ArmMeans(s, id, now, t);
    var (table, code) := E.AddEvent(s.table, c.fd, c.event, Waiter(f), fault);
    if code != 0 {
      RefusedMeans(s, now, t, table);
      assert Apply(s, Try(true, now, t, fault))
          == (EndCall(CancelTimer(armed.(table := table), armed.calls[id].timer)), Some(Refused));
    } else {
      assert Apply(s, Try(true, now, t, fault)) == (armed.(table := table, cur := None), None);
    }
  }

  lemma ParkIs(s: State, now: nat, t: T.Address, fault: bool)
    requires Inv(s) && Enabled(s, Try(true, now, t, fault)) && !CannotWait(s, fault)
    ensures var f := s.cur.value;
            var id := s.fibers[f].call;
            var (table, code) := E.AddEvent(s.table, s.calls[id].fd, s.calls[id].event, Waiter(f), fault);
            && code == 0 && E.AllEntries(table) && T.Inv(s.timers)
            && E.StatusNow(table, s.calls[id].fd, s.calls[id].event) == E.Waiting(Waiter(f))
            && Apply(s, Try(true, now, t, fault)).0 == Arm(s, id, now, t).(table := table, cur := None)
  {
    var c := s.calls[s.fibers[s.cur.value].call];
    E.AddEventOutcome(s.table, c.fd, c.event, Waiter(s.cur.value), fault);
    E.AddEventKeeps(s.table, c.fd, c.event, Waiter(s.cur.value), fault);
  }

  // A parked fiber is registered for the event of its call, and if the call has a timeout,
  // its timer is in the set, with that deadline.
  lemma ParkedMeans(s: State, now: nat, t: T.Address, fault: bool)
    requires Inv(s) && Enabled(s, Try(true, now, t, fault)) && !CannotWait(s, fault)
    ensures var r := Apply(s, Try(true, now, t, fault)).0;
            var id := s.fibers[s.cur.value].call;
            var c := s.calls[id];
            && E.AllEntries(r.table) && Slot(r, c.fd, c.event) == E.Waiting(Waiter(s.cur.value))
            && r.calls.Keys == s.calls.Keys && r.calls[id].canceled == c.canceled
            && (if c.timeout < 0 then r.calls[id].timer == None && r.timers == s.timers
                else
                  && r.calls[id].timer == Some(t) && t in r.timers.queue
                  && r.timers.entries == s.timers.entries[t := T.Entry(Some(id), false, c.timeout, now + c.timeout)])
  {
    ParkIs(s, now, t, fault);
    ArmMeans(s, s.fibers[s.cur.value].call, now, t);
  }

  lemma ArmMeans(s: State, id: nat, now: nat, t: T.Address)
    requires T.Inv(s.timers) && id in s.calls && t !in s.timers.entries && now + s.calls[id].timeout < T.WORD
    ensures var r, c := Arm(s, id, now, t), s.calls[id];
            && r.fibers == s.fibers && r.cur == s.cur && r.queue == s.queue && r.table == s.table
            && r.calls.Keys == s.calls.Keys && r.calls[id].canceled == c.canceled
            && r.calls[id].fd == c.fd && r.calls[id].event == c.event
            && (if c.timeout < 0 then r.calls[id].timer == None && r.timers == s.timers
                else
                  && r.calls[id].timer == Some(t) && T.Inv(r.timers)
                  && (forall x :: x in r.timers.queue <==> x == t || x in s.timers.queue)
                  && r.timers.entries == s.timers.entries[t := T.Entry(Some(id), false, c.timeout, now + c.timeout)])
  {
    if s.calls[id].timeout >= 0 {
      T.AddMeans(s.timers, t, id, false, s.calls[id].timeout, now);
      T.AddKeeps(s.timers, T.AddTimer(t, id, false, s.calls[id].timeout, now));
    }
  }

  // The armed timer is cancelled when the event is refused.
  lemma RefusedMeans(s: State, now: nat, t: T.Address, table: E.State)
    requires T.Inv(s.timers) && Calling(s) && t !in s.timers.entries
    requires now + s.calls[s.fibers[s.cur.value].call].timeout < T.WORD
    ensures var id := s.fibers[s.cur.value].call;
            var armed := Arm(s, id, now, t).(table := table);
            var r := CancelTimer(armed, armed.calls[id].timer);
            Calling(r) && Returned(s, EndCall(r)) && forall x :: x in r.timers.queue <==> x in s.timers.queue
  {
    var id := s.fibers[s.cur.value].call;
    var armed := Arm(s, id, now, t).(table := table);
    ArmMeans(s, id, now, t);
    if s.calls[id].timeout >= 0 {
      T.RemoveSorted(armed.timers.entries, armed.timers.queue, t);
    }
    assert EndCall(CancelTimer(armed, armed.calls[id].timer)).calls == s.calls - {id};
  }

  // A fiber that is resumed inside a call returns from it if and only if the call's timeout
  // has taken effect; otherwise it goes on with the call. Either way the timer of its wait
  // is no longer in the set.
  lemma ResumedMeans(s: State)
    requires Inv(s) && Enabled(s, RunFiber)
    ensures var f, (r, result) := s.queue[0].fiber, Apply(s, RunFiber);
            && r.cur == Some(f) && r.queue == s.queue[1..] && r.table == s.table
            && (s.fibers[f].Spawned? || (s.fibers[f].InCall? && s.fibers[f].call in s.calls))
            && (s.fibers[f].Spawned? ==> result == None && r.fibers == s.fibers[f := Free] && r.calls == s.calls)
            && (s.fibers[f].InCall? ==>
                  var id := s.fibers[f].call;
                  var c := s.calls[id];
                  && (c.timer.Some? ==> c.timer.value !in r.timers.queue)
                  && if c.canceled
                     then result == Some(TimedOut) && r.fibers == s.fibers[f := Free] && r.calls == s.calls - {id}
                     else result == None && r.fibers == s.fibers && r.calls == s.calls)
  {
    HeadOfQueue(s);
    var f := s.queue[0].fiber;
    if s.fibers[f].InCall? {
      assert CallOk(s, s.fibers[f].call);
      var timer := s.calls[s.fibers[f].call].timer;
      if timer.Some? {
        T.RemoveSorted(s.timers.entries, s.timers.queue, timer.value);
      }
    }
  }

  // A call is for what it was made for, and has no timer yet; only its own fiber has changed.
  lemma BeginMeans(s: State, fd: nat, e: E.Event, timeout: int)
    requires Inv(s) && Enabled(s, Begin(fd, e, timeout))
    ensures var f, (r, result) := s.cur.value, Apply(s, Begin(fd, e, timeout));
            && result == None && Calling(r) && r.cur == s.cur && r.queue == s.queue
            && var id := r.fibers[f].call;
               && id !in s.calls && r.fibers == s.fibers[f := InCall(id)]
               && r.calls == s.calls[id := r.calls[id]]
               && var c := r.calls[id];
                  c.fiber == f && c.fd == fd && c.event == e && c.timeout == timeout && c.timer.None? && !c.canceled
  {
  }

  // The queue is first in, first out: a step takes its head, if it runs a task, and nothing
  // but that; what it adds comes last.
  lemma FirstInFirstOut(s: State, step: Step)
    requires Inv(s) && Enabled(s, step)
    ensures (if step.RunFiber? || step.RunTimeout? then s.queue[1..] else s.queue) <= Apply(s, step).0.queue
  {
    match step
    case RunFiber => ResumedMeans(s);
    case RunTimeout(_) =>
    case Try(blocks, now, t, fault) =>
      if blocks {
        BlockedMeans(s, now, t, fault);
      }
    case Close(fd, fault) =>
      if fd < |s.table.entries| {
        WakeAllAppends(s, fd, {E.Read, E.Write}, fault);
      }
    case Deliver(ready, fault) =>
      WakeAllAppends(s, ready.fd, E.RealEvents(s.table.entries[ready.fd], ready), fault);
    case _ =>
  }

  lemma WakeAllAppends(s: State, fd: nat, found: E.Events, fault: bool)
    requires E.AllEntries(s.table) && fd < |s.table.entries|
    ensures s.queue <= WakeAll(s, fd, found, fault).queue
  {
  }

  // ----- Over whole runs -----

  // Step j is the timeout of call id, while the call is in progress.
  ghost predicate TimesOut(states: seq<State>, steps: seq<Step>, j: nat, id: nat)
    requires |states| == |steps| + 1
  {
    && j < |steps| && steps[j].RunTimeout? && id in states[j].calls
    && states[j].queue != [] && states[j].queue[0] == Timeout(id)
  }

  ghost predicate TimedOutBefore(states: seq<State>, steps: seq<Step>, n: nat, id: nat)
    requires |states| == |steps| + 1
  {
    exists j :: 0 <= j < n && TimesOut(states, steps, j, id)
  }

  // A step marks the call whose timeout it is, and no other.
  lemma MarkedExactly(s: State, step: Step, id: nat)
    requires Inv(s) && Enabled(s, step)
    ensures var r := Apply(s, step).0;
            && s.nextCall <= r.nextCall
            && (id in r.calls ==>
                  if id in s.calls
                  then r.calls[id].canceled <==>
                         s.calls[id].canceled || (step.RunTimeout? && s.queue[0] == Timeout(id))
                  else id >= s.nextCall && !r.calls[id].canceled)
  {
    match step
    case Try(blocks, now, t, fault) => TryMarks(s, blocks, now, t, fault, id);
    case RunFiber => ResumedMeans(s);
    case RunTimeout(fault) => TimeoutMarks(s, fault, id);
    case Close(fd, fault) =>
      if fd < |s.table.entries| {
        WakeAllSame(s, fd, {E.Read, E.Write}, fault);
      }
    case Deliver(ready, fault) =>
      WakeAllSame(s, ready.fd, E.RealEvents(s.table.entries[ready.fd], ready), fault);
    case _ =>
  }

  lemma TryMarks(s: State, blocks: bool, now: nat, t: T.Address, fault: bool, id: nat)
    requires Inv(s) && Enabled(s, Try(blocks, now, t, fault))
    ensures var r := AfterTry(s, blocks, now, t, fault).0;
            && r.nextCall == s.nextCall
            && (id in r.calls ==> id in s.calls && r.calls[id].canceled == s.calls[id].canceled)
  {
    if blocks {
      var f := s.cur.value;
      var armed := Arm(s, s.fibers[f].call, now, t);
      var c := armed.calls[s.fibers[f].call];
      assert id in armed.calls ==> id in s.calls && armed.calls[id].canceled == s.calls[id].canceled;
      var (table, code) := E.AddEvent(s.table, c.fd, c.event, Waiter(f), fault);
      if code != 0 {
        assert CancelTimer(armed.(table := table), c.timer).calls == armed.calls;
      }
    }
  }

  lemma TimeoutMarks(s: State, fault: bool, id: nat)
    requires E.AllEntries(s.table) && s.queue != [] && s.queue[0].Timeout?
    ensures var r := AfterTimeout(s, fault);
            && r.nextCall == s.nextCall && r.calls.Keys == s.calls.Keys
            && (id in s.calls ==>
                  (r.calls[id].canceled <==> s.calls[id].canceled || s.queue[0] == Timeout(id)))
  {
  }

  lemma NumberNext(states: seq<State>, steps: seq<Step>, n: nat)
    requires Run(states, steps) && n < |steps|
    ensures states[n].nextCall <= states[n + 1].nextCall
  {
    RunKeeps(states, steps, n);
    RunNext(states, steps, n);
    MarkedExactly(states[n], steps[n], 0);
  }

  lemma {:induction false} NumbersGrow(states: seq<State>, steps: seq<Step>, j: nat, n: nat)
    requires Run(states, steps) && j <= n <= |steps|
    ensures states[j].nextCall <= states[n].nextCall
  {
    if j < n {
      NumbersGrow(states, steps, j, n - 1);
      NumberNext(states, steps, n - 1);
    }
  }

  // No earlier call had the number of a new one.
  lemma NeverBefore(states: seq<State>, steps: seq<Step>, n: nat, id: nat)
    requires Run(states, steps) && n <= |steps| && id >= states[n].nextCall
    ensures !TimedOutBefore(states, steps, n, id)
  {
    if j :| 0 <= j < n && TimesOut(states, steps, j, id) {
      NumbersGrow(states, steps, j, n);
      RunKeeps(states, steps, j);
    }
  }

  lemma BeforeNext(states: seq<State>, steps: seq<Step>, n: nat, id: nat)
    requires |states| == |steps| + 1 && n < |steps|
    ensures TimedOutBefore(states, steps, n + 1, id) <==>
              TimedOutBefore(states, steps, n, id) || TimesOut(states, steps, n, id)
  {
    if TimesOut(states, steps, n, id) {
      assert TimesOut(states, steps, n, id) && 0 <= n < n + 1;
    }
    if j :| 0 <= j < n && TimesOut(states, steps, j, id) {
      assert 0 <= j < n + 1 && TimesOut(states, steps, j, id);
    }
  }

  lemma MarkedNext(states: seq<State>, steps: seq<Step>, n: nat, id: nat)
    requires Run(states, steps) && n < |steps| && id in states[n + 1].calls
    ensures if id in states[n].calls
            then states[n + 1].calls[id].canceled <==>
                   states[n].calls[id].canceled || TimesOut(states, steps, n, id)
            else id >= states[n].nextCall && !states[n + 1].calls[id].canceled
  {
    RunKeeps(states, steps, n);
    RunNext(states, steps, n);
    MarkedExactly(states[n], steps[n], id);
  }

  lemma MarkedStep(states: seq<State>, steps: seq<Step>, n: nat, id: nat)
    requires Run(states, steps) && n < |steps| && id in states[n + 1].calls
    requires id in states[n].calls ==>
               (states[n].calls[id].canceled <==> TimedOutBefore(states, steps, n, id))
    ensures states[n + 1].calls[id].canceled <==> TimedOutBefore(states, steps, n + 1, id)
  {
    MarkedNext(states, steps, n, id);
    BeforeNext(states, steps, n, id);
    if id !in states[n].calls {
      NeverBefore(states, steps, n, id);
    }
  }

  lemma {:induction false} MarkedSince(states: seq<State>, steps: seq<Step>, n: nat, id: nat)
    requires Run(states, steps) && n <= |steps| && id in states[n].calls
    ensures states[n].calls[id].canceled <==> TimedOutBefore(states, steps, n, id)
  {
    if n > 0 {
      if id in states[n - 1].calls {
        MarkedSince(states, steps, n - 1, id);
      }
      MarkedStep(states, steps, n - 1, id);
    }
  }

  // In every run: a fiber resumed inside a call returns ETIMEDOUT if and only if the timeout
  // callback of that call has run before, and goes on with the call otherwise.
  lemma TimedOutExactly(states: seq<State>, steps: seq<Step>, n: nat)
    requires Run(states, steps) && n < |steps| && steps[n].RunFiber?
    ensures var s, f := states[n], states[n].queue[0].fiber;
            && E.AllEntries(s.table) && |s.table.entries| >= 2 && Enabled(s, RunFiber)
            && (s.fibers[f].InCall? ==>
                  var result := Apply(s, RunFiber).1;
                  && (result == Some(TimedOut) <==> TimedOutBefore(states, steps, n, s.fibers[f].call))
                  && (result == None <==> !TimedOutBefore(states, steps, n, s.fibers[f].call)))
  {
    RunKeeps(states, steps, n);
    RunNext(states, steps, n);
    ResumedMeans(states[n]);
    var f := states[n].queue[0].fiber;
    if states[n].fibers[f].InCall? {
      MarkedSince(states, steps, n, states[n].fibers[f].call);
    }
  }
}
