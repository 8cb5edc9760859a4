// Every step of the hooked calls keeps the timeouts: who is registered with a timeout has its
// timer in the set or its timer callback queued, and no deadline comes from nowhere.
module HookTimeouts {
  import opened Options
  import opened Hooks
  import opened HookWaits
  import T = TimerSets
  import E = EventTables

  // The timeout has passed since one of the call's waits armed its timer.
  ghost predicate Elapsed(c: Call, clock: nat) {
    exists i :: 0 <= i < |c.armed| && c.armed[i] + c.timeout <= clock
  }

  // The deadline is that of one of the call's waits.
  ghost predicate ArmedFor(c: Call, deadline: nat) {
    exists i :: 0 <= i < |c.armed| && c.armed[i] + c.timeout == deadline
  }

  // Live timers are one-shots with the deadlines of their calls.
  ghost predicate DeadlineOk(s: State, e: T.Entry) {
    && !e.loop
    && (e.cb.Some? ==> e.cb.value < s.nextCall && (e.cb.value in s.calls ==> ArmedFor(s.calls[e.cb.value], e.next)))
  }

  ghost predicate Deadlines(s: State) {
    && T.Inv(s.timers) && s.timers.previous <= s.clock
    && forall t :: t in s.timers.entries ==> DeadlineOk(s, s.timers.entries[t])
  }

  // Queued callbacks are those of calls whose timeout has passed.
  ghost predicate Fired(s: State) {
    forall t :: t in s.queue && t.Timeout? ==>
      t.call < s.nextCall && (t.call in s.calls ==> Elapsed(s.calls[t.call], s.clock))
  }

  // A cancelled call has timed out, and only those are refused; its timer, alive or dead, is
  // its own.
  ghost predicate CallOk(s: State, id: nat)
    requires id in s.calls
  {
    var c := s.calls[id];
    && (c.canceled ==> Elapsed(c, s.clock)) && (c.refused ==> c.canceled)
    && (c.timer.Some? ==>
          c.timer.value in s.timers.entries
          && (s.timers.entries[c.timer.value].cb.None? || s.timers.entries[c.timer.value].cb == Some(id)))
  }

  ghost predicate CallsOk(s: State) {
    forall id :: id in s.calls ==> CallOk(s, id)
  }

  // The timer is in the set, or its callback is queued.
  ghost predicate Guard(s: State, id: nat)
    requires id in s.calls
  {
    var timer := s.calls[id].timer;
    || (timer.Some? && timer.value in s.timers.entries && s.timers.entries[timer.value].cb == Some(id))
    || Timeout(id) in s.queue
  }

  // A registered fiber with a timeout is guarded, unless epoll has refused to give it up.
  ghost predicate GuardedFiber(s: State, f: nat)
    requires E.AllEntries(s.table) && Registered(s, f)
  {
    var c := s.calls[s.fibers[f].call];
    && (c.timeout >= 0 && !c.refused ==> Guard(s, s.fibers[f].call))
    && (c.canceled ==> c.refused)
  }

  ghost predicate Guarded(s: State)
    requires E.AllEntries(s.table)
  {
    && (forall f :: Registered(s, f) ==> GuardedFiber(s, f))
    && (Calling(s) ==> !s.calls[s.fibers[s.cur.value].call].canceled)
  }

  ghost predicate Timed(s: State) {
    E.AllEntries(s.table) && Deadlines(s) && Fired(s) && CallsOk(s) && Guarded(s)
  }

  // Nothing about timers changes, and no fiber is newly registered.
  lemma TimedFrame(s: State, r: State)
    requires E.AllEntries(s.table) && E.AllEntries(r.table) && Timed(s)
    requires r.timers == s.timers && r.clock == s.clock && r.nextCall >= s.nextCall
    requires forall id :: id in r.calls && id < s.nextCall ==> id in s.calls && r.calls[id] == s.calls[id]
    requires forall id :: id in r.calls && id >= s.nextCall ==>
               !r.calls[id].canceled && !r.calls[id].refused && r.calls[id].timer.None?
    requires forall id :: Timeout(id) in r.queue ==> Timeout(id) in s.queue
    requires forall id :: id in r.calls && Timeout(id) in s.queue ==> Timeout(id) in r.queue
    requires forall f :: Registered(r, f) ==>
               Registered(s, f) && r.fibers[f] == s.fibers[f] && s.fibers[f].call < s.nextCall
    requires Calling(r) ==> !r.calls[r.fibers[r.cur.value].call].canceled
    ensures Timed(r)
  {
    forall f | Registered(r, f)
      ensures GuardedFiber(r, f)
    {
      assert GuardedFiber(s, f);
    }
    forall id | id in r.calls
      ensures CallOk(r, id)
    {
      assert id in s.calls ==> CallOk(s, id);
    }
    forall t | t in r.queue && t.Timeout?
      ensures t.call < r.nextCall && (t.call in r.calls ==> Elapsed(r.calls[t.call], r.clock))
    {
      assert Timeout(t.call) in s.queue;
    }
  }

  lemma WakeTimed(s: State, fd: nat, e: E.Event)
    requires Waits(s) && Timed(s) && fd < |s.table.entries|
    ensures Waits(Wake(s, fd, e)) && Timed(Wake(s, fd, e))
  {
    WakeWaits(s, fd, e);
    if e in s.table.entries[fd].event {
      assert E.EntryInv(s.table.entries[fd]);
      TriggerSlots(s.table, fd, e);
      var r := Wake(s, fd, e);
      assert Slot(s, fd, e).Waiting?;
      var g :| Slot(s, fd, e) == E.Waiting(Waiter(g)) && OwnedBy(s, fd, e, g);
      assert r.queue == s.queue + [Resume(g)];
      TimedFrame(s, r);
    }
  }

  lemma NarrowTimed(s: State, table: E.State)
    requires Waits(s) && Timed(s) && table.entries == s.table.entries
    ensures Waits(s.(table := table)) && Timed(s.(table := table))
  {
    SameEntries(s.table, table);
    SameKeeps(s, s.(table := table));
    TimedFrame(s, s.(table := table));
  }

  lemma WakeAllTimed(s: State, fd: nat, found: E.Events, fault: bool)
    requires Waits(s) && Timed(s) && fd < |s.table.entries|
    ensures Waits(WakeAll(s, fd, found, fault)) && Timed(WakeAll(s, fd, found, fault))
  {
    var (table, ok) := E.Narrow(s.table, fd, s.table.entries[fd].event - found, fault);
    if ok {
      var s1 := s.(table := table);
      NarrowTimed(s, table);
      assert E.EntryInv(s1.table.entries[fd]);
      WakeTimed(s1, fd, E.Read);
      var s2 := if E.Read in found then Wake(s1, fd, E.Read) else s1;
      assert E.EntryInv(s2.table.entries[fd]);
      WakeTimed(s2, fd, E.Write);
    }
  }

  // Cancelling the timer of a call whose fiber is not registered.
  lemma CancelTimed(s: State, id: nat)
    requires E.AllEntries(s.table) && Timed(s) && id in s.calls
    requires forall f :: Registered(s, f) ==> s.fibers[f].call != id
    ensures var r := CancelTimer(s, s.calls[id].timer); Timed(r)
  {
    var r := CancelTimer(s, s.calls[id].timer);
    assert CallOk(s, id);
    if s.calls[id].timer.Some? {
      var t := s.calls[id].timer.value;
      T.CancelKeeps(s.timers, t);
      assert forall x :: x in s.timers.entries && x != t ==> r.timers.entries[x] == s.timers.entries[x];
      assert DeadlineOk(s, s.timers.entries[t]);
      forall f | Registered(r, f)
        ensures GuardedFiber(r, f)
      {
        assert Registered(s, f) && GuardedFiber(s, f);
      }
      forall x | x in r.calls
        ensures CallOk(r, x)
      {
        assert CallOk(s, x);
      }
    }
  }

  lemma EndTimed(s: State)
    requires Waits(s) && Timed(s) && Calling(s)
    ensures Timed(EndCall(s))
  {
    TimedFrame(s, EndCall(s));
  }

  lemma BeginTimed(s: State, fd: nat, e: E.Event, timeout: int)
    requires Waits(s) && Timed(s) && Idle(s)
    ensures Timed(AfterBegin(s, fd, e, timeout))
  {
    var f, r := s.cur.value, AfterBegin(s, fd, e, timeout);
    BeginWaits(s, fd, e, timeout);
    forall g | Registered(r, g)
      ensures g != f && Registered(s, g)
    {
    }
    TimedFrame(s, r);
  }

  // A fiber leaves the queue and runs; it is not registered, and if its call has not been
  // cancelled it goes on.
  lemma ResumeTimed(s: State)
    requires Waits(s) && Timed(s) && Enabled(s, RunFiber)
    ensures Timed(AfterResume(s).0)
  {
    HeadOfQueue(s);
    var f := s.queue[0].fiber;
    assert forall id :: Timeout(id) in s.queue ==> Timeout(id) in s.queue[1..];
    if s.fibers[f].InCall? {
      var id := s.fibers[f].call;
      // Not `cur` yet, so that the frame does not ask about the cancelled call.
      var m := s.(queue := s.queue[1..]);
      TimedFrame(s, m);
      assert forall g :: Registered(m, g) ==> m.fibers[g].call != id;
      CancelTimed(m, id);
      var c := CancelTimer(m, s.calls[id].timer);
      ResumeEnds(s, c, f, id);
    } else {
      DequeueWaits(s, Free);
      TimedFrame(s, AfterResume(s).0);
    }
  }

  // c is s with the head taken off the queue and its timer cancelled.
  lemma ResumeEnds(s: State, c: State, f: nat, id: nat)
    requires Waits(s) && Enabled(s, RunFiber) && f == s.queue[0].fiber && s.fibers[f] == InCall(id) && id in s.calls
    requires c == CancelTimer(s.(queue := s.queue[1..]), s.calls[id].timer) && Timed(c)
    ensures Timed(AfterResume(s).0)
  {
    ResumeWaits(s);
    HeadOfQueue(s);
    var r := AfterResume(s).0;
    assert c.table == s.table;
    assert forall g :: Registered(c, g) == Registered(s, g);
    TimedFrame(c, r);
  }

  // The callbacks of the collected timers join the queue.
  lemma {:induction false} TimeoutsMember(cbs: seq<Option<T.Callback>>, id: nat)
    ensures Timeout(id) in Timeouts(cbs) <==> Some(id) in cbs
    ensures forall t :: t in Timeouts(cbs) ==> t.Timeout?
  {
    if cbs != [] {
      TimeoutsMember(cbs[1..], id);
      assert Some(id) in cbs <==> cbs[0] == Some(id) || Some(id) in cbs[1..];
    }
  }

  // What a collection at `now` does to the timers of this module.
  lemma CollectEffect(s: State, now: nat)
    requires E.AllEntries(s.table) && Timed(s) && s.clock <= now
    ensures var (r, cbs) := T.Collect(s.timers, now);
            && T.Inv(r) && r.previous <= now && r.entries.Keys == s.timers.entries.Keys
            && (forall t :: t in r.entries ==>
                  || r.entries[t] == s.timers.entries[t]
                  || (r.entries[t].cb.None? && r.entries[t] == s.timers.entries[t].(cb := None)
                      && s.timers.entries[t].cb in cbs))
            && (forall i :: 0 <= i < |cbs| ==>
                  && cbs[i].Some?
                  && exists t :: t in s.timers.entries && s.timers.entries[t].cb == cbs[i]
                       && s.timers.entries[t].next <= now)
  {
    if s.timers.queue != [] {
      T.ExactExpiry(s.timers, now);
      var (r, cbs) := T.Collect(s.timers, now);
      var expired := T.Expired(s.timers, now);
      assert !T.RolledBack(s.timers.previous, now);
      forall i | 0 <= i < |cbs|
        ensures exists t :: t in s.timers.entries && s.timers.entries[t].cb == cbs[i] && s.timers.entries[t].next <= now
      {
        assert expired[i] in s.timers.queue && s.timers.entries[expired[i]].next <= now;
      }
      forall t | t in r.entries
        ensures r.entries[t] == s.timers.entries[t]
                || (r.entries[t] == s.timers.entries[t].(cb := None) && s.timers.entries[t].cb in cbs)
      {
        assert DeadlineOk(s, s.timers.entries[t]);
        if t in expired {
          var i :| 0 <= i < |expired| && expired[i] == t;
          assert cbs[i] == s.timers.entries[t].cb;
        }
      }
    }
  }

  lemma CollectTimed(s: State, now: nat)
    requires Waits(s) && Timed(s) && s.clock <= now
    ensures Timed(AfterCollect(s, now))
  {
    var (timers, cbs) := T.Collect(s.timers, now);
    var r := AfterCollect(s, now);
    CollectEffect(s, now);
    forall id: nat
      ensures Timeout(id) in r.queue <==> Timeout(id) in s.queue || Some(id) in cbs
    {
      TimeoutsMember(cbs, id);
    }
    CollectFired(s, now);
    forall t | t in r.timers.entries
      ensures DeadlineOk(r, r.timers.entries[t])
    {
      assert DeadlineOk(s, s.timers.entries[t]);
    }
    forall id | id in r.calls
      ensures CallOk(r, id)
    {
      assert CallOk(s, id);
    }
    forall f | Registered(r, f)
      ensures GuardedFiber(r, f)
    {
      assert Registered(s, f) && GuardedFiber(s, f);
    }
  }

  lemma CollectFired(s: State, now: nat)
    requires Waits(s) && Timed(s) && s.clock <= now
    ensures Fired(AfterCollect(s, now))
  {
    var (timers, cbs) := T.Collect(s.timers, now);
    var r := AfterCollect(s, now);
    CollectEffect(s, now);
    forall t | t in r.queue && t.Timeout?
      ensures t.call < r.nextCall && (t.call in r.calls ==> Elapsed(r.calls[t.call], r.clock))
    {
      TimeoutsMember(cbs, t.call);
      if t !in s.queue {
        assert t == Timeout(t.call) && Some(t.call) in cbs;
        var i :| 0 <= i < |cbs| && cbs[i] == Some(t.call);
        var a :| a in s.timers.entries && s.timers.entries[a].cb == cbs[i] && s.timers.entries[a].next <= now;
        assert DeadlineOk(s, s.timers.entries[a]);
      }
    }
  }

  // The callback of call id leaves the queue, and the call may be marked.
  lemma PopTimed(s: State, id: nat, c: Call)
    requires Waits(s) && Timed(s) && s.cur.None? && s.queue != [] && s.queue[0] == Timeout(id) && id in s.calls
    requires c == s.calls[id].(canceled := c.canceled, refused := c.refused)
    requires (s.calls[id].refused ==> c.refused) && (c.refused ==> c.canceled)
    requires forall f :: Registered(s, f) && s.fibers[f].call == id ==> c.refused
    ensures Timed(s.(queue := s.queue[1..], calls := s.calls[id := c]))
  {
    var r := s.(queue := s.queue[1..], calls := s.calls[id := c]);
    assert Elapsed(s.calls[id], s.clock);
    assert forall x :: x != id && Timeout(x) in s.queue ==> Timeout(x) in s.queue[1..];
    forall x | x in r.calls
      ensures CallOk(r, x)
    {
      assert CallOk(s, x);
    }
    forall t | t in r.timers.entries
      ensures DeadlineOk(r, r.timers.entries[t])
    {
      assert DeadlineOk(s, s.timers.entries[t]);
    }
    PopGuarded(s, id, c);
  }

  lemma PopGuarded(s: State, id: nat, c: Call)
    requires Waits(s) && Timed(s) && s.cur.None? && s.queue != [] && s.queue[0] == Timeout(id) && id in s.calls
    requires c == s.calls[id].(canceled := c.canceled, refused := c.refused)
    requires forall f :: Registered(s, f) && s.fibers[f].call == id ==> c.refused
    ensures Guarded(s.(queue := s.queue[1..], calls := s.calls[id := c]))
  {
    var r := s.(queue := s.queue[1..], calls := s.calls[id := c]);
    assert forall x :: x != id && Timeout(x) in s.queue ==> Timeout(x) in s.queue[1..];
    forall f | Registered(r, f)
      ensures GuardedFiber(r, f)
    {
      assert Registered(s, f) && GuardedFiber(s, f);
    }
  }

  // The callback of a call that goes on.
  lemma LiveTimeoutTimed(s: State, id: nat, fault: bool)
    requires Waits(s) && Timed(s) && E.Inv(s.table) && s.cur.None? && s.queue != [] && s.queue[0] == Timeout(id)
    requires id in s.calls && !s.calls[id].canceled
    ensures Timed(AfterTimeout(s, fault))
  {
    var c := s.calls[id];
    var isSet := c.fd < |s.table.entries| && c.event in s.table.entries[c.fd].event;
    var marked := c.(canceled := true, refused := c.refused || (isSet && fault));
    if !isSet || fault {
      PopTimed(s, id, marked);
    } else {
      var left := s.table.entries[c.fd].event - {c.event};
      E.CtlAlwaysLegal(s.table, c.fd, left);
      var table := E.Narrow(s.table, c.fd, left, fault).0;
      var w := WakeThenPop(s, id, table, marked);
      assert w.(queue := w.queue[1..], calls := w.calls[id := marked]) == AfterTimeout(s, fault);
    }
  }

  // Cancelling the event wakes its waiter; the order of that and the rest does not matter.
  lemma WakeThenPop(s: State, id: nat, table: E.State, marked: Call) returns (w: State)
    requires Waits(s) && Timed(s) && s.cur.None? && s.queue != [] && s.queue[0] == Timeout(id) && id in s.calls
    requires marked == s.calls[id].(canceled := true) && table.entries == s.table.entries
    requires marked.fd < |table.entries| && marked.event in table.entries[marked.fd].event
    ensures E.EntryInv(table.entries[marked.fd]) && w == Wake(s.(table := table), marked.fd, marked.event)
    ensures w.queue != [] && w.queue[1..] == s.queue[1..] + w.queue[|s.queue|..]
    ensures Timed(w.(queue := w.queue[1..], calls := w.calls[id := marked]))
  {
    var m := s.(table := table);
    NarrowTimed(s, table);
    WakeTimed(m, marked.fd, marked.event);
    assert E.EntryInv(m.table.entries[marked.fd]);
    TriggerSlots(m.table, marked.fd, marked.event);
    w := Wake(m, marked.fd, marked.event);
    PopTimed(w, id, marked);
  }

  lemma TimeoutTimed(s: State, fault: bool)
    requires Waits(s) && Timed(s) && E.Inv(s.table) && Enabled(s, RunTimeout(fault))
    ensures Timed(AfterTimeout(s, fault))
  {
    var id := s.queue[0].call;
    if id !in s.calls {
      assert forall x :: x != id && Timeout(x) in s.queue ==> Timeout(x) in s.queue[1..];
      TimedFrame(s, AfterTimeout(s, fault));
    } else if s.calls[id].canceled {
      forall f | Registered(s, f) && s.fibers[f].call == id
        ensures s.calls[id].refused
      {
        assert GuardedFiber(s, f);
      }
      assert CallOk(s, id);
      PopTimed(s, id, s.calls[id]);
      assert s.calls[id := s.calls[id]] == s.calls;
    } else {
      LiveTimeoutTimed(s, id, fault);
    }
  }

  lemma ArmTimed(s: State, f: nat, id: nat, now: nat, t: T.Address)
    requires Waits(s) && Timed(s) && Calling(s) && s.cur == Some(f) && s.fibers[f] == InCall(id)
    requires s.clock <= now && t !in s.timers.entries && now + s.calls[id].timeout < T.WORD
    ensures Timed(Arm(s, id, now, t))
    ensures s.calls[id].timeout >= 0 ==> Guard(Arm(s, id, now, t), id)
  {
    var r := Arm(s, id, now, t);
    var c := s.calls[id];
    if c.timeout >= 0 {
      T.AddKeeps(s.timers, T.AddTimer(t, id, false, c.timeout, now));
      assert r.calls[id].armed[|c.armed|] == now;
    }
    forall x | x in r.timers.entries
      ensures DeadlineOk(r, r.timers.entries[x])
    {
      if x in s.timers.entries {
        assert DeadlineOk(s, s.timers.entries[x]);
        assert forall i :: 0 <= i < |c.armed| ==> c.armed[i] == r.calls[id].armed[i];
      }
    }
    ArmGuarded(s, f, id, now, t);
  }

  lemma ArmGuarded(s: State, f: nat, id: nat, now: nat, t: T.Address)
    requires Waits(s) && Timed(s) && Calling(s) && s.cur == Some(f) && s.fibers[f] == InCall(id)
    requires s.clock <= now && t !in s.timers.entries && now + s.calls[id].timeout < T.WORD
    ensures var r := Arm(s, id, now, t); Guarded(r) && CallsOk(r) && Fired(r)
  {
    ArmFired(s, id, now, t);
    var r := Arm(s, id, now, t);
    forall g | Registered(r, g)
      ensures GuardedFiber(r, g)
    {
      assert Registered(s, g) && GuardedFiber(s, g) && s.fibers[g].call != id;
    }
    forall x | x in r.calls
      ensures CallOk(r, x)
    {
      assert CallOk(s, x);
    }
  }

  lemma ArmFired(s: State, id: nat, now: nat, t: T.Address)
    requires Fired(s) && id in s.calls && T.Known(s.timers.entries, s.timers.queue) && s.clock <= now
    ensures Fired(Arm(s, id, now, t))
  {
    var r := Arm(s, id, now, t);
    forall k | k in r.queue && k.Timeout?
      ensures k.call < r.nextCall && (k.call in r.calls ==> Elapsed(r.calls[k.call], r.clock))
    {
      assert k in s.queue;
      if k.call in s.calls {
        var i :| 0 <= i < |s.calls[k.call].armed| && s.calls[k.call].armed[i] + s.calls[k.call].timeout <= s.clock;
        assert r.calls[k.call].armed[i] == s.calls[k.call].armed[i];
      }
    }
  }

  lemma TryTimed(s: State, blocks: bool, now: nat, t: T.Address, fault: bool)
    requires Waits(s) && Timed(s) && E.Inv(s.table) && Enabled(s, Try(blocks, now, t, fault))
    ensures Timed(AfterTry(s, blocks, now, t, fault).0)
  {
    if !blocks {
      EndTimed(s);
    } else {
      var f := s.cur.value;
      var id := s.fibers[f].call;
      var armed := Arm(s, id, now, t);
      var c := armed.calls[id];
      ArmWaits(s, id, now, t);
      ArmTimed(s, f, id, now, t);
      AddSlots(s.table, c.fd, c.event, Waiter(f), fault);
      var (table, code) := E.AddEvent(s.table, c.fd, c.event, Waiter(f), fault);
      if code != 0 {
        RefuseTimed(armed, id, table);
      } else {
        ParkTimed(armed, f, id, table);
      }
    }
  }

  // The event is refused: the timer is cancelled and the call returns.
  lemma RefuseTimed(s: State, id: nat, table: E.State)
    requires Waits(s) && Timed(s) && Calling(s) && s.fibers[s.cur.value] == InCall(id) && SameSlots(s.table, table)
    ensures Timed(EndCall(CancelTimer(s.(table := table), s.calls[id].timer)))
  {
    var m := s.(table := table);
    SameKeeps(s, m);
    TimedFrame(s, m);
    CancelTimed(m, id);
    CancelTimerWaits(m, s.calls[id].timer);
    EndTimed(CancelTimer(m, s.calls[id].timer));
  }

  lemma ParkTimed(s: State, f: nat, id: nat, table: E.State)
    requires Waits(s) && Timed(s) && Calling(s) && s.cur == Some(f) && s.fibers[f] == InCall(id) && E.AllEntries(table)
    requires s.calls[id].timeout >= 0 ==> Guard(s, id)
    requires forall fd: nat, e :: E.StatusNow(table, fd, e) ==
               if fd == s.calls[id].fd && e == s.calls[id].event then E.Waiting(Waiter(f))
               else E.StatusNow(s.table, fd, e)
    ensures Timed(s.(table := table, cur := None))
  {
    var r := s.(table := table, cur := None);
    forall g | Registered(r, g)
      ensures GuardedFiber(r, g)
    {
      if g != f {
        assert Registered(s, g) && GuardedFiber(s, g);
      }
    }
    forall x | x in r.calls
      ensures CallOk(r, x)
    {
      assert CallOk(s, x);
    }
    forall x | x in r.timers.entries
      ensures DeadlineOk(r, r.timers.entries[x])
    {
      assert DeadlineOk(s, s.timers.entries[x]);
    }
  }
}
