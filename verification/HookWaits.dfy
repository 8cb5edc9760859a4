// Every step of the hooked calls keeps who waits where: a parked fiber is registered with the
// event table or queued, once.
module HookWaits {
  import opened Options
  import opened Hooks
  import T = TimerSets
  import E = EventTables

  lemma SpawnWaits(s: State, f: nat)
    requires Waits(s) && f !in s.fibers
    ensures Waits(Apply(s, Spawn(f)).0)
  {
    var r := Apply(s, Spawn(f)).0;
    forall g
      ensures Resumes(r.queue, g) == Due(r, g)
    {
      ResumesAppend(s.queue, [Resume(f)], g);
      ResumesOne(Resume(f), g);
      assert Resumes(s.queue, g) == Due(s, g);
    }
    OwnedElsewhere(s, r, f);
  }

  // What fiber f does is nothing to the fibers that are registered.
  lemma OwnedElsewhere(s: State, r: State, f: nat)
    requires Waits(s) && r.table.entries == s.table.entries && !(Parked(s, f) && Registered(s, f))
    requires forall g :: g in s.fibers && g != f ==>
               g in r.fibers && r.fibers[g] == s.fibers[g] && (r.cur == Some(g) ==> s.cur == Some(g))
    requires forall id :: id in s.calls && s.calls[id].fiber != f ==>
               id in r.calls && r.calls[id].fd == s.calls[id].fd && r.calls[id].event == s.calls[id].event
    ensures Owned(r)
    ensures forall g :: g in s.fibers && g != f ==> Registered(r, g) == Registered(s, g)
  {
    forall fd: nat, e | Slot(r, fd, e).Waiting?
      ensures exists g :: Slot(r, fd, e) == E.Waiting(Waiter(g)) && OwnedBy(r, fd, e, g)
    {
      assert Slot(s, fd, e) == Slot(r, fd, e);
      var g :| Slot(s, fd, e) == E.Waiting(Waiter(g)) && OwnedBy(s, fd, e, g);
      assert OwnedBy(r, fd, e, g);
    }
  }

  // The fiber at the head of the queue is not registered, and not queued again.
  lemma HeadOfQueue(s: State)
    requires Waits(s) && s.queue != [] && s.queue[0].Resume?
    ensures var f := s.queue[0].fiber;
            f in s.fibers && Due(s, f) == 1 && Resumes(s.queue[1..], f) == 0 && !(Parked(s, f) && Registered(s, f))
    ensures forall g :: g != s.queue[0].fiber ==> Resumes(s.queue[1..], g) == Due(s, g)
  {
    assert Resumes(s.queue, s.queue[0].fiber) == Due(s, s.queue[0].fiber);
    forall g | g != s.queue[0].fiber
      ensures Resumes(s.queue[1..], g) == Due(s, g)
    {
      assert Resumes(s.queue, g) == Due(s, g);
    }
  }

  lemma BeginWaits(s: State, fd: nat, e: E.Event, timeout: int)
    requires Waits(s) && Idle(s)
    ensures Waits(AfterBegin(s, fd, e, timeout))
  {
    var f, r := s.cur.value, AfterBegin(s, fd, e, timeout);
    OwnedElsewhere(s, r, f);
    forall g
      ensures Resumes(r.queue, g) == Due(r, g)
    {
      assert Resumes(s.queue, g) == Due(s, g);
      if g != f && g in s.fibers {
        assert Registered(r, g) == Registered(s, g);
      }
    }
  }

  lemma FinishWaits(s: State)
    requires Waits(s) && Idle(s)
    ensures Waits(Apply(s, Finish).0)
  {
    var f, r := s.cur.value, Apply(s, Finish).0;
    OwnedElsewhere(s, r, f);
    forall g
      ensures Resumes(r.queue, g) == Due(r, g)
    {
      assert Resumes(s.queue, g) == Due(s, g);
      if g != f && g in s.fibers {
        assert Registered(r, g) == Registered(s, g);
      }
    }
  }

  // The call of the running fiber returns.
  lemma EndWaits(s: State)
    requires Waits(s) && Calling(s)
    ensures Waits(EndCall(s))
  {
    var f, r := s.cur.value, EndCall(s);
    OwnedElsewhere(s, r, f);
    forall g
      ensures Resumes(r.queue, g) == Due(r, g)
    {
      assert Resumes(s.queue, g) == Due(s, g);
      if g != f && g in s.fibers {
        assert Registered(r, g) == Registered(s, g);
      }
    }
  }

  // Timers, clock and the marks on calls say nothing about who waits.
  ghost predicate SameSlots(t: E.State, u: E.State) {
    && E.AllEntries(t) && E.AllEntries(u) && |u.entries| >= 2
    && forall fd: nat, e :: E.StatusNow(u, fd, e) == E.StatusNow(t, fd, e)
  }

  lemma SameEntries(t: E.State, u: E.State)
    requires E.AllEntries(t) && |t.entries| >= 2 && u.entries == t.entries
    ensures SameSlots(t, u)
  {
    forall fd: nat, e
      ensures E.StatusNow(u, fd, e) == E.StatusNow(t, fd, e)
    {
    }
  }

  ghost predicate SameWaits(s: State, r: State) {
    && SameSlots(s.table, r.table) && r.fibers == s.fibers && r.cur == s.cur && r.nextCall == s.nextCall
    && r.calls.Keys == s.calls.Keys
    && (forall id :: id in s.calls ==>
          && r.calls[id].fiber == s.calls[id].fiber
          && r.calls[id].fd == s.calls[id].fd && r.calls[id].event == s.calls[id].event)
    && (forall f :: Resumes(r.queue, f) == Resumes(s.queue, f))
  }

  lemma SameKeeps(s: State, r: State)
    requires Waits(s) && SameWaits(s, r)
    ensures Waits(r)
  {
    forall fd: nat, e | Slot(r, fd, e).Waiting?
      ensures exists g :: Slot(r, fd, e) == E.Waiting(Waiter(g)) && OwnedBy(r, fd, e, g)
    {
      assert Slot(s, fd, e) == Slot(r, fd, e);
      var g :| Slot(s, fd, e) == E.Waiting(Waiter(g)) && OwnedBy(s, fd, e, g);
      assert OwnedBy(r, fd, e, g);
    }
    forall f
      ensures Resumes(r.queue, f) == Due(r, f)
    {
      assert Resumes(s.queue, f) == Due(s, f);
    }
  }

  // A fiber leaves the queue and runs.
  lemma DequeueWaits(s: State, status: Status)
    requires Waits(s) && Enabled(s, RunFiber)
    requires if s.fibers[s.queue[0].fiber].InCall? then status == s.fibers[s.queue[0].fiber] else status == Free
    ensures var f := s.queue[0].fiber;
            Waits(s.(queue := s.queue[1..], cur := Some(f), fibers := s.fibers[f := status]))
  {
    HeadOfQueue(s);
    var f := s.queue[0].fiber;
    var r := s.(queue := s.queue[1..], cur := Some(f), fibers := s.fibers[f := status]);
    OwnedElsewhere(s, r, f);
    forall g
      ensures Resumes(r.queue, g) == Due(r, g)
    {
      if g != f && g in s.fibers {
        assert Registered(r, g) == Registered(s, g);
      }
    }
  }

  lemma CancelTimerWaits(s: State, timer: Option<T.Address>)
    requires Waits(s)
    ensures Waits(CancelTimer(s, timer))
  {
    SameEntries(s.table, s.table);
    SameKeeps(s, CancelTimer(s, timer));
  }

  lemma ResumeWaits(s: State)
    requires Waits(s) && Enabled(s, RunFiber)
    ensures Waits(AfterResume(s).0)
  {
    var f := s.queue[0].fiber;
    HeadOfQueue(s);
    if s.fibers[f].InCall? {
      DequeueWaits(s, s.fibers[f]);
      var s' := s.(queue := s.queue[1..], cur := Some(f));
      assert s'.fibers == s.fibers[f := s.fibers[f]];
      var c := s.calls[s.fibers[f].call];
      CancelTimerWaits(s', c.timer);
      EndWaits(CancelTimer(s', c.timer));
    } else {
      DequeueWaits(s, Free);
    }
  }

  lemma {:induction false} TimeoutsResumeNone(cbs: seq<Option<T.Callback>>, f: nat)
    ensures Resumes(Timeouts(cbs), f) == 0
  {
    if cbs != [] {
      TimeoutsResumeNone(cbs[1..], f);
      var first := if cbs[0].Some? then [Timeout(cbs[0].value)] else [];
      ResumesAppend(first, Timeouts(cbs[1..]), f);
      if cbs[0].Some? {
        ResumesOne(Timeout(cbs[0].value), f);
      }
    }
  }

  lemma CollectWaits(s: State, now: nat)
    requires Waits(s) && T.Known(s.timers.entries, s.timers.queue)
    ensures Waits(AfterCollect(s, now))
  {
    forall f
      ensures Resumes(AfterCollect(s, now).queue, f) == Resumes(s.queue, f)
    {
      var more := Timeouts(T.Collect(s.timers, now).1);
      ResumesAppend(s.queue, more, f);
      TimeoutsResumeNone(T.Collect(s.timers, now).1, f);
    }
    SameEntries(s.table, s.table);
    SameKeeps(s, AfterCollect(s, now));
  }

  // Arming and cancelling timers.
  lemma ArmWaits(s: State, id: nat, now: nat, t: T.Address)
    requires Waits(s) && id in s.calls && T.Known(s.timers.entries, s.timers.queue)
    ensures Waits(Arm(s, id, now, t)) && SameWaits(s, Arm(s, id, now, t))
  {
    SameEntries(s.table, s.table);
    SameKeeps(s, Arm(s, id, now, t));
  }

  lemma TimeoutWaits(s: State, fault: bool)
    requires Waits(s) && Enabled(s, RunTimeout(fault))
    ensures Waits(AfterTimeout(s, fault))
  {
    var id := s.queue[0].call;
    var s' := s.(queue := s.queue[1..]);
    SameEntries(s.table, s.table);
    SameKeeps(s, s');
    if id in s.calls && !s.calls[id].canceled {
      var c := s.calls[id];
      var isSet := c.fd < |s.table.entries| && c.event in s.table.entries[c.fd].event;
      var s'' := s'.(calls := s.calls[id := c.(canceled := true, refused := c.refused || (isSet && fault))]);
      SameKeeps(s', s'');
      if isSet {
        var (table, ok) := E.Narrow(s.table, c.fd, s.table.entries[c.fd].event - {c.event}, fault);
        if ok {
          var m := s''.(table := table);
          SameEntries(s.table, table);
          SameKeeps(s'', m);
          WakeWaits(m, c.fd, c.event);
          assert AfterTimeout(s, fault) == Wake(m, c.fd, c.event);
        }
      }
    }
  }

  // Growing the table and setting one bit in it.
  lemma AddSlots(t: E.State, fd: nat, e: E.Event, w: E.Task, fault: bool)
    requires E.Inv(t)
    ensures var (r, code) := E.AddEvent(t, fd, e, w, fault);
            && E.AllEntries(r) && |r.entries| >= 2
            && forall f: nat, d :: E.StatusNow(r, f, d) ==
                 if code == 0 && f == fd && d == e then E.Waiting(w) else E.StatusNow(t, f, d)
    ensures E.AddEvent(t, fd, e, w, fault).1 == 0 ==> E.StatusNow(t, fd, e) == E.Idle
  {
    E.AddEventOutcome(t, fd, e, w, fault);
    E.AddEventKeeps(t, fd, e, w, fault);
    var r := E.AddEvent(t, fd, e, w, fault).0;
    forall f: nat, d
      ensures E.StatusNow(r, f, d) ==
                if E.AddEvent(t, fd, e, w, fault).1 == 0 && f == fd && d == e then E.Waiting(w)
                else E.StatusNow(t, f, d)
    {
      AddSlot(t, fd, e, w, fault, f, d);
    }
  }

  lemma AddSlot(t: E.State, fd: nat, e: E.Event, w: E.Task, fault: bool, f: nat, d: E.Event)
    requires E.Inv(t) && E.AllEntries(E.AddEvent(t, fd, e, w, fault).0)
    requires E.AddEvent(t, fd, e, w, fault).1 == 0 ==>
               E.StatusNow(E.AddEvent(t, fd, e, w, fault).0, fd, e) == E.Waiting(w)
    ensures var (r, code) := E.AddEvent(t, fd, e, w, fault);
            E.StatusNow(r, f, d) == if code == 0 && f == fd && d == e then E.Waiting(w) else E.StatusNow(t, f, d)
  {
    var r := E.AddEvent(t, fd, e, w, fault).0;
    if f < |t.entries| {
      assert E.EntryInv(t.entries[f]) && E.EntryInv(r.entries[f]);
    } else if f < |r.entries| {
      assert E.EntryInv(r.entries[f]);
    }
  }

  // The running fiber registers and parks.
  lemma ParkWaits(s: State, table: E.State)
    requires Waits(s) && Calling(s) && E.AllEntries(table) && |table.entries| >= 2
    requires var f := s.cur.value;
             var c := s.calls[s.fibers[f].call];
             && Slot(s, c.fd, c.event) == E.Idle
             && forall fd: nat, e :: E.StatusNow(table, fd, e) ==
                  if fd == c.fd && e == c.event then E.Waiting(Waiter(f)) else E.StatusNow(s.table, fd, e)
    ensures Waits(s.(table := table, cur := None))
  {
    var f, r := s.cur.value, s.(table := table, cur := None);
    var c := s.calls[s.fibers[f].call];
    forall fd: nat, e | Slot(r, fd, e).Waiting?
      ensures exists g :: Slot(r, fd, e) == E.Waiting(Waiter(g)) && OwnedBy(r, fd, e, g)
    {
      if fd == c.fd && e == c.event {
        assert OwnedBy(r, fd, e, f);
      } else {
        assert Slot(s, fd, e) == Slot(r, fd, e);
        var g :| Slot(s, fd, e) == E.Waiting(Waiter(g)) && OwnedBy(s, fd, e, g);
        assert OwnedBy(r, fd, e, g);
      }
    }
    forall g
      ensures Resumes(r.queue, g) == Due(r, g)
    {
      assert Resumes(s.queue, g) == Due(s, g);
    }
  }

  lemma TryWaits(s: State, blocks: bool, now: nat, t: T.Address, fault: bool)
    requires Waits(s) && E.Inv(s.table) && Enabled(s, Try(blocks, now, t, fault))
    ensures Waits(AfterTry(s, blocks, now, t, fault).0)
  {
    if !blocks {
      EndWaits(s);
    } else {
      var f := s.cur.value;
      var id := s.fibers[f].call;
      var armed := Arm(s, id, now, t);
      var c := armed.calls[id];
      ArmWaits(s, id, now, t);
      AddSlots(s.table, c.fd, c.event, Waiter(f), fault);
      var (table, code) := E.AddEvent(s.table, c.fd, c.event, Waiter(f), fault);
      if code != 0 {
        SameKeeps(armed, armed.(table := table));
        CancelTimerWaits(armed.(table := table), c.timer);
        EndWaits(CancelTimer(armed.(table := table), c.timer));
      } else {
        ParkWaits(armed, table);
      }
    }
  }
}
