// The event table of `IOScheduler` as it is updated in place (scheduler/ioscheduler.cpp).
// Each method is proved to be the operation of the same name in EventTables on `Model()`.
//
// `fault` says that epoll_ctl fails for a reason of its own. A method holds the locks it
// takes in the source from its first step to its last.
module IOSchedulers {
  import opened Options
  import E = EventTables

  class FdContext {
    const fd: nat
    var event: E.Events
    var read: E.Context
    var write: E.Context

    constructor (fd: nat)
      ensures this.fd == fd && View() == E.FREE
    {
      this.fd := fd;
      event, read, write := {}, E.EMPTY, E.EMPTY;
    }

    function View(): E.Entry
      reads this
    {
      E.Entry(event, read, write)
    }

    method SetContext(e: E.Event, ctx: E.Context)
      modifies this`read, this`write
      ensures View() == E.SetContext(old(View()), e, ctx)
    {
      match e
      case Read => read := ctx;
      case Write => write := ctx;
    }

    // Clears the bit and the context.
    method ResetContext(e: E.Event)
      modifies this
      ensures View() == E.Cleared(old(View()), e)
    {
      event := event - {e};
      SetContext(e, E.EMPTY);
    }

    // Clears the bit, hands the waiter to its scheduler and empties the context.
    method TriggerEvent(e: E.Event) returns (task: E.Task)
      requires e in event && E.EntryInv(View())
      modifies this
      ensures View() == E.Cleared(old(View()), e) && task == E.TaskOf(old(E.GetContext(View(), e)))
    {
      var ctx := E.GetContext(View(), e);
      assert E.Occupied(ctx);
      event := event - {e};
      if ctx.cb.Some? {
        task := E.Task(ctx.scheduler.value, E.Callback(ctx.cb.value));
        ctx := ctx.(cb := None);
      } else {
        task := E.Task(ctx.scheduler.value, E.Fiber(ctx.fiber.value));
        ctx := ctx.(fiber := None);
      }
      ctx := ctx.(scheduler := None);
      SetContext(e, ctx);
    }
  }

  class IOScheduler {
    var contexts: seq<FdContext>
    // The interest set inside the kernel.
    var kernel: map<nat, E.Events>
    var waiting: int
    // What triggers have handed to schedulers, in order.
    var scheduled: seq<E.Task>
    ghost var history: seq<E.Record>

    ghost function Views(): seq<E.Entry>
      reads this`contexts, contexts
    {
      var cs := contexts;
      seq(|cs|, i requires 0 <= i < |cs| reads cs => cs[i].View())
    }

    ghost function Model(): E.State
      reads this, contexts
    {
      E.State(Views(), kernel, waiting, history)
    }

    // The descriptor is the index.
    ghost predicate Placed()
      reads this`contexts
    {
      forall i :: 0 <= i < |contexts| ==> contexts[i].fd == i
    }

    ghost predicate Valid()
      reads this, contexts
    {
      Placed() && E.Inv(Model()) && scheduled == E.Scheduled(history)
    }

    constructor ()
      ensures Valid() && fresh(this) && fresh(contexts) && Model() == E.Start() && scheduled == []
    {
      contexts, kernel, waiting, scheduled, history := [], map[], 0, [], [];
      new;
      ContextResize(32);
      assert contexts == contexts[0..];
      assert Views() == E.Free(32);
      assert Model() == E.Start();
      E.FreeInv(E.Start(), 32);
    }

    // Fills the table up with free entries.
    method ContextResize(size: nat)
      requires Placed() && |contexts| <= size
      modifies this`contexts
      ensures Placed() && old(contexts) <= contexts && |contexts| == size
      ensures fresh(contexts[|old(contexts)|..])
      ensures forall i :: |old(contexts)| <= i < size ==> contexts[i].View() == E.FREE
    {
      while |contexts| < size
        invariant Placed() && old(contexts) <= contexts && |contexts| <= size
        invariant fresh(contexts[|old(contexts)|..])
        invariant forall i :: |old(contexts)| <= i < |contexts| ==> contexts[i].View() == E.FREE
      {
        var c := new FdContext(|contexts|);
        contexts := contexts + [c];
      }
    }

    // What the views are after one entry has changed.
    lemma Changed(fd: nat, before: seq<E.Entry>)
      requires fd < |contexts| == |before|
      requires forall i :: 0 <= i < |contexts| && i != fd ==> contexts[i].View() == before[i]
      ensures Views() == before[fd := contexts[fd].View()]
    {
    }

    method EpollCtl(op: E.Ctl, fd: nat, events: E.Events, fault: bool) returns (ret: int)
      modifies this`kernel
      ensures (kernel, ret == 0) == E.EpollCtl(old(kernel), op, fd, events, fault)
    {
      if fault || !E.CtlLegal(kernel, op, fd) {
        return -1;
      }
      kernel := if op.CtlDel? then kernel - {fd} else kernel[fd := events];
      return 0;
    }

    // Looks up the entry of fd, growing the table if it is too short.
    method Lookup(fd: nat) returns (c: FdContext)
      requires Valid()
      modifies this`contexts
      ensures Valid() && fd < |contexts| && c == contexts[fd] && old(contexts) <= contexts
      ensures c in old(contexts) || fresh(c)
      ensures fresh(contexts[|old(contexts)|..])
      ensures Model() == old(Model()).(entries := E.Resized(old(Views()), fd))
    {
      E.ResizedTabled(Model(), fd);
      if |contexts| <= fd {
        ContextResize(fd + fd / 2);
        assert Views() == E.Resized(old(Views()), fd);
      }
      c := contexts[fd];
      assert if fd < old(|contexts|) then c == old(contexts)[fd]
             else c == contexts[old(|contexts|)..][fd - old(|contexts|)];
    }

    // The history gets a record of what has been done.
    ghost method Note(record: E.Record)
      requires scheduled == if record.Triggered? then E.Scheduled(history) + [record.task] else E.Scheduled(history)
      modifies this`history
      ensures history == old(history) + [record] && scheduled == E.Scheduled(history)
    {
      E.ScheduledAppend(history, record);
      history := history + [record];
    }

    // The bit, the context and the counter of a new registration.
    method Register(c: FdContext, e: E.Event, t: E.Task)
      requires Placed() && c.fd < |contexts| && contexts[c.fd] == c && scheduled == E.Scheduled(history)
      modifies this`waiting, this`history, c
      ensures Placed() && Model() == E.Register(old(Model()), c.fd, e, t)
      ensures scheduled == E.Scheduled(history)
    {
      ghost var before := Views();
      waiting := waiting + 1;
      c.event := c.event + {e};
      c.SetContext(e, E.ContextOf(t));
      Changed(c.fd, before);
      Note(E.Added(c.fd, e, t));
    }

    // `triggerEvent` and the counter, for a bit that is set.
    method Trigger(c: FdContext, e: E.Event)
      requires Placed() && c.fd < |contexts| && contexts[c.fd] == c
      requires e in c.event && E.EntryInv(c.View()) && scheduled == E.Scheduled(history)
      modifies this`waiting, this`scheduled, this`history, c
      ensures Placed() && Model() == E.Trigger(old(Model()), c.fd, e)
      ensures scheduled == E.Scheduled(history)
    {
      ghost var before := Views();
      var task := c.TriggerEvent(e);
      Changed(c.fd, before);
      scheduled := scheduled + [task];
      waiting := waiting - 1;
      Note(E.Triggered(c.fd, e, task));
    }

    // The bit and the context cleared without waking anybody.
    method Unregister(c: FdContext, e: E.Event)
      requires Placed() && c.fd < |contexts| && contexts[c.fd] == c
      requires e in c.event && E.EntryInv(c.View()) && scheduled == E.Scheduled(history)
      modifies this`waiting, this`history, c
      ensures Placed() && Model() == E.Unregister(old(Model()), c.fd, e)
      ensures scheduled == E.Scheduled(history)
    {
      ghost var before := Views();
      ghost var task := E.TaskOf(E.GetContext(c.View(), e));
      waiting := waiting - 1;
      c.ResetContext(e);
      Changed(c.fd, before);
      Note(E.Deleted(c.fd, e, task));
    }

    // `addEvent` once the entry is there.
    method Admit(c: FdContext, e: E.Event, t: E.Task, fault: bool) returns (ret: int)
      requires Placed() && c.fd < |contexts| && contexts[c.fd] == c && scheduled == E.Scheduled(history)
      modifies this`kernel, this`waiting, this`history, c
      ensures Placed() && (Model(), ret) == E.Admit(old(Model()), c.fd, e, t, fault)
      ensures scheduled == E.Scheduled(history)
    {
      assert Model().entries[c.fd] == c.View();
      if e in c.event {
        return -1;
      }
      var op := if c.event != {} then E.CtlMod else E.CtlAdd;
      ghost var before := Model();
      var rt := EpollCtl(op, c.fd, c.event + {e}, fault);
      assert Model() == before.(kernel := kernel);
      if rt != 0 {
        return -1;
      }
      Register(c, e, t);
      return 0;
    }

    method AddEvent(fd: nat, e: E.Event, t: E.Task, fault: bool) returns (ret: int)
      requires Valid()
      modifies this, contexts
      ensures Valid() && old(contexts) <= contexts && fresh(contexts[|old(contexts)|..])
      ensures (Model(), ret) == E.AddEvent(old(Model()), fd, e, t, fault)
      ensures scheduled == old(scheduled)
    {
      E.AddEventKeeps(Model(), fd, e, t, fault);
      var c := Lookup(fd);
      ret := Admit(c, e, t, fault);
    }

    method DelEvent(fd: nat, e: E.Event, fault: bool) returns (ok: bool)
      requires Valid()
      modifies this, contexts
      ensures Valid() && contexts == old(contexts) && scheduled == old(scheduled)
      ensures (Model(), ok) == E.DelEvent(old(Model()), fd, e, fault)
    {
      E.DelEventKeeps(Model(), fd, e, fault);
      if |contexts| <= fd {
        return false;
      }
      var c := contexts[fd];
      assert Model().entries[fd] == c.View();
      if e !in c.event {
        return false;
      }
      ok := Narrow(fd, c.event - {e}, fault);
      if !ok {
        return false;
      }
      Unregister(c, e);
      return true;
    }

    method CancelEvent(fd: nat, e: E.Event, fault: bool) returns (ok: bool)
      requires Valid()
      modifies this, contexts
      ensures Valid() && contexts == old(contexts)
      ensures (Model(), ok) == E.CancelEvent(old(Model()), fd, e, fault)
    {
      E.CancelEventKeeps(Model(), fd, e, fault);
      if |contexts| <= fd {
        return false;
      }
      var c := contexts[fd];
      assert Model().entries[fd] == c.View();
      if e !in c.event {
        return false;
      }
      ok := Narrow(fd, c.event - {e}, fault);
      if !ok {
        return false;
      }
      Trigger(c, e);
      return true;
    }

    // What a delivery and `cancelAll` do for one bit.
    method TriggerFound(c: FdContext, e: E.Event, wanted: bool)
      requires Placed() && c.fd < |contexts| && contexts[c.fd] == c
      requires E.EntryInv(c.View()) && scheduled == E.Scheduled(history) && (wanted ==> e in c.event)
      modifies this`waiting, this`scheduled, this`history, c
      ensures Placed() && Some(Model()) == E.MustTrigger(old(Model()), c.fd, e, wanted)
      ensures E.EntryInv(c.View()) && scheduled == E.Scheduled(history)
      ensures c.event == old(c.event) - if wanted then {e} else {}
    {
      assert Model().entries[c.fd] == c.View();
      if wanted {
        Trigger(c, e);
        assert Model().entries[c.fd] == c.View();
      }
    }

    method CancelAll(fd: nat, fault: bool) returns (ok: bool)
      requires Valid()
      modifies this, contexts
      ensures Valid() && contexts == old(contexts)
      ensures (Model(), ok) == E.CancelAll(old(Model()), fd, fault)
    {
      E.CancelAllKeeps(Model(), fd, fault);
      if |contexts| <= fd {
        return false;
      }
      var c := contexts[fd];
      assert Model().entries[fd] == c.View();
      if c.event == {} {
        return false;
      }
      ok := Narrow(fd, {}, fault);
      if !ok {
        return false;
      }
      TriggerFound(c, E.Read, E.Read in c.event);
      TriggerFound(c, E.Write, E.Write in c.event);
      return true;
    }

    // The triggers at the end of a delivery.
    method TriggerBoth(c: FdContext, found: E.Events)
      requires Placed() && c.fd < |contexts| && contexts[c.fd] == c
      requires E.EntryInv(c.View()) && scheduled == E.Scheduled(history) && found <= c.event
      modifies this`waiting, this`scheduled, this`history, c
      ensures Placed() && scheduled == E.Scheduled(history)
      ensures E.EntryInv(old(Views())[c.fd]) && Some(Model()) == E.TriggerBoth(old(Model()), c.fd, found)
    {
      TriggerFound(c, E.Read, E.Read in found);
      TriggerFound(c, E.Write, E.Write in found);
    }

    // The kernel's part of taking bits away.
    method Narrow(fd: nat, left: E.Events, fault: bool) returns (ok: bool)
      modifies this`kernel
      ensures (Model(), ok) == E.Narrow(old(Model()), fd, left, fault)
    {
      var op := if left != {} then E.CtlMod else E.CtlDel;
      var rt := EpollCtl(op, fd, left, fault);
      return rt == 0;
    }

    method DeliverMask(r: E.Ready, fault: bool)
      requires Valid() && E.Legal(Model(), E.Deliver(r, fault))
      modifies this, contexts
      ensures Valid() && contexts == old(contexts)
      ensures Some(Model()) == E.Dispatch(old(Model()), r, fault)
    {
      E.DispatchKeeps(Model(), r, fault);
      var c := contexts[r.fd];
      assert Model().entries[r.fd] == c.View() && E.EntryInv(c.View());
      var found := E.RealEvents(c.View(), r);
      if c.event * found == {} {
        return;
      }
      var ok := Narrow(c.fd, c.event - found, fault);
      if ok {
        TriggerBoth(c, found);
      }
    }

    // One delivered event in `idle`. The mask is not partly stale (see DispatchKeeps).
    method Deliver(r: E.Ready, fault: bool)
      requires Valid() && E.Legal(Model(), E.Deliver(r, fault))
      modifies this, contexts
      ensures Valid() && contexts == old(contexts)
      ensures Some(Model()) == E.Dispatch(old(Model()), r, fault)
      ensures var c, was := contexts[r.fd], old(contexts[r.fd].View());
              var read := E.Read in was.event && !fault && (r.readable || r.error);
              var write := E.Write in was.event && !fault && (r.writable || r.error);
              && (E.Read in c.event <==> E.Read in was.event && !read)
              && (E.Write in c.event <==> E.Write in was.event && !write)
              && (read ==> E.Occupied(was.read)) && (write ==> E.Occupied(was.write))
              && scheduled == old(scheduled)
                   + ((if read then [E.TaskOf(was.read)] else []) + if write then [E.TaskOf(was.write)] else [])
    {
      ghost var before := Model();
      assert before.entries[r.fd] == contexts[r.fd].View();
      DeliverMask(r, fault);
      E.DeliveryTakesExactly(before, r, fault);
      E.DeliveryWakesExactly(before, r, fault);
      assert Model().entries[r.fd] == contexts[r.fd].View();
    }

    // One round of the loop below; `before` are the entries at its start, `start` what had
    // been scheduled by then.
    method DeliverNext(events: seq<E.Ready>, faults: seq<bool>, n: nat,
                       ghost before: seq<E.Entry>, ghost start: seq<E.Task>)
      requires Valid() && E.Batch(events, faults) && n < |events| && E.Fresh(before, events)
      requires E.Delivered(before, Views(), events, faults, n)
      requires scheduled == start + E.Woken(before, events, faults, n)
      modifies this, contexts
      ensures Valid() && contexts == old(contexts)
      ensures E.Delivered(before, Views(), events, faults, n + 1)
      ensures scheduled == start + E.Woken(before, events, faults, n + 1)
    {
      ghost var s := Model();
      E.DispatchNext(s, before, events, faults, n);
      Deliver(events[n], faults[n]);
      assert Views() == Model().entries;
      E.WokenNext(start, before, events, faults, n);
      assert scheduled == E.Scheduled(history);
    }

    // The loop of `idle` over what one epoll_wait has delivered.
    method DeliverEach(events: seq<E.Ready>, faults: seq<bool>)
      requires Valid() && E.Batch(events, faults) && E.Fresh(Views(), events)
      modifies this, contexts
      ensures Valid() && contexts == old(contexts)
      ensures E.Delivered(old(Views()), Views(), events, faults, |events|)
      ensures scheduled == old(scheduled) + E.Woken(old(Views()), events, faults, |events|)
    {
      ghost var before, start := Views(), scheduled;
      for n := 0 to |events|
        invariant Valid() && contexts == old(contexts)
        invariant E.Delivered(before, Views(), events, faults, n)
        invariant scheduled == start + E.Woken(before, events, faults, n)
      {
        DeliverNext(events, faults, n, before, start);
      }
    }

    // A delivery names each descriptor once, so its events do not disturb each other.
    method DeliverAll(events: seq<E.Ready>, faults: seq<bool>)
      requires Valid() && E.Batch(events, faults)
      requires forall i :: 0 <= i < |events| ==> E.Legal(Model(), E.Deliver(events[i], faults[i]))
      modifies this, contexts
      ensures Valid() && contexts == old(contexts)
      ensures E.Delivered(old(Views()), Views(), events, faults, |events|)
      ensures E.Fresh(old(Views()), events)
      ensures scheduled == old(scheduled) + E.Woken(old(Views()), events, faults, |events|)
    {
      E.LegalIsFresh(Model(), events, faults);
      DeliverEach(events, faults);
    }
  }
}
