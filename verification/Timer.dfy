// The classes of scheduler/timer.cpp. Each method is proved to be the operation of the
// same name in TimerSets on `Model()`; calls of the clock are parameters, and so is the
// address the allocator gives to a new timer.
module Timers {
  import opened Options
  import T = TimerSets

  class Timer {
    const address: T.Address
    const manager: TimerManager
    const isLoop: bool
    var cb: Option<T.Callback>
    var ms: nat
    var next: nat

    constructor (address: T.Address, manager: TimerManager, ms: nat, cb: T.Callback, isLoop: bool, now: nat)
      ensures this.address == address && this.manager == manager
      ensures View() == T.Entry(Some(cb), isLoop, ms, T.Wrap(now + ms))
    {
      this.address, this.manager, this.isLoop := address, manager, isLoop;
      this.cb, this.ms, this.next := Some(cb), ms, T.Wrap(now + ms);
    }

    function View(): T.Entry
      reads this
    {
      T.Entry(cb, isLoop, ms, next)
    }

    ghost predicate Managed()
      reads this, manager, manager.objects.Values
    {
      manager.Valid() && address in manager.objects && manager.objects[address] == this
    }

    method Cancel() returns (ok: bool)
      requires Managed()
      modifies this, manager`timers
      ensures Managed() && (manager.Model(), ok) == T.Cancel(old(manager.Model()), address)
    {
      ghost var before := manager.Model();
      T.CancelKeeps(before, address);
      if cb.Some? {
        cb := None;
        manager.timers := T.Remove(manager.timers, address);
        manager.Changed(this, before);
        return true;
      }
      return false;
    }

    // Takes the timer out of the set and gives it other times.
    method Take(ms: nat, next: nat)
      requires manager.Placed() && address in manager.objects && manager.objects[address] == this
      requires T.Known(manager.Entries(), manager.timers)
      modifies this, manager`timers
      ensures manager.Placed() && T.Known(manager.Entries(), manager.timers)
      ensures manager.Model() == T.Taken(old(manager.Model()), address, ms, next)
    {
      ghost var before := manager.Model();
      manager.timers := T.Remove(manager.timers, address);
      this.ms, this.next := ms, next;
      manager.Changed(this, before);
    }

    method Refresh(now: nat) returns (ok: bool)
      requires Managed()
      modifies this, manager`timers
      ensures Managed() && (manager.Model(), ok) == T.Refresh(old(manager.Model()), address, now)
    {
      T.RefreshKeeps(manager.Model(), address, now);
      ghost var after := T.Refresh(manager.Model(), address, now);
      assert manager.Entries()[address] == View();
      if cb.None? {
        return false;
      }
      if address !in manager.timers {
        return false;
      }
      Take(ms, T.Wrap(now + ms));
      PutBack();
      assert (manager.Model(), true) == after;
      return true;
    }

    // Back into the set without a look at its front.
    method PutBack()
      requires manager.Placed() && address in manager.objects && T.Known(manager.Entries(), manager.timers)
      modifies manager`timers
      ensures manager.Placed() && manager.Model() == T.PutBack(old(manager.Model()), address)
    {
      manager.timers := T.Insert(manager.Entries(), manager.timers, address);
    }

    // A periodic timer that is due goes back into the set, one period from now.
    method Renew(now: nat)
      requires manager.Placed() && address in manager.objects && manager.objects[address] == this
      requires T.Known(manager.Entries(), manager.timers) && isLoop
      modifies this, manager`timers
      ensures manager.Placed() && manager.Model() == T.FireOne(old(manager.Model()), address, now)
    {
      ghost var before := manager.Model();
      next := T.Wrap(now + ms);
      manager.Changed(this, before);
      PutBack();
    }

    // Any other loses its callback.
    method Expire(now: nat)
      requires manager.Placed() && address in manager.objects && manager.objects[address] == this
      requires T.Known(manager.Entries(), manager.timers) && !isLoop
      modifies this
      ensures manager.Placed() && manager.Model() == T.FireOne(old(manager.Model()), address, now)
    {
      ghost var before := manager.Model();
      cb := None;
      manager.Changed(this, before);
    }

    method Reset(ms: nat, fromNow: bool, now: nat) returns (ok: bool)
      requires Managed()
      modifies this, manager`timers, manager`notified, manager`signals
      ensures Managed() && (manager.Model(), ok) == T.Reset(old(manager.Model()), address, ms, fromNow, now)
    {
      T.ResetKeeps(manager.Model(), address, ms, fromNow, now);
      ghost var after := T.Reset(manager.Model(), address, ms, fromNow, now);
      assert manager.Entries()[address] == View();
      if ms == this.ms && !fromNow {
        return true;
      }
      if cb.None? {
        return false;
      }
      if address !in manager.timers {
        return false;
      }
      var start := if fromNow then now else T.Wrap(next - this.ms);
      assert after.0 == T.Enqueue(T.Taken(manager.Model(), address, ms, T.Wrap(start + ms)), address);
      Move(ms, T.Wrap(start + ms));
      return true;
    }

    // Takes the timer out, and adds it again with other times.
    method Move(ms: nat, next: nat)
      requires manager.Placed() && address in manager.objects && manager.objects[address] == this
      requires T.Known(manager.Entries(), manager.timers)
      modifies this, manager`timers, manager`notified, manager`signals
      ensures manager.Placed()
      ensures manager.Model() == T.Enqueue(T.Taken(old(manager.Model()), address, ms, next), address)
    {
      Take(ms, next);
      manager.Insert(this);
    }
  }

  class TimerManager {
    // The set, in its order, and the timers that its pointers and the program's lead to.
    var timers: seq<T.Address>
    var objects: map<T.Address, Timer>
    var notified: bool
    var previousTime: nat
    // How often the wake-up hook `onTimerInsertAtFront` has been called.
    var signals: nat

    constructor (now: nat)
      ensures Valid() && fresh(this) && Model() == T.Start(now)
    {
      timers, objects, notified, previousTime, signals := [], map[], false, now, 0;
    }

    function Entries(): T.Entries
      reads this`objects, objects.Values
    {
      map a | a in objects :: objects[a].View()
    }

    function Model(): T.State
      reads this, objects.Values
    {
      T.State(Entries(), timers, notified, previousTime, signals)
    }

    ghost predicate Placed()
      reads this`objects
    {
      forall a :: a in objects ==> objects[a].address == a && objects[a].manager == this
    }

    ghost predicate Valid()
      reads this, objects.Values
    {
      Placed() && T.Inv(Model())
    }

    // What the entries are after one timer has changed.
    lemma Changed(t: Timer, before: T.State)
      requires Placed() && t.address in objects && objects[t.address] == t
      requires before.entries.Keys == objects.Keys
      requires forall a :: a in objects && a != t.address ==> objects[a].View() == before.entries[a]
      ensures Entries() == before.entries[t.address := t.View()]
    {
    }

    // `addTimer` under the lock.
    method Insert(t: Timer)
      requires Placed() && t.address in objects && objects[t.address] == t
      requires T.Known(Entries(), timers)
      modifies this`timers, this`notified, this`signals
      ensures Placed() && Model() == T.Enqueue(old(Model()), t.address)
    {
      timers := T.Insert(Entries(), timers, t.address);
      var isFront := timers[0] == t.address && !notified;
      if isFront {
        notified := true;
      }
      if isFront {
        signals := signals + 1;
      }
    }

    method AddTimer(address: T.Address, ms: nat, cb: T.Callback, isLoop: bool, now: nat) returns (t: Timer)
      requires Valid() && address !in objects
      modifies this
      ensures Valid() && fresh(t) && t.address == address && objects == old(objects)[address := t]
      ensures Model() == T.Add(old(Model()), address, cb, isLoop, ms, now)
    {
      T.AddKeeps(Model(), T.AddTimer(address, cb, isLoop, ms, now));
      t := new Timer(address, this, ms, cb, isLoop, now);
      objects := objects[address := t];
      assert Entries() == old(Entries())[address := t.View()];
      Insert(t);
    }

    method GetNextTimerTimeMs(now: nat) returns (wait: nat)
      requires Valid()
      modifies this`notified
      ensures Valid() && (Model(), wait) == T.NextTime(old(Model()), now)
    {
      notified := false;
      if timers == [] {
        return T.NEVER;
      }
      var next := objects[timers[0]];
      if now >= next.next {
        return 0;
      } else {
        return next.next - now;
      }
    }

    method HasTimer() returns (some: bool)
      requires Valid()
      ensures some <==> exists t :: t in objects && objects[t].cb.Some?
    {
      some := timers != [];
      if some {
        assert timers[0] in timers && Entries()[timers[0]].cb.Some?;
      } else {
        assert forall t :: t in objects ==> (Entries()[t].cb.Some? <==> t in timers);
      }
    }

    method DetectTimeModified(now: nat) returns (modified: bool)
      modifies this`previousTime
      ensures previousTime == now && modified == T.RolledBack(old(previousTime), now)
    {
      modified := false;
      if now < previousTime && now < T.Wrap(previousTime - T.HOUR) {
        modified := true;
      }
      previousTime := now;
    }

    // The end of the due timers: the lower bound of a probe, moved past its equals.
    method EndOfDue(now: nat, probe: T.Address) returns (it: nat)
      requires Valid()
      ensures it == T.Due(Entries(), timers, now)
    {
      it := T.LowerBound(Entries(), timers, now, probe);
      T.LowerBoundAmongDue(Entries(), timers, now, probe);
      while it < |timers| && objects[timers[it]].next == now
        invariant T.LowerBound(Entries(), timers, now, probe) <= it <= T.Due(Entries(), timers, now)
      {
        T.DueExactly(Entries(), timers, now, it);
        it := it + 1;
      }
      if it < |timers| {
        T.DueExactly(Entries(), timers, now, it);
      }
    }

    // One round over the expired timers.
    method FireOne(a: T.Address, now: nat) returns (cb: Option<T.Callback>)
      requires Placed() && a in objects && T.Known(Entries(), timers)
      modifies this`timers, objects[a]
      ensures Placed() && Model() == T.FireOne(old(Model()), a, now) && cb == old(Entries()[a].cb)
    {
      var timer := objects[a];
      cb := timer.cb;
      if timer.isLoop {
        timer.Renew(now);
      } else {
        timer.Expire(now);
      }
    }

    // The loop over the expired timers before round i: `all` is what it will have done.
    ghost predicate Firing(expired: seq<T.Address>, i: nat, now: nat, cbs: seq<Option<T.Callback>>,
                           all: (T.State, seq<Option<T.Callback>>))
      requires i <= |expired|
      reads this, objects.Values
    {
      && Placed() && T.Known(Entries(), timers) && T.Known(Entries(), expired[i..])
      && var rest := T.Fire(Model(), expired[i..], now);
         all == (rest.0, cbs + rest.1)
    }

    method FireNext(expired: seq<T.Address>, i: nat, now: nat, cbs: seq<Option<T.Callback>>,
                    ghost all: (T.State, seq<Option<T.Callback>>))
      returns (cb: Option<T.Callback>)
      requires i < |expired| && Firing(expired, i, now, cbs, all)
      modifies this`timers, objects.Values
      ensures Firing(expired, i + 1, now, cbs + [cb], all)
    {
      var t, rest := expired[i], expired[i + 1..];
      assert expired[i..] == [t] + rest;
      ghost var after := T.Fire(T.FireOne(Model(), t, now), rest, now);
      assert cbs + ([Entries()[t].cb] + after.1) == cbs + [Entries()[t].cb] + after.1;
      cb := FireOne(t, now);
    }

    method FireAll(expired: seq<T.Address>, now: nat, cbs: seq<Option<T.Callback>>)
      returns (more: seq<Option<T.Callback>>)
      requires Placed() && T.Known(Entries(), timers) && T.Known(Entries(), expired)
      modifies this`timers, objects.Values
      ensures Placed() && Model() == T.Fire(old(Model()), expired, now).0
      ensures more == cbs + T.Fire(old(Model()), expired, now).1
    {
      more := cbs;
      ghost var fired := T.Fire(Model(), expired, now);
      ghost var all := (fired.0, cbs + fired.1);
      assert expired[0..] == expired;
      for i := 0 to |expired|
        invariant Firing(expired, i, now, more, all)
      {
        var cb := FireNext(expired, i, now, more, all);
        more := more + [cb];
      }
      assert more + [] == more;
    }

    // Takes the first k timers out of the set and fires them.
    method TakeAndFire(k: nat, now: nat, cbs: seq<Option<T.Callback>>) returns (more: seq<Option<T.Callback>>)
      requires Placed() && T.Known(Entries(), timers) && k <= |timers|
      modifies this`timers, objects.Values
      ensures Placed()
      ensures var fired := T.Fire(old(Model().(queue := timers[k..])), old(timers[..k]), now);
              Model() == fired.0 && more == cbs + fired.1
    {
      var expired := timers[..k];
      timers := timers[k..];
      more := FireAll(expired, now, cbs);
    }

    // Appends the callbacks of the expired timers to `cbs`.
    method GetExpiredCbsList(cbs: seq<Option<T.Callback>>, now: nat, probe: T.Address)
      returns (more: seq<Option<T.Callback>>)
      requires Valid()
      modifies this`timers, this`previousTime, objects.Values
      ensures Valid() && Model() == T.Collect(old(Model()), now).0
      ensures more == cbs + T.Collect(old(Model()), now).1
    {
      if timers == [] {
        return cbs;
      }
      assert timers[0] in Entries();
      var front := objects[timers[0]];
      var isModified := DetectTimeModified(now);
      if !isModified && front.next > now {
        assert timers[0..] == timers;
        return cbs;
      }
      var end: nat := |timers|;
      if !isModified {
        end := EndOfDue(now, probe);
      }
      T.CollectTaken(old(Model()), now, end);
      more := TakeAndFire(end, now, cbs);
    }
  }
}
