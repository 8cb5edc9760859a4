// The state machine of one fiber and the thread-local pointers around it
// (fiber/fiber.cpp:162-210, 233-252, 275-294, 360-379 and 398-437). A switch of stacks is the
// return of control to whoever called `SwapIn`, so that a visit to a fiber is one call.
module Fibers {
  import opened Options
  import S = SchedulerSteps

  // t_cur_fiber, t_main_fiber and t_schedule_fiber of one thread.
  class Thread {
    var cur: Fiber?
    var main: Fiber
    var schedule: Fiber?

    constructor (main: Fiber)
      ensures cur == main && this.main == main && schedule == null
    {
      cur, this.main, schedule := main, main, null;
    }
  }

  // How the code inside a fiber gives control back.
  datatype Leave = ToHold | ToReady | Return | Throw

  predicate Yields(how: Leave) {
    how.ToHold? || how.ToReady?
  }

  class Fiber {
    const hasStack: bool
    var state: S.FiberState
    var cb: Option<nat>

    constructor (cb: nat)
      ensures hasStack && state == S.Init && this.cb == Some(cb)
    {
      hasStack, state, this.cb := true, S.Init, Some(cb);
    }

    // The test names three states, but only the last of them can make it true: a fiber that
    // is on hold or running is reset without complaint.
    method Reset(cb: Option<nat>) returns (ok: bool)
      modifies this
      ensures ok == (hasStack && old(state) != S.Error)
      ensures if ok then state == S.Init && this.cb == cb else state == old(state) && this.cb == old(this.cb)
    {
      if !hasStack {
        return false;
      }
      if state != S.Term && state != S.Init && state == S.Error {
        return false;
      }
      this.cb := cb;
      state := S.Init;
      return true;
    }

    // False stands for the exception; the pointers have moved by then.
    method SwapIn(t: Thread, from: Fiber) returns (ok: bool)
      modifies t`cur, t`schedule, this`state
      ensures ok == (old(state) != S.Exec)
      ensures t.cur == this && t.schedule == from && state == S.Exec
    {
      t.cur := this;
      t.schedule := from;
      if state == S.Exec {
        return false;
      }
      state := S.Exec;
      return true;
    }

    // `swapOut` to a given fiber, or to the thread's main fiber.
    method SwapOut(t: Thread, to: Fiber?)
      modifies t`cur, t`schedule
      ensures t.cur == if to == null then t.main else to
      ensures t.schedule == if to == null then old(t.schedule) else null
    {
      if to == null {
        t.cur := t.main;
      } else {
        t.cur := to;
        t.schedule := null;
      }
    }

    // `yieldToHold` and `yieldToReady`, which go to the fiber they are given or else to the
    // main fiber, or the end of `mainFunc` with or without an exception, which goes to the
    // fiber that scheduled this one.
    method LeaveBy(t: Thread, how: Leave, to: Fiber?)
      requires t.cur == this
      modifies t`cur, t`schedule, this
      ensures var target := if how.ToHold? || how.ToReady? then to else old(t.schedule);
              && t.cur == (if target == null then t.main else target)
              && t.schedule == if target == null then old(t.schedule) else null
      ensures how.ToHold? ==> state == S.Hold && cb == old(cb)
      ensures how.ToReady? ==> state == S.Ready && cb == old(cb)
      ensures how.Return? ==> state == S.Term && cb == None
      ensures how.Throw? ==> state == S.Error && cb == old(cb)
    {
      match how {
        case ToHold =>
          state := S.Hold;
          SwapOut(t, to);
        case ToReady =>
          state := S.Ready;
          SwapOut(t, to);
        case Return =>
          cb := None;
          state := S.Term;
          SwapOut(t, t.schedule);
        case Throw =>
          state := S.Error;
          SwapOut(t, t.schedule);
      }
    }

    // A visit from fiber `from`. The fiber's state says how it left. The thread is back in
    // `from` if and only if the fiber ended or yielded to `from`; the scheduling fiber is
    // forgotten, except by a yield to the main fiber. A fiber that runs cannot be visited.
    method Visit(t: Thread, from: Fiber, how: Leave, to: Fiber?) returns (ok: bool)
      requires t.cur == from
      modifies t`cur, t`schedule, this
      ensures ok == (old(state) != S.Exec)
      ensures ok ==>
                match how
                case ToHold => state == S.Hold
                case ToReady => state == S.Ready
                case Return => state == S.Term
                case Throw => state == S.Error
      ensures ok ==> (t.cur == from <==> !Yields(how) || to == from || (to == null && t.main == from))
      ensures ok ==> t.schedule == if Yields(how) && to == null then from else null
      ensures !ok ==> state == S.Exec && cb == old(cb)
    {
      ok := SwapIn(t, from);
      if ok {
        LeaveBy(t, how, to);
      }
    }
  }
}
