// One round of a worker in `Scheduler::run` (scheduler/scheduler.cpp:148-245), from the task
// it takes to what becomes of that task, and who can take what is queued meanwhile.
module SchedulerRounds {
  import opened Options
  import opened SchedulerSteps
  import opened SchedulerRuns

  predicate RunsNow(s: State, f: nat) {
    f in s.fibers && s.fibers[f] == Exec
  }

  // A submitted task joins the end of the queue. Who can take it: the thread it is for, or
  // any worker if it is for none; nobody while it is a fiber that runs.
  lemma SubmitMeans(s: State, step: Step)
    requires Enabled(s, step) && step.Submit?
    ensures var r := Apply(s, step);
            && |r.tasks| == |s.tasks| + 1 && r.tasks[..|s.tasks|] == s.tasks
            && var t := r.tasks[|s.tasks|];
               && t.work == step.work && t.ticket == s.next && r.next == s.next + 1
               && forall v: nat :: Eligible(r.fibers, v, t) <==>
                    && (step.thread == None || step.thread == Some(v))
                    && !(step.work.Resume? && RunsNow(s, step.work.fiber))
  {
  }

  // What a worker does with the task it has taken. A fiber that has ended is discarded, one
  // that runs already makes the swap-in fail, and any other is run; a callback is run in the
  // fiber the worker keeps for callbacks, or, if it keeps none, in a new one.
  lemma LaunchMeans(s: State, w: nat, newFiber: nat)
    requires Enabled(s, Launch(w, newFiber))
    ensures var x, task, r := s.workers[w], s.workers[w].pc.task, Apply(s, Launch(w, newFiber));
            var f := if task.work.Resume? then task.work.fiber
                     else if x.cbFiber.Some? then x.cbFiber.value else newFiber;
            var ended := task.work.Resume? && f in s.fibers && (s.fibers[f] == Term || s.fibers[f] == Error);
            && (r.crashed <==> task.work.Resume? && RunsNow(s, f))
            && (ended ==>
                  && r.workers[w] == x.(pc := Top) && r.fibers == s.fibers
                  && r.active == s.active - 1 && r.closed == s.closed[task.ticket := Discarded])
            && (!ended && !r.crashed ==>
                  && r.workers[w].pc == Running(f, task, task.work.Call?) && r.fibers == s.fibers[f := Exec]
                  && r.workers[w].cbFiber == (if task.work.Call? then Some(f) else x.cbFiber)
                  && r.active == s.active && r.closed == s.closed)
            && r.tasks == s.tasks
  {
  }

  // The steps of a worker after its fiber has given up control, when nothing comes between.
  function Round(s: State, w: nat, how: FiberState): (r: State)
    requires Enabled(s, Yield(w, how))
  {
    var Running(f, task, own) := s.workers[w].pc;
    var settled := Apply(Apply(Apply(s, Yield(w, how)), Lower(w)), Settle(w));
    if how == Ready then Apply(settled, Requeue(w))
    else if how == Hold then Apply(settled, Mark(w))
    else settled
  }

  // What has become of the task, the fiber and the worker then. A fiber that yields Ready is
  // queued for any worker; one that goes on hold is left to whoever wakes it; one that has
  // ended is kept for the next callback if the worker ran it for a callback. In the first
  // two cases the worker keeps its callback fiber only if it ran another one.
  lemma RoundMeans(s: State, w: nat, how: FiberState)
    requires Enabled(s, Yield(w, how))
    ensures var Running(f, task, own) := s.workers[w].pc;
            var x, r := s.workers[w], Round(s, w, how);
            && r.workers == s.workers[w := Worker(Top, if own && how != Term then None else x.cbFiber, x.idleDone)]
            && r.active == s.active - 1 && r.idle == s.idle && r.crashed == s.crashed
            && r.fibers == s.fibers[f := if how == Term && own then Init else how]
            && r.closed == s.closed[task.ticket := if how == Ready then Requeued
                                                   else if how == Hold then Suspended else Finished]
            && r.tasks == (if how == Ready then s.tasks + [Task(Resume(f), None, s.next)] else s.tasks)
            && r.next == (if how == Ready then s.next + 1 else s.next)
  {
    var Running(f, task, own) := s.workers[w].pc;
    var settled := Apply(Apply(Apply(s, Yield(w, how)), Lower(w)), Settle(w));
    SettledMeans(s, w, how);
    assert settled.workers[w := settled.workers[w].(pc := Top)]
        == s.workers[w := s.workers[w].(pc := Top)];
    assert settled.fibers[f := how] == s.fibers[f := how];
  }

  lemma SettledMeans(s: State, w: nat, how: FiberState)
    requires Enabled(s, Yield(w, how))
    ensures var Running(f, task, own) := s.workers[w].pc;
            var x, r := s.workers[w], Apply(Apply(Apply(s, Yield(w, how)), Lower(w)), Settle(w));
            && r.workers == s.workers[w := x.(pc := if how == Ready then Requeuing(f, task, own)
                                                    else if how == Hold then Marking(f, task, own) else Top)]
            && r.active == s.active - 1 && r.idle == s.idle && r.crashed == s.crashed
            && r.fibers == s.fibers[f := if how == Term && own then Init else how]
            && r.closed == (if how == Term then s.closed[task.ticket := Finished] else s.closed)
            && r.tasks == s.tasks && r.next == s.next
            && r.autoStop == s.autoStop && r.stopping == s.stopping
  {
  }

  lemma {:induction false} NotQueued(tasks: seq<Task>, ticket: nat, i: nat)
    requires i < |tasks| && Queued(tasks, ticket) == 0
    ensures tasks[i].ticket != ticket
  {
    if i > 0 {
      NotQueued(tasks[1..], ticket, i - 1);
    }
  }

  // The next ticket has not been given out, and what a worker holds is older.
  lemma NextIsNew(s: State)
    requires Reachable(s)
    ensures s.next !in s.closed && forall i :: 0 <= i < |s.tasks| ==> s.tasks[i].ticket != s.next
  {
    OnePlace(s, s.next);
    forall i | 0 <= i < |s.tasks|
      ensures s.tasks[i].ticket != s.next
    {
      NotQueued(s.tasks, s.next, i);
    }
  }

  lemma HeldIsOld(s: State, w: nat)
    requires Reachable(s) && w < |s.workers| && InHand(s.workers[w].pc).Some?
    ensures InHand(s.workers[w].pc).value.ticket < s.next
  {
    var ticket := InHand(s.workers[w].pc).value.ticket;
    OnePlace(s, ticket);
    HeldUpdate(s.workers, w, s.workers[w], ticket);
  }

  // The requeue of a fiber that yielded Ready, whatever has come between: the fiber has a
  // new ticket, and whatever thread it was for before, now any worker may take it, unless
  // somebody runs it already.
  lemma RequeueMeans(s: State, w: nat)
    requires Reachable(s) && Enabled(s, Requeue(w))
    ensures var f, r := s.workers[w].pc.fiber, Apply(s, Requeue(w));
            && |r.tasks| == |s.tasks| + 1 && r.tasks[..|s.tasks|] == s.tasks
            && var t := r.tasks[|s.tasks|];
               && t.work == Resume(f) && t.ticket !in r.closed
               && (forall i :: 0 <= i < |s.tasks| ==> s.tasks[i].ticket != t.ticket)
               && (forall v: nat :: Eligible(r.fibers, v, t) <==> !RunsNow(s, f))
  {
    NextIsNew(s);
    HeldIsOld(s, w);
  }

  // Until then its worker has it in hand. From then on some worker will look at the queue for
  // as long as the fiber is queued.
  lemma ReadyLookedFor(s: State, w: nat, r: State)
    requires Reachable(s) && Enabled(s, Requeue(w)) && LeadsTo(Apply(s, Requeue(w)), r)
    requires Apply(s, Requeue(w)).tasks[|s.tasks|] in r.tasks
    ensures exists v :: Stays(r, v)
  {
    var m := Apply(s, Requeue(w));
    ReachableTo(s, Requeue(w), m);
    ReachableOn(m, r);
    var i :| 0 <= i < |r.tasks| && r.tasks[i] == m.tasks[|s.tasks|];
    NoTaskStranded(r, i);
    var v :| 0 <= v < |r.workers| && !Exiting(r.workers[v]);
    assert Stays(r, v);
  }

  lemma {:induction false} LeadsOn(start: State, steps: seq<Step>, m: State, more: seq<Step>, r: State)
    requires Leads(start, steps, m) && Leads(m, more, r)
    ensures Leads(start, steps + more, r)
    decreases |steps|
  {
    if steps == [] {
      assert [] + more == more;
    } else {
      assert (steps + more)[1..] == steps[1..] + more;
      LeadsOn(Apply(start, steps[0]), steps[1..], m, more, r);
    }
  }

  lemma ReachableOn(m: State, r: State)
    requires Reachable(m) && LeadsTo(m, r)
    ensures Reachable(r)
  {
    var start, steps :| Initial(start) && Leads(start, steps, m);
    var more :| Leads(m, more, r);
    LeadsOn(start, steps, m, more, r);
  }

  // When an idle fiber ends and when a worker leaves: the idle fiber ends only by its own
  // look, which needs all five conditions; otherwise it goes on to epoll. A worker that finds
  // no task leaves if and only if its idle fiber has ended.
  lemma IdleMeans(s: State, w: nat, quiet: bool)
    ensures Enabled(s, AskStopping(w, quiet)) ==>
              var x := Apply(s, AskStopping(w, quiet)).workers[w];
              var over := s.stopping && s.autoStop && s.tasks == [] && s.active == 0 && quiet;
              x == s.workers[w].(pc := if over then Top else Polling, idleDone := over || s.workers[w].idleDone)
    ensures Enabled(s, GoIdle(w)) ==>
              Apply(s, GoIdle(w)).workers[w].pc == if s.workers[w].idleDone then Left else Idling
    ensures Enabled(s, LeaveIdle(w)) ==> Apply(s, LeaveIdle(w)).workers[w] == s.workers[w].(pc := Top)
    ensures Enabled(s, StartCaller(w, quiet)) ==>
              var over := s.tasks == [] && s.active == 0 && quiet;
              Apply(s, StartCaller(w, quiet)).workers[w].pc == if over then Left else Top
  {
  }
}
