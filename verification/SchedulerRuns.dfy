// What holds in every reachable state of the scheduler, however its steps interleave:
// the active count, no task lost or doubled, pinning, and no unpinned task left behind
// when the workers leave.
module SchedulerRuns {
  import opened Options
  import opened SchedulerSteps

  // ----- The active and the idle count -----

  predicate IsActive(pc: Pc) {
    pc.Picked? || pc.Running? || pc.Returned?
  }

  function Actives(workers: seq<Worker>): nat {
    if workers == [] then 0 else (if IsActive(workers[0].pc) then 1 else 0) + Actives(workers[1..])
  }

  predicate IsIdle(pc: Pc) {
    pc.Idling? || pc.Polling?
  }

  function Idles(workers: seq<Worker>): nat {
    if workers == [] then 0 else (if IsIdle(workers[0].pc) then 1 else 0) + Idles(workers[1..])
  }

  lemma {:induction false} CountsUpdate(workers: seq<Worker>, w: nat, x: Worker)
    requires w < |workers|
    ensures Actives(workers[w := x]) == Actives(workers) - (if IsActive(workers[w].pc) then 1 else 0)
                                        + if IsActive(x.pc) then 1 else 0
    ensures Idles(workers[w := x]) == Idles(workers) - (if IsIdle(workers[w].pc) then 1 else 0)
                                      + if IsIdle(x.pc) then 1 else 0
  {
    if w > 0 {
      assert workers[w := x][1..] == workers[1..][w - 1 := x];
      CountsUpdate(workers[1..], w - 1, x);
    }
  }

  // The worker that takes a step, if one does.
  function Actor(step: Step): Option<nat> {
    match step
    case Submit(_, _, _) => None
    case SetAutoStop => None
    case SetStopping => None
    case _ => Some(step.w)
  }

  // r differs from s in worker w at most.
  predicate OnlyWorker(s: State, r: State, w: nat) {
    w < |s.workers| == |r.workers| && r.workers == s.workers[w := r.workers[w]]
  }

  // A step changes the worker that takes it and no other.
  lemma OnlyActor(s: State, step: Step)
    requires Enabled(s, step)
    ensures var r := Apply(s, step);
            if Actor(step).Some? then OnlyWorker(s, r, Actor(step).value) else r.workers == s.workers
  {
    match step
    case Submit(_, work, _) =>
    case Take(w) =>
    case Launch(w, _) => OnlyLauncher(s, w, step.newFiber);
    case Yield(w, _) =>
    case Lower(w) =>
    case Settle(w) => OnlySettler(s, w);
    case Requeue(w) =>
    case Mark(w) =>
    case GoIdle(w) =>
    case AskStopping(w, _) =>
    case LeaveIdle(w) =>
    case SetAutoStop =>
    case SetStopping =>
    case StartCaller(w, _) =>
  }

  lemma OnlyLauncher(s: State, w: nat, newFiber: nat)
    requires w < |s.workers| && s.workers[w].pc.Picked?
    ensures OnlyWorker(s, AfterLaunch(s, w, newFiber), w)
  {
  }

  lemma OnlySettler(s: State, w: nat)
    requires w < |s.workers| && s.workers[w].pc.Settling?
    ensures OnlyWorker(s, AfterSettle(s, w), w)
  {
  }

  lemma CountsKept(s: State, step: Step)
    requires Enabled(s, step) && s.active == Actives(s.workers) && s.idle == Idles(s.workers)
    ensures var r := Apply(s, step); r.active == Actives(r.workers) && r.idle == Idles(r.workers)
  {
    OnlyActor(s, step);
    var r := Apply(s, step);
    if Actor(step).Some? {
      CountsUpdate(s.workers, step.w, r.workers[step.w]);
      CountsMove(s, step);
    }
  }

  // The counters move with the worker w that steps.
  predicate CountsMoved(s: State, r: State, w: nat)
    requires w < |s.workers| == |r.workers|
  {
    var was, now := s.workers[w].pc, r.workers[w].pc;
    && r.active - (if IsActive(now) then 1 else 0) == s.active - (if IsActive(was) then 1 else 0)
    && r.idle - (if IsIdle(now) then 1 else 0) == s.idle - if IsIdle(was) then 1 else 0
  }

  lemma IdleCounts(s: State, step: Step)
    requires Enabled(s, step) && Actor(step).Some? && OnlyWorker(s, Apply(s, step), step.w)
    requires step.GoIdle? || step.AskStopping? || step.LeaveIdle? || step.StartCaller?
    ensures CountsMoved(s, Apply(s, step), step.w)
  {
  }

  lemma CountsMove(s: State, step: Step)
    requires Enabled(s, step) && Actor(step).Some? && OnlyWorker(s, Apply(s, step), step.w)
    ensures CountsMoved(s, Apply(s, step), step.w)
  {
    match step
    case Take(w) =>
    case Launch(w, newFiber) => LaunchCounts(s, w, newFiber);
    case Yield(w, _) =>
    case Lower(w) =>
    case Settle(w) => SettleCounts(s, w);
    case Requeue(w) =>
    case Mark(w) =>
    case _ => IdleCounts(s, step);
  }

  lemma LaunchCounts(s: State, w: nat, newFiber: nat)
    requires w < |s.workers| && s.workers[w].pc.Picked? && OnlyWorker(s, AfterLaunch(s, w, newFiber), w)
    ensures CountsMoved(s, AfterLaunch(s, w, newFiber), w)
  {
  }

  lemma SettleCounts(s: State, w: nat)
    requires w < |s.workers| && s.workers[w].pc.Settling? && OnlyWorker(s, AfterSettle(s, w), w)
    ensures CountsMoved(s, AfterSettle(s, w), w)
  {
  }

  // ----- A running fiber has a worker that runs it -----

  predicate Runs(workers: seq<Worker>, w: nat, f: nat) {
    w < |workers| && workers[w].pc.Running? && workers[w].pc.fiber == f
  }

  ghost predicate ExecRuns(s: State) {
    forall f :: f in s.fibers && s.fibers[f] == Exec ==> exists w: nat :: Runs(s.workers, w, f)
  }

  // Fibers other than those in `changed` are as before, and so are their workers.
  lemma ExecFrame(s: State, r: State, changed: set<nat>)
    requires ExecRuns(s) && |r.workers| == |s.workers|
    requires forall f :: f in r.fibers && f !in changed ==> f in s.fibers && r.fibers[f] == s.fibers[f]
    requires forall f :: f in r.fibers && f in changed && r.fibers[f] == Exec ==> exists w: nat :: Runs(r.workers, w, f)
    requires forall w: nat, f :: Runs(s.workers, w, f) && f !in changed ==> Runs(r.workers, w, f)
    ensures ExecRuns(r)
  {
    forall f | f in r.fibers && r.fibers[f] == Exec
      ensures exists w: nat :: Runs(r.workers, w, f)
    {
      if f !in changed {
        var w: nat :| Runs(s.workers, w, f);
        assert Runs(r.workers, w, f);
      }
    }
  }

  lemma LaunchExec(s: State, w: nat, newFiber: nat)
    requires Enabled(s, Launch(w, newFiber)) && ExecRuns(s)
    ensures ExecRuns(AfterLaunch(s, w, newFiber))
  {
    var r := AfterLaunch(s, w, newFiber);
    if r.workers[w].pc.Running? {
      assert Runs(r.workers, w, r.workers[w].pc.fiber);
      ExecFrame(s, r, {r.workers[w].pc.fiber});
    } else {
      ExecFrame(s, r, {});
    }
  }

  lemma SettleExec(s: State, w: nat)
    requires Enabled(s, Settle(w)) && ExecRuns(s)
    ensures ExecRuns(AfterSettle(s, w))
  {
    var f, r := s.workers[w].pc.fiber, AfterSettle(s, w);
    ExecFrame(s, r, if f in r.fibers && r.fibers[f] == Init then {f} else {});
  }

  // A step that neither starts a fiber nor changes the state of one.
  lemma ExecSame(s: State, step: Step)
    requires Enabled(s, step) && ExecRuns(s) && !step.Submit? && !step.Launch? && !step.Yield?
    requires !step.Settle? && !step.Mark?
    ensures ExecRuns(Apply(s, step))
  {
    OnlyActor(s, step);
    ExecFrame(s, Apply(s, step), {});
  }

  lemma ExecKept(s: State, step: Step)
    requires Enabled(s, step) && ExecRuns(s)
    ensures ExecRuns(Apply(s, step))
  {
    match step
    case Submit(_, work, _) =>
      ExecFrame(s, Apply(s, step), if work.Resume? && work.fiber !in s.fibers then {work.fiber} else {});
    case Launch(w, newFiber) => LaunchExec(s, w, newFiber);
    case Yield(w, _) => ExecFrame(s, Apply(s, step), {s.workers[w].pc.fiber});
    case Settle(w) => SettleExec(s, w);
    case Mark(w) => ExecFrame(s, Apply(s, step), {s.workers[w].pc.fiber});
    case _ => ExecSame(s, step);
  }

  // ----- Pinned tasks -----

  function InHand(pc: Pc): Option<Task> {
    match pc
    case Picked(task) => Some(task)
    case Running(_, task, _) => Some(task)
    case Returned(_, task, _) => Some(task)
    case Settling(_, task, _) => Some(task)
    case Requeuing(_, task, _) => Some(task)
    case Marking(_, task, _) => Some(task)
    case _ => None
  }

  // A worker holds only tasks that are not pinned to another.
  ghost predicate Pinned(s: State) {
    forall w :: 0 <= w < |s.workers| && InHand(s.workers[w].pc).Some? ==>
      var t := InHand(s.workers[w].pc).value; t.thread.None? || t.thread.value == w
  }

  // A step other than taking keeps the task in the worker's hands, or lets go of it.
  lemma HandStays(s: State, step: Step)
    requires Enabled(s, step) && Actor(step).Some? && !step.Take?
    ensures var w, r := step.w, Apply(s, step);
            w < |r.workers| && (InHand(r.workers[w].pc).None? || InHand(r.workers[w].pc) == InHand(s.workers[w].pc))
  {
    match step
    case Launch(w, newFiber) => LaunchStays(s, w, newFiber);
    case Yield(w, _) =>
    case Lower(w) =>
    case Settle(w) => SettleStays(s, w);
    case Requeue(w) =>
    case Mark(w) =>
    case GoIdle(w) =>
    case AskStopping(w, _) =>
    case LeaveIdle(w) =>
    case StartCaller(w, _) =>
  }

  lemma LaunchStays(s: State, w: nat, newFiber: nat)
    requires Enabled(s, Launch(w, newFiber))
    ensures var r := AfterLaunch(s, w, newFiber);
            var x := r.workers[w];
            && (InHand(x.pc).None? || InHand(x.pc) == InHand(s.workers[w].pc))
            && !Exiting(x) && x.idleDone == s.workers[w].idleDone
            && r.tasks == s.tasks && r.next == s.next
  {
  }

  lemma SettleStays(s: State, w: nat)
    requires Enabled(s, Settle(w))
    ensures var r := AfterSettle(s, w);
            var x := r.workers[w];
            && (InHand(x.pc).None? || InHand(x.pc) == InHand(s.workers[w].pc))
            && !Exiting(x) && x.idleDone == s.workers[w].idleDone
            && r.tasks == s.tasks && r.next == s.next
  {
  }

  lemma PinnedFrame(s: State, r: State, w: nat)
    requires Pinned(s) && OnlyWorker(s, r, w)
    requires InHand(r.workers[w].pc).Some? && InHand(r.workers[w].pc) != InHand(s.workers[w].pc) ==>
               InHand(r.workers[w].pc).value.thread.None? || InHand(r.workers[w].pc).value.thread.value == w
    ensures Pinned(r)
  {
    assert forall v :: 0 <= v < |s.workers| && v != w ==> r.workers[v] == s.workers[v];
  }

  lemma PinnedKept(s: State, step: Step)
    requires Enabled(s, step) && Pinned(s)
    ensures Pinned(Apply(s, step))
  {
    OnlyActor(s, step);
    if step.Take? {
      ScanIsEarliest(s.tasks, s.fibers, step.w);
      PinnedFrame(s, AfterTake(s, step.w), step.w);
    } else if Actor(step).Some? {
      HandStays(s, step);
      PinnedFrame(s, Apply(s, step), step.w);
    }
  }

  // ----- Shutdown -----

  // It will leave without another look at the queue, or has left.
  predicate Exiting(x: Worker) {
    x.pc.Left? || (x.pc.Nothing? && x.idleDone)
  }

  // Nobody leaves, or gets ready to, before `stop`.
  ghost predicate StopFirst(s: State) {
    forall w :: 0 <= w < |s.workers| && (s.workers[w].idleDone || s.workers[w].pc.Left?) ==> s.autoStop
  }

  ghost predicate SomeoneStays(s: State) {
    exists w :: 0 <= w < |s.workers| && !Exiting(s.workers[w])
  }

  predicate HasUnpinned(s: State) {
    exists i :: 0 <= i < |s.tasks| && s.tasks[i].thread.None?
  }

  ghost predicate NoneStranded(s: State) {
    HasUnpinned(s) ==> SomeoneStays(s)
  }

  // Only an idle fiber that is told to stop ends, only its worker leaves, and the caller's
  // worker never begins.
  lemma StopsLate(s: State, step: Step)
    requires Enabled(s, step) && Actor(step).Some? && OnlyWorker(s, Apply(s, step), step.w)
    ensures var w, r := step.w, Apply(s, step);
            && r.autoStop == s.autoStop
            && (r.workers[w].idleDone && !s.workers[w].idleDone ==> s.autoStop)
            && (r.workers[w].pc.Left? ==> s.workers[w].idleDone || s.autoStop)
  {
    match step
    case Take(w) =>
    case Launch(w, newFiber) => LaunchStays(s, w, newFiber);
    case Yield(w, _) =>
    case Lower(w) =>
    case Settle(w) => SettleStays(s, w);
    case Requeue(w) =>
    case Mark(w) =>
    case GoIdle(w) =>
    case AskStopping(w, _) =>
    case LeaveIdle(w) =>
    case StartCaller(w, _) =>
  }

  lemma StopFirstKept(s: State, step: Step)
    requires Enabled(s, step) && StopFirst(s)
    ensures StopFirst(Apply(s, step))
  {
    OnlyActor(s, step);
    if Actor(step).Some? {
      StopsLate(s, step);
    }
  }

  // A worker that found nothing leaves only running fibers and pinned tasks behind, and a
  // running fiber keeps its own worker.
  lemma TakeStrandsNone(s: State, w: nat)
    requires Enabled(s, Take(w)) && ExecRuns(s) && NoneStranded(s)
    ensures NoneStranded(AfterTake(s, w))
  {
    ScanIsEarliest(s.tasks, s.fibers, w);
    var r := AfterTake(s, w);
    if Scan(s.tasks, s.fibers, w).Some? {
      assert !Exiting(r.workers[w]);
    } else if HasUnpinned(r) {
      var i :| 0 <= i < |r.tasks| && r.tasks[i].thread.None?;
      assert !Eligible(s.fibers, w, s.tasks[i]) && Executing(s.fibers, s.tasks[i].work);
      var v: nat :| Runs(s.workers, v, s.tasks[i].work.fiber);
      assert !Exiting(r.workers[v]);
    }
  }

  lemma StaysFrame(r: State, w: nat)
    requires w < |r.workers| && !Exiting(r.workers[w])
    ensures NoneStranded(r)
  {
  }

  // A worker that has more to do than to look for a task does not leave next.
  lemma BusyStays(s: State, step: Step)
    requires Enabled(s, step) && Actor(step).Some? && !step.Take? && !step.GoIdle? && !step.StartCaller?
    ensures step.w < |Apply(s, step).workers| && !Exiting(Apply(s, step).workers[step.w])
  {
    match step
    case Launch(w, newFiber) => LaunchStays(s, w, newFiber);
    case Yield(w, _) =>
    case Lower(w) =>
    case Settle(w) => SettleStays(s, w);
    case Requeue(w) =>
    case Mark(w) =>
    case AskStopping(w, _) =>
    case LeaveIdle(w) =>
  }

  lemma GoIdleStays(s: State, w: nat)
    requires Enabled(s, GoIdle(w)) && NoneStranded(s)
    ensures NoneStranded(Apply(s, GoIdle(w)))
  {
    if HasUnpinned(s) {
      var v :| 0 <= v < |s.workers| && !Exiting(s.workers[v]);
      StaysFrame(Apply(s, GoIdle(w)), v);
    }
  }

  lemma StrandedKept(s: State, step: Step)
    requires Enabled(s, step) && ExecRuns(s) && StopFirst(s) && |s.workers| > 0 && NoneStranded(s)
    ensures NoneStranded(Apply(s, step))
  {
    match step
    case Take(w) => TakeStrandsNone(s, w);
    case Submit(source, _, _) => StaysFrame(Apply(s, step), if source.Inside? then source.w else 0);
    case GoIdle(w) => GoIdleStays(s, w);
    case StartCaller(w, quiet) =>
      if !StoppingNow(s, quiet) {
        StaysFrame(Apply(s, step), w);
      }
    case SetAutoStop =>
    case SetStopping =>
    case _ =>
      BusyStays(s, step);
      StaysFrame(Apply(s, step), step.w);
  }

  // ----- Every accepted task is in exactly one place -----

  function Queued(tasks: seq<Task>, ticket: nat): nat {
    if tasks == [] then 0 else (if tasks[0].ticket == ticket then 1 else 0) + Queued(tasks[1..], ticket)
  }

  function HeldBy(x: Worker, ticket: nat): nat {
    if InHand(x.pc).Some? && InHand(x.pc).value.ticket == ticket then 1 else 0
  }

  function Held(workers: seq<Worker>, ticket: nat): nat {
    if workers == [] then 0 else HeldBy(workers[0], ticket) + Held(workers[1..], ticket)
  }

  // In how many places a ticket is: the queue, the workers' hands, and the finished,
  // suspended, requeued and discarded.
  function Places(s: State, ticket: nat): nat {
    Queued(s.tasks, ticket) + Held(s.workers, ticket) + if ticket in s.closed then 1 else 0
  }

  ghost predicate Conserved(s: State) {
    forall ticket: nat :: Places(s, ticket) == if ticket < s.next then 1 else 0
  }

  lemma {:induction false} QueuedAppend(tasks: seq<Task>, t: Task, ticket: nat)
    ensures Queued(tasks + [t], ticket) == Queued(tasks, ticket) + if t.ticket == ticket then 1 else 0
  {
    if tasks != [] {
      assert (tasks + [t])[1..] == tasks[1..] + [t];
      QueuedAppend(tasks[1..], t, ticket);
    }
  }

  lemma {:induction false} QueuedWithout(tasks: seq<Task>, i: nat, ticket: nat)
    requires i < |tasks|
    ensures Queued(Without(tasks, i), ticket) == Queued(tasks, ticket) - if tasks[i].ticket == ticket then 1 else 0
  {
    if i > 0 {
      assert Without(tasks, i)[1..] == Without(tasks[1..], i - 1);
      QueuedWithout(tasks[1..], i - 1, ticket);
    } else {
      assert Without(tasks, 0) == tasks[1..];
    }
  }

  lemma {:induction false} HeldUpdate(workers: seq<Worker>, w: nat, x: Worker, ticket: nat)
    requires w < |workers|
    ensures Held(workers[w := x], ticket) == Held(workers, ticket) - HeldBy(workers[w], ticket) + HeldBy(x, ticket)
    ensures HeldBy(workers[w], ticket) <= Held(workers, ticket)
  {
    if w > 0 {
      assert workers[w := x][1..] == workers[1..][w - 1 := x];
      HeldUpdate(workers[1..], w - 1, x, ticket);
    }
  }

  // A step of worker w passes its ticket on or closes it.
  predicate HandMoved(s: State, r: State, w: nat, ticket: nat)
    requires w < |s.workers| == |r.workers|
  {
    HeldBy(r.workers[w], ticket) + (if ticket in r.closed then 1 else 0)
    == HeldBy(s.workers[w], ticket) + if ticket in s.closed then 1 else 0
  }

  lemma HandMoves(s: State, step: Step, ticket: nat)
    requires Enabled(s, step) && Actor(step).Some? && OnlyWorker(s, Apply(s, step), step.w) && !step.Take?
    requires Held(s.workers, ticket) + (if ticket in s.closed then 1 else 0) <= 1
    ensures HandMoved(s, Apply(s, step), step.w, ticket)
  {
    HeldUpdate(s.workers, step.w, s.workers[step.w], ticket);
    match step
    case Launch(w, newFiber) => LaunchHand(s, w, newFiber, ticket);
    case Settle(w) => SettleHand(s, w, ticket);
    case Requeue(w) => ReleaseHand(s, step, ticket);
    case Mark(w) => ReleaseHand(s, step, ticket);
    case _ => KeepHand(s, step, ticket);
  }

  lemma KeepHand(s: State, step: Step, ticket: nat)
    requires Enabled(s, step) && Actor(step).Some? && OnlyWorker(s, Apply(s, step), step.w)
    requires !step.Take? && !step.Launch? && !step.Settle? && !step.Requeue? && !step.Mark?
    ensures HandMoved(s, Apply(s, step), step.w, ticket)
  {
  }

  lemma ReleaseHand(s: State, step: Step, ticket: nat)
    requires Enabled(s, step) && (step.Requeue? || step.Mark?) && OnlyWorker(s, Apply(s, step), step.w)
    requires HeldBy(s.workers[step.w], ticket) + (if ticket in s.closed then 1 else 0) <= 1
    ensures HandMoved(s, Apply(s, step), step.w, ticket)
  {
  }

  lemma LaunchHand(s: State, w: nat, newFiber: nat, ticket: nat)
    requires w < |s.workers| && s.workers[w].pc.Picked? && OnlyWorker(s, AfterLaunch(s, w, newFiber), w)
    requires HeldBy(s.workers[w], ticket) + (if ticket in s.closed then 1 else 0) <= 1
    ensures HandMoved(s, AfterLaunch(s, w, newFiber), w, ticket)
  {
  }

  lemma SettleHand(s: State, w: nat, ticket: nat)
    requires w < |s.workers| && s.workers[w].pc.Settling? && OnlyWorker(s, AfterSettle(s, w), w)
    requires HeldBy(s.workers[w], ticket) + (if ticket in s.closed then 1 else 0) <= 1
    ensures HandMoved(s, AfterSettle(s, w), w, ticket)
  {
  }

  lemma TakePlaces(s: State, w: nat, ticket: nat)
    requires Enabled(s, Take(w)) && Places(s, ticket) == if ticket < s.next then 1 else 0
    ensures Places(AfterTake(s, w), ticket) == Places(s, ticket)
  {
    var r, i := AfterTake(s, w), Scan(s.tasks, s.fibers, w);
    assert r.workers == s.workers[w := r.workers[w]];
    HeldUpdate(s.workers, w, r.workers[w], ticket);
    if i.Some? {
      QueuedWithout(s.tasks, i.value, ticket);
    }
  }

  lemma PlacesKept(s: State, step: Step, ticket: nat)
    requires Enabled(s, step) && Places(s, ticket) == if ticket < s.next then 1 else 0
    ensures var r := Apply(s, step); Places(r, ticket) == if ticket < r.next then 1 else 0
  {
    if step.Take? {
      TakePlaces(s, step.w, ticket);
    } else {
      OnlyActor(s, step);
      if Actor(step).Some? {
        HeldUpdate(s.workers, step.w, Apply(s, step).workers[step.w], ticket);
        HandMoves(s, step, ticket);
      }
      QueueMoves(s, step, ticket);
    }
  }

  // What it does to the queue.
  lemma QueueMoves(s: State, step: Step, ticket: nat)
    requires Enabled(s, step) && !step.Take?
    ensures Queued(Apply(s, step).tasks, ticket) - (if ticket < Apply(s, step).next then 1 else 0)
         == Queued(s.tasks, ticket) - if ticket < s.next then 1 else 0
  {
    match step
    case Submit(_, work, thread) => QueuedAppend(s.tasks, Task(work, thread, s.next), ticket);
    case Requeue(w) => QueuedAppend(s.tasks, Task(Resume(s.workers[w].pc.fiber), None, s.next), ticket);
    case Launch(w, newFiber) => LaunchStays(s, w, newFiber);
    case Settle(w) => SettleStays(s, w);
    case _ =>
  }

  // ----- All of it, in every reachable state -----

  ghost predicate Sound(s: State) {
    && |s.workers| > 0
    && s.active == Actives(s.workers) && s.idle == Idles(s.workers)
    && ExecRuns(s) && Pinned(s) && StopFirst(s) && NoneStranded(s) && Conserved(s)
  }

  lemma StepSound(s: State, step: Step)
    requires Sound(s) && Enabled(s, step)
    ensures Sound(Apply(s, step))
  {
    OnlyActor(s, step);
    CountsKept(s, step);
    ExecKept(s, step);
    PinnedKept(s, step);
    StopFirstKept(s, step);
    StrandedKept(s, step);
    forall ticket: nat
      ensures Places(Apply(s, step), ticket) == if ticket < Apply(s, step).next then 1 else 0
    {
      PlacesKept(s, step, ticket);
    }
  }

  // s leads to r by some steps.
  ghost predicate Leads(s: State, steps: seq<Step>, r: State)
    decreases |steps|
  {
    if steps == [] then r == s else Enabled(s, steps[0]) && Leads(Apply(s, steps[0]), steps[1..], r)
  }

  ghost predicate LeadsTo(s: State, r: State) {
    exists steps :: Leads(s, steps, r)
  }

  ghost predicate Reachable(s: State) {
    exists start, steps :: Initial(start) && Leads(start, steps, s)
  }

  lemma {:induction false} LeadsSound(s: State, steps: seq<Step>, r: State)
    requires Sound(s) && Leads(s, steps, r)
    ensures Sound(r)
    decreases |steps|
  {
    if steps != [] {
      StepSound(s, steps[0]);
      LeadsSound(Apply(s, steps[0]), steps[1..], r);
    }
  }

  lemma {:induction false} InitialCounts(workers: seq<Worker>, ticket: nat)
    requires forall w :: 0 <= w < |workers| ==> workers[w].pc.Top? || workers[w].pc.NotStarted?
    ensures Actives(workers) == 0 && Idles(workers) == 0 && Held(workers, ticket) == 0
  {
    if workers != [] {
      InitialCounts(workers[1..], ticket);
    }
  }

  lemma ReachableSound(s: State)
    requires Reachable(s)
    ensures Sound(s)
  {
    var start, steps :| Initial(start) && Leads(start, steps, s);
    forall ticket: nat
      ensures Actives(start.workers) == 0 && Idles(start.workers) == 0 && Held(start.workers, ticket) == 0
    {
      InitialCounts(start.workers, ticket);
    }
    assert Held(start.workers, 0) == 0;
    LeadsSound(start, steps, s);
  }

  // ----- What follows -----

  // Every accepted task is in exactly one place.
  lemma OnePlace(s: State, ticket: nat)
    requires Reachable(s)
    ensures Places(s, ticket) == if ticket < s.next then 1 else 0
  {
    ReachableSound(s);
  }

  // The counters are the workers they count, and nobody holds what is pinned to another.
  lemma CountsAgree(s: State, w: nat)
    requires Reachable(s) && w < |s.workers|
    ensures s.active == Actives(s.workers) && s.idle == Idles(s.workers)
    ensures InHand(s.workers[w].pc).Some? && InHand(s.workers[w].pc).value.thread.Some? ==>
              InHand(s.workers[w].pc).value.thread.value == w
  {
    ReachableSound(s);
  }

  // While an unpinned task is queued, some worker has not left and will look at the queue
  // again before it does.
  lemma NoTaskStranded(s: State, i: nat)
    requires Reachable(s) && i < |s.tasks| && s.tasks[i].thread.None?
    ensures exists w :: 0 <= w < |s.workers| && !Exiting(s.workers[w])
  {
    ReachableSound(s);
    assert HasUnpinned(s);
  }

  // Once every worker has left, nothing runs, every task still queued is pinned, and every
  // other accepted task has run, been put aside by itself, or been discarded.
  lemma NothingLeftBehind(s: State, ticket: nat)
    requires Reachable(s) && ticket < s.next
    requires forall w :: 0 <= w < |s.workers| ==> s.workers[w].pc.Left?
    ensures s.active == 0
    ensures forall i :: 0 <= i < |s.tasks| ==> s.tasks[i].thread.Some?
    ensures ticket in s.closed <==> Queued(s.tasks, ticket) == 0
  {
    ReachableSound(s);
    LeftHoldNothing(s.workers, ticket);
    assert Places(s, ticket) == 1;
  }

  lemma {:induction false} LeftHoldNothing(workers: seq<Worker>, ticket: nat)
    requires forall w :: 0 <= w < |workers| ==> workers[w].pc.Left?
    ensures Actives(workers) == 0 && Held(workers, ticket) == 0
  {
    if workers != [] {
      LeftHoldNothing(workers[1..], ticket);
    }
  }

  lemma {:induction false} LeadsThen(s: State, steps: seq<Step>, m: State, step: Step)
    requires Leads(s, steps, m) && Enabled(m, step)
    ensures Leads(s, steps + [step], Apply(m, step))
    decreases |steps|
  {
    if steps == [] {
      assert ([] + [step])[1..] == [];
      assert Leads(Apply(m, step), [], Apply(m, step));
    } else {
      LeadsThen(Apply(s, steps[0]), steps[1..], m, step);
      assert (steps + [step])[1..] == steps[1..] + [step];
    }
  }

  // ----- Pinned tasks at shutdown -----

  // Worker w has not left and will look at the queue again before it does. Threads that are
  // no workers never look.
  predicate Stays(s: State, w: nat) {
    w < |s.workers| && !Exiting(s.workers[w])
  }

  // A queued task whose worker has left, or leaves without another look at the queue.
  ghost predicate Orphan(s: State, t: Task) {
    t in s.tasks && t.thread.Some? && !Stays(s, t.thread.value)
  }

  lemma OrphanQueued(s: State, step: Step, t: Task)
    requires Enabled(s, step) && Orphan(s, t)
    ensures t in Apply(s, step).tasks
  {
    if step.Take? && Scan(s.tasks, s.fibers, step.w).Some? {
      ScanIsEarliest(s.tasks, s.fibers, step.w);
      var i := Scan(s.tasks, s.fibers, step.w).value;
      var j :| 0 <= j < |s.tasks| && s.tasks[j] == t;
      assert Without(s.tasks, i)[if j < i then j else j - 1] == t;
    }
  }

  // While there are tasks no idle fiber ends, and who is leaving leaves.
  lemma TasksKeepIdle(s: State, step: Step)
    requires Enabled(s, step) && Actor(step).Some? && s.tasks != [] && OnlyWorker(s, Apply(s, step), step.w)
    ensures var w, r := step.w, Apply(s, step);
            && !s.workers[w].pc.Left?
            && r.workers[w].idleDone == s.workers[w].idleDone
            && (Exiting(s.workers[w]) ==> r.workers[w].pc.Left?)
  {
    match step
    case Take(w) =>
    case Launch(w, newFiber) => LaunchStays(s, w, newFiber);
    case Yield(w, _) =>
    case Lower(w) =>
    case Settle(w) => SettleStays(s, w);
    case Requeue(w) =>
    case Mark(w) =>
    case GoIdle(w) =>
    case AskStopping(w, _) =>
    case LeaveIdle(w) =>
    case StartCaller(w, _) =>
  }

  // It is never taken, and it keeps the idle fibers of the other workers from ending.
  lemma OrphanStays(s: State, step: Step, t: Task)
    requires Enabled(s, step) && Orphan(s, t)
    ensures var r := Apply(s, step);
            && Orphan(r, t) && |r.workers| == |s.workers|
            && forall w :: 0 <= w < |s.workers| ==> r.workers[w].idleDone == s.workers[w].idleDone
  {
    OnlyActor(s, step);
    OrphanQueued(s, step, t);
    if Actor(step).Some? {
      TasksKeepIdle(s, step);
    }
  }

  // The one way to become an orphan: while the task is queued, its worker looks and finds
  // nothing that it may run, after its idle fiber has ended.
  predicate LooksInVain(s: State, step: Step, w: nat) {
    step == Take(w) && w < |s.workers| && s.workers[w].idleDone && Scan(s.tasks, s.fibers, w).None?
  }

  lemma OrphanedExactly(s: State, step: Step, t: Task)
    requires Enabled(s, step) && t in s.tasks && t in Apply(s, step).tasks && t.thread.Some?
    requires Stays(s, t.thread.value)
    ensures Orphan(Apply(s, step), t) <==> LooksInVain(s, step, t.thread.value)
    ensures LooksInVain(s, step, t.thread.value) ==> Executing(s.fibers, t.work)
  {
    var w := t.thread.value;
    OnlyActor(s, step);
    if step == Take(w) {
      ScanIsEarliest(s.tasks, s.fibers, w);
      var i :| 0 <= i < |s.tasks| && s.tasks[i] == t;
      assert Scan(s.tasks, s.fibers, w).None? ==> !Eligible(s.fibers, w, s.tasks[i]);
    } else if Actor(step) == Some(w) && !step.GoIdle? && !step.StartCaller? {
      BusyStays(s, step);
    }
  }

  // A pinned callback whose worker stays, or a pinned fiber whose worker's idle fiber goes
  // on as well. Once taken, a task does not come back: new tasks have new tickets.
  ghost predicate LookedFor(s: State, t: Task) {
    && t.thread.Some? && t.ticket < s.next
    && (t in s.tasks ==>
          Stays(s, t.thread.value) && (t.work.Call? || !s.workers[t.thread.value].idleDone))
  }

  lemma NotQueuedAgain(s: State, step: Step, t: Task)
    requires Enabled(s, step) && t.ticket < s.next && t !in s.tasks
    ensures t !in Apply(s, step).tasks && t.ticket < Apply(s, step).next
  {
    match step
    case Launch(w, newFiber) => LaunchStays(s, w, newFiber);
    case Settle(w) => SettleStays(s, w);
    case _ =>
  }

  lemma LookedForStep(s: State, step: Step, t: Task)
    requires Enabled(s, step) && LookedFor(s, t)
    ensures LookedFor(Apply(s, step), t)
  {
    NextGrows(s, step);
    if t !in s.tasks {
      NotQueuedAgain(s, step, t);
    } else if t in Apply(s, step).tasks {
      OrphanedExactly(s, step, t);
      OnlyActor(s, step);
      if Actor(step).Some? {
        TasksKeepIdle(s, step);
      }
    }
  }

  lemma NextGrows(s: State, step: Step)
    requires Enabled(s, step)
    ensures s.next <= Apply(s, step).next
  {
    match step
    case Launch(w, newFiber) => LaunchStays(s, w, newFiber);
    case Settle(w) => SettleStays(s, w);
    case _ =>
  }

  lemma {:induction false} LookedForRun(s: State, steps: seq<Step>, r: State, t: Task)
    requires LookedFor(s, t) && Leads(s, steps, r)
    ensures LookedFor(r, t)
    decreases |steps|
  {
    if steps != [] {
      LookedForStep(s, steps[0], t);
      LookedForRun(Apply(s, steps[0]), steps[1..], r, t);
    }
  }

  lemma {:induction false} OrphanRun(s: State, steps: seq<Step>, r: State, t: Task)
    requires Orphan(s, t) && Leads(s, steps, r)
    ensures Orphan(r, t)
    decreases |steps|
  {
    if steps != [] {
      OrphanStays(s, steps[0], t);
      OrphanRun(Apply(s, steps[0]), steps[1..], r, t);
    }
  }

  // A callback submitted for thread w: if worker w stays, then it stays for as long as the
  // callback is queued, however the run goes on; if it does not, the callback is queued for
  // good. Nothing else is possible.
  lemma PinnedCallbackExactly(s: State, step: Step, w: nat)
    requires Enabled(s, step) && step.Submit? && step.work.Call? && step.thread == Some(w)
    ensures var m, t := Apply(s, step), Task(step.work, Some(w), s.next);
            && (Stays(s, w) <==> forall r :: LeadsTo(m, r) && t in r.tasks ==> Stays(r, w))
            && (!Stays(s, w) <==> forall r :: LeadsTo(m, r) ==> t in r.tasks && !Stays(r, w))
  {
    var m, t := Apply(s, step), Task(step.work, Some(w), s.next);
    assert m.tasks[|s.tasks|] == t && Stays(m, w) == Stays(s, w);
    assert Leads(m, [], m) && LeadsTo(m, m);
    if Stays(s, w) {
      forall r | LeadsTo(m, r) && t in r.tasks
        ensures Stays(r, w)
      {
        var steps :| Leads(m, steps, r);
        LookedForRun(m, steps, r, t);
      }
    } else {
      forall r | LeadsTo(m, r)
        ensures t in r.tasks && !Stays(r, w)
      {
        var steps :| Leads(m, steps, r);
        OrphanRun(m, steps, r, t);
      }
    }
  }

  // For a fiber submitted for thread w the same holds while the idle fiber of worker w goes
  // on. When that has ended, the fiber is left behind exactly if the worker looks while the
  // fiber runs elsewhere and finds nothing else (OrphanedExactly).
  lemma PinnedFiberLookedFor(s: State, step: Step, w: nat, r: State)
    requires Enabled(s, step) && step.Submit? && step.thread == Some(w)
    requires Stays(s, w) && !s.workers[w].idleDone && LeadsTo(Apply(s, step), r)
    ensures Task(step.work, Some(w), s.next) in r.tasks ==> Stays(r, w)
  {
    var steps :| Leads(Apply(s, step), steps, r);
    LookedForRun(Apply(s, step), steps, r, Task(step.work, Some(w), s.next));
  }

  // Before `stop` every worker stays.
  lemma StaysBeforeStop(s: State, w: nat)
    requires Reachable(s) && !s.autoStop && w < |s.workers|
    ensures Stays(s, w) && !s.workers[w].idleDone
  {
    ReachableSound(s);
  }

  // So whatever is pinned to a worker before `stop`, callback or fiber, is looked for.
  lemma PinnedBeforeStop(s: State, step: Step, w: nat, r: State)
    requires Reachable(s) && !s.autoStop && w < |s.workers|
    requires Enabled(s, step) && step.Submit? && step.thread == Some(w) && LeadsTo(Apply(s, step), r)
    ensures Task(step.work, Some(w), s.next) in r.tasks ==> Stays(r, w)
  {
    StaysBeforeStop(s, w);
    PinnedFiberLookedFor(s, step, w, r);
  }

  // ----- A pinned task can be left behind -----

  lemma ReachableTo(s: State, step: Step, r: State)
    requires Reachable(s) && Enabled(s, step) && Apply(s, step) == r
    ensures Reachable(r)
  {
    var start, steps :| Initial(start) && Leads(start, steps, s);
    LeadsThen(start, steps, s, step);
  }

  // Two workers after `stop` has been called; x is where the second one is.
  function Pair(pc: Pc, x: Worker, tasks: seq<Task>, state: FiberState,
                active: int, idle: int, next: nat, closed: map<nat, Fate>): State {
    State([Worker(pc, None, false), x], tasks, map[7 := state], active, idle, true, true, false, next, closed)
  }

  // A fiber that runs, yields Ready, is queued again and runs again.
  const A: Task := Task(Resume(7), None, 0)
  const B: Task := Task(Resume(7), None, 1)

  lemma FirstTaken() returns (s: State)
    ensures s == Pair(Picked(A), Worker(Top, None, false), [], Init, 1, 0, 1, map[])
                 .(autoStop := false, stopping := false)
    ensures Reachable(s)
  {
    var s0 := State([Worker(Top, None, false), Worker(Top, None, false)], [], map[7 := Init],
                    0, 0, false, false, false, 0, map[]);
    assert Initial(s0) && Leads(s0, [], s0);
    var s1 := s0.(tasks := [A], next := 1);
    ReachableTo(s0, Submit(Outside, Resume(7), None), s1);
    s := s1.(workers := [Worker(Picked(A), None, false), Worker(Top, None, false)], tasks := [], active := 1);
    ReachableTo(s1, Take(0), s);
  }

  lemma StopWhileRunning() returns (s: State)
    ensures s == Pair(Running(7, A, false), Worker(Top, None, false), [], Exec, 1, 0, 1, map[]) && Reachable(s)
  {
    var s0 := FirstTaken();
    var s1 := Pair(Running(7, A, false), Worker(Top, None, false), [], Exec, 1, 0, 1, map[])
              .(autoStop := false, stopping := false);
    ReachableTo(s0, Launch(0, 8), s1);
    ReachableTo(s1, SetAutoStop, s1.(autoStop := true));
    s := s1.(autoStop := true, stopping := true);
    ReachableTo(s1.(autoStop := true), SetStopping, s);
  }

  // The second worker is idle when the first has lowered the active count but not yet
  // queued the fiber again.
  lemma IdleInTheGap() returns (s: State)
    ensures s == Pair(Settling(7, A, false), Worker(Idling, None, false), [], Ready, 0, 1, 1, map[]) && Reachable(s)
  {
    var s0 := StopWhileRunning();
    var s1 := Pair(Running(7, A, false), Worker(Nothing, None, false), [], Exec, 1, 0, 1, map[]);
    ReachableTo(s0, Take(1), s1);
    var s2 := Pair(Running(7, A, false), Worker(Idling, None, false), [], Exec, 1, 1, 1, map[]);
    ReachableTo(s1, GoIdle(1), s2);
    var s3 := Pair(Returned(7, A, false), Worker(Idling, None, false), [], Ready, 1, 1, 1, map[]);
    ReachableTo(s2, Yield(0, Ready), s3);
    s := Pair(Settling(7, A, false), Worker(Idling, None, false), [], Ready, 0, 1, 1, map[]);
    ReachableTo(s3, Lower(0), s);
  }

  // So its idle fiber ends.
  lemma TopInTheGap() returns (s: State)
    ensures s == Pair(Settling(7, A, false), Worker(Top, None, true), [], Ready, 0, 0, 1, map[]) && Reachable(s)
  {
    var s0 := IdleInTheGap();
    s := Pair(Settling(7, A, false), Worker(Top, None, true), [], Ready, 0, 0, 1, map[]);
    ReachableTo(s0, AskStopping(1, true), s);
  }

  // And it leaves.
  lemma LeaveInTheGap() returns (s: State)
    ensures s == Pair(Settling(7, A, false), Worker(Left, None, true), [], Ready, 0, 0, 1, map[]) && Reachable(s)
  {
    var s0 := TopInTheGap();
    var s1 := Pair(Settling(7, A, false), Worker(Nothing, None, true), [], Ready, 0, 0, 1, map[]);
    ReachableTo(s0, Take(1), s1);
    s := Pair(Settling(7, A, false), Worker(Left, None, true), [], Ready, 0, 0, 1, map[]);
    ReachableTo(s1, GoIdle(1), s);
  }

  // Wherever the second worker is, the first queues the fiber again and runs it.
  lemma QueueAgain(x: Worker) returns (s: State)
    requires Reachable(Pair(Settling(7, A, false), x, [], Ready, 0, 0, 1, map[]))
    ensures s == Pair(Top, x, [B], Ready, 0, 0, 2, map[0 := Requeued]) && Reachable(s)
  {
    var s0 := Pair(Settling(7, A, false), x, [], Ready, 0, 0, 1, map[]);
    var s1 := Pair(Requeuing(7, A, false), x, [], Ready, 0, 0, 1, map[]);
    ReachableTo(s0, Settle(0), s1);
    s := Pair(Top, x, [B], Ready, 0, 0, 2, map[0 := Requeued]);
    ReachableTo(s1, Requeue(0), s);
  }

  lemma RunAgain(x: Worker) returns (s: State)
    requires Reachable(Pair(Settling(7, A, false), x, [], Ready, 0, 0, 1, map[]))
    ensures s == Pair(Running(7, B, false), x, [], Exec, 1, 0, 2, map[0 := Requeued]) && Reachable(s)
  {
    var s0 := QueueAgain(x);
    var s1 := Pair(Picked(B), x, [], Ready, 1, 0, 2, map[0 := Requeued]);
    ReachableTo(s0, Take(0), s1);
    s := Pair(Running(7, B, false), x, [], Exec, 1, 0, 2, map[0 := Requeued]);
    ReachableTo(s1, Launch(0, 8), s);
  }

  // What it now submits to the second worker stays in the queue for good.
  lemma PinnedTaskStranded()
    ensures exists s, t :: Reachable(s) && Orphan(s, t)
  {
    var s0 := LeaveInTheGap();
    var s1 := RunAgain(Worker(Left, None, true));
    var t := Task(Call(9), Some(1), 2);
    var s2 := s1.(tasks := [t], next := 3);
    ReachableTo(s1, Submit(Inside(0), Call(9), Some(1)), s2);
    assert Orphan(s2, t);
  }

  // A fiber that submits itself to the second worker, which has not left yet but looks for
  // it while it still runs, and then leaves.
  lemma PinnedFiberStranded()
    ensures exists s, step, t :: Reachable(s) && Enabled(s, step) && t in s.tasks && t.work.Resume?
              && t.thread == Some(1) && Stays(s, 1) && Orphan(Apply(s, step), t)
  {
    var s0 := TopInTheGap();
    var s1 := RunAgain(Worker(Top, None, true));
    var t := Task(Resume(7), Some(1), 2);
    var s2 := s1.(tasks := [t], next := 3);
    ReachableTo(s1, Submit(Inside(0), Resume(7), Some(1)), s2);
    assert Scan([t], s2.fibers, 1).None?;
    assert LooksInVain(s2, Take(1), 1) && Apply(s2, Take(1)).tasks == [t];
    OrphanedExactly(s2, Take(1), t);
  }

  // It needs no fiber either. Two workers, after `stop` ...
  lemma BothTop() returns (s: State)
    ensures s == Pair(Top, Worker(Top, None, false), [], Init, 0, 0, 0, map[]) && Reachable(s)
  {
    var s0 := Pair(Top, Worker(Top, None, false), [], Init, 0, 0, 0, map[]).(autoStop := false, stopping := false);
    assert Initial(s0) && Leads(s0, [], s0);
    var s1 := s0.(autoStop := true);
    ReachableTo(s0, SetAutoStop, s1);
    s := s1.(stopping := true);
    ReachableTo(s1, SetStopping, s);
  }

  // ... go idle.
  lemma BothIdle() returns (s: State)
    ensures s == Pair(Idling, Worker(Idling, None, false), [], Init, 0, 2, 0, map[]) && Reachable(s)
  {
    var s0 := BothTop();
    var s1 := Pair(Nothing, Worker(Top, None, false), [], Init, 0, 0, 0, map[]);
    ReachableTo(s0, Take(0), s1);
    var s2 := Pair(Idling, Worker(Top, None, false), [], Init, 0, 1, 0, map[]);
    ReachableTo(s1, GoIdle(0), s2);
    s := BothIdleThen(s2);
  }

  lemma BothIdleThen(s0: State) returns (s: State)
    requires s0 == Pair(Idling, Worker(Top, None, false), [], Init, 0, 1, 0, map[]) && Reachable(s0)
    ensures s == Pair(Idling, Worker(Idling, None, false), [], Init, 0, 2, 0, map[]) && Reachable(s)
  {
    var s1 := Pair(Idling, Worker(Nothing, None, false), [], Init, 0, 1, 0, map[]);
    ReachableTo(s0, Take(1), s1);
    s := Pair(Idling, Worker(Idling, None, false), [], Init, 0, 2, 0, map[]);
    ReachableTo(s1, GoIdle(1), s);
  }

  // The first asks while a timer is left, and goes on to collect it; the second asks after
  // that, and leaves.
  lemma PollingAlone() returns (s: State)
    ensures s == Pair(Polling, Worker(Left, None, true), [], Init, 0, 1, 0, map[]) && Reachable(s)
  {
    var s0 := BothIdle();
    var s1 := Pair(Polling, Worker(Idling, None, false), [], Init, 0, 2, 0, map[]);
    ReachableTo(s0, AskStopping(0, false), s1);
    var s2 := Pair(Polling, Worker(Top, None, true), [], Init, 0, 1, 0, map[]);
    ReachableTo(s1, AskStopping(1, true), s2);
    var s3 := Pair(Polling, Worker(Nothing, None, true), [], Init, 0, 1, 0, map[]);
    ReachableTo(s2, Take(1), s3);
    s := Pair(Polling, Worker(Left, None, true), [], Init, 0, 1, 0, map[]);
    ReachableTo(s3, GoIdle(1), s);
  }

  // The timer's callback is scheduled for anyone and taken by the first worker.
  lemma CallbackTaken() returns (s: State)
    ensures s == Pair(Picked(Task(Call(9), None, 0)), Worker(Left, None, true), [], Init, 1, 0, 1, map[])
    ensures Reachable(s)
  {
    var s0 := PollingAlone();
    var t := Task(Call(9), None, 0);
    var s1 := Pair(Polling, Worker(Left, None, true), [t], Init, 0, 1, 1, map[]);
    ReachableTo(s0, Submit(Inside(0), Call(9), None), s1);
    var s2 := Pair(Top, Worker(Left, None, true), [t], Init, 0, 0, 1, map[]);
    ReachableTo(s1, LeaveIdle(0), s2);
    s := Pair(Picked(t), Worker(Left, None, true), [], Init, 1, 0, 1, map[]);
    ReachableTo(s2, Take(0), s);
  }

  lemma CallbackAlone() returns (s: State)
    ensures Reachable(s) && At(s, 0).Running? && !s.crashed && s.next == 1
    ensures s.tasks == [] && s.closed == map[] && |s.workers| == 2 && s.workers[1] == Worker(Left, None, true)
  {
    var s0 := CallbackTaken();
    s := Apply(s0, Launch(0, 8));
    ReachableTo(s0, Launch(0, 8), s);
  }

  // What that submits to the second worker is left behind, too: no task had been requeued.
  lemma PinnedByTimerStranded()
    ensures exists s, t :: Reachable(s) && Orphan(s, t) && s.closed == map[]
  {
    var s0 := CallbackAlone();
    var t := Task(Call(10), Some(1), 1);
    var s1 := s0.(tasks := [t], next := 2);
    ReachableTo(s0, Submit(Inside(0), Call(10), Some(1)), s1);
    assert Orphan(s1, t);
  }
}
