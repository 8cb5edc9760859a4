// No fiber is run by two workers at once: under which discipline of submitting this holds,
// and a run without it where it fails.
module FiberExclusion {
  import opened Options
  import opened SchedulerSteps
  import opened SchedulerRuns

  // Fiber f is in the hands of a worker at this point.
  predicate Holds(pc: Pc, f: nat) {
    match pc
    case Picked(task) => task.work == Resume(f)
    case Running(g, _, _) => g == f
    case Returned(g, _, _) => g == f
    case Settling(g, _, _) => g == f
    case Requeuing(g, _, _) => g == f
    case Marking(g, _, _) => g == f
    case _ => false
  }

  // The fiber a worker keeps for its next callback.
  predicate Spare(x: Worker, f: nat) {
    x.cbFiber == Some(f) && !Holds(x.pc, f)
  }

  predicate InQueue(tasks: seq<Task>, f: nat) {
    exists i :: 0 <= i < |tasks| && tasks[i].work == Resume(f)
  }

  // No other worker can take the task.
  predicate OnlyFor(s: State, thread: Option<nat>, w: nat) {
    thread == Some(w) || |s.workers| == 1
  }

  // ----- The discipline -----

  // At which points a fiber in the hands of a worker may be queued, for that worker: before
  // and while it runs, once it has put itself on hold, or when it has ended for good.
  predicate MayBeQueued(s: State, pc: Pc) {
    match pc
    case Picked(_) => true
    case Running(_, _, _) => true
    case Returned(f, _, own) => StateOf(s, f) == Hold || (StateOf(s, f) == Term && !own)
    case Settling(f, _, own) => StateOf(s, f) == Hold || (StateOf(s, f) == Term && !own)
    case Marking(_, _, _) => true
    case _ => false
  }

  // A fiber is submitted only when it is not queued, and while a worker holds it, only to
  // that worker; a fiber submitted while it runs goes on hold next, or ends if it is not
  // the worker's own callback fiber.
  ghost predicate Disciplined(s: State, step: Step) {
    && (step.Submit? && step.work.Resume? ==>
          var f := step.work.fiber;
          && !InQueue(s.tasks, f)
          && forall w :: 0 <= w < |s.workers| ==>
               && !Spare(s.workers[w], f)
               && (Holds(s.workers[w].pc, f) ==> OnlyFor(s, step.thread, w) && MayBeQueued(s, s.workers[w].pc)))
    && (step.Yield? && At(s, step.w).Running? && InQueue(s.tasks, At(s, step.w).fiber) ==>
          step.how == Hold || (step.how == Term && !At(s, step.w).own))
  }

  // ----- The invariant -----

  ghost predicate HeldOnce(s: State) {
    forall w, v, f :: 0 <= w < |s.workers| && 0 <= v < |s.workers| && w != v && Holds(s.workers[w].pc, f) ==>
      !Holds(s.workers[v].pc, f)
  }

  ghost predicate QueuedOnce(tasks: seq<Task>) {
    forall i, j :: 0 <= i < j < |tasks| && tasks[i].work.Resume? ==> tasks[i].work != tasks[j].work
  }

  predicate QueuedAndHeld(s: State, i: nat, w: nat)
    requires i < |s.tasks| && w < |s.workers|
  {
    s.tasks[i].work.Resume? && Holds(s.workers[w].pc, s.tasks[i].work.fiber)
  }

  // A queued fiber that is held waits for its holder.
  ghost predicate QueuedHeld(s: State) {
    forall i, w :: 0 <= i < |s.tasks| && 0 <= w < |s.workers| && QueuedAndHeld(s, i, w) ==>
      OnlyFor(s, s.tasks[i].thread, w) && MayBeQueued(s, s.workers[w].pc)
  }

  // The state of a fiber fits the point of its holder.
  predicate Fits(s: State, x: Worker) {
    match x.pc
    case Picked(task) => task.work.Resume? ==>
      task.work.fiber in s.fibers && s.fibers[task.work.fiber] != Exec && x.cbFiber != Some(task.work.fiber)
    case Running(f, _, own) => f in s.fibers && s.fibers[f] == Exec && own == (x.cbFiber == Some(f))
    case Returned(f, _, own) => f in s.fibers && Yielded(s.fibers[f]) && own == (x.cbFiber == Some(f))
    case Settling(f, _, own) => f in s.fibers && Yielded(s.fibers[f]) && own == (x.cbFiber == Some(f))
    case Requeuing(f, _, own) => f in s.fibers && s.fibers[f] == Ready && own == (x.cbFiber == Some(f))
    case Marking(f, _, own) => f in s.fibers && s.fibers[f] == Hold && own == (x.cbFiber == Some(f))
    case _ => true
  }

  predicate Yielded(state: FiberState) {
    state == Hold || state == Ready || state == Term
  }

  ghost predicate AllFit(s: State) {
    forall w :: 0 <= w < |s.workers| ==> Fits(s, s.workers[w])
  }

  // A spare fiber has ended and been reset; it is nowhere else.
  ghost predicate SparesFree(s: State) {
    forall w, f :: 0 <= w < |s.workers| && Spare(s.workers[w], f) ==> Unused(s, w, f)
  }

  ghost predicate Unused(s: State, w: nat, f: nat) {
    && f in s.fibers && s.fibers[f] == Init
    && !InQueue(s.tasks, f)
    && forall v :: 0 <= v < |s.workers| && v != w ==> !Holds(s.workers[v].pc, f)
  }

  ghost predicate SparesDiffer(s: State) {
    forall w, v :: 0 <= w < |s.workers| && 0 <= v < |s.workers| && w != v && s.workers[w].cbFiber.Some? ==>
      s.workers[w].cbFiber != s.workers[v].cbFiber
  }

  ghost predicate QueueKnown(s: State) {
    forall i :: 0 <= i < |s.tasks| && s.tasks[i].work.Resume? ==> s.tasks[i].work.fiber in s.fibers
  }

  ghost predicate Exclusive(s: State) {
    && !s.crashed
    && HeldOnce(s) && QueuedOnce(s.tasks) && QueuedHeld(s) && AllFit(s)
    && SparesFree(s) && SparesDiffer(s) && QueueKnown(s)
  }

  // ----- Every disciplined step keeps it -----

  // Worker w moves on with the fiber it holds, whose state becomes `state`.
  ghost predicate Moves(s: State, r: State, w: nat, f: nat, state: FiberState, pc: Pc) {
    && Exclusive(s) && !r.crashed && w < |s.workers| && Holds(s.workers[w].pc, f) && Holds(pc, f)
    && r.workers == s.workers[w := s.workers[w].(pc := pc)] && r.tasks == s.tasks && r.fibers == s.fibers[f := state]
    && Fits(r, r.workers[w])
  }

  lemma MoveFits(s: State, r: State, w: nat, f: nat, state: FiberState, pc: Pc)
    requires Moves(s, r, w, f, state, pc)
    ensures AllFit(r)
  {
    forall v | 0 <= v < |r.workers|
      ensures Fits(r, r.workers[v])
    {
      assert v != w ==> Fits(s, s.workers[v]) && !Holds(s.workers[v].pc, f);
    }
  }

  lemma MoveHeld(s: State, r: State, w: nat, f: nat, state: FiberState, pc: Pc)
    requires Moves(s, r, w, f, state, pc)
    ensures HeldOnce(r)
  {
    assert forall g :: Holds(pc, g) ==> g == f;
    assert forall v, g :: 0 <= v < |r.workers| && Holds(r.workers[v].pc, g) ==> Holds(s.workers[v].pc, g);
  }

  lemma MoveSpares(s: State, r: State, w: nat, f: nat, state: FiberState, pc: Pc)
    requires Moves(s, r, w, f, state, pc)
    ensures SparesFree(r) && SparesDiffer(r)
  {
    forall v, g | 0 <= v < |r.workers| && Spare(r.workers[v], g)
      ensures Unused(r, v, g)
    {
      assert Spare(s.workers[v], g) && g != f;
      assert !Holds(pc, g);
    }
  }

  lemma MoveQueued(s: State, r: State, w: nat, f: nat, state: FiberState, pc: Pc)
    requires Moves(s, r, w, f, state, pc) && (InQueue(s.tasks, f) ==> MayBeQueued(r, pc))
    ensures QueuedHeld(r)
  {
    forall i, v | 0 <= i < |r.tasks| && 0 <= v < |r.workers| && QueuedAndHeld(r, i, v)
      ensures OnlyFor(r, r.tasks[i].thread, v) && MayBeQueued(r, r.workers[v].pc)
    {
      assert QueuedAndHeld(s, i, v);
      assert v != w ==> !Holds(s.workers[v].pc, f);
    }
  }

  lemma MoveExclusive(s: State, r: State, w: nat, f: nat, state: FiberState, pc: Pc)
    requires Moves(s, r, w, f, state, pc) && (InQueue(s.tasks, f) ==> MayBeQueued(r, pc))
    ensures Exclusive(r)
  {
    MoveFits(s, r, w, f, state, pc);
    MoveHeld(s, r, w, f, state, pc);
    MoveSpares(s, r, w, f, state, pc);
    MoveQueued(s, r, w, f, state, pc);
  }

  // Worker w lets go of the fiber it holds; its callback fiber it may drop or keep.
  ghost predicate LetsGo(s: State, r: State, w: nat, f: nat, state: FiberState, x: Worker) {
    && Exclusive(s) && !r.crashed && w < |s.workers| && Holds(s.workers[w].pc, f)
    && x.pc.Top? && (x.cbFiber == None || x.cbFiber == s.workers[w].cbFiber)
    && r.workers == s.workers[w := x] && r.tasks == s.tasks && r.fibers == s.fibers[f := state]
  }

  lemma LetGoHolds(s: State, r: State, w: nat, f: nat, state: FiberState, x: Worker)
    requires LetsGo(s, r, w, f, state, x)
    ensures AllFit(r) && HeldOnce(r) && QueuedHeld(r)
  {
    forall v | 0 <= v < |r.workers|
      ensures Fits(r, r.workers[v])
    {
      assert v != w ==> Fits(s, s.workers[v]) && !Holds(s.workers[v].pc, f);
    }
    forall i, v | 0 <= i < |r.tasks| && 0 <= v < |r.workers| && QueuedAndHeld(r, i, v)
      ensures OnlyFor(r, r.tasks[i].thread, v) && MayBeQueued(r, r.workers[v].pc)
    {
      assert QueuedAndHeld(s, i, v);
      assert !Holds(s.workers[v].pc, f);
    }
  }

  lemma LetGoExclusive(s: State, r: State, w: nat, f: nat, state: FiberState, x: Worker)
    requires LetsGo(s, r, w, f, state, x)
    requires x.cbFiber == Some(f) ==> state == Init && !InQueue(s.tasks, f)
    ensures Exclusive(r)
  {
    LetGoHolds(s, r, w, f, state, x);
    forall v, g | 0 <= v < |r.workers| && Spare(r.workers[v], g)
      ensures (v == w && g == f) || (g != f && Spare(s.workers[v], g))
    {
    }
  }

  predicate Free(pc: Pc) {
    pc.NotStarted? || pc.Top? || pc.Nothing? || pc.Idling? || pc.Polling? || pc.Left?
  }

  // Worker w, which holds no fiber, goes where it holds none.
  ghost predicate StaysFree(s: State, r: State, w: nat) {
    && Exclusive(s) && !r.crashed && OnlyWorker(s, r, w)
    && r.tasks == s.tasks && r.fibers == s.fibers && r.workers[w].cbFiber == s.workers[w].cbFiber
    && Free(s.workers[w].pc) && Free(r.workers[w].pc)
  }

  lemma FreeHolds(s: State, r: State, w: nat)
    requires StaysFree(s, r, w)
    ensures AllFit(r) && HeldOnce(r)
  {
    forall v | 0 <= v < |r.workers|
      ensures Fits(r, r.workers[v])
    {
      assert v != w ==> Fits(s, s.workers[v]);
    }
    assert forall v, f :: 0 <= v < |r.workers| && Holds(r.workers[v].pc, f) ==> Holds(s.workers[v].pc, f);
  }

  lemma FreeSpares(s: State, r: State, w: nat)
    requires StaysFree(s, r, w)
    ensures SparesFree(r) && SparesDiffer(r)
  {
    forall v, f | 0 <= v < |r.workers| && Spare(r.workers[v], f)
      ensures Unused(r, v, f)
    {
      assert Spare(s.workers[v], f);
    }
  }

  lemma FreeQueued(s: State, r: State, w: nat)
    requires StaysFree(s, r, w)
    ensures QueuedHeld(r)
  {
    forall i, v | 0 <= i < |r.tasks| && 0 <= v < |r.workers| && QueuedAndHeld(r, i, v)
      ensures OnlyFor(r, r.tasks[i].thread, v) && MayBeQueued(r, r.workers[v].pc)
    {
      assert QueuedAndHeld(s, i, v);
    }
  }

  lemma IdleExclusive(s: State, r: State, w: nat)
    requires StaysFree(s, r, w)
    ensures Exclusive(r)
  {
    FreeHolds(s, r, w);
    FreeSpares(s, r, w);
    FreeQueued(s, r, w);
  }

  // One more entry in the queue.
  lemma AppendExclusive(s: State, r: State, t: Task)
    requires Exclusive(s) && !r.crashed && r.workers == s.workers && r.tasks == s.tasks + [t]
    requires if t.work.Call? then r.fibers == s.fibers
             else if t.work.fiber in s.fibers then r.fibers == s.fibers
             else r.fibers == s.fibers[t.work.fiber := Init]
    requires t.work.Resume? ==>
               && !InQueue(s.tasks, t.work.fiber)
               && forall w :: 0 <= w < |s.workers| ==>
                    && !Spare(s.workers[w], t.work.fiber)
                    && (Holds(s.workers[w].pc, t.work.fiber) ==>
                          OnlyFor(s, t.thread, w) && MayBeQueued(s, s.workers[w].pc))
    ensures Exclusive(r)
  {
    assert AllFit(r) by {
      assert forall w :: 0 <= w < |s.workers| ==> Fits(s, s.workers[w]);
    }
    assert forall f :: InQueue(r.tasks, f) ==> InQueue(s.tasks, f) || t.work == Resume(f);
    AppendQueued(s, r, t);
  }

  lemma AppendQueued(s: State, r: State, t: Task)
    requires Exclusive(s) && r.workers == s.workers && r.tasks == s.tasks + [t] && AllFit(r)
    requires forall f :: f in s.fibers ==> f in r.fibers && r.fibers[f] == s.fibers[f]
    requires t.work.Resume? ==>
               && !InQueue(s.tasks, t.work.fiber)
               && forall w :: 0 <= w < |s.workers| && Holds(s.workers[w].pc, t.work.fiber) ==>
                    OnlyFor(s, t.thread, w) && MayBeQueued(s, s.workers[w].pc)
    ensures QueuedHeld(r) && QueuedOnce(r.tasks)
  {
    forall i, w | 0 <= i < |r.tasks| && 0 <= w < |r.workers| && QueuedAndHeld(r, i, w)
      ensures OnlyFor(r, r.tasks[i].thread, w) && MayBeQueued(r, r.workers[w].pc)
    {
      assert i < |s.tasks| ==> QueuedAndHeld(s, i, w);
      assert Fits(s, s.workers[w]);
    }
  }

  lemma SubmitExclusive(s: State, step: Step)
    requires Exclusive(s) && Enabled(s, step) && Disciplined(s, step) && step.Submit?
    ensures Exclusive(Apply(s, step))
  {
    AppendExclusive(s, Apply(s, step), Task(step.work, step.thread, s.next));
  }

  lemma TakeExclusive(s: State, w: nat)
    requires Exclusive(s) && Enabled(s, Take(w))
    ensures Exclusive(AfterTake(s, w))
  {
    var r := AfterTake(s, w);
    if Scan(s.tasks, s.fibers, w).None? {
      IdleExclusive(s, r, w);
    } else {
      PickExclusive(s, w, Scan(s.tasks, s.fibers, w).value);
    }
  }

  // The fiber of the task that is picked is nobody else's.
  lemma PickedAlone(s: State, w: nat, i: nat, v: nat)
    requires Exclusive(s) && Enabled(s, Take(w)) && Scan(s.tasks, s.fibers, w) == Some(i) && v < |s.workers|
    requires s.tasks[i].work.Resume?
    ensures var f := s.tasks[i].work.fiber;
            && f in s.fibers && s.fibers[f] != Exec
            && !Holds(s.workers[v].pc, f) && s.workers[v].cbFiber != Some(f)
  {
    ScanIsEarliest(s.tasks, s.fibers, w);
    assert InQueue(s.tasks, s.tasks[i].work.fiber);
    assert !QueuedAndHeld(s, i, v);
    assert Spare(s.workers[v], s.tasks[i].work.fiber) ==> Unused(s, v, s.tasks[i].work.fiber);
  }

  // Nor is it queued a second time.
  lemma WithoutQueue(tasks: seq<Task>, i: nat, j: nat)
    requires QueuedOnce(tasks) && i < |tasks| && j < |Without(tasks, i)|
    ensures QueuedOnce(Without(tasks, i))
    ensures Without(tasks, i)[j] == tasks[if j < i then j else j + 1]
    ensures Without(tasks, i)[j].work.Resume? ==> Without(tasks, i)[j].work != tasks[i].work
  {
  }

  lemma NotInRest(tasks: seq<Task>, i: nat, f: nat)
    requires i < |tasks| && !InQueue(tasks, f)
    ensures !InQueue(Without(tasks, i), f) && tasks[i].work != Resume(f)
  {
    assert forall j :: 0 <= j < |Without(tasks, i)| ==> Without(tasks, i)[j] == tasks[if j < i then j else j + 1];
  }

  lemma PickQueued(s: State, w: nat, i: nat)
    requires Exclusive(s) && Enabled(s, Take(w)) && Scan(s.tasks, s.fibers, w) == Some(i)
    ensures var r := AfterTake(s, w);
            && QueuedOnce(r.tasks) && QueuedHeld(r) && QueueKnown(r)
            && forall f :: InQueue(r.tasks, f) ==> InQueue(s.tasks, f)
  {
    var r := AfterTake(s, w);
    forall j | 0 <= j < |r.tasks|
      ensures QueuedOnce(r.tasks) && r.tasks[j] == s.tasks[if j < i then j else j + 1]
    {
      WithoutQueue(s.tasks, i, j);
    }
    forall j, v | 0 <= j < |r.tasks| && 0 <= v < |r.workers| && QueuedAndHeld(r, j, v)
      ensures OnlyFor(r, r.tasks[j].thread, v) && MayBeQueued(r, r.workers[v].pc)
    {
      WithoutQueue(s.tasks, i, j);
      assert v != w;
      assert QueuedAndHeld(s, if j < i then j else j + 1, v);
    }
  }

  lemma PickExclusive(s: State, w: nat, i: nat)
    requires Exclusive(s) && Enabled(s, Take(w)) && Scan(s.tasks, s.fibers, w) == Some(i)
    ensures Exclusive(AfterTake(s, w))
  {
    PickQueued(s, w, i);
    PickHeld(s, w, i);
    PickSpares(s, w, i);
    PickFits(s, w, i);
  }

  lemma PickHeld(s: State, w: nat, i: nat)
    requires Exclusive(s) && Enabled(s, Take(w)) && Scan(s.tasks, s.fibers, w) == Some(i)
    ensures HeldOnce(AfterTake(s, w))
  {
    var r, t := AfterTake(s, w), s.tasks[i];
    forall v, f | 0 <= v < |r.workers| && Holds(r.workers[v].pc, f)
      ensures Holds(s.workers[v].pc, f) || (v == w && t.work == Resume(f))
    {
    }
    forall v | 0 <= v < |s.workers| && t.work.Resume?
      ensures !Holds(s.workers[v].pc, t.work.fiber)
    {
      PickedAlone(s, w, i, v);
    }
  }

  lemma PickSpares(s: State, w: nat, i: nat)
    requires Exclusive(s) && Enabled(s, Take(w)) && Scan(s.tasks, s.fibers, w) == Some(i)
    ensures SparesFree(AfterTake(s, w))
  {
    var r := AfterTake(s, w);
    forall v, f | 0 <= v < |r.workers| && Spare(r.workers[v], f)
      ensures Unused(r, v, f)
    {
      assert Spare(s.workers[v], f) && !InQueue(s.tasks, f);
      NotInRest(s.tasks, i, f);
    }
  }

  lemma PickFits(s: State, w: nat, i: nat)
    requires Exclusive(s) && Enabled(s, Take(w)) && Scan(s.tasks, s.fibers, w) == Some(i)
    ensures AllFit(AfterTake(s, w)) && SparesDiffer(AfterTake(s, w))
  {
    var r := AfterTake(s, w);
    forall v | 0 <= v < |r.workers|
      ensures Fits(r, r.workers[v])
    {
      assert Fits(s, s.workers[v]);
      if v == w && s.tasks[i].work.Resume? {
        PickedAlone(s, w, i, w);
      }
    }
  }

  lemma LaunchExclusive(s: State, w: nat, newFiber: nat)
    requires Exclusive(s) && Enabled(s, Launch(w, newFiber))
    ensures Exclusive(AfterLaunch(s, w, newFiber))
  {
    var r, task := AfterLaunch(s, w, newFiber), s.workers[w].pc.task;
    if task.work.Resume? {
      var f := task.work.fiber;
      assert Holds(s.workers[w].pc, f);
      if StateOf(s, f) == Term || StateOf(s, f) == Error {
        LetGoExclusive(s, r, w, f, s.fibers[f], r.workers[w]);
      } else {
        if InQueue(s.tasks, f) {
          HeldMayBeQueued(s, w, f);
        }
        MoveExclusive(s, r, w, f, Exec, Running(f, task, false));
      }
    } else {
      CallExclusive(s, w, newFiber);
    }
  }

  // A callback runs in the spare fiber, or in a new one; nobody else has that.
  lemma CallAlone(s: State, w: nat, newFiber: nat, f: nat)
    requires Exclusive(s) && Enabled(s, Launch(w, newFiber)) && s.workers[w].pc.task.work.Call?
    requires f == if s.workers[w].cbFiber.Some? then s.workers[w].cbFiber.value else newFiber
    ensures !InQueue(s.tasks, f)
    ensures forall v :: 0 <= v < |s.workers| ==> !Holds(s.workers[v].pc, f)
    ensures forall v :: 0 <= v < |s.workers| && v != w ==> s.workers[v].cbFiber != Some(f)
  {
    if s.workers[w].cbFiber.Some? {
      assert Spare(s.workers[w], f);
    } else {
      forall v | 0 <= v < |s.workers|
        ensures !Holds(s.workers[v].pc, f) && s.workers[v].cbFiber != Some(f)
      {
        assert Fits(s, s.workers[v]);
        assert !Spare(s.workers[v], f);
      }
    }
  }

  lemma CallFits(s: State, w: nat, newFiber: nat)
    requires Exclusive(s) && Enabled(s, Launch(w, newFiber)) && s.workers[w].pc.task.work.Call?
    ensures AllFit(AfterLaunch(s, w, newFiber)) && HeldOnce(AfterLaunch(s, w, newFiber))
  {
    var r := AfterLaunch(s, w, newFiber);
    CallAlone(s, w, newFiber, r.workers[w].pc.fiber);
    forall v | 0 <= v < |r.workers|
      ensures Fits(r, r.workers[v])
    {
      assert Fits(s, s.workers[v]);
    }
  }

  lemma CallExclusive(s: State, w: nat, newFiber: nat)
    requires Exclusive(s) && Enabled(s, Launch(w, newFiber)) && s.workers[w].pc.task.work.Call?
    ensures Exclusive(AfterLaunch(s, w, newFiber))
  {
    var r := AfterLaunch(s, w, newFiber);
    var f := r.workers[w].pc.fiber;
    CallAlone(s, w, newFiber, f);
    CallFits(s, w, newFiber);
    forall i, v | 0 <= i < |r.tasks| && 0 <= v < |r.workers| && QueuedAndHeld(r, i, v)
      ensures OnlyFor(r, r.tasks[i].thread, v) && MayBeQueued(r, r.workers[v].pc)
    {
      assert v != w ==> QueuedAndHeld(s, i, v);
      assert InQueue(s.tasks, r.tasks[i].work.fiber);
    }
    forall v, g | 0 <= v < |r.workers| && Spare(r.workers[v], g)
      ensures v != w && g != f && Spare(s.workers[v], g)
    {
    }
  }

  lemma YieldExclusive(s: State, step: Step)
    requires Exclusive(s) && Enabled(s, step) && Disciplined(s, step) && step.Yield?
    ensures Exclusive(Apply(s, step))
  {
    var Running(f, task, own) := s.workers[step.w].pc;
    assert Fits(s, s.workers[step.w]);
    MoveExclusive(s, Apply(s, step), step.w, f, step.how, Returned(f, task, own));
  }

  lemma LowerExclusive(s: State, w: nat)
    requires Exclusive(s) && Enabled(s, Lower(w))
    ensures Exclusive(Apply(s, Lower(w)))
  {
    var Returned(f, task, own) := s.workers[w].pc;
    assert Fits(s, s.workers[w]);
    if InQueue(s.tasks, f) {
      HeldMayBeQueued(s, w, f);
    }
    MoveExclusive(s, Apply(s, Lower(w)), w, f, s.fibers[f], Settling(f, task, own));
  }

  lemma HeldMayBeQueued(s: State, w: nat, f: nat)
    requires Exclusive(s) && w < |s.workers| && Holds(s.workers[w].pc, f) && InQueue(s.tasks, f)
    ensures MayBeQueued(s, s.workers[w].pc)
  {
    var i :| 0 <= i < |s.tasks| && s.tasks[i].work == Resume(f);
    assert QueuedAndHeld(s, i, w);
  }

  lemma SettleExclusive(s: State, w: nat)
    requires Exclusive(s) && Enabled(s, Settle(w))
    ensures Exclusive(AfterSettle(s, w))
  {
    var Settling(f, task, own) := s.workers[w].pc;
    var r := AfterSettle(s, w);
    assert Fits(s, s.workers[w]);
    if InQueue(s.tasks, f) {
      HeldMayBeQueued(s, w, f);
    }
    if s.fibers[f] == Term {
      LetGoExclusive(s, r, w, f, if own then Init else Term, r.workers[w]);
    } else {
      MoveExclusive(s, r, w, f, s.fibers[f], r.workers[w].pc);
    }
  }

  lemma RequeueExclusive(s: State, w: nat)
    requires Exclusive(s) && Enabled(s, Requeue(w))
    ensures Exclusive(AfterRequeue(s, w))
  {
    var Requeuing(f, task, own) := s.workers[w].pc;
    var m := Release(s, w, own);
    assert Fits(s, s.workers[w]);
    if InQueue(s.tasks, f) {
      HeldMayBeQueued(s, w, f);
    }
    LetGoExclusive(s, m, w, f, Ready, m.workers[w]);
    forall v | 0 <= v < |m.workers|
      ensures !Spare(m.workers[v], f) && !Holds(m.workers[v].pc, f)
    {
      assert v != w ==> !Spare(s.workers[v], f);
    }
    AppendExclusive(m, AfterRequeue(s, w), Task(Resume(f), None, s.next));
  }

  lemma MarkExclusive(s: State, w: nat)
    requires Exclusive(s) && Enabled(s, Mark(w))
    ensures Exclusive(AfterMark(s, w))
  {
    var f := s.workers[w].pc.fiber;
    assert Fits(s, s.workers[w]);
    LetGoExclusive(s, AfterMark(s, w), w, f, Hold, AfterMark(s, w).workers[w]);
  }

  lemma StepExclusive(s: State, step: Step)
    requires Exclusive(s) && Enabled(s, step) && Disciplined(s, step)
    ensures Exclusive(Apply(s, step))
  {
    match step
    case Submit(_, _, _) => SubmitExclusive(s, step);
    case Take(w) => TakeExclusive(s, w);
    case Launch(w, newFiber) => LaunchExclusive(s, w, newFiber);
    case Yield(_, _) => YieldExclusive(s, step);
    case Lower(w) => LowerExclusive(s, w);
    case Settle(w) => SettleExclusive(s, w);
    case Requeue(w) => RequeueExclusive(s, w);
    case Mark(w) => MarkExclusive(s, w);
    case SetAutoStop => FlagExclusive(s, s.(autoStop := true));
    case SetStopping => FlagExclusive(s, s.(stopping := true));
    case _ => IdleStepExclusive(s, step);
  }

  lemma FlagExclusive(s: State, r: State)
    requires Exclusive(s) && r == s.(autoStop := r.autoStop, stopping := r.stopping)
    ensures Exclusive(r)
  {
    assert forall w :: 0 <= w < |s.workers| ==> Fits(s, s.workers[w]);
  }

  lemma IdleStepExclusive(s: State, step: Step)
    requires Exclusive(s) && Enabled(s, step)
    requires step.GoIdle? || step.AskStopping? || step.LeaveIdle? || step.StartCaller?
    ensures Exclusive(Apply(s, step))
  {
    IdleExclusive(s, Apply(s, step), step.w);
  }

  // ----- The discipline is exact -----

  lemma SubmitBreaks(s: State, step: Step)
    requires Exclusive(s) && Enabled(s, step) && step.Submit? && !Disciplined(s, step)
    ensures !Exclusive(Apply(s, step))
  {
    var r, f, n := Apply(s, step), step.work.fiber, |s.tasks|;
    assert r.tasks[n].work == Resume(f) && InQueue(r.tasks, f);
    if InQueue(s.tasks, f) {
      var i :| 0 <= i < n && s.tasks[i].work == Resume(f);
      assert r.tasks[i].work == r.tasks[n].work;
    } else if w :| 0 <= w < |s.workers| && Spare(s.workers[w], f) {
      assert Spare(r.workers[w], f);
    } else {
      var w :| 0 <= w < |s.workers| && Holds(s.workers[w].pc, f)
               && !(OnlyFor(s, step.thread, w) && MayBeQueued(s, s.workers[w].pc));
      SubmitAppends(s, step, w);
      assert QueuedAndHeld(r, n, w);
    }
  }

  lemma UndisciplinedBreaks(s: State, step: Step)
    requires Exclusive(s) && Enabled(s, step) && !Disciplined(s, step)
    ensures !Exclusive(Apply(s, step))
  {
    if step.Submit? {
      SubmitBreaks(s, step);
    } else {
      var f := At(s, step.w).fiber;
      var i :| 0 <= i < |s.tasks| && s.tasks[i].work == Resume(f);
      assert QueuedAndHeld(Apply(s, step), i, step.w);
    }
  }

  // The invariant is kept by the disciplined steps and by no others.
  lemma StepExclusiveExactly(s: State, step: Step)
    requires Exclusive(s) && Enabled(s, step)
    ensures Exclusive(Apply(s, step)) <==> Disciplined(s, step)
  {
    if Disciplined(s, step) {
      StepExclusive(s, step);
    } else {
      UndisciplinedBreaks(s, step);
    }
  }

  // The scan stops at the first entry that is eligible.
  lemma ScanIs(tasks: seq<Task>, fibers: map<nat, FiberState>, v: nat, k: nat)
    requires k < |tasks| && forall j :: 0 <= j < k ==> !Eligible(fibers, v, tasks[j])
    ensures Eligible(fibers, v, tasks[k]) ==> Scan(tasks, fibers, v) == Some(k)
    ensures !Eligible(fibers, v, tasks[k]) && k == |tasks| - 1 ==> Scan(tasks, fibers, v).None?
  {
    ScanIsEarliest(tasks, fibers, v);
  }

  // Worker v takes the fiber that worker w holds.
  lemma TakenTwice(s: State, w: nat, v: nat, k: nat)
    requires w < |s.workers| && v < |s.workers| && v != w && Scan(s.tasks, s.fibers, v) == Some(k)
    requires s.tasks[k].work.Resume? && Holds(s.workers[w].pc, s.tasks[k].work.fiber)
    ensures !HeldOnce(AfterTake(s, v))
  {
    var r := AfterTake(s, v);
    assert Holds(r.workers[w].pc, s.tasks[k].work.fiber) && Holds(r.workers[v].pc, s.tasks[k].work.fiber);
  }

  lemma NothingTaken(s: State, v: nat)
    requires HeldOnce(s) && v < |s.workers| && Scan(s.tasks, s.fibers, v).None?
    ensures HeldOnce(AfterTake(s, v))
  {
    var r := AfterTake(s, v);
    forall w, u, f | 0 <= w < |r.workers| && 0 <= u < |r.workers| && w != u && Holds(r.workers[w].pc, f)
      ensures !Holds(r.workers[u].pc, f)
    {
      assert w != v && Holds(s.workers[w].pc, f);
    }
  }

  lemma SubmitAppends(s: State, step: Step, w: nat)
    requires AllFit(s) && Enabled(s, step) && step.Submit? && step.work.Resume?
    requires w < |s.workers| && Holds(s.workers[w].pc, step.work.fiber)
    ensures Apply(s, step) == s.(tasks := s.tasks + [Task(step.work, step.thread, s.next)], next := s.next + 1)
    ensures step.work.fiber in s.fibers
  {
    assert Fits(s, s.workers[w]);
  }

  // And a broken invariant does harm. While worker w holds the fiber, another worker that
  // looks at the queue takes it as well, unless it runs just then or is for a third one.
  lemma NextTakeExactly(s: State, step: Step, w: nat, v: nat)
    requires Exclusive(s) && Enabled(s, step) && step.Submit? && step.work.Resume?
    requires w < |s.workers| && v < |s.workers| && v != w && Holds(s.workers[w].pc, step.work.fiber)
    requires s.workers[v].pc.Top? && Scan(s.tasks, s.fibers, v).None?
    ensures Enabled(Apply(s, step), Take(v))
    ensures HeldOnce(AfterTake(Apply(s, step), v)) <==>
              (step.thread.Some? && step.thread != Some(v)) || StateOf(s, step.work.fiber) == Exec
  {
    SubmitAppends(s, step, w);
    var m, t := Apply(s, step), Task(step.work, step.thread, s.next);
    ScanIsEarliest(s.tasks, s.fibers, v);
    ScanIs(m.tasks, m.fibers, v, |s.tasks|);
    if Eligible(m.fibers, v, t) {
      TakenTwice(m, w, v, |s.tasks|);
    } else {
      NothingTaken(m, v);
    }
  }

  lemma FirstOfTwo(s: State, step: Step, w: nat, i: nat) returns (m: State)
    requires QueueKnown(s) && Enabled(s, step) && step.Submit? && step.work.Resume?
    requires w < |s.workers| && s.workers[w].pc.Top?
    requires Scan(s.tasks, s.fibers, w) == Some(i) && s.tasks[i].work == step.work
    ensures Enabled(Apply(s, step), Take(w)) && m == AfterTake(Apply(s, step), w)
    ensures !m.crashed && m.fibers == s.fibers
    ensures m.workers == s.workers[w := s.workers[w].(pc := Picked(s.tasks[i]))]
    ensures m.tasks == Without(s.tasks, i) + [Task(step.work, step.thread, s.next)]
  {
    var a := Apply(s, step);
    ScanIsEarliest(s.tasks, s.fibers, w);
    assert a.fibers == s.fibers && a.tasks == s.tasks + [Task(step.work, step.thread, s.next)];
    ScanIs(a.tasks, a.fibers, w, i);
    m := AfterTake(a, w);
  }

  // A fiber that is queued twice is taken by two workers that look one after the other.
  lemma QueuedTwiceTaken(s: State, step: Step, w: nat, v: nat, i: nat)
    requires Exclusive(s) && Enabled(s, step) && step.Submit? && step.work.Resume?
    requires w < |s.workers| && v < |s.workers| && v != w && s.workers[w].pc.Top? && s.workers[v].pc.Top?
    requires Scan(s.tasks, s.fibers, w) == Some(i) && s.tasks[i].work == step.work
    requires step.thread.None? || step.thread == Some(v)
    requires forall j :: 0 <= j < |s.tasks| && j != i ==> !Eligible(s.fibers, v, s.tasks[j])
    ensures var m := Apply(s, step);
            && Enabled(m, Take(w)) && Enabled(AfterTake(m, w), Take(v))
            && !HeldOnce(AfterTake(AfterTake(m, w), v))
  {
    var m := FirstOfTwo(s, step, w, i);
    var n, rest := |s.tasks| - 1, Without(s.tasks, i);
    forall j | 0 <= j < n
      ensures !Eligible(m.fibers, v, m.tasks[j])
    {
      assert m.tasks[j] == rest[j] == s.tasks[if j < i then j else j + 1];
    }
    assert Eligible(s.fibers, w, s.tasks[i]) by {
      ScanIsEarliest(s.tasks, s.fibers, w);
    }
    ScanIs(m.tasks, m.fibers, v, n);
    TakenTwice(m, w, v, n);
  }

  // A queued fiber that yields Ready is queued a second time by its own worker, and one
  // that ends in the worker's callback fiber is reused for callbacks while it is queued.
  lemma QueuedTooEarly(s: State, w: nat)
    requires !s.crashed && At(s, w).Returned? && InQueue(s.tasks, At(s, w).fiber)
    requires var f := At(s, w).fiber;
             StateOf(s, f) == Ready || (StateOf(s, f) == Term && At(s, w).own && s.workers[w].cbFiber == Some(f))
    ensures var f, m := At(s, w).fiber, Apply(s, Lower(w));
            && Enabled(m, Settle(w))
            && (StateOf(s, f) == Term ==> Spare(AfterSettle(m, w).workers[w], f) && InQueue(AfterSettle(m, w).tasks, f))
            && (StateOf(s, f) == Ready ==>
                  && Enabled(AfterSettle(m, w), Requeue(w))
                  && !QueuedOnce(AfterRequeue(AfterSettle(m, w), w).tasks))
  {
    var f := At(s, w).fiber;
    var i :| 0 <= i < |s.tasks| && s.tasks[i].work == Resume(f);
    var m := AfterSettle(Apply(s, Lower(w)), w);
    if StateOf(s, f) == Ready {
      var r := AfterRequeue(m, w);
      assert r.tasks[i].work == r.tasks[|s.tasks|].work == Resume(f);
    }
  }

  // With a single worker no discipline is needed: no swap-in fails, and the fiber that the
  // worker runs is marked so and no other.
  ghost predicate RunsMarked(s: State) {
    forall f :: Runs(s.workers, 0, f) ==> f in s.fibers && s.fibers[f] == Exec
  }

  lemma OneWorkerStep(s: State, step: Step)
    requires ExecRuns(s) && RunsMarked(s) && |s.workers| == 1 && Enabled(s, step)
    ensures !Apply(s, step).crashed && RunsMarked(Apply(s, step)) && |Apply(s, step).workers| == 1
  {
    OnlyActor(s, step);
    match step
    case Launch(w, newFiber) => OneWorkerLaunch(s, w, newFiber);
    case Settle(w) => OneWorkerSettle(s, w);
    case Submit(_, work, thread) => OneWorkerSubmit(s, work, thread);
    case _ => OneWorkerOther(s, step);
  }

  lemma OneWorkerOther(s: State, step: Step)
    requires RunsMarked(s) && |s.workers| == 1 && Enabled(s, step)
    requires !step.Launch? && !step.Settle? && !step.Submit?
    ensures !Apply(s, step).crashed && RunsMarked(Apply(s, step))
  {
    if Actor(step).Some? {
      RunsNothing(s, step);
    }
  }

  // A worker runs a fiber only after it has started it.
  lemma RunsNothing(s: State, step: Step)
    requires Enabled(s, step) && Actor(step) == Some(0) && !step.Launch? && !step.Settle?
    ensures !At(Apply(s, step), 0).Running? && !Apply(s, step).crashed
  {
  }

  lemma OneWorkerSettle(s: State, w: nat)
    requires |s.workers| == 1 && Enabled(s, Settle(w))
    ensures !AfterSettle(s, w).crashed && RunsMarked(AfterSettle(s, w))
  {
  }

  lemma OneWorkerLaunch(s: State, w: nat, newFiber: nat)
    requires ExecRuns(s) && RunsMarked(s) && |s.workers| == 1 && Enabled(s, Launch(w, newFiber))
    ensures !AfterLaunch(s, w, newFiber).crashed && RunsMarked(AfterLaunch(s, w, newFiber))
  {
    if s.workers[w].pc.task.work.Resume? && StateOf(s, s.workers[w].pc.task.work.fiber) == Exec {
      assert false;
    }
  }

  lemma OneWorkerSubmit(s: State, work: Work, thread: Option<nat>)
    requires RunsMarked(s) && !s.crashed
    ensures !AfterSubmit(s, work, thread).crashed && RunsMarked(AfterSubmit(s, work, thread))
  {
  }

  lemma {:induction false} OneWorkerRun(s: State, steps: seq<Step>, r: State)
    requires Sound(s) && RunsMarked(s) && |s.workers| == 1 && !s.crashed && Leads(s, steps, r)
    ensures !r.crashed && RunsMarked(r)
    decreases |steps|
  {
    if steps != [] {
      StepSound(s, steps[0]);
      OneWorkerStep(s, steps[0]);
      OneWorkerRun(Apply(s, steps[0]), steps[1..], r);
    }
  }

  lemma OneWorkerExclusive(s: State, f: nat)
    requires Reachable(s) && |s.workers| == 1
    ensures !s.crashed
    ensures f in s.fibers ==> (s.fibers[f] == Exec <==> Runs(s.workers, 0, f))
  {
    var start, steps :| Initial(start) && Leads(start, steps, s);
    assert Leads(start, [], start) && Reachable(start);
    ReachableSound(start);
    SameWorkers(start, steps, s);
    OneWorkerRun(start, steps, s);
    ReachableSound(s);
  }

  lemma {:induction false} SameWorkers(s: State, steps: seq<Step>, r: State)
    requires Leads(s, steps, r)
    ensures |r.workers| == |s.workers|
    decreases |steps|
  {
    if steps != [] {
      OnlyActor(s, steps[0]);
      SameWorkers(Apply(s, steps[0]), steps[1..], r);
    }
  }

  // ----- Runs -----

  // The rule one would expect: a fiber is submitted only when it is not queued, and either
  // it does not run yet, or it is on hold, or it submits itself.
  ghost predicate Natural(s: State, step: Step) {
    step.Submit? && step.work.Resume? ==>
      && !InQueue(s.tasks, step.work.fiber)
      && (StateOf(s, step.work.fiber) == Init || StateOf(s, step.work.fiber) == Hold
          || (step.source.Inside? && Runs(s.workers, step.source.w, step.work.fiber)))
  }

  // s leads to r, with every step under the discipline or under the natural rule.
  ghost predicate LeadsBy(s: State, steps: seq<Step>, strict: bool, r: State)
    decreases |steps|
  {
    if steps == [] then r == s
    else
      && Enabled(s, steps[0]) && (if strict then Disciplined(s, steps[0]) else Natural(s, steps[0]))
      && LeadsBy(Apply(s, steps[0]), steps[1..], strict, r)
  }

  ghost predicate ReachableBy(s: State, strict: bool) {
    exists start, steps :: Initial(start) && LeadsBy(start, steps, strict, s)
  }

  lemma {:induction false} LeadsExclusive(s: State, steps: seq<Step>, r: State)
    requires Exclusive(s) && LeadsBy(s, steps, true, r)
    ensures Exclusive(r)
    decreases |steps|
  {
    if steps != [] {
      StepExclusive(s, steps[0]);
      LeadsExclusive(Apply(s, steps[0]), steps[1..], r);
    }
  }

  lemma ReachableExclusive(s: State)
    requires ReachableBy(s, true)
    ensures Exclusive(s)
  {
    var start, steps :| Initial(start) && LeadsBy(start, steps, true, s);
    LeadsExclusive(start, steps, s);
  }

  // Under the discipline, in every reachable state: no fiber is in the hands of two
  // workers, none is queued twice, no swap-in fails, and a fiber that runs is marked so.
  lemma MutualExclusion(s: State, w: nat, v: nat, f: nat)
    requires ReachableBy(s, true) && w < |s.workers| && v < |s.workers|
    requires Holds(s.workers[w].pc, f)
    ensures !s.crashed
    ensures Holds(s.workers[v].pc, f) ==> v == w
    ensures s.workers[w].pc.Running? ==> f in s.fibers && s.fibers[f] == Exec
  {
    ReachableExclusive(s);
    assert Fits(s, s.workers[w]);
  }

  // And the fiber a worker reuses for a callback has ended, is not queued and is in
  // nobody's hands: never one whose callback is suspended.
  lemma CallbackFiberIsFree(s: State, w: nat, f: nat)
    requires ReachableBy(s, true) && w < |s.workers|
    requires s.workers[w].pc.Picked? && s.workers[w].pc.task.work.Call? && s.workers[w].cbFiber == Some(f)
    ensures f in s.fibers && s.fibers[f] == Init && !InQueue(s.tasks, f)
    ensures forall v :: 0 <= v < |s.workers| ==> !Holds(s.workers[v].pc, f)
  {
    ReachableExclusive(s);
    assert Spare(s.workers[w], f);
  }

  // Under any rule, a fiber that runs is not taken, and its entry stays in the queue.
  lemma RunningIsNotTaken(s: State, w: nat, t: Task)
    requires Enabled(s, Take(w)) && t in s.tasks && Executing(s.fibers, t.work)
    ensures t in AfterTake(s, w).tasks
    ensures AfterTake(s, w).workers[w].pc != Picked(t)
  {
    ScanIsEarliest(s.tasks, s.fibers, w);
    var i := Scan(s.tasks, s.fibers, w);
    if i.Some? {
      var j :| 0 <= j < |s.tasks| && s.tasks[j] == t;
      assert Without(s.tasks, i.value)[if j < i.value then j else j - 1] == t;
    }
  }

  lemma {:induction false} LeadsByThen(s: State, steps: seq<Step>, strict: bool, m: State, step: Step)
    requires LeadsBy(s, steps, strict, m) && Enabled(m, step)
    requires if strict then Disciplined(m, step) else Natural(m, step)
    ensures LeadsBy(s, steps + [step], strict, Apply(m, step))
    decreases |steps|
  {
    if steps == [] {
      assert ([] + [step])[1..] == [];
      assert LeadsBy(Apply(m, step), [], strict, Apply(m, step));
    } else {
      LeadsByThen(Apply(s, steps[0]), steps[1..], strict, m, step);
      assert (steps + [step])[1..] == steps[1..] + [step];
    }
  }

  lemma NaturalStep(s: State, step: Step, r: State)
    requires ReachableBy(s, false) && Enabled(s, step) && Natural(s, step) && Apply(s, step) == r
    ensures ReachableBy(r, false)
  {
    var start, steps :| Initial(start) && LeadsBy(start, steps, false, s);
    LeadsByThen(start, steps, false, s, step);
  }

  // Two workers, one of them at `pc` and the other at `qc`.
  function Pair(pc: Pc, qc: Pc, tasks: seq<Task>, state: FiberState,
                active: int, next: nat, closed: map<nat, Fate>): State {
    State([Worker(pc, None, false), Worker(qc, None, false)], tasks, map[7 := state],
          active, 0, false, false, false, next, closed)
  }

  // The three tickets under which fiber 7 is submitted below.
  const A: Task := Task(Resume(7), None, 0)
  const B: Task := Task(Resume(7), None, 1)
  const C: Task := Task(Resume(7), None, 2)

  lemma RaceStart() returns (s: State)
    ensures s == Pair(Picked(A), Top, [], Init, 1, 1, map[]) && ReachableBy(s, false)
  {
    var s0 := Pair(Top, Top, [], Init, 0, 0, map[]);
    assert Initial(s0) && LeadsBy(s0, [], false, s0);
    var s1 := Pair(Top, Top, [A], Init, 0, 1, map[]);
    NaturalStep(s0, Submit(Outside, Resume(7), None), s1);
    s := Pair(Picked(A), Top, [], Init, 1, 1, map[]);
    NaturalStep(s1, Take(0), s);
  }

  // Worker 0 runs the fiber and it puts itself on hold.
  lemma RaceHold() returns (s: State)
    ensures s == Pair(Returned(7, A, false), Top, [], Hold, 1, 1, map[]) && ReachableBy(s, false)
  {
    var s0 := RaceStart();
    var s1 := Pair(Running(7, A, false), Top, [], Exec, 1, 1, map[]);
    NaturalStep(s0, Launch(0, 8), s1);
    s := Pair(Returned(7, A, false), Top, [], Hold, 1, 1, map[]);
    NaturalStep(s1, Yield(0, Hold), s);
  }

  // Before worker 0 goes on, it is submitted again, and worker 1 runs it.
  lemma RaceResume() returns (s: State)
    ensures s == Pair(Returned(7, A, false), Running(7, B, false), [], Exec, 2, 2, map[]) && ReachableBy(s, false)
  {
    var s0 := RaceHold();
    var s1 := Pair(Returned(7, A, false), Top, [B], Hold, 1, 2, map[]);
    NaturalStep(s0, Submit(Outside, Resume(7), None), s1);
    var s2 := Pair(Returned(7, A, false), Picked(B), [], Hold, 2, 2, map[]);
    NaturalStep(s1, Take(1), s2);
    s := Pair(Returned(7, A, false), Running(7, B, false), [], Exec, 2, 2, map[]);
    NaturalStep(s2, Launch(1, 8), s);
  }

  // Now worker 0 marks it as being on hold, although it runs.
  lemma RaceMark() returns (s: State)
    ensures s == Pair(Top, Running(7, B, false), [], Hold, 1, 2, map[0 := Suspended]) && ReachableBy(s, false)
  {
    var s0 := RaceResume();
    var s1 := Pair(Settling(7, A, false), Running(7, B, false), [], Exec, 1, 2, map[]);
    NaturalStep(s0, Lower(0), s1);
    var s2 := Pair(Marking(7, A, false), Running(7, B, false), [], Exec, 1, 2, map[]);
    NaturalStep(s1, Settle(0), s2);
    s := Pair(Top, Running(7, B, false), [], Hold, 1, 2, map[0 := Suspended]);
    NaturalStep(s2, Mark(0), s);
  }

  // The fiber submits itself, and worker 0 takes it.
  lemma RaceTake() returns (s: State)
    ensures s == Pair(Picked(C), Running(7, B, false), [], Hold, 2, 3, map[0 := Suspended]) && ReachableBy(s, false)
  {
    var s0 := RaceMark();
    var s1 := Pair(Top, Running(7, B, false), [C], Hold, 1, 3, map[0 := Suspended]);
    NaturalStep(s0, Submit(Inside(1), Resume(7), None), s1);
    s := Pair(Picked(C), Running(7, B, false), [], Hold, 2, 3, map[0 := Suspended]);
    NaturalStep(s1, Take(0), s);
  }

  // Without the discipline, two workers can run one fiber at once.
  lemma MarkingRace()
    ensures exists s :: ReachableBy(s, false) && |s.workers| == 2 && Runs(s.workers, 0, 7) && Runs(s.workers, 1, 7)
  {
    var s0 := RaceTake();
    var s1 := Pair(Running(7, C, false), Running(7, B, false), [], Exec, 2, 3, map[0 := Suspended]);
    NaturalStep(s0, Launch(0, 8), s1);
    assert Runs(s1.workers, 0, 7) && Runs(s1.workers, 1, 7);
  }
}
