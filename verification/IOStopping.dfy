// How workers of an IOScheduler stop (scheduler/ioscheduler.cpp:308-318 and 336-446). Its
// `stopping` looks at three things one after the other: the timers, the registered events,
// and the queue with the active count. The steps of SchedulerSteps take these as one; here
// they are apart, and what changes timers and registrations may come in between.
module IOStopping {
  import opened Options
  import S = SchedulerSteps
  import R = SchedulerRuns

  // asked[w]: how many of its three looks worker w has behind it, all of which found nothing.
  datatype State = State(run: S.State, asked: seq<nat>, timers: nat, waiting: nat)

  // The first two looks.
  datatype Kind = Timers | Waiters

  function Left(s: State, k: Kind): nat {
    match k
    case Timers => s.timers
    case Waiters => s.waiting
  }

  function Look(k: Kind): nat {
    match k
    case Timers => 0
    case Waiters => 1
  }

  // Ask is the next look of a worker that is stopping; Change adds or takes away a timer or
  // a registration; everything else is a step of the scheduler.
  datatype Step =
    | Plain(step: S.Step)
    | Ask(w: nat)
    | Change(source: S.Source, kind: Kind, up: bool)

  // In its idle fiber, or, for the caller's worker, in `stop`.
  predicate Asking(pc: S.Pc) {
    pc.Idling? || pc.NotStarted?
  }

  function AskStep(s: State, w: nat, quiet: bool): S.Step {
    if S.At(s.run, w).Idling? then S.AskStopping(w, quiet) else S.StartCaller(w, quiet)
  }

  // What the next look of worker w finds.
  predicate Nothing(s: State, w: nat) {
    w < |s.asked| &&
    if s.asked[w] == 0 then s.timers == 0
    else if s.asked[w] == 1 then s.waiting == 0
    else S.StoppingNow(s.run, true)
  }

  predicate Enabled(s: State, step: Step) {
    match step
    case Plain(p) => !p.AskStopping? && !p.StartCaller? && S.Enabled(s.run, p)
    case Ask(w) => w < |s.asked| && S.Enabled(s.run, AskStep(s, w, true)) && Asking(S.At(s.run, w))
    case Change(source, k, up) =>
      && !s.run.crashed && (up || Left(s, k) > 0)
      && if source.Outside? then !s.run.autoStop else S.Submits(S.At(s.run, source.w))
  }

  function Changed(s: State, k: Kind, up: bool): State
    requires up || Left(s, k) > 0
  {
    var d := if up then 1 else -1;
    match k
    case Timers => s.(timers := s.timers + d)
    case Waiters => s.(waiting := s.waiting + d)
  }

  function AfterAsk(s: State, w: nat): State
    requires Enabled(s, Ask(w))
  {
    if Nothing(s, w) && s.asked[w] < 2 then s.(asked := s.asked[w := s.asked[w] + 1])
    else s.(run := S.Apply(s.run, AskStep(s, w, Nothing(s, w))), asked := s.asked[w := 0])
  }

  function Apply(s: State, step: Step): State
    requires Enabled(s, step)
  {
    match step
    case Plain(p) => s.(run := S.Apply(s.run, p))
    case Ask(w) => AfterAsk(s, w)
    case Change(_, k, up) => Changed(s, k, up)
  }

  predicate Initial(s: State) {
    && S.Initial(s.run) && |s.asked| == |s.run.workers|
    && forall w :: 0 <= w < |s.asked| ==> s.asked[w] == 0
  }

  // The looks in their order: the timers, the registrations, and last the queue and the
  // active count. If one finds something, the worker goes on, and begins with the first the
  // next time; if none does, its idle fiber ends, or the caller's worker never begins.
  lemma LookMeans(s: State, w: nat)
    requires Enabled(s, Ask(w)) && s.asked[w] <= 2
    ensures var r, x := Apply(s, Ask(w)), s.run.workers[w];
            var found := if s.asked[w] == 0 then s.timers > 0
                         else if s.asked[w] == 1 then s.waiting > 0
                         else !(s.run.stopping && s.run.autoStop && s.run.tasks == [] && s.run.active == 0);
            && r.timers == s.timers && r.waiting == s.waiting
            && (found ==> r.asked == s.asked[w := 0]
                          && r.run.workers[w] == x.(pc := if x.pc.Idling? then S.Polling else S.Top))
            && (!found && s.asked[w] < 2 ==> r.asked == s.asked[w := s.asked[w] + 1] && r.run == s.run)
            && (!found && s.asked[w] == 2 ==>
                  r.run.workers[w] == if x.pc.Idling? then x.(pc := S.Top, idleDone := true) else x.(pc := S.Left))
  {
  }

  // ----- These are the runs of the scheduler -----

  // Each step is one of the scheduler, or nothing to it: what holds in its reachable states
  // holds here.
  lemma StepIsSchedulers(s: State, step: Step)
    requires Enabled(s, step)
    ensures var r := Apply(s, step).run;
            r == s.run || exists p :: S.Enabled(s.run, p) && r == S.Apply(s.run, p)
  {
    match step
    case Plain(p) =>
    case Ask(w) =>
      var p := AskStep(s, w, Nothing(s, w));
      assert S.Enabled(s.run, p);
    case Change(_, _, _) =>
  }

  ghost predicate Leads(s: State, steps: seq<Step>, r: State)
    decreases |steps|
  {
    if steps == [] then r == s else Enabled(s, steps[0]) && Leads(Apply(s, steps[0]), steps[1..], r)
  }

  ghost predicate Reachable(s: State) {
    exists start, steps :: Initial(start) && Leads(start, steps, s)
  }

  lemma {:induction false} LeadsSchedulers(s: State, steps: seq<Step>, r: State)
    requires R.Reachable(s.run) && Leads(s, steps, r)
    ensures R.Reachable(r.run)
    decreases |steps|
  {
    if steps != [] {
      var m := Apply(s, steps[0]);
      StepIsSchedulers(s, steps[0]);
      if m.run != s.run {
        var p :| S.Enabled(s.run, p) && m.run == S.Apply(s.run, p);
        R.ReachableTo(s.run, p, m.run);
      }
      LeadsSchedulers(m, steps[1..], r);
    }
  }

  lemma ReachableSchedulers(s: State)
    requires Reachable(s)
    ensures R.Reachable(s.run)
  {
    var start, steps :| Initial(start) && Leads(start, steps, s);
    assert R.Leads(start.run, [], start.run);
    LeadsSchedulers(start, steps, s);
  }

  // ----- Who will still look -----

  // Only who is stopping has looks behind it, and only whose idle fiber goes on is.
  ghost predicate Inv(s: State) {
    && |s.asked| == |s.run.workers|
    && forall w :: 0 <= w < |s.asked| ==>
         && s.asked[w] <= 2
         && (s.asked[w] > 0 ==> Asking(s.run.workers[w].pc))
         && (Asking(s.run.workers[w].pc) ==> !s.run.workers[w].idleDone)
  }

  // Worker w looks at the timers, or the registrations, before it leaves.
  predicate Watches(s: State, w: nat, k: Kind) {
    && w < |s.run.workers| && w < |s.asked|
    && !s.run.workers[w].pc.Left? && !s.run.workers[w].idleDone && s.asked[w] <= Look(k)
  }

  ghost predicate Watched(s: State, k: Kind) {
    exists w :: Watches(s, w, k)
  }

  // A look finds something: the worker does not leave yet, and will look at all three again.
  predicate FindsSomething(s: State, step: Step) {
    step.Ask? && !Nothing(s, step.w)
  }

  // What a step of the scheduler that is no look leaves of a worker x: its idle fiber does
  // not end, and it does not leave unless its idle fiber has ended before.
  predicate Keeps(x: S.Worker, y: S.Worker) {
    && y.idleDone == x.idleDone
    && (y.pc.Left? ==> x.pc.Left? || x.idleDone)
    && (x.pc.Left? ==> y.pc.Left?)
    && (Asking(x.pc) ==> y.pc == x.pc)
    && (Asking(y.pc) && !Asking(x.pc) ==> !x.idleDone)
  }

  lemma LauncherKeeps(s: S.State, w: nat, f: nat)
    requires S.Enabled(s, S.Launch(w, f))
    ensures Keeps(s.workers[w], S.AfterLaunch(s, w, f).workers[w])
  {
    R.LaunchStays(s, w, f);
  }

  lemma SettlerKeeps(s: S.State, w: nat)
    requires S.Enabled(s, S.Settle(w))
    ensures Keeps(s.workers[w], S.AfterSettle(s, w).workers[w])
  {
    R.SettleStays(s, w);
  }

  lemma ActorKeeps(s: S.State, p: S.Step, w: nat)
    requires S.Enabled(s, p) && !p.AskStopping? && !p.StartCaller? && R.Actor(p) == Some(w)
    requires R.OnlyWorker(s, S.Apply(s, p), w)
    ensures Keeps(s.workers[w], S.Apply(s, p).workers[w])
  {
    var y := S.Apply(s, p).workers[w];
    match p
    case Take(_) => assert y.pc.Nothing? || y.pc.Picked?;
    case Launch(_, f) => LauncherKeeps(s, w, f);
    case Yield(_, _) => assert y.pc.Returned?;
    case Lower(_) => assert y.pc.Settling?;
    case Settle(_) => SettlerKeeps(s, w);
    case Requeue(_) => assert y.pc.Top?;
    case Mark(_) => assert y.pc.Top?;
    case GoIdle(_) =>
    case LeaveIdle(_) => assert y.pc.Top?;
  }

  lemma PlainStays(s: S.State, p: S.Step)
    requires S.Enabled(s, p) && !p.AskStopping? && !p.StartCaller?
    ensures var r := S.Apply(s, p);
            |r.workers| == |s.workers| && forall w :: 0 <= w < |s.workers| ==> Keeps(s.workers[w], r.workers[w])
  {
    R.OnlyActor(s, p);
    if R.Actor(p).Some? {
      ActorKeeps(s, p, R.Actor(p).value);
    }
  }

  lemma InvKept(s: State, step: Step)
    requires Inv(s) && Enabled(s, step)
    ensures Inv(Apply(s, step))
  {
    match step
    case Plain(p) => PlainStays(s.run, p);
    case Ask(_) =>
    case Change(_, _, _) =>
  }

  // A worker that watches something that is left goes on watching.
  lemma WatchesOn(s: State, step: Step, w: nat, k: Kind)
    requires Inv(s) && Enabled(s, step) && Left(s, k) > 0 && Watches(s, w, k)
    ensures Watches(Apply(s, step), w, k)
  {
    match step
    case Plain(p) => PlainStays(s.run, p);
    case Ask(_) =>
    case Change(_, _, _) =>
  }

  lemma WatchesNew(s: State, step: Step, w: nat, k: Kind)
    requires Inv(s) && Enabled(s, step) && Watches(Apply(s, step), w, k)
    ensures Watches(s, w, k) || FindsSomething(s, step)
  {
    match step
    case Plain(p) => PlainStays(s.run, p);
    case Ask(_) =>
    case Change(_, _, _) =>
  }

  // While something is left, it is watched after a step if and only if it was before, or the
  // step is a look that finds something.
  lemma WatchedExactly(s: State, step: Step, k: Kind)
    requires Inv(s) && Enabled(s, step) && Left(s, k) > 0
    ensures Watched(Apply(s, step), k) <==> Watched(s, k) || FindsSomething(s, step)
  {
    if w :| Watches(s, w, k) {
      WatchesOn(s, step, w, k);
    }
    if w :| Watches(Apply(s, step), w, k) {
      WatchesNew(s, step, w, k);
    }
    if FindsSomething(s, step) {
      assert Watches(Apply(s, step), step.w, k);
    }
  }

  // ----- What is left when everybody has left -----

  ghost predicate AllGone(s: State) {
    forall w :: 0 <= w < |s.run.workers| ==> s.run.workers[w].pc.Left?
  }

  // Whatever is left is watched.
  ghost predicate Guarded(s: State) {
    forall k :: Left(s, k) > 0 ==> Watched(s, k)
  }

  lemma GuardedGone(s: State)
    requires Guarded(s) && AllGone(s)
    ensures s.timers == 0 && s.waiting == 0
  {
    assert Left(s, Timers) == 0 && Left(s, Waiters) == 0;
  }

  // The first timer, or registration, comes when every worker has looked for the last time.
  ghost predicate TooLate(s: State, step: Step) {
    step.Change? && step.up && Left(s, step.kind) == 0 && !Watched(s, step.kind)
  }

  // That, and nothing else, leaves something unwatched.
  lemma GuardedExactly(s: State, step: Step)
    requires Inv(s) && Enabled(s, step) && Guarded(s)
    ensures Guarded(Apply(s, step)) <==> !TooLate(s, step)
  {
    var r := Apply(s, step);
    if TooLate(s, step) {
      assert Left(r, step.kind) > 0;
      if w :| Watches(r, w, step.kind) {
        WatchesNew(s, step, w, step.kind);
      }
    } else {
      forall k | Left(r, k) > 0
        ensures Watched(r, k)
      {
        if Left(s, k) > 0 {
          WatchedExactly(s, step, k);
        } else {
          assert step.Change? && step.up && step.kind == k;
          var w :| Watches(s, w, k);
          assert Watches(r, w, k);
        }
      }
    }
  }

  ghost predicate NeverTooLate(s: State, steps: seq<Step>)
    decreases |steps|
  {
    steps != [] ==>
      Enabled(s, steps[0]) && !TooLate(s, steps[0]) && NeverTooLate(Apply(s, steps[0]), steps[1..])
  }

  lemma {:induction false} GuardedRun(s: State, steps: seq<Step>, r: State)
    requires Inv(s) && Guarded(s) && Leads(s, steps, r) && NeverTooLate(s, steps)
    ensures Guarded(r)
    decreases |steps|
  {
    if steps != [] {
      InvKept(s, steps[0]);
      GuardedExactly(s, steps[0]);
      GuardedRun(Apply(s, steps[0]), steps[1..], r);
    }
  }

  // In a run in which nothing comes too late, no timer is in the set and no registration
  // waits when all workers have left.
  lemma NothingLeftOver(start: State, steps: seq<Step>, s: State)
    requires Initial(start) && start.timers == 0 && start.waiting == 0
    requires Leads(start, steps, s) && NeverTooLate(start, steps) && AllGone(s)
    ensures s.timers == 0 && s.waiting == 0
  {
    GuardedRun(start, steps, s);
    GuardedGone(s);
  }

  // What stays in the set from s to r.
  ghost predicate Remains(s: State, steps: seq<Step>, k: Kind)
    decreases |steps|
  {
    Left(s, k) > 0 && (steps != [] ==> Enabled(s, steps[0]) && Remains(Apply(s, steps[0]), steps[1..], k))
  }

  ghost predicate SomeoneFinds(s: State, steps: seq<Step>)
    decreases |steps|
  {
    steps != [] && Enabled(s, steps[0]) &&
    (FindsSomething(s, steps[0]) || SomeoneFinds(Apply(s, steps[0]), steps[1..]))
  }

  // For something that comes too late there is one hope: a look that still finds something.
  lemma {:induction false} RemainsExactly(s: State, steps: seq<Step>, r: State, k: Kind)
    requires Inv(s) && Leads(s, steps, r) && Remains(s, steps, k)
    ensures Watched(r, k) <==> Watched(s, k) || SomeoneFinds(s, steps)
    ensures AllGone(r) ==> !Watched(s, k) && !SomeoneFinds(s, steps)
    decreases |steps|
  {
    if steps != [] {
      InvKept(s, steps[0]);
      WatchedExactly(s, steps[0], k);
      RemainsExactly(Apply(s, steps[0]), steps[1..], r, k);
    }
  }

  // ----- A timer can be left behind -----

  lemma {:induction false} LeadsThen(s: State, steps: seq<Step>, m: State, step: Step)
    requires Leads(s, steps, m) && Enabled(m, step)
    ensures Leads(s, steps + [step], Apply(m, step))
    decreases |steps|
  {
    if steps == [] {
      assert ([] + [step])[1..] == [];
      assert Leads(Apply(m, step), [], Apply(m, step));
    } else {
      LeadsThen(Apply(s, steps[0]), steps[1..], m, step);
      assert (steps + [step])[1..] == steps[1..] + [step];
    }
  }

  lemma Then(s: State, step: Step, r: State)
    requires Reachable(s) && Enabled(s, step) && Apply(s, step) == r
    ensures Reachable(r)
  {
    var start, steps :| Initial(start) && Leads(start, steps, s);
    LeadsThen(start, steps, s, step);
  }

  // A worker at the top of its loop that finds no task goes to its idle fiber, or leaves.
  lemma Rests(s: State, w: nat) returns (r: State)
    requires Reachable(s) && !s.run.crashed && S.At(s.run, w).Top? && s.run.tasks == []
    ensures Reachable(r)
    ensures r == s.(run := if s.run.workers[w].idleDone then S.Goto(s.run, w, S.Left)
                           else S.Goto(s.run.(idle := s.run.idle + 1), w, S.Idling))
  {
    var m := s.(run := S.Goto(s.run, w, S.Nothing));
    Then(s, Plain(S.Take(w)), m);
    r := s.(run := S.Apply(m.run, S.GoIdle(w)));
    Then(m, Plain(S.GoIdle(w)), r);
    assert m.run.workers[w := m.run.workers[w].(pc := S.Left)] == s.run.workers[w := s.run.workers[w].(pc := S.Left)];
    assert m.run.workers[w := m.run.workers[w].(pc := S.Idling)]
        == s.run.workers[w := s.run.workers[w].(pc := S.Idling)];
  }

  // It finds no timer and no registration.
  lemma FindsNone(s: State, w: nat) returns (r: State)
    requires Reachable(s) && !s.run.crashed && S.At(s.run, w).Idling?
    requires w < |s.asked| && s.asked[w] == 0 && s.timers == 0 && s.waiting == 0
    ensures Reachable(r) && r == s.(asked := s.asked[w := 2])
  {
    var m := s.(asked := s.asked[w := 1]);
    Then(s, Ask(w), m);
    r := m.(asked := m.asked[w := 2]);
    Then(m, Ask(w), r);
    assert m.asked[w := 2] == s.asked[w := 2];
  }

  // It finds a timer.
  lemma FindsTimer(s: State, w: nat) returns (r: State)
    requires Reachable(s) && !s.run.crashed && S.At(s.run, w).Idling?
    requires w < |s.asked| && s.asked[w] == 0 && s.timers > 0
    ensures Reachable(r) && r == s.(run := S.Goto(s.run, w, S.Polling))
  {
    r := s.(run := S.Goto(s.run, w, S.Polling));
    assert s.asked[w := 0] == s.asked;
    Then(s, Ask(w), r);
  }

  // Its last look finds the queue empty and nobody active: the idle fiber ends.
  lemma EndsIdle(s: State, w: nat) returns (r: State)
    requires Reachable(s) && !s.run.crashed && S.At(s.run, w).Idling?
    requires w < |s.asked| && s.asked[w] == 2 && S.StoppingNow(s.run, true)
    ensures Reachable(r)
    ensures var x := s.run.workers[w].(pc := S.Top, idleDone := true);
            r == s.(run := s.run.(idle := s.run.idle - 1, workers := s.run.workers[w := x]), asked := s.asked[w := 0])
  {
    r := AfterAsk(s, w);
    Then(s, Ask(w), r);
  }

  lemma TimerChange(s: State, source: S.Source, up: bool) returns (r: State)
    requires Reachable(s) && Enabled(s, Change(source, Timers, up))
    ensures Reachable(r) && r == s.(timers := if up then s.timers + 1 else s.timers - 1)
  {
    r := Changed(s, Timers, up);
    Then(s, Change(source, Timers, up), r);
  }

  lemma Stopped(s: State) returns (r: State)
    requires Reachable(s) && !s.run.crashed
    ensures r == s.(run := s.run.(autoStop := true, stopping := true)) && Reachable(r)
  {
    var m := s.(run := s.run.(autoStop := true));
    Then(s, Plain(S.SetAutoStop), m);
    r := m.(run := m.run.(stopping := true));
    Then(m, Plain(S.SetStopping), r);
  }

  // One worker.
  function One(pc: S.Pc, done: bool, idle: int, stop: bool, asked: nat, timers: nat): State {
    State(S.State([S.Worker(pc, None, done)], [], map[], 0, idle, stop, stop, false, 0, map[]), [asked], timers, 0)
  }

  // It has found no timer and no registration. Now the program adds a timer and calls `stop`.
  lemma TimerBeforeStop() returns (s: State)
    ensures s == One(S.Idling, false, 1, true, 2, 1) && Reachable(s)
  {
    s := One(S.Top, false, 0, false, 0, 0);
    assert Initial(s) && Leads(s, [], s);
    s := Rests(s, 0);
    assert s == One(S.Idling, false, 1, false, 0, 0);
    s := FindsNone(s, 0);
    s := TimerChange(s, S.Outside, true);
    s := Stopped(s);
  }

  // The worker's last look finds the queue empty, and it leaves.
  lemma TimerLeftBehind()
    ensures exists s :: Reachable(s) && AllGone(s) && s.timers > 0
  {
    var s := TimerBeforeStop();
    s := EndsIdle(s, 0);
    s := Rests(s, 0);
    assert AllGone(s);
  }

  // Two workers, after `stop`: the first has no callback fiber. x is the second.
  function Two(pc: S.Pc, done: bool, x: S.Worker, tasks: seq<S.Task>, fibers: map<nat, S.FiberState>,
               active: int, idle: int, next: nat, asked: seq<nat>, timers: nat): State {
    State(S.State([S.Worker(pc, None, done), x], tasks, fibers, active, idle, true, true, false, next, map[]),
          asked, timers, 0)
  }

  const T: S.Task := S.Task(S.Call(9), None, 0)

  // A timer was set before `stop`.
  lemma TwoStopped() returns (s: State)
    ensures s == Two(S.Top, false, S.Worker(S.Top, None, false), [], map[], 0, 0, 0, [0, 0], 1) && Reachable(s)
  {
    var x := S.Worker(S.Top, None, false);
    s := State(S.State([x, x], [], map[], 0, 0, false, false, false, 0, map[]), [0, 0], 0, 0);
    assert Initial(s) && Leads(s, [], s);
    s := TimerChange(s, S.Outside, true);
    s := Stopped(s);
  }

  // The first worker finds it and goes on to collect it; the second goes idle.
  lemma TwoIdle() returns (s: State)
    ensures s == Two(S.Polling, false, S.Worker(S.Idling, None, false), [], map[], 0, 2, 0, [0, 0], 1) && Reachable(s)
  {
    var s0 := TwoStopped();
    var s1 := Rests(s0, 0);
    assert s1 == Two(S.Idling, false, S.Worker(S.Top, None, false), [], map[], 0, 1, 0, [0, 0], 1);
    var s2 := FindsTimer(s1, 0);
    s := Rests(s2, 1);
  }

  // The timer is taken out of the set; before its callback is queued, the second worker's
  // idle fiber ends.
  lemma SecondDone() returns (s: State)
    ensures s == Two(S.Polling, false, S.Worker(S.Top, None, true), [], map[], 0, 1, 0, [0, 0], 0) && Reachable(s)
  {
    s := TwoIdle();
    s := TimerChange(s, S.Inside(0), false);
    s := FindsNone(s, 1);
    assert s == Two(S.Polling, false, S.Worker(S.Idling, None, false), [], map[], 0, 2, 0, [0, 2], 0);
    s := EndsIdle(s, 1);
  }

  // The callback is queued, and the second worker runs it.
  lemma SecondRuns() returns (s: State)
    ensures s == Two(S.Polling, false, S.Worker(S.Running(8, T, true), Some(8), true), [], map[8 := S.Exec],
                     1, 1, 1, [0, 0], 0)
    ensures Reachable(s)
  {
    var s0 := SecondDone();
    var s1 := Two(S.Polling, false, S.Worker(S.Top, None, true), [T], map[], 0, 1, 1, [0, 0], 0);
    Then(s0, Plain(S.Submit(S.Inside(0), S.Call(9), None)), s1);
    s := SecondTakes(s1);
  }

  lemma SecondTakes(s1: State) returns (s: State)
    requires s1 == Two(S.Polling, false, S.Worker(S.Top, None, true), [T], map[], 0, 1, 1, [0, 0], 0) && Reachable(s1)
    ensures s == Two(S.Polling, false, S.Worker(S.Running(8, T, true), Some(8), true), [], map[8 := S.Exec],
                     1, 1, 1, [0, 0], 0)
    ensures Reachable(s)
  {
    var s2 := Two(S.Polling, false, S.Worker(S.Picked(T), None, true), [], map[], 1, 1, 1, [0, 0], 0);
    Then(s1, Plain(S.Take(1)), s2);
    s := Two(S.Polling, false, S.Worker(S.Running(8, T, true), Some(8), true), [], map[8 := S.Exec],
             1, 1, 1, [0, 0], 0);
    Then(s2, Plain(S.Launch(1, 8)), s);
  }

  // Meanwhile the first one goes idle again, and finds no timer and no registration. After
  // that the callback adds a timer.
  lemma AddedTooLate() returns (s: State)
    ensures s == Two(S.Idling, false, S.Worker(S.Running(8, T, true), Some(8), true), [], map[8 := S.Exec],
                     1, 1, 1, [2, 0], 1)
    ensures Reachable(s)
  {
    var s0 := SecondRuns();
    s := Two(S.Top, false, S.Worker(S.Running(8, T, true), Some(8), true), [], map[8 := S.Exec], 1, 0, 1, [0, 0], 0);
    Then(s0, Plain(S.LeaveIdle(0)), s);
    s := Rests(s, 0);
    s := FindsNone(s, 0);
    s := TimerChange(s, S.Inside(1), true);
  }

  // It ends.
  lemma CallbackEnds() returns (s: State)
    ensures s == Two(S.Idling, false, S.Worker(S.Settling(8, T, true), Some(8), true), [], map[8 := S.Term],
                     0, 1, 1, [2, 0], 1)
    ensures Reachable(s)
  {
    var s0 := AddedTooLate();
    var s1 := Two(S.Idling, false, S.Worker(S.Returned(8, T, true), Some(8), true), [], map[8 := S.Term],
                  1, 1, 1, [2, 0], 1);
    Then(s0, Plain(S.Yield(1, S.Term)), s1);
    s := Two(S.Idling, false, S.Worker(S.Settling(8, T, true), Some(8), true), [], map[8 := S.Term],
             0, 1, 1, [2, 0], 1);
    Then(s1, Plain(S.Lower(1)), s);
  }

  // The first worker finds nothing to do and leaves.
  lemma FirstLeaves() returns (s: State)
    ensures s == Two(S.Left, true, S.Worker(S.Settling(8, T, true), Some(8), true), [], map[8 := S.Term],
                     0, 0, 1, [0, 0], 1)
    ensures Reachable(s)
  {
    s := CallbackEnds();
    s := EndsIdle(s, 0);
    assert s == Two(S.Top, true, S.Worker(S.Settling(8, T, true), Some(8), true), [], map[8 := S.Term],
                    0, 0, 1, [0, 0], 1);
    s := Rests(s, 0);
  }

  // So does the second one, without another look. Here the timer was added by code that ran
  // on a worker, after `stop`.
  lemma CallbackTimerLeftBehind()
    ensures exists s :: Reachable(s) && AllGone(s) && s.timers > 0 && s.run.next > 0
  {
    var s := FirstLeaves();
    var r := s.(run := S.Apply(s.run, S.Settle(1)));
    Then(s, Plain(S.Settle(1)), r);
    s := Rests(r, 1);
    assert AllGone(s);
  }
}
