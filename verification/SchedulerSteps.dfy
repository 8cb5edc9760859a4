// Scheduler::run as N workers that share one task vector (scheduler/scheduler.cpp:109-255,
// scheduler/scheduler.h:27-93, fiber/fiber.cpp:233-252, 360-379 and 398-428).
//
// A worker moves from one program point to the next by steps; the steps of different
// workers, and of the program that submits tasks and calls `stop`, interleave freely. What
// the source does under its lock is one step, and so is a fiber's change of state together
// with the switch back to its worker. Callbacks do not throw.
module SchedulerSteps {
  import opened Options

  // The states of a fiber; Term and Error are final.
  datatype FiberState = Init | Hold | Exec | Term | Ready | Error

  datatype Work = Call(cb: nat) | Resume(fiber: nat)

  // An entry of `m_tasks`. Tickets number the accepted tasks; the source has none.
  datatype Task = Task(work: Work, thread: Option<nat>, ticket: nat)

  // Where a worker is in the loop of `run`.
  datatype Pc =
    | NotStarted                                     // the caller's worker, before `stop` decides about it
    | Top                                            // before it takes the lock
    | Picked(task: Task)                             // it has taken a task, the active count is up
    | Nothing                                        // it has found no task
    | Running(fiber: nat, task: Task, own: bool)     // inside a fiber; own: the worker's callback fiber
    | Returned(fiber: nat, task: Task, own: bool)    // back, before it lowers the active count
    | Settling(fiber: nat, task: Task, own: bool)    // before it looks at the fiber's state
    | Requeuing(fiber: nat, task: Task, own: bool)   // it has seen Ready
    | Marking(fiber: nat, task: Task, own: bool)     // it has seen neither Ready nor a final state
    | Idling                                         // inside the idle fiber, before it asks `stopping`
    | Polling                                        // inside the idle fiber, after `stopping` said no
    | Left                                           // it has left `run`

  // cbFiber is the fiber kept for callbacks; idleDone says that the idle fiber has ended.
  datatype Worker = Worker(pc: Pc, cbFiber: Option<nat>, idleDone: bool)

  // How a ticket ended. A fiber that yields Ready is queued again under a new ticket.
  datatype Fate = Finished | Suspended | Requeued | Discarded

  datatype State = State(
    workers: seq<Worker>,
    tasks: seq<Task>,
    fibers: map<nat, FiberState>,
    active: int,
    idle: int,
    autoStop: bool,
    stopping: bool,
    crashed: bool,
    next: nat,
    closed: map<nat, Fate>)

  // ----- Picking a task -----

  predicate Executing(fibers: map<nat, FiberState>, work: Work) {
    work.Resume? && work.fiber in fibers && fibers[work.fiber] == Exec
  }

  // A worker may take tasks that are not pinned to another one, but no running fiber.
  predicate Eligible(fibers: map<nat, FiberState>, w: nat, t: Task) {
    (t.thread.None? || t.thread.value == w) && !Executing(fibers, t.work)
  }

  // The scan over m_tasks: the index of the first eligible entry.
  function Scan(tasks: seq<Task>, fibers: map<nat, FiberState>, w: nat): (r: Option<nat>)
    ensures r.Some? ==> r.value < |tasks|
  {
    if tasks == [] then None
    else if Eligible(fibers, w, tasks[0]) then Some(0)
    else
      match Scan(tasks[1..], fibers, w)
      case None => None
      case Some(i) => Some(i + 1)
  }

  function Without(tasks: seq<Task>, i: nat): seq<Task>
    requires i < |tasks|
  {
    tasks[..i] + tasks[i + 1..]
  }

  // It takes the earliest eligible entry, and nothing if there is none.
  lemma {:induction false} ScanIsEarliest(tasks: seq<Task>, fibers: map<nat, FiberState>, w: nat)
    ensures var r := Scan(tasks, fibers, w);
            if r.None? then forall i :: 0 <= i < |tasks| ==> !Eligible(fibers, w, tasks[i])
            else Eligible(fibers, w, tasks[r.value]) && forall i :: 0 <= i < r.value ==> !Eligible(fibers, w, tasks[i])
  {
    if tasks != [] {
      ScanIsEarliest(tasks[1..], fibers, w);
    }
  }

  // ----- Steps -----

  // Who submits: the program outside, or code that runs on a worker.
  datatype Source = Outside | Inside(w: nat)

  datatype Step =
    | Submit(source: Source, work: Work, thread: Option<nat>)
    | Take(w: nat)
    | Launch(w: nat, newFiber: nat)
    | Yield(w: nat, how: FiberState)
    | Lower(w: nat)
    | Settle(w: nat)
    | Requeue(w: nat)
    | Mark(w: nat)
    | GoIdle(w: nat)
    | AskStopping(w: nat, quiet: bool)
    | LeaveIdle(w: nat)
    | SetAutoStop
    | SetStopping
    | StartCaller(w: nat, quiet: bool)

  function StateOf(s: State, f: nat): FiberState {
    if f in s.fibers then s.fibers[f] else Init
  }

  function At(s: State, w: nat): Pc {
    if w < |s.workers| then s.workers[w].pc else Left
  }

  // Code that submits is inside a fiber, or inside the idle fiber's dispatch.
  predicate Submits(pc: Pc) {
    pc.Running? || pc.Polling?
  }

  // `stopping()`; `quiet` is what IOScheduler adds to it: no timer and no registered event.
  // IOStopping takes the three looks apart.
  predicate StoppingNow(s: State, quiet: bool) {
    s.stopping && s.autoStop && s.tasks == [] && s.active == 0 && quiet
  }

  // When a step can be taken. From outside, nothing is submitted once `stop` is called.
  predicate Enabled(s: State, step: Step) {
    && !s.crashed
    && match step
       case Submit(source, _, _) => if source.Outside? then !s.autoStop else Submits(At(s, source.w))
       case Take(w) => At(s, w).Top?
       case Launch(w, newFiber) => At(s, w).Picked? && newFiber !in s.fibers
       case Yield(w, how) => At(s, w).Running? && (how == Hold || how == Ready || how == Term)
       case Lower(w) => At(s, w).Returned?
       case Settle(w) => At(s, w).Settling?
       case Requeue(w) => At(s, w).Requeuing?
       case Mark(w) => At(s, w).Marking?
       case GoIdle(w) => At(s, w).Nothing?
       case AskStopping(w, _) => At(s, w).Idling?
       case LeaveIdle(w) => At(s, w).Polling?
       case SetAutoStop => true
       case SetStopping => s.autoStop
       case StartCaller(w, _) => At(s, w).NotStarted? && s.stopping && s.autoStop
  }

  function Goto(s: State, w: nat, pc: Pc): State
    requires w < |s.workers|
  {
    s.(workers := s.workers[w := s.workers[w].(pc := pc)])
  }

  function Become(s: State, f: nat, state: FiberState): State {
    s.(fibers := s.fibers[f := state])
  }

  function Close(s: State, ticket: nat, fate: Fate): State {
    s.(closed := s.closed[ticket := fate])
  }

  // `mSchedule`
  function Append(s: State, work: Work, thread: Option<nat>): State {
    s.(tasks := s.tasks + [Task(work, thread, s.next)], next := s.next + 1)
  }

  function AfterSubmit(s: State, work: Work, thread: Option<nat>): State {
    var s' := Append(s, work, thread);
    if work.Resume? && work.fiber !in s.fibers then Become(s', work.fiber, Init) else s'
  }

  function AfterTake(s: State, w: nat): State
    requires w < |s.workers|
  {
    var r := Scan(s.tasks, s.fibers, w);
    if r.None? then Goto(s, w, Nothing)
    else Goto(s.(tasks := Without(s.tasks, r.value), active := s.active + 1), w, Picked(s.tasks[r.value]))
  }

  // Swapping in a fiber that runs already throws.
  function AfterLaunch(s: State, w: nat, newFiber: nat): State
    requires w < |s.workers| && s.workers[w].pc.Picked?
  {
    var task := s.workers[w].pc.task;
    match task.work
    case Resume(f) =>
      var state := StateOf(s, f);
      if state == Term || state == Error then Goto(Close(s.(active := s.active - 1), task.ticket, Discarded), w, Top)
      else if state == Exec then s.(crashed := true)
      else Goto(Become(s, f, Exec), w, Running(f, task, false))
    case Call(_) =>
      var f := if s.workers[w].cbFiber.Some? then s.workers[w].cbFiber.value else newFiber;
      Become(s.(workers := s.workers[w := s.workers[w].(pc := Running(f, task, true), cbFiber := Some(f))]), f, Exec)
  }

  function AfterSettle(s: State, w: nat): State
    requires w < |s.workers| && s.workers[w].pc.Settling?
  {
    var Settling(f, task, own) := s.workers[w].pc;
    var state := StateOf(s, f);
    if state == Ready then Goto(s, w, Requeuing(f, task, own))
    else if state == Term || state == Error then
      var s' := Goto(Close(s, task.ticket, Finished), w, Top);
      if own then Become(s', f, Init) else s'
    else Goto(s, w, Marking(f, task, own))
  }

  // The worker lets go of its callback fiber if that is the one it ran.
  function Release(s: State, w: nat, own: bool): State
    requires w < |s.workers|
  {
    s.(workers := s.workers[w := s.workers[w].(pc := Top, cbFiber := if own then None else s.workers[w].cbFiber)])
  }

  function AfterRequeue(s: State, w: nat): State
    requires w < |s.workers| && s.workers[w].pc.Requeuing?
  {
    var Requeuing(f, task, own) := s.workers[w].pc;
    Release(Append(Close(s, task.ticket, Requeued), Resume(f), None), w, own)
  }

  function AfterMark(s: State, w: nat): State
    requires w < |s.workers| && s.workers[w].pc.Marking?
  {
    var Marking(f, task, own) := s.workers[w].pc;
    Release(Become(Close(s, task.ticket, Suspended), f, Hold), w, own)
  }

  function Apply(s: State, step: Step): State
    requires Enabled(s, step)
  {
    match step
    case Submit(_, work, thread) => AfterSubmit(s, work, thread)
    case Take(w) => AfterTake(s, w)
    case Launch(w, newFiber) => AfterLaunch(s, w, newFiber)
    case Yield(w, how) =>
      var Running(f, task, own) := s.workers[w].pc;
      Goto(Become(s, f, how), w, Returned(f, task, own))
    case Lower(w) =>
      var Returned(f, task, own) := s.workers[w].pc;
      Goto(s.(active := s.active - 1), w, Settling(f, task, own))
    case Settle(w) => AfterSettle(s, w)
    case Requeue(w) => AfterRequeue(s, w)
    case Mark(w) => AfterMark(s, w)
    case GoIdle(w) =>
      if s.workers[w].idleDone then Goto(s, w, Left) else Goto(s.(idle := s.idle + 1), w, Idling)
    case AskStopping(w, quiet) =>
      if StoppingNow(s, quiet) then
        s.(idle := s.idle - 1, workers := s.workers[w := s.workers[w].(pc := Top, idleDone := true)])
      else Goto(s, w, Polling)
    case LeaveIdle(w) => Goto(s.(idle := s.idle - 1), w, Top)
    case SetAutoStop => s.(autoStop := true)
    case SetStopping => s.(stopping := true)
    case StartCaller(w, quiet) => if StoppingNow(s, quiet) then Goto(s, w, Left) else Goto(s, w, Top)
  }

  // After `start`: every thread at the top of its loop, the caller's worker, if there is
  // one, waiting for `stop`, and fibers that exist already but do not run.
  predicate Initial(s: State) {
    && |s.workers| > 0
    && (forall w :: 0 <= w < |s.workers| ==>
          (s.workers[w].pc.Top? || s.workers[w].pc.NotStarted?) && s.workers[w].cbFiber.None? && !s.workers[w].idleDone)
    && s.tasks == [] && s.active == 0 && s.idle == 0 && s.next == 0 && s.closed == map[]
    && !s.autoStop && !s.stopping && !s.crashed
    && forall f :: f in s.fibers ==> s.fibers[f] != Exec
  }
}
