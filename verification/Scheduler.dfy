// The task vector of `Scheduler` as it is updated in place: submitting one task or a batch
// (scheduler/scheduler.h:27-55 and 84-93) and the scan at the top of `run`
// (scheduler/scheduler.cpp:148-176), proved against the functions of SchedulerSteps.
module Schedulers {
  import opened Options
  import S = SchedulerSteps

  // The entries a batch leaves in the queue: empty callables are passed over.
  function Entries(works: seq<Option<S.Work>>, thread: Option<nat>, next: nat): seq<S.Task> {
    if works == [] then []
    else if works[0].None? then Entries(works[1..], thread, next)
    else [S.Task(works[0].value, thread, next)] + Entries(works[1..], thread, next + 1)
  }

  lemma {:induction false} EntriesNext(works: seq<Option<S.Work>>, thread: Option<nat>, next: nat, n: nat)
    requires n < |works|
    ensures var before := Entries(works[..n], thread, next);
            Entries(works[..n + 1], thread, next) ==
              if works[n].None? then before else before + [S.Task(works[n].value, thread, next + |before|)]
  {
    if n == 0 {
      assert works[..1][1..] == [];
    } else {
      EntriesNext(works[1..], thread, if works[0].None? then next else next + 1, n - 1);
      assert works[..n + 1][1..] == works[1..][..n] && works[..n][1..] == works[1..][..n - 1];
    }
  }

  // A batch is the submissions of its callables one by one, in order.
  function SubmitAll(s: S.State, works: seq<Option<S.Work>>, thread: Option<nat>): S.State
    decreases |works|
  {
    if works == [] then s
    else SubmitAll(if works[0].None? then s else S.Append(s, works[0].value, thread), works[1..], thread)
  }

  lemma {:induction false} BatchIsSubmissions(s: S.State, works: seq<Option<S.Work>>, thread: Option<nat>)
    ensures SubmitAll(s, works, thread)
         == s.(tasks := s.tasks + Entries(works, thread, s.next), next := s.next + |Entries(works, thread, s.next)|)
    decreases |works|
  {
    if works == [] {
      assert s.tasks + [] == s.tasks;
    } else {
      BatchIsSubmissions(if works[0].None? then s else S.Append(s, works[0].value, thread), works[1..], thread);
      if works[0].Some? {
        var t := S.Task(works[0].value, thread, s.next);
        var rest := Entries(works[1..], thread, s.next + 1);
        assert s.tasks + [t] + rest == s.tasks + ([t] + rest);
      }
    }
  }

  // Pinned to another worker.
  predicate Foreign(t: S.Task, w: nat) {
    t.thread.Some? && t.thread.value != w
  }

  class Scheduler {
    var tasks: seq<S.Task>
    var next: nat
    var active: nat
    var fibers: map<nat, S.FiberState>

    constructor (fibers: map<nat, S.FiberState>)
      ensures tasks == [] && next == 0 && active == 0 && this.fibers == fibers
    {
      tasks, next, active, this.fibers := [], 0, 0, fibers;
    }

    // `mSchedule`: an empty callable is dropped; the result asks for a notification.
    method MSchedule(work: Option<S.Work>, thread: Option<nat>) returns (shouldNotify: bool)
      modifies this`tasks, this`next
      ensures shouldNotify == (old(tasks) == [])
      ensures work.None? ==> tasks == old(tasks) && next == old(next)
      ensures work.Some? ==> tasks == old(tasks) + [S.Task(work.value, thread, old(next))] && next == old(next) + 1
    {
      shouldNotify := tasks == [];
      if work.Some? {
        tasks := tasks + [S.Task(work.value, thread, next)];
        next := next + 1;
      }
    }

    // The batch takes the callables out of the caller's hands.
    method ScheduleBatch(works: array<Option<S.Work>>, thread: Option<nat>) returns (shouldNotify: bool)
      modifies this`tasks, this`next, works
      ensures shouldNotify == (old(tasks) == [] && works.Length > 0)
      ensures tasks == old(tasks) + Entries(old(works[..]), thread, old(next))
      ensures next == old(next) + |Entries(old(works[..]), thread, old(next))|
      ensures forall i :: 0 <= i < works.Length ==> works[i] == None
    {
      shouldNotify := false;
      ghost var given := works[..];
      for i := 0 to works.Length
        invariant works[i..] == given[i..]
        invariant forall k :: 0 <= k < i ==> works[k] == None
        invariant tasks == old(tasks) + Entries(given[..i], thread, old(next))
        invariant next == old(next) + |Entries(given[..i], thread, old(next))|
        invariant shouldNotify == (old(tasks) == [] && i > 0)
      {
        assert works[i] == given[i];
        EntriesNext(given, thread, old(next), i);
        var notify := MSchedule(works[i], thread);
        works[i] := None;
        shouldNotify := notify || shouldNotify;
      }
      assert given[..works.Length] == given;
    }

    // The scan of worker w: takes the earliest eligible entry, and asks for a notification
    // if it has passed an entry for another worker.
    method ScanTasks(w: nat) returns (task: Option<S.Task>, shouldNotify: bool)
      modifies this`tasks, this`active
      ensures match S.Scan(old(tasks), fibers, w)
              case None =>
                && task == None && tasks == old(tasks) && active == old(active)
                && (shouldNotify <==> exists i :: 0 <= i < |tasks| && Foreign(tasks[i], w))
              case Some(i) =>
                && task == Some(old(tasks)[i]) && tasks == S.Without(old(tasks), i) && active == old(active) + 1
                && (shouldNotify <==> exists k :: 0 <= k < i && Foreign(old(tasks)[k], w))
    {
      task, shouldNotify := None, false;
      S.ScanIsEarliest(tasks, fibers, w);
      var it := 0;
      while it < |tasks|
        invariant 0 <= it <= |tasks| && tasks == old(tasks) && active == old(active) && task == None
        invariant forall k :: 0 <= k < it ==> !S.Eligible(fibers, w, tasks[k])
        invariant shouldNotify <==> exists k :: 0 <= k < it && Foreign(tasks[k], w)
      {
        var t := tasks[it];
        if t.thread.Some? && t.thread.value != w {
          shouldNotify := true;
          it := it + 1;
          continue;
        }
        if S.Executing(fibers, t.work) {
          it := it + 1;
          continue;
        }
        assert S.Eligible(fibers, w, tasks[it]);
        task := Some(t);
        tasks := S.Without(tasks, it);
        active := active + 1;
        return;
      }
    }
  }
}
