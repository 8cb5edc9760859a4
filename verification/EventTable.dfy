// scheduler/ioscheduler.cpp: which fiber or callback waits for which event of which file
// descriptor, next to the interest set the kernel keeps for epoll.
//
// Here the operations are functions on values, with what holds after every sequence of
// them; module IOSchedulers has the class whose methods they specify.
module EventTables {
  import opened Options

  datatype Event = Read | Write

  type Events = set<Event>

  // Who is resumed, and by which scheduler.
  datatype Waiter = Callback(cb: nat) | Fiber(fiber: nat)

  datatype Task = Task(scheduler: nat, waiter: Waiter)

  // `EventContext`
  datatype Context = Context(scheduler: Option<nat>, fiber: Option<nat>, cb: Option<nat>)

  const EMPTY: Context := Context(None, None, None)

  // `FdContext`
  datatype Entry = Entry(event: Events, read: Context, write: Context)

  const FREE: Entry := Entry({}, EMPTY, EMPTY)

  function Free(n: nat): (entries: seq<Entry>)
    ensures |entries| == n && forall i :: 0 <= i < n ==> entries[i] == FREE
  {
    seq(n, _ => FREE)
  }

  // What happened to registrations, in order.
  datatype Record =
    | Added(fd: nat, event: Event, task: Task)
    | Triggered(fd: nat, event: Event, task: Task)
    | Deleted(fd: nat, event: Event, task: Task)

  datatype State = State(entries: seq<Entry>, kernel: map<nat, Events>, waiting: int, history: seq<Record>)

  function GetContext(c: Entry, e: Event): Context {
    if e == Read then c.read else c.write
  }

  function SetContext(c: Entry, e: Event, ctx: Context): Entry {
    if e == Read then c.(read := ctx) else c.(write := ctx)
  }

  // A scheduler, and exactly one of a fiber and a callback.
  predicate Occupied(ctx: Context) {
    ctx.scheduler.Some? && (ctx.fiber.Some? != ctx.cb.Some?)
  }

  function TaskOf(ctx: Context): Task
    requires Occupied(ctx)
  {
    Task(ctx.scheduler.value, if ctx.cb.Some? then Callback(ctx.cb.value) else Fiber(ctx.fiber.value))
  }

  function ContextOf(t: Task): (ctx: Context)
    ensures Occupied(ctx) && TaskOf(ctx) == t
  {
    match t.waiter
    case Callback(cb) => Context(Some(t.scheduler), None, Some(cb))
    case Fiber(fiber) => Context(Some(t.scheduler), Some(fiber), None)
  }

  // ----- The kernel -----

  datatype Ctl = CtlAdd | CtlMod | CtlDel

  // epoll_ctl adds only what is absent and changes or deletes only what is present.
  predicate CtlLegal(kernel: map<nat, Events>, op: Ctl, fd: nat) {
    op.CtlAdd? <==> fd !in kernel
  }

  // It fails if it is used illegally, and for reasons of its own.
  function EpollCtl(kernel: map<nat, Events>, op: Ctl, fd: nat, events: Events, fault: bool): (map<nat, Events>, bool) {
    if fault || !CtlLegal(kernel, op, fd) then (kernel, false)
    else if op.CtlDel? then (kernel - {fd}, true)
    else (kernel[fd := events], true)
  }

  // ----- The invariant -----

  // A bit is set exactly while its context is occupied; otherwise the context is empty.
  predicate EntryInv(c: Entry) {
    forall e :: if e in c.event then Occupied(GetContext(c, e)) else GetContext(c, e) == EMPTY
  }

  function Count(c: Entry): nat {
    (if Read in c.event then 1 else 0) + if Write in c.event then 1 else 0
  }

  function Bits(entries: seq<Entry>): nat {
    if entries == [] then 0 else Count(entries[0]) + Bits(entries[1..])
  }

  // What the kernel should know about an entry.
  ghost predicate Mirrored(s: State) {
    && (forall fd :: fd in s.kernel ==> fd < |s.entries|)
    && forall fd :: 0 <= fd < |s.entries| ==>
         if s.entries[fd].event == {} then fd !in s.kernel
         else fd in s.kernel && s.kernel[fd] == s.entries[fd].event
  }

  // The life of one registration slot, read off the history.
  datatype Status = Idle | Waiting(task: Task) | Broken

  function Next(status: Status, r: Record): Status {
    if r.Added? then if status.Idle? then Waiting(r.task) else Broken
    else if status == Waiting(r.task) then Idle
    else Broken
  }

  function StatusOf(history: seq<Record>, fd: nat, e: Event): Status {
    if history == [] then Idle
    else
      var last := history[|history| - 1];
      var before := StatusOf(history[..|history| - 1], fd, e);
      if last.fd == fd && last.event == e then Next(before, last) else before
  }

  predicate AllEntries(s: State) {
    forall fd :: 0 <= fd < |s.entries| ==> EntryInv(s.entries[fd])
  }

  function StatusNow(s: State, fd: nat, e: Event): Status
    requires AllEntries(s)
  {
    if fd >= |s.entries| then Idle
    else
      assert EntryInv(s.entries[fd]);
      if e in s.entries[fd].event then Waiting(TaskOf(GetContext(s.entries[fd], e))) else Idle
  }

  // Everything but the kernel: entries, counter and history agree.
  ghost predicate Tabled(s: State) {
    && |s.entries| >= 32
    && AllEntries(s)
    && s.waiting == Bits(s.entries)
    && forall fd: nat, e :: StatusOf(s.history, fd, e) == StatusNow(s, fd, e)
  }

  ghost predicate Inv(s: State) {
    Tabled(s) && Mirrored(s)
  }

  function Start(): State {
    State(Free(32), map[], 0, [])
  }

  lemma {:induction false} BitsUpdate(entries: seq<Entry>, fd: nat, c: Entry)
    requires fd < |entries|
    ensures Bits(entries[fd := c]) == Bits(entries) - Count(entries[fd]) + Count(c)
  {
    if fd > 0 {
      assert entries[fd := c][1..] == entries[1..][fd - 1 := c];
      BitsUpdate(entries[1..], fd - 1, c);
    }
  }

  lemma {:induction false} BitsGrow(entries: seq<Entry>, n: nat)
    ensures Bits(entries + Free(n)) == Bits(entries)
    decreases |entries| + n
  {
    var more := entries + Free(n);
    if entries != [] {
      assert more[1..] == entries[1..] + Free(n);
      BitsGrow(entries[1..], n);
    } else if n > 0 {
      assert more[1..] == [] + Free(n - 1);
      BitsGrow([], n - 1);
    }
  }

  // A zero count means that no one waits.
  lemma {:induction false} NoneWaiting(entries: seq<Entry>, fd: nat)
    requires fd < |entries|
    ensures Count(entries[fd]) <= Bits(entries)
  {
    if fd > 0 {
      NoneWaiting(entries[1..], fd - 1);
    }
  }

  lemma FreeInv(s: State, n: nat)
    requires n >= 32 && s == State(Free(n), map[], 0, [])
    ensures Inv(s)
  {
    BitsGrow([], n);
    assert [] + s.entries == s.entries;
    assert forall fd :: 0 <= fd < n ==> EntryInv(s.entries[fd]);
  }

  // ----- The steps all operations are made of -----

  // The vector of contexts, long enough for fd.
  function Resized(entries: seq<Entry>, fd: nat): (r: seq<Entry>)
    requires |entries| >= 2
    ensures fd < |r| && entries <= r
  {
    if fd < |entries| then entries else entries + Free(fd + fd / 2 - |entries|)
  }

  function Register(s: State, fd: nat, e: Event, t: Task): State
    requires fd < |s.entries|
  {
    var c := s.entries[fd];
    s.(entries := s.entries[fd := SetContext(c, e, ContextOf(t)).(event := c.event + {e})],
       waiting := s.waiting + 1, history := s.history + [Added(fd, e, t)])
  }

  // The bit and the context cleared.
  function Cleared(c: Entry, e: Event): Entry {
    SetContext(c, e, EMPTY).(event := c.event - {e})
  }

  // `triggerEvent` and the counter; the assertion is the precondition.
  function Trigger(s: State, fd: nat, e: Event): State
    requires fd < |s.entries| && EntryInv(s.entries[fd]) && e in s.entries[fd].event
  {
    var c := s.entries[fd];
    s.(entries := s.entries[fd := Cleared(c, e)],
       waiting := s.waiting - 1, history := s.history + [Triggered(fd, e, TaskOf(GetContext(c, e)))])
  }

  function Unregister(s: State, fd: nat, e: Event): State
    requires fd < |s.entries| && EntryInv(s.entries[fd]) && e in s.entries[fd].event
  {
    var c := s.entries[fd];
    s.(entries := s.entries[fd := Cleared(c, e)],
       waiting := s.waiting - 1, history := s.history + [Deleted(fd, e, TaskOf(GetContext(c, e)))])
  }

  lemma StatusAppend(history: seq<Record>, r: Record, fd: nat, e: Event)
    ensures StatusOf(history + [r], fd, e) ==
              if r.fd == fd && r.event == e then Next(StatusOf(history, fd, e), r) else StatusOf(history, fd, e)
  {
    assert (history + [r])[..|history|] == history;
  }

  // The table keeps its entries, and grows to one and a half times the descriptor.
  lemma ResizedMeans(entries: seq<Entry>, fd: nat)
    requires |entries| >= 2
    ensures var r := Resized(entries, fd);
            && |r| == (if fd < |entries| then |entries| else 3 * fd / 2)
            && forall i :: 0 <= i < |r| ==> r[i] == if i < |entries| then entries[i] else Entry({}, EMPTY, EMPTY)
  {
    if fd >= |entries| {
      var more := Free(fd + fd / 2 - |entries|);
      assert forall i :: |entries| <= i < fd + fd / 2 ==> (entries + more)[i] == more[i - |entries|];
    }
  }

  lemma ResizedTabled(s: State, fd: nat)
    requires Inv(s)
    ensures Inv(s.(entries := Resized(s.entries, fd)))
  {
    if fd >= |s.entries| {
      BitsGrow(s.entries, fd + fd / 2 - |s.entries|);
    }
  }

  lemma RegisterTabled(s: State, fd: nat, e: Event, t: Task)
    requires Tabled(s) && fd < |s.entries| && e !in s.entries[fd].event
    ensures Tabled(Register(s, fd, e, t))
  {
    var r := Register(s, fd, e, t);
    BitsUpdate(s.entries, fd, r.entries[fd]);
    forall f: nat, d: Event
      ensures StatusOf(r.history, f, d) == StatusNow(r, f, d)
    {
      StatusAppend(s.history, Added(fd, e, t), f, d);
    }
  }

  // r ends the registration of e on fd.
  ghost predicate Clears(s: State, r: State, fd: nat, e: Event)
    requires fd < |s.entries| && EntryInv(s.entries[fd]) && e in s.entries[fd].event
  {
    r == Trigger(s, fd, e) || r == Unregister(s, fd, e)
  }

  // What the slots are after the registration of e on fd has ended with record `last`.
  lemma ClearStatus(s: State, r: State, fd: nat, e: Event, last: Record, f: nat, d: Event)
    requires Tabled(s) && fd < |s.entries| && e in s.entries[fd].event
    requires r.entries == s.entries[fd := Cleared(s.entries[fd], e)] && r.history == s.history + [last] && AllEntries(r)
    requires !last.Added? && last.fd == fd && last.event == e && StatusNow(s, fd, e) == Waiting(last.task)
    ensures StatusOf(r.history, f, d) == StatusNow(r, f, d)
  {
    StatusAppend(s.history, last, f, d);
    assert StatusOf(s.history, f, d) == StatusNow(s, f, d);
  }

  lemma ClearTabled(s: State, r: State, fd: nat, e: Event)
    requires Tabled(s) && fd < |s.entries| && e in s.entries[fd].event && Clears(s, r, fd, e)
    ensures Tabled(r)
  {
    BitsUpdate(s.entries, fd, r.entries[fd]);
    assert EntryInv(s.entries[fd]) && EntryInv(r.entries[fd]);
    forall f: nat, d: Event
      ensures StatusOf(r.history, f, d) == StatusNow(r, f, d)
    {
      ClearStatus(s, r, fd, e, r.history[|s.history|], f, d);
    }
  }

  // ----- The operations -----

  // `addEvent`: 0, or -1 if the bit is set already or epoll refuses. Looking up the entry
  // and growing the table are one step.
  function AddEvent(s: State, fd: nat, e: Event, t: Task, fault: bool): (State, int)
    requires |s.entries| >= 2
  {
    Admit(s.(entries := Resized(s.entries, fd)), fd, e, t, fault)
  }

  function Admit(s: State, fd: nat, e: Event, t: Task, fault: bool): (State, int)
    requires fd < |s.entries|
  {
    var c := s.entries[fd];
    if e in c.event then (s, -1)
    else
      var (kernel, ok) := EpollCtl(s.kernel, if c.event != {} then CtlMod else CtlAdd, fd, c.event + {e}, fault);
      if ok then (Register(s, fd, e, t).(kernel := kernel), 0) else (s, -1)
  }

  // The kernel's part of taking bits away.
  function Narrow(s: State, fd: nat, left: Events, fault: bool): (State, bool) {
    var op := if left != {} then CtlMod else CtlDel;
    var (kernel, ok) := EpollCtl(s.kernel, op, fd, left, fault);
    (s.(kernel := kernel), ok)
  }

  function DelEvent(s: State, fd: nat, e: Event, fault: bool): (State, bool)
    requires AllEntries(s)
  {
    if fd >= |s.entries| || e !in s.entries[fd].event then (s, false)
    else
      var (s', ok) := Narrow(s, fd, s.entries[fd].event - {e}, fault);
      if ok then (Unregister(s', fd, e), true) else (s, false)
  }

  function CancelEvent(s: State, fd: nat, e: Event, fault: bool): (State, bool)
    requires AllEntries(s)
  {
    if fd >= |s.entries| || e !in s.entries[fd].event then (s, false)
    else
      var (s', ok) := Narrow(s, fd, s.entries[fd].event - {e}, fault);
      if ok then (Trigger(s', fd, e), true) else (s, false)
  }

  // Triggers e if it is registered.
  function TriggerIf(s: State, fd: nat, e: Event): (r: State)
    requires fd < |s.entries| && EntryInv(s.entries[fd])
    ensures |r.entries| == |s.entries| && EntryInv(r.entries[fd])
  {
    if e in s.entries[fd].event then Trigger(s, fd, e) else s
  }

  function CancelAll(s: State, fd: nat, fault: bool): (State, bool)
    requires AllEntries(s)
  {
    if fd >= |s.entries| || s.entries[fd].event == {} then (s, false)
    else
      var (s', ok) := Narrow(s, fd, {}, fault);
      if ok then (TriggerIf(TriggerIf(s', fd, Read), fd, Write), true) else (s, false)
  }

  // What epoll_wait reports about a descriptor.
  datatype Ready = Ready(fd: nat, readable: bool, writable: bool, error: bool)

  // An error or hang-up stands for every registered event.
  function RealEvents(c: Entry, r: Ready): Events {
    (if r.readable || (r.error && Read in c.event) then {Read} else {})
    + if r.writable || (r.error && Write in c.event) then {Write} else {}
  }

  // Triggering a bit that is not set fails an assertion.
  function MustTrigger(s: State, fd: nat, e: Event, wanted: bool): (r: Option<State>)
    requires fd < |s.entries| && EntryInv(s.entries[fd])
    ensures r.Some? ==> |r.value.entries| == |s.entries| && EntryInv(r.value.entries[fd])
  {
    if !wanted then Some(s)
    else if e in s.entries[fd].event then Some(Trigger(s, fd, e))
    else None
  }

  // One delivered event in `idle`; None is a failed assertion.
  function Dispatch(s: State, r: Ready, fault: bool): Option<State>
    requires AllEntries(s) && r.fd < |s.entries|
  {
    var event := s.entries[r.fd].event;
    var found := RealEvents(s.entries[r.fd], r);
    if event * found == {} then Some(s)
    else
      var (s', ok) := Narrow(s, r.fd, event - found, fault);
      if ok then TriggerBoth(s', r.fd, found) else Some(s)
  }

  function TriggerBoth(s: State, fd: nat, found: Events): Option<State>
    requires fd < |s.entries| && EntryInv(s.entries[fd])
  {
    var read := MustTrigger(s, fd, Read, Read in found);
    if read.None? then None else MustTrigger(read.value, fd, Write, Write in found)
  }

  // What stays registered after a delivery.
  function EventsLeft(c: Entry, r: Ready, fault: bool): Events {
    if fault then c.event else c.event - RealEvents(c, r)
  }

  // ----- Every operation keeps the invariant -----

  // Entries beyond fd, and their view in the kernel, stay.
  lemma MirrorOne(s: State, r: State, fd: nat)
    requires Mirrored(s) && fd < |s.entries| == |r.entries|
    requires forall f :: 0 <= f < |s.entries| && f != fd ==> r.entries[f] == s.entries[f]
    requires r.kernel == if r.entries[fd].event == {} then s.kernel - {fd} else s.kernel[fd := r.entries[fd].event]
    ensures Mirrored(r)
  {
  }

  lemma TabledAnyKernel(s: State, kernel: map<nat, Events>)
    requires Tabled(s)
    ensures Tabled(s.(kernel := kernel))
  {
    forall fd: nat, e
      ensures StatusNow(s.(kernel := kernel), fd, e) == StatusNow(s, fd, e)
    {
    }
  }

  lemma AddEventKeeps(s: State, fd: nat, e: Event, t: Task, fault: bool)
    requires Inv(s)
    ensures Inv(AddEvent(s, fd, e, t, fault).0)
  {
    ResizedTabled(s, fd);
    var s' := s.(entries := Resized(s.entries, fd));
    if e !in s'.entries[fd].event && !fault {
      var r := AddEvent(s, fd, e, t, fault).0;
      RegisterTabled(s', fd, e, t);
      TabledAnyKernel(Register(s', fd, e, t), r.kernel);
      MirrorOne(s', r, fd);
    }
  }

  // epoll is always used legally, so that a call fails only by itself.
  lemma CtlAlwaysLegal(s: State, fd: nat, left: Events)
    requires Inv(s) && fd < |s.entries|
    ensures CtlLegal(s.kernel, if s.entries[fd].event != {} then CtlMod else CtlAdd, fd)
    ensures s.entries[fd].event != {} ==> CtlLegal(s.kernel, if left != {} then CtlMod else CtlDel, fd)
  {
  }

  // When a registration succeeds, and what it leaves behind.
  lemma AddEventOutcome(s: State, fd: nat, e: Event, t: Task, fault: bool)
    requires Inv(s)
    ensures var (r, code) := AddEvent(s, fd, e, t, fault);
            && code == (if fault || (fd < |s.entries| && e in s.entries[fd].event) then -1 else 0)
            && (code == -1 ==> r == s.(entries := Resized(s.entries, fd)))
            && (code == 0 ==> r.history == s.history + [Added(fd, e, t)] && StatusNow(r, fd, e) == Waiting(t))
  {
    ResizedTabled(s, fd);
    CtlAlwaysLegal(s.(entries := Resized(s.entries, fd)), fd, {});
    AddEventKeeps(s, fd, e, t, fault);
  }

  lemma NarrowTabled(s: State, fd: nat, left: Events, fault: bool)
    requires Inv(s) && fd < |s.entries| && s.entries[fd].event != {}
    ensures var (r, ok) := Narrow(s, fd, left, fault);
            && ok == !fault && Tabled(r) && (!ok ==> r == s)
            && r.kernel == (if fault then s.kernel else if left == {} then s.kernel - {fd} else s.kernel[fd := left])
  {
    CtlAlwaysLegal(s, fd, left);
    TabledAnyKernel(s, Narrow(s, fd, left, fault).0.kernel);
  }

  lemma DelEventKeeps(s: State, fd: nat, e: Event, fault: bool)
    requires Inv(s)
    ensures var (r, ok) := DelEvent(s, fd, e, fault);
            && Inv(r) && ok == (!fault && fd < |s.entries| && e in s.entries[fd].event)
            && (!ok ==> r == s)
  {
    if fd < |s.entries| && e in s.entries[fd].event {
      var left := s.entries[fd].event - {e};
      NarrowTabled(s, fd, left, fault);
      if !fault {
        var s' := Narrow(s, fd, left, fault).0;
        ClearTabled(s', Unregister(s', fd, e), fd, e);
        MirrorOne(s, Unregister(s', fd, e), fd);
      }
    }
  }

  lemma CancelEventKeeps(s: State, fd: nat, e: Event, fault: bool)
    requires Inv(s)
    ensures var (r, ok) := CancelEvent(s, fd, e, fault);
            && Inv(r) && ok == (!fault && fd < |s.entries| && e in s.entries[fd].event)
            && (!ok ==> r == s)
  {
    if fd < |s.entries| && e in s.entries[fd].event {
      var left := s.entries[fd].event - {e};
      NarrowTabled(s, fd, left, fault);
      if !fault {
        var s' := Narrow(s, fd, left, fault).0;
        ClearTabled(s', Trigger(s', fd, e), fd, e);
        MirrorOne(s, Trigger(s', fd, e), fd);
      }
    }
  }

  // One conditional trigger, and what it leaves of entry fd.
  lemma TriggerIfTabled(s: State, fd: nat, e: Event)
    requires Tabled(s) && fd < |s.entries|
    ensures var r := TriggerIf(s, fd, e);
            && Tabled(r) && r.kernel == s.kernel && |r.entries| == |s.entries|
            && r.entries[fd].event == s.entries[fd].event - {e}
            && forall f :: 0 <= f < |s.entries| && f != fd ==> r.entries[f] == s.entries[f]
  {
    if e in s.entries[fd].event {
      ClearTabled(s, Trigger(s, fd, e), fd, e);
    }
  }

  lemma BothEvents(events: Events)
    ensures events - {Read} - {Write} == {}
  {
    forall e: Event
      ensures e !in events - {Read} - {Write}
    {
      match e
      case Read =>
      case Write =>
    }
  }

  lemma CancelAllKeeps(s: State, fd: nat, fault: bool)
    requires Inv(s)
    ensures var (r, ok) := CancelAll(s, fd, fault);
            && Inv(r) && ok == (!fault && fd < |s.entries| && s.entries[fd].event != {})
            && (if ok then r.entries[fd] == FREE else r == s)
  {
    if fd < |s.entries| && s.entries[fd].event != {} && !fault {
      NarrowTabled(s, fd, {}, fault);
      var s' := Narrow(s, fd, {}, fault).0;
      TriggerIfTabled(s', fd, Read);
      TriggerIfTabled(TriggerIf(s', fd, Read), fd, Write);
      var r := CancelAll(s, fd, fault).0;
      BothEvents(s.entries[fd].event);
      MirrorOne(s, r, fd);
      assert EntryInv(r.entries[fd]);
      assert GetContext(r.entries[fd], Read) == EMPTY && GetContext(r.entries[fd], Write) == EMPTY;
    }
  }

  // A delivered mask that names some registered bit and also one that is not.
  predicate PartlyStale(c: Entry, r: Ready) {
    c.event * RealEvents(c, r) != {} && !(RealEvents(c, r) <= c.event)
  }

  predicate SameBut(entries: seq<Entry>, others: seq<Entry>, fd: nat) {
    |others| == |entries| && forall f :: 0 <= f < |entries| && f != fd ==> others[f] == entries[f]
  }

  // A delivered event triggers exactly its registered bits; it fails an assertion if and
  // only if its mask is partly stale and epoll accepts the change.
  lemma DispatchKeeps(s: State, r: Ready, fault: bool)
    requires Inv(s) && r.fd < |s.entries|
    ensures var d := Dispatch(s, r, fault);
            && (d.None? <==> !fault && PartlyStale(s.entries[r.fd], r))
            && (d.Some? ==> Inv(d.value) && SameBut(s.entries, d.value.entries, r.fd))
            && (d.Some? ==> d.value.entries[r.fd].event == EventsLeft(s.entries[r.fd], r, fault))
            && (fault ==> d == Some(s))
  {
    var fd, event, found := r.fd, s.entries[r.fd].event, RealEvents(s.entries[r.fd], r);
    if event * found == {} {
      assert event - found == event;
    } else {
      NarrowTabled(s, fd, event - found, fault);
      if !fault {
        var s' := Narrow(s, fd, event - found, fault).0;
        DispatchTriggers(s', fd, found);
        var d := Dispatch(s, r, fault);
        if d.Some? {
          MirrorOne(s, d.value, fd);
        }
      }
    }
  }

  // The two triggers at the end.
  lemma DispatchTriggers(s: State, fd: nat, found: Events)
    requires Tabled(s) && fd < |s.entries|
    ensures var d := TriggerBoth(s, fd, found);
            && (d.Some? <==> found <= s.entries[fd].event)
            && (d.Some? ==>
                  && Tabled(d.value) && d.value.kernel == s.kernel && |d.value.entries| == |s.entries|
                  && d.value.entries[fd].event == s.entries[fd].event - found
                  && forall f :: 0 <= f < |s.entries| && f != fd ==> d.value.entries[f] == s.entries[f])
  {
    TriggerIfTabled(s, fd, Read);
    TriggerIfTabled(TriggerIf(s, fd, Read), fd, Write);
    TriggerIfTabled(s, fd, Write);
  }

  // ----- Who is woken -----

  // What the triggers handed to schedulers, in order.
  function Scheduled(history: seq<Record>): seq<Task> {
    if history == [] then []
    else
      var last := history[|history| - 1];
      Scheduled(history[..|history| - 1]) + if last.Triggered? then [last.task] else []
  }

  lemma ScheduledAppend(history: seq<Record>, record: Record)
    ensures Scheduled(history + [record])
         == if record.Triggered? then Scheduled(history) + [record.task] else Scheduled(history)
  {
    assert (history + [record])[..|history|] == history;
  }

  // Deleting ends a registration without waking its waiter, cancelling wakes exactly it.
  lemma EndOutcome(s: State, fd: nat, e: Event, t: Task)
    requires Inv(s) && StatusNow(s, fd, e) == Waiting(t)
    ensures DelEvent(s, fd, e, false).1 && CancelEvent(s, fd, e, false).1
    ensures DelEvent(s, fd, e, false).0.history == s.history + [Deleted(fd, e, t)]
    ensures CancelEvent(s, fd, e, false).0.history == s.history + [Triggered(fd, e, t)]
    ensures t == TaskOf(GetContext(s.entries[fd], e))
  {
    CtlAlwaysLegal(s, fd, s.entries[fd].event - {e});
  }

  // The waiter for one bit of an entry, if it is set.
  function WaiterOf(c: Entry, e: Event): seq<Task>
    requires EntryInv(c)
  {
    if e in c.event then [TaskOf(GetContext(c, e))] else []
  }

  // The waiters for some bits, for reading before writing.
  function Waiters(c: Entry, found: Events): seq<Task>
    requires EntryInv(c)
  {
    (if Read in found then WaiterOf(c, Read) else []) + if Write in found then WaiterOf(c, Write) else []
  }

  lemma TriggerScheduled(s: State, fd: nat, e: Event)
    requires fd < |s.entries| && EntryInv(s.entries[fd])
    ensures Scheduled(TriggerIf(s, fd, e).history) == Scheduled(s.history) + WaiterOf(s.entries[fd], e)
    ensures forall d :: d != e ==> WaiterOf(TriggerIf(s, fd, e).entries[fd], d) == WaiterOf(s.entries[fd], d)
  {
    if e in s.entries[fd].event {
      var t := TaskOf(GetContext(s.entries[fd], e));
      ScheduledAppend(s.history, Triggered(fd, e, t));
    }
  }

  function TriggerFound(s: State, fd: nat, found: Events): State
    requires fd < |s.entries| && EntryInv(s.entries[fd])
  {
    var r := if Read in found then TriggerIf(s, fd, Read) else s;
    if Write in found then TriggerIf(r, fd, Write) else r
  }

  // h, then the waiters for the bits of `found` that are set, for reading before writing.
  function ThenWaiters(h: seq<Task>, c: Entry, found: Events): seq<Task>
    requires EntryInv(c)
  {
    (if Read in found then h + WaiterOf(c, Read) else h) + if Write in found then WaiterOf(c, Write) else []
  }

  lemma ThenWaitersJoin(h: seq<Task>, c: Entry, found: Events)
    requires EntryInv(c)
    ensures ThenWaiters(h, c, found) == h + Waiters(c, found)
  {
  }

  // Triggering the found bits schedules their waiters in order.
  lemma FoundScheduled(s: State, fd: nat, found: Events)
    requires fd < |s.entries| && EntryInv(s.entries[fd])
    ensures Scheduled(TriggerFound(s, fd, found).history) == ThenWaiters(Scheduled(s.history), s.entries[fd], found)
  {
    TriggerScheduled(s, fd, Read);
    TriggerScheduled(if Read in found then TriggerIf(s, fd, Read) else s, fd, Write);
  }

  // Cancelling a descriptor wakes every waiter it has.
  lemma CancelAllWakesAll(s: State, fd: nat)
    requires Inv(s) && fd < |s.entries| && s.entries[fd].event != {}
    ensures Scheduled(CancelAll(s, fd, false).0.history) == Scheduled(s.history) + Waiters(s.entries[fd], {Read, Write})
  {
    NarrowTabled(s, fd, {}, false);
    FoundScheduled(Narrow(s, fd, {}, false).0, fd, {Read, Write});
    ThenWaitersJoin(Scheduled(s.history), s.entries[fd], {Read, Write});
  }

  // Bits that are all set are triggered without a failure.
  lemma BothFound(s: State, fd: nat, found: Events)
    requires fd < |s.entries| && EntryInv(s.entries[fd]) && found <= s.entries[fd].event
    ensures TriggerBoth(s, fd, found) == Some(TriggerFound(s, fd, found))
  {
  }

  // Whom a delivery wakes.
  function WokenBy(c: Entry, r: Ready, fault: bool): seq<Task>
    requires EntryInv(c)
  {
    if fault then [] else Waiters(c, RealEvents(c, r))
  }

  // A delivery wakes exactly the waiters of the bits it reports, unless epoll_ctl fails.
  lemma DispatchWakes(s: State, r: Ready, fault: bool)
    requires Inv(s) && r.fd < |s.entries| && !PartlyStale(s.entries[r.fd], r)
    ensures Dispatch(s, r, fault).Some?
    ensures Scheduled(Dispatch(s, r, fault).value.history)
         == Scheduled(s.history) + WokenBy(s.entries[r.fd], r, fault)
  {
    var fd, event, found := r.fd, s.entries[r.fd].event, RealEvents(s.entries[r.fd], r);
    DispatchKeeps(s, r, fault);
    assert Scheduled(s.history) + [] == Scheduled(s.history);
    if event * found == {} {
      assert Read in event ==> Read !in found;
      assert Write in event ==> Write !in found;
      assert Waiters(s.entries[fd], found) == [];
    } else if !fault {
      NarrowTabled(s, fd, event - found, false);
      var m := Narrow(s, fd, event - found, false).0;
      FoundScheduled(m, fd, found);
      ThenWaitersJoin(Scheduled(s.history), s.entries[fd], found);
      BothFound(m, fd, found);
    }
  }

  // ----- What a report means -----

  // A bit is reported by its own flag, or, if it is set, by an error or a hang-up. The mask
  // fails the assertion if it names a bit that is not set next to one that is.
  lemma ReportMeans(c: Entry, r: Ready)
    ensures Read in RealEvents(c, r) <==> r.readable || (r.error && Read in c.event)
    ensures Write in RealEvents(c, r) <==> r.writable || (r.error && Write in c.event)
    ensures PartlyStale(c, r) <==>
              || (r.readable && Read !in c.event && Write in c.event && (r.writable || r.error))
              || (r.writable && Write !in c.event && Read in c.event && (r.readable || r.error))
  {
    var found := RealEvents(c, r);
    assert Read in c.event && Read in found ==> Read in c.event * found;
    assert Write in c.event && Write in found ==> Write in c.event * found;
    assert forall e :: e in found ==> e == Read || e == Write;
  }

  // Without a fault of epoll_ctl the reported bits are gone.
  lemma LeftMeans(c: Entry, r: Ready, fault: bool)
    ensures Read in EventsLeft(c, r, fault) <==> Read in c.event && (fault || !(r.readable || r.error))
    ensures Write in EventsLeft(c, r, fault) <==> Write in c.event && (fault || !(r.writable || r.error))
  {
    ReportMeans(c, r);
  }

  // Their waiters are scheduled, the reader first.
  lemma WokenMeans(c: Entry, r: Ready, fault: bool)
    requires EntryInv(c)
    ensures Read in c.event ==> Occupied(c.read)
    ensures Write in c.event ==> Occupied(c.write)
    ensures WokenBy(c, r, fault)
         == (if Read in c.event && !fault && (r.readable || r.error) then [TaskOf(c.read)] else [])
          + (if Write in c.event && !fault && (r.writable || r.error) then [TaskOf(c.write)] else [])
  {
    ReportMeans(c, r);
    assert Occupied(GetContext(c, Read)) == Occupied(c.read) && Occupied(GetContext(c, Write)) == Occupied(c.write);
    assert WaiterOf(c, Read) == if Read in c.event then [TaskOf(c.read)] else [];
    assert WaiterOf(c, Write) == if Write in c.event then [TaskOf(c.write)] else [];
  }

  // A delivery, in the flags that epoll reports. Which masks fail the assertion:
  lemma DeliveryFailsExactly(s: State, r: Ready, fault: bool)
    requires Inv(s) && r.fd < |s.entries|
    ensures var c := s.entries[r.fd];
            var read, write := Read in c.event, Write in c.event;
            Dispatch(s, r, fault).None? <==>
              !fault && (|| (r.readable && !read && write && (r.writable || r.error))
                         || (r.writable && !write && read && (r.readable || r.error)))
  {
    ReportMeans(s.entries[r.fd], r);
    DispatchKeeps(s, r, fault);
  }

  // Otherwise, which bits go; the other bit keeps its waiter, and no other entry changes.
  lemma DeliveryTakesExactly(s: State, r: Ready, fault: bool)
    requires Inv(s) && r.fd < |s.entries| && Dispatch(s, r, fault).Some?
    ensures var t := Dispatch(s, r, fault).value;
            && |t.entries| == |s.entries|
            && (forall f :: 0 <= f < |s.entries| && f != r.fd ==> t.entries[f] == s.entries[f])
            && var c, after := s.entries[r.fd], t.entries[r.fd];
               && (Read in after.event <==> Read in c.event && (fault || !(r.readable || r.error)))
               && (Write in after.event <==> Write in c.event && (fault || !(r.writable || r.error)))
               && after.read == (if Read in after.event then c.read else EMPTY)
               && after.write == (if Write in after.event then c.write else EMPTY)
  {
    DispatchKeeps(s, r, fault);
    LeftMeans(s.entries[r.fd], r, fault);
    DeliveryEntry(s, r, fault);
  }

  // And whose waiters are scheduled.
  lemma DeliveryWakesExactly(s: State, r: Ready, fault: bool)
    requires Inv(s) && r.fd < |s.entries| && Dispatch(s, r, fault).Some?
    ensures var c := s.entries[r.fd];
            var read := Read in c.event && !fault && (r.readable || r.error);
            var write := Write in c.event && !fault && (r.writable || r.error);
            && (read ==> Occupied(c.read)) && (write ==> Occupied(c.write))
            && Scheduled(Dispatch(s, r, fault).value.history) == Scheduled(s.history)
                 + ((if read then [TaskOf(c.read)] else []) + if write then [TaskOf(c.write)] else [])
  {
    assert EntryInv(s.entries[r.fd]);
    DispatchKeeps(s, r, fault);
    WokenMeans(s.entries[r.fd], r, fault);
    if fault {
      assert Scheduled(s.history) + [] == Scheduled(s.history);
    } else {
      DispatchWakes(s, r, fault);
    }
  }

  // The contexts follow the bits.
  lemma DeliveryEntry(s: State, r: Ready, fault: bool)
    requires Inv(s) && r.fd < |s.entries| && Dispatch(s, r, fault).Some?
    requires Inv(Dispatch(s, r, fault).value) && r.fd < |Dispatch(s, r, fault).value.entries|
    ensures var c, after := s.entries[r.fd], Dispatch(s, r, fault).value.entries[r.fd];
            && after.read == (if Read in after.event then c.read else EMPTY)
            && after.write == (if Write in after.event then c.write else EMPTY)
  {
    var c, after := s.entries[r.fd], Dispatch(s, r, fault).value.entries[r.fd];
    assert EntryInv(c) && EntryInv(after);
    assert GetContext(after, Read) == after.read && GetContext(after, Write) == after.write;
    assert GetContext(c, Read) == c.read && GetContext(c, Write) == c.write;
  }

  // ----- Runs -----

  datatype Op =
    | Add(fd: nat, event: Event, task: Task, fault: bool)
    | Del(fd: nat, event: Event, fault: bool)
    | Cancel(fd: nat, event: Event, fault: bool)
    | CancelBoth(fd: nat, fault: bool)
    | Deliver(ready: Ready, fault: bool)

  // epoll delivers what it was asked for, and no mask is partly stale.
  ghost predicate Legal(s: State, op: Op) {
    op.Deliver? ==> op.ready.fd < |s.entries| && !PartlyStale(s.entries[op.ready.fd], op.ready)
  }

  function Step(s: State, op: Op): Option<State>
    requires AllEntries(s) && |s.entries| >= 2
    requires op.Deliver? ==> op.ready.fd < |s.entries|
  {
    match op
    case Add(fd, e, t, fault) => Some(AddEvent(s, fd, e, t, fault).0)
    case Del(fd, e, fault) => Some(DelEvent(s, fd, e, fault).0)
    case Cancel(fd, e, fault) => Some(CancelEvent(s, fd, e, fault).0)
    case CancelBoth(fd, fault) => Some(CancelAll(s, fd, fault).0)
    case Deliver(ready, fault) => Dispatch(s, ready, fault)
  }

  lemma StepKeeps(s: State, op: Op)
    requires Inv(s) && Legal(s, op)
    ensures Step(s, op).Some? && Inv(Step(s, op).value)
  {
    match op
    case Add(fd, e, t, fault) => AddEventKeeps(s, fd, e, t, fault);
    case Del(fd, e, fault) => DelEventKeeps(s, fd, e, fault);
    case Cancel(fd, e, fault) => CancelEventKeeps(s, fd, e, fault);
    case CancelBoth(fd, fault) => CancelAllKeeps(s, fd, fault);
    case Deliver(ready, fault) => DispatchKeeps(s, ready, fault);
  }

  // s leads to r.
  ghost predicate Leads(s: State, ops: seq<Op>, r: State)
    decreases |ops|
  {
    if ops == [] then r == s
    else
      && AllEntries(s) && |s.entries| >= 2 && Legal(s, ops[0])
      && Step(s, ops[0]).Some? && Leads(Step(s, ops[0]).value, ops[1..], r)
  }

  lemma {:induction false} RunKeeps(s: State, ops: seq<Op>, r: State)
    requires Inv(s) && Leads(s, ops, r)
    ensures Inv(r)
    decreases |ops|
  {
    if ops != [] {
      StepKeeps(s, ops[0]);
      RunKeeps(Step(s, ops[0]).value, ops[1..], r);
    }
  }

  ghost predicate Reachable(s: State) {
    exists ops :: Leads(Start(), ops, s)
  }

  lemma ReachableInv(s: State)
    requires Reachable(s)
    ensures Inv(s)
  {
    var ops :| Leads(Start(), ops, s);
    FreeInv(Start(), |Start().entries|);
    RunKeeps(Start(), ops, s);
  }

  // The invariant spelled out: a bit is set exactly while its context is occupied, the
  // kernel's interest is the mask, and the counter is the number of set bits, so that a
  // zero count means that nobody waits.
  lemma TableMeaning(s: State, fd: nat, e: Event)
    requires Reachable(s) && fd < |s.entries|
    ensures var c := s.entries[fd];
            && (e in c.event <==> Occupied(GetContext(c, e)))
            && (e !in c.event <==> GetContext(c, e) == EMPTY)
            && (if c.event == {} then fd !in s.kernel else fd in s.kernel && s.kernel[fd] == c.event)
            && s.waiting == Bits(s.entries)
            && (s.waiting == 0 ==> c.event == {})
  {
    ReachableInv(s);
    NoneWaiting(s.entries, fd);
    BothEvents(s.entries[fd].event);
    assert EntryInv(s.entries[fd]);
  }

  // ----- Exactly once -----

  function Adds(history: seq<Record>, fd: nat, e: Event): nat {
    if history == [] then 0
    else
      var r := history[|history| - 1];
      Adds(history[..|history| - 1], fd, e) + if r.Added? && r.fd == fd && r.event == e then 1 else 0
  }

  function Triggers(history: seq<Record>, fd: nat, e: Event): nat {
    if history == [] then 0
    else
      var r := history[|history| - 1];
      Triggers(history[..|history| - 1], fd, e) + if r.Triggered? && r.fd == fd && r.event == e then 1 else 0
  }

  function Deletes(history: seq<Record>, fd: nat, e: Event): nat {
    if history == [] then 0
    else
      var r := history[|history| - 1];
      Deletes(history[..|history| - 1], fd, e) + if r.Deleted? && r.fd == fd && r.event == e then 1 else 0
  }

  lemma {:induction false} UnbrokenCounts(history: seq<Record>, fd: nat, e: Event)
    requires !StatusOf(history, fd, e).Broken?
    ensures Adds(history, fd, e) == Triggers(history, fd, e) + Deletes(history, fd, e)
                                  + if StatusOf(history, fd, e).Waiting? then 1 else 0
  {
    if history != [] {
      UnbrokenCounts(history[..|history| - 1], fd, e);
    }
  }

  // Each end of a registration is the end of the one made last, by the same waiter.
  lemma {:induction false} UnbrokenMatches(history: seq<Record>, i: nat)
    requires i < |history| && !StatusOf(history, history[i].fd, history[i].event).Broken?
    ensures StatusOf(history[..i], history[i].fd, history[i].event) ==
              if history[i].Added? then Idle else Waiting(history[i].task)
  {
    if i < |history| - 1 {
      var before := history[..|history| - 1];
      UnbrokenMatches(before, i);
      assert before[..i] == history[..i];
    }
  }

  // In every reachable state: successful registrations are triggers plus deletes plus the
  // one that still waits, and each trigger was that of its own registration.
  lemma ExactlyOnce(s: State, fd: nat, e: Event)
    requires Reachable(s)
    ensures Adds(s.history, fd, e) == Triggers(s.history, fd, e) + Deletes(s.history, fd, e)
                                    + if fd < |s.entries| && e in s.entries[fd].event then 1 else 0
    ensures forall i :: 0 <= i < |s.history| && s.history[i].Triggered? ==>
              StatusOf(s.history[..i], s.history[i].fd, s.history[i].event) == Waiting(s.history[i].task)
  {
    ReachableInv(s);
    UnbrokenCounts(s.history, fd, e);
    forall i | 0 <= i < |s.history| && s.history[i].Triggered?
      ensures StatusOf(s.history[..i], s.history[i].fd, s.history[i].event) == Waiting(s.history[i].task)
    {
      UnbrokenMatches(s.history, i);
    }
  }

  // A delivery whose mask was read before another thread's delEvent fails an assertion.
  lemma StaleDeliveryFails(s: State, fd: nat)
    requires Inv(s) && fd < |s.entries| && s.entries[fd].event == {Read, Write}
    ensures var r := DelEvent(s, fd, Read, false).0;
            Legal(s, Deliver(Ready(fd, true, true, false), false))
            && Dispatch(r, Ready(fd, true, true, false), false) == None
  {
    DelEventKeeps(s, fd, Read, false);
    var r := DelEvent(s, fd, Read, false).0;
    assert r.entries[fd].event == {Write};
    assert Read in RealEvents(r.entries[fd], Ready(fd, true, true, false));
    DispatchKeeps(r, Ready(fd, true, true, false), false);
  }

  // ----- A whole batch of deliveries -----

  predicate Batch(events: seq<Ready>, faults: seq<bool>) {
    |faults| == |events| && forall i, j :: 0 <= i < j < |events| ==> events[i].fd != events[j].fd
  }

  // The first n events have taken their bits; entries without an event are as before.
  ghost predicate Delivered(before: seq<Entry>, after: seq<Entry>, events: seq<Ready>, faults: seq<bool>, n: nat)
    requires Batch(events, faults) && n <= |events|
  {
    && |after| == |before|
    && (forall i :: 0 <= i < n ==>
          && events[i].fd < |before|
          && after[events[i].fd].event == EventsLeft(before[events[i].fd], events[i], faults[i]))
    && (forall fd :: 0 <= fd < |before| && (forall i :: 0 <= i < n ==> events[i].fd != fd) ==> after[fd] == before[fd])
  }

  lemma LegalIsFresh(s: State, events: seq<Ready>, faults: seq<bool>)
    requires Inv(s) && |faults| == |events|
    requires forall i :: 0 <= i < |events| ==> Legal(s, Deliver(events[i], faults[i]))
    ensures Fresh(s.entries, events)
  {
    forall i | 0 <= i < |events|
      ensures events[i].fd < |s.entries| && !PartlyStale(s.entries[events[i].fd], events[i])
    {
      assert Legal(s, Deliver(events[i], faults[i]));
    }
  }

  // Whom the first n events wake, one event after the other.
  ghost function Woken(before: seq<Entry>, events: seq<Ready>, faults: seq<bool>, n: nat): seq<Task>
    requires Batch(events, faults) && n <= |events|
    requires forall fd :: 0 <= fd < |before| ==> EntryInv(before[fd])
    requires forall i :: 0 <= i < n ==> events[i].fd < |before|
  {
    if n == 0 then []
    else Woken(before, events, faults, n - 1) + WokenBy(before[events[n - 1].fd], events[n - 1], faults[n - 1])
  }

  // Nothing in the batch is partly stale.
  ghost predicate Fresh(before: seq<Entry>, events: seq<Ready>) {
    && (forall fd :: 0 <= fd < |before| ==> EntryInv(before[fd]))
    && (forall i :: 0 <= i < |events| ==>
          events[i].fd < |before| && !PartlyStale(before[events[i].fd], events[i]))
  }

  lemma DeliveredNext(before: seq<Entry>, mid: seq<Entry>, after: seq<Entry>,
                      events: seq<Ready>, faults: seq<bool>, n: nat)
    requires Batch(events, faults) && n < |events| && Delivered(before, mid, events, faults, n)
    requires events[n].fd < |mid| && SameBut(mid, after, events[n].fd)
    requires after[events[n].fd].event == EventsLeft(mid[events[n].fd], events[n], faults[n])
    ensures Delivered(before, after, events, faults, n + 1)
  {
  }

  lemma WokenNext(start: seq<Task>, before: seq<Entry>, events: seq<Ready>, faults: seq<bool>, n: nat)
    requires Batch(events, faults) && n < |events| && Fresh(before, events)
    ensures start + Woken(before, events, faults, n) + WokenBy(before[events[n].fd], events[n], faults[n])
         == start + Woken(before, events, faults, n + 1)
  {
  }

  // The next event of a batch, on a table that has seen the first n.
  lemma DispatchNext(s: State, before: seq<Entry>, events: seq<Ready>, faults: seq<bool>, n: nat)
    requires Inv(s) && Batch(events, faults) && n < |events| && Fresh(before, events)
    requires Delivered(before, s.entries, events, faults, n)
    ensures Legal(s, Deliver(events[n], faults[n]))
    ensures var d := Dispatch(s, events[n], faults[n]);
            && d.Some?
            && Delivered(before, d.value.entries, events, faults, n + 1)
            && Scheduled(d.value.history)
                 == Scheduled(s.history) + WokenBy(before[events[n].fd], events[n], faults[n])
  {
    assert s.entries[events[n].fd] == before[events[n].fd];
    DispatchKeeps(s, events[n], faults[n]);
    DispatchWakes(s, events[n], faults[n]);
    var d := Dispatch(s, events[n], faults[n]);
    DeliveredNext(before, s.entries, d.value.entries, events, faults, n);
  }
}
