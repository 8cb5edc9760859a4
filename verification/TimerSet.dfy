// scheduler/timer.cpp: the timer set and its wake-up flag.
//
// Here the operations are functions on values, with what holds after every sequence of them;
// module Timers has the classes whose methods they specify.
module TimerSets {
  import opened Options

  // Pointers order timers that share a deadline.
  type Address = nat

  type Callback = nat

  // uint64_t arithmetic wraps around.
  const WORD: nat := 0x1_0000_0000_0000_0000

  const NEVER: nat := WORD - 1

  const HOUR: nat := 60 * 60 * 1000

  function Wrap(n: int): (r: nat)
    ensures r < WORD && (0 <= n < WORD ==> r == n)
    ensures (n < 0 <= n + WORD ==> r == n + WORD) && (WORD <= n < 2 * WORD ==> r == n - WORD)
  {
    n % WORD
  }

  // The fields of one timer.
  datatype Entry = Entry(cb: Option<Callback>, loop: bool, ms: nat, next: nat)

  type Entries = map<Address, Entry>

  // Every timer there is, the set in its order, the flag, the time of the last collection,
  // and how often `onTimerInsertAtFront` has been called.
  datatype State = State(entries: Entries, queue: seq<Address>, notified: bool, previous: nat, signals: nat)

  // ----- The ordered set -----

  // `Timer::Comparator` on pointers that are not null.
  predicate Before(entries: Entries, a: Address, b: Address)
    requires a in entries && b in entries
  {
    entries[a].next < entries[b].next || (entries[a].next == entries[b].next && a < b)
  }

  predicate Known(entries: Entries, queue: seq<Address>) {
    forall t :: t in queue ==> t in entries
  }

  predicate Sorted(entries: Entries, queue: seq<Address>) {
    && Known(entries, queue)
    && (forall i, j :: 0 <= i < j < |queue| ==> Before(entries, queue[i], queue[j]))
  }

  function Insert(entries: Entries, queue: seq<Address>, t: Address): (r: seq<Address>)
    requires Known(entries, queue) && t in entries
    ensures |r| == |queue| + 1 && Known(entries, r)
  {
    if queue == [] || Before(entries, t, queue[0]) then [t] + queue
    else [queue[0]] + Insert(entries, queue[1..], t)
  }

  function Remove(queue: seq<Address>, t: Address): (r: seq<Address>)
    ensures forall x :: x in r ==> x in queue
  {
    if queue == [] then []
    else if queue[0] == t then queue[1..]
    else [queue[0]] + Remove(queue[1..], t)
  }

  lemma {:induction false} InsertSorted(entries: Entries, queue: seq<Address>, t: Address)
    requires Sorted(entries, queue) && t in entries && t !in queue
    ensures Sorted(entries, Insert(entries, queue, t))
    ensures forall x :: x in Insert(entries, queue, t) <==> x == t || x in queue
    ensures Insert(entries, queue, t)[0] == if queue == [] || Before(entries, t, queue[0]) then t else queue[0]
  {
    if queue != [] && !Before(entries, t, queue[0]) {
      InsertSorted(entries, queue[1..], t);
      var rest := Insert(entries, queue[1..], t);
      forall i | 0 <= i < |rest|
        ensures Before(entries, queue[0], rest[i])
      {
        assert rest[i] in rest;
      }
    }
  }

  lemma {:induction false} RemoveSorted(entries: Entries, queue: seq<Address>, t: Address)
    requires Sorted(entries, queue)
    ensures Sorted(entries, Remove(queue, t))
    ensures forall x :: x in Remove(queue, t) <==> x in queue && x != t
    ensures t in queue ==> |Remove(queue, t)| == |queue| - 1
  {
    if queue != [] {
      if queue[0] == t {
        assert forall i :: 0 < i < |queue| ==> Before(entries, queue[0], queue[i]);
        assert queue == [queue[0]] + queue[1..];
      } else {
        RemoveSorted(entries, queue[1..], t);
        var rest := Remove(queue[1..], t);
        forall i | 0 <= i < |rest|
          ensures Before(entries, queue[0], rest[i])
        {
          assert rest[i] in queue[1..];
        }
      }
    }
  }

  // Changing timers outside the set keeps its order.
  lemma SortedFrame(entries: Entries, others: Entries, queue: seq<Address>)
    requires Sorted(entries, queue)
    requires forall x :: x in queue ==> x in others && others[x].next == entries[x].next
    ensures Sorted(others, queue)
  {
  }

  // ----- Which timers are due -----

  // How many timers at the front of the set have a deadline up to `now`.
  function Due(entries: Entries, queue: seq<Address>, now: nat): (k: nat)
    requires Known(entries, queue)
    ensures k <= |queue|
  {
    if queue == [] || entries[queue[0]].next > now then 0 else 1 + Due(entries, queue[1..], now)
  }

  // `lower_bound` of a probe timer with deadline `now` that happens to live at `probe`.
  function LowerBound(entries: Entries, queue: seq<Address>, now: nat, probe: Address): (k: nat)
    requires Known(entries, queue)
    ensures k <= |queue|
  {
    if queue == [] then 0
    else
      var next := entries[queue[0]].next;
      if next < now || (next == now && queue[0] < probe) then 1 + LowerBound(entries, queue[1..], now, probe)
      else 0
  }

  // The due timers are exactly those with a deadline up to `now`, wherever they are.
  lemma {:induction false} DueExactly(entries: Entries, queue: seq<Address>, now: nat, i: nat)
    requires Sorted(entries, queue) && i < |queue|
    ensures entries[queue[i]].next <= now <==> i < Due(entries, queue, now)
  {
    if i > 0 {
      if entries[queue[0]].next > now {
        assert Before(entries, queue[0], queue[i]);
      } else {
        DueExactly(entries, queue[1..], now, i - 1);
      }
    }
  }

  // Wherever the probe lives, its lower bound stops among the due timers, before the last
  // of those with deadline `now`.
  lemma {:induction false} LowerBoundAmongDue(entries: Entries, queue: seq<Address>, now: nat, probe: Address)
    requires Sorted(entries, queue)
    ensures LowerBound(entries, queue, now, probe) <= Due(entries, queue, now)
    ensures forall i :: LowerBound(entries, queue, now, probe) <= i < |queue| ==> entries[queue[i]].next >= now
  {
    if queue != [] {
      var next := entries[queue[0]].next;
      if next < now || (next == now && queue[0] < probe) {
        LowerBoundAmongDue(entries, queue[1..], now, probe);
      } else {
        assert forall i :: 0 < i < |queue| ==> Before(entries, queue[0], queue[i]);
      }
    }
  }

  // ----- The operations -----

  // A timer is alive, that is, it still has its callback, exactly while it is in the set.
  ghost predicate Inv(s: State) {
    && Sorted(s.entries, s.queue)
    && forall t :: t in s.entries ==> (s.entries[t].cb.Some? <==> t in s.queue)
  }

  // `TimerManager::addTimer` under the lock.
  function Enqueue(s: State, t: Address): State
    requires Known(s.entries, s.queue) && t in s.entries
  {
    var queue := Insert(s.entries, s.queue, t);
    var front := queue[0] == t && !s.notified;
    s.(queue := queue, notified := s.notified || front, signals := s.signals + if front then 1 else 0)
  }

  // A new timer; `created` is the clock when its constructor ran, before the lock.
  function Add(s: State, t: Address, cb: Callback, loop: bool, ms: nat, created: nat): State
    requires Known(s.entries, s.queue)
  {
    Enqueue(s.(entries := s.entries[t := Entry(Some(cb), loop, ms, Wrap(created + ms))]), t)
  }

  function Cancel(s: State, t: Address): (State, bool)
    requires t in s.entries
  {
    if s.entries[t].cb.None? then (s, false)
    else (s.(entries := s.entries[t := s.entries[t].(cb := None)], queue := Remove(s.queue, t)), true)
  }

  // A live timer with other times, taken out of the set.
  function Taken(s: State, t: Address, ms: nat, next: nat): (r: State)
    requires t in s.entries && Known(s.entries, s.queue)
    ensures t in r.entries && Known(r.entries, r.queue)
  {
    s.(entries := s.entries[t := s.entries[t].(ms := ms, next := next)], queue := Remove(s.queue, t))
  }

  // Back into the set without a look at its front.
  function PutBack(s: State, t: Address): State
    requires t in s.entries && Known(s.entries, s.queue)
  {
    s.(queue := Insert(s.entries, s.queue, t))
  }

  function Refresh(s: State, t: Address, now: nat): (State, bool)
    requires t in s.entries && Known(s.entries, s.queue)
  {
    var e := s.entries[t];
    if e.cb.None? || t !in s.queue then (s, false)
    else (PutBack(Taken(s, t, e.ms, Wrap(now + e.ms)), t), true)
  }

  function Reset(s: State, t: Address, ms: nat, fromNow: bool, now: nat): (State, bool)
    requires t in s.entries && Known(s.entries, s.queue)
  {
    var e := s.entries[t];
    if ms == e.ms && !fromNow then (s, true)
    else if e.cb.None? || t !in s.queue then (s, false)
    else
      var start := if fromNow then now else Wrap(e.next - e.ms);
      (Enqueue(Taken(s, t, ms, Wrap(start + ms)), t), true)
  }

  // `getNextTimerTimeMs`
  function NextTime(s: State, now: nat): (State, nat)
    requires Known(s.entries, s.queue)
  {
    (s.(notified := false),
     if s.queue == [] then NEVER
     else if now >= s.entries[s.queue[0]].next then 0
     else s.entries[s.queue[0]].next - now)
  }

  // The clock went back by more than an hour.
  predicate RolledBack(previous: nat, now: nat) {
    now < previous && now < Wrap(previous - HOUR)
  }

  // One round of the loop in `getExpiredCbsList`, for a timer no longer in the set.
  function FireOne(s: State, t: Address, now: nat): (r: State)
    requires Known(s.entries, s.queue) && t in s.entries
    ensures r.entries.Keys == s.entries.Keys && Known(r.entries, r.queue)
  {
    var e := s.entries[t];
    if e.loop then
      var entries := s.entries[t := e.(next := Wrap(now + e.ms))];
      s.(entries := entries, queue := Insert(entries, s.queue, t))
    else
      s.(entries := s.entries[t := e.(cb := None)])
  }

  function Fire(s: State, expired: seq<Address>, now: nat): (State, seq<Option<Callback>>)
    requires Known(s.entries, s.queue) && Known(s.entries, expired)
    decreases |expired|
  {
    if expired == [] then (s, [])
    else
      var rest := Fire(FireOne(s, expired[0], now), expired[1..], now);
      (rest.0, [s.entries[expired[0]].cb] + rest.1)
  }

  // Which timers `getExpiredCbsList` takes.
  function Expired(s: State, now: nat): (expired: seq<Address>)
    requires Known(s.entries, s.queue)
    ensures expired <= s.queue
  {
    if RolledBack(s.previous, now) then s.queue else s.queue[..Due(s.entries, s.queue, now)]
  }

  function Collect(s: State, now: nat): (State, seq<Option<Callback>>)
    requires Known(s.entries, s.queue)
  {
    if s.queue == [] then (s, [])
    else
      var expired := Expired(s, now);
      Fire(s.(previous := now, queue := s.queue[|expired|..]), expired, now)
  }

  // ----- What a collection does -----

  // What becomes of a timer that is collected.
  function Renew(e: Entry, now: nat): Entry {
    if e.loop then e.(next := Wrap(now + e.ms)) else e.(cb := None)
  }

  // s and r differ in the timers of `expired` alone: the periodic ones are back in the set
  // one period from now, the others have lost their callback.
  ghost predicate Renewed(s: State, r: State, expired: seq<Address>, now: nat) {
    && r.entries.Keys == s.entries.Keys
    && (forall t :: t in s.entries ==>
          r.entries[t] == if t in expired then Renew(s.entries[t], now) else s.entries[t])
    && (forall t :: t in r.queue <==> t in s.queue || (t in expired && t in s.entries && s.entries[t].loop))
    && r.notified == s.notified && r.previous == s.previous && r.signals == s.signals
  }

  ghost predicate Distinct(queue: seq<Address>) {
    forall i, j :: 0 <= i < j < |queue| ==> queue[i] != queue[j]
  }

  lemma FireOneRenews(s: State, t: Address, now: nat)
    requires Sorted(s.entries, s.queue) && t in s.entries && t !in s.queue
    ensures var r := FireOne(s, t, now); Renewed(s, r, [t], now) && Sorted(r.entries, r.queue)
  {
    var entries := FireOne(s, t, now).entries;
    SortedFrame(s.entries, entries, s.queue);
    if s.entries[t].loop {
      InsertSorted(entries, s.queue, t);
    }
  }

  lemma RenewedBoth(s: State, m: State, r: State, t: Address, rest: seq<Address>, now: nat)
    requires Renewed(s, m, [t], now) && Renewed(m, r, rest, now) && t !in rest
    ensures Renewed(s, r, [t] + rest, now)
  {
  }

  lemma {:induction false} FireRenews(s: State, expired: seq<Address>, now: nat)
    requires Sorted(s.entries, s.queue) && Known(s.entries, expired) && Distinct(expired)
    requires forall t :: t in expired ==> t !in s.queue
    ensures var r := Fire(s, expired, now).0; Renewed(s, r, expired, now) && Sorted(r.entries, r.queue)
    decreases |expired|
  {
    if expired != [] {
      var t, rest := expired[0], expired[1..];
      var m := FireOne(s, t, now);
      assert expired == [t] + rest;
      FireOneRenews(s, t, now);
      FireRenews(m, rest, now);
      RenewedBoth(s, m, Fire(m, rest, now).0, t, rest, now);
    }
  }

  // The callbacks are those the timers had, in the order of the set.
  lemma {:induction false} FireCallbacks(s: State, expired: seq<Address>, now: nat)
    requires Known(s.entries, s.queue) && Known(s.entries, expired) && Distinct(expired)
    ensures var cbs := Fire(s, expired, now).1;
            |cbs| == |expired| && forall i :: 0 <= i < |cbs| ==> cbs[i] == s.entries[expired[i]].cb
    decreases |expired|
  {
    if expired != [] {
      FireCallbacks(FireOne(s, expired[0], now), expired[1..], now);
    }
  }

  // The two parts of the set when k timers are taken off its front.
  lemma PrefixApart(s: State, k: nat)
    requires Inv(s) && k <= |s.queue|
    ensures Distinct(s.queue[..k]) && Sorted(s.entries, s.queue[k..])
    ensures forall t :: t in s.queue[..k] ==> t !in s.queue[k..]
    ensures forall t :: t in s.queue <==> t in s.queue[..k] || t in s.queue[k..]
  {
    forall i, j | 0 <= i < j < |s.queue|
      ensures s.queue[i] != s.queue[j]
    {
      assert Before(s.entries, s.queue[i], s.queue[j]);
    }
    assert s.queue == s.queue[..k] + s.queue[k..];
  }

  lemma ExpiredAreDue(s: State, now: nat, t: Address)
    requires Inv(s) && !RolledBack(s.previous, now) && t in s.queue
    ensures t in Expired(s, now) <==> s.entries[t].next <= now
  {
    var k := Due(s.entries, s.queue, now);
    var i :| 0 <= i < |s.queue| && s.queue[i] == t;
    DueExactly(s.entries, s.queue, now, i);
    PrefixApart(s, k);
    if i < k {
      assert s.queue[..k][i] == t;
    } else {
      assert s.queue[k..][i - k] == t;
    }
  }

  // Afterwards it is again the live timers that are in the set.
  lemma RenewedKeeps(s: State, r: State, k: nat, now: nat)
    requires Inv(s) && k <= |s.queue|
    requires Renewed(s.(previous := now, queue := s.queue[k..]), r, s.queue[..k], now) && Sorted(r.entries, r.queue)
    ensures Inv(r)
  {
    PrefixApart(s, k);
  }

  // Exact expiry: without a rollback the collected timers are those with a deadline up to
  // now, on a rollback all of them; each gives its callback once, in the order of the set;
  // nothing else changes.
  lemma ExactExpiry(s: State, now: nat)
    requires Inv(s) && s.queue != []
    ensures var (r, cbs) := Collect(s, now);
            var expired := Expired(s, now);
            && (RolledBack(s.previous, now) ==> expired == s.queue)
            && (!RolledBack(s.previous, now) ==>
                  forall t :: t in s.queue ==> (t in expired <==> s.entries[t].next <= now))
            && |cbs| == |expired| && expired <= s.queue
            && (forall i :: 0 <= i < |cbs| ==> cbs[i].Some? && cbs[i] == s.entries[expired[i]].cb)
            && Renewed(s.(previous := now, queue := s.queue[|expired|..]), r, expired, now)
            && Inv(r)
  {
    var expired := Expired(s, now);
    var s' := s.(previous := now, queue := s.queue[|expired|..]);
    PrefixApart(s, |expired|);
    FireRenews(s', expired, now);
    FireCallbacks(s', expired, now);
    RenewedKeeps(s, Collect(s, now).0, |expired|, now);
    if !RolledBack(s.previous, now) {
      forall t | t in s.queue
        ensures t in expired <==> s.entries[t].next <= now
      {
        ExpiredAreDue(s, now, t);
      }
    }
  }

  lemma CollectTaken(s: State, now: nat, k: nat)
    requires Inv(s) && s.queue != [] && k <= |s.queue| && s.queue[..k] == Expired(s, now)
    ensures Collect(s, now) == Fire(s.(previous := now, queue := s.queue[k..]), s.queue[..k], now)
    ensures Inv(Collect(s, now).0)
  {
    ExactExpiry(s, now);
  }

  // The rollback test subtracts unsigned: below one hour since the epoch it takes every
  // step back of the clock for a rollback.
  lemma RolledBackExactly(previous: nat, now: nat)
    requires previous < WORD && now < WORD
    ensures RolledBack(previous, now) <==>
              if previous >= 3_600_000 then now + 3_600_000 < previous else now < previous
  {
    if previous < HOUR {
      assert Wrap(previous - HOUR) == previous - HOUR + WORD;
    }
  }

  // ----- Runs -----

  datatype Op =
    | AddTimer(t: Address, cb: Callback, loop: bool, ms: nat, created: nat)
    | CancelTimer(t: Address)
    | RefreshTimer(t: Address)
    | ResetTimer(t: Address, ms: nat, fromNow: bool)
    | NextTimer
    | CollectTimers

  datatype Outcome = Replied(ok: bool) | Waiting(ms: nat) | Collected(timers: seq<Address>, cbs: seq<Option<Callback>>)

  // A new timer has a new address; the other calls are made on timers that exist.
  predicate Legal(s: State, op: Op) {
    match op
    case AddTimer(t, _, _, _, _) => t !in s.entries
    case CancelTimer(t) => t in s.entries
    case RefreshTimer(t) => t in s.entries
    case ResetTimer(t, _, _) => t in s.entries
    case _ => true
  }

  function Step(s: State, op: Op, now: nat): (State, Outcome)
    requires Known(s.entries, s.queue) && Legal(s, op)
  {
    match op
    case AddTimer(t, cb, loop, ms, created) => (Add(s, t, cb, loop, ms, created), Replied(true))
    case CancelTimer(t) => var (r, ok) := Cancel(s, t); (r, Replied(ok))
    case RefreshTimer(t) => var (r, ok) := Refresh(s, t, now); (r, Replied(ok))
    case ResetTimer(t, ms, fromNow) => var (r, ok) := Reset(s, t, ms, fromNow, now); (r, Replied(ok))
    case NextTimer => var (r, wait) := NextTime(s, now); (r, Waiting(wait))
    case CollectTimers =>
      var (r, cbs) := Collect(s, now);
      (r, Collected(if s.queue == [] then [] else Expired(s, now), cbs))
  }

  lemma AddKeeps(s: State, op: Op)
    requires Inv(s) && op.AddTimer? && Legal(s, op)
    ensures Inv(Add(s, op.t, op.cb, op.loop, op.ms, op.created))
  {
    var entries := Add(s, op.t, op.cb, op.loop, op.ms, op.created).entries;
    assert op.t !in s.queue;
    SortedFrame(s.entries, entries, s.queue);
    InsertSorted(entries, s.queue, op.t);
  }

  lemma CancelKeeps(s: State, t: Address)
    requires Inv(s) && t in s.entries
    ensures Inv(Cancel(s, t).0)
  {
    RemoveSorted(s.entries, s.queue, t);
    SortedFrame(s.entries, s.entries[t := s.entries[t].(cb := None)], Remove(s.queue, t));
  }

  // Taking a live timer out and putting it back with other times.
  lemma MoveKeeps(s: State, t: Address, e: Entry)
    requires Inv(s) && t in s.queue && e.cb == s.entries[t].cb
    ensures var queue, entries := Remove(s.queue, t), s.entries[t := e];
            && Sorted(entries, queue)
            && Inv(s.(entries := entries, queue := Insert(entries, queue, t)))
            && forall x :: x in Insert(entries, queue, t) <==> x in s.queue
  {
    RemoveSorted(s.entries, s.queue, t);
    SortedFrame(s.entries, s.entries[t := e], Remove(s.queue, t));
    InsertSorted(s.entries[t := e], Remove(s.queue, t), t);
  }

  lemma RefreshKeeps(s: State, t: Address, now: nat)
    requires Inv(s) && t in s.entries
    ensures Inv(Refresh(s, t, now).0)
  {
    if t in s.queue {
      MoveKeeps(s, t, Refresh(s, t, now).0.entries[t]);
    }
  }

  lemma ResetKeeps(s: State, t: Address, ms: nat, fromNow: bool, now: nat)
    requires Inv(s) && t in s.entries
    ensures Inv(Reset(s, t, ms, fromNow, now).0)
  {
    if t in s.queue {
      MoveKeeps(s, t, Reset(s, t, ms, fromNow, now).0.entries[t]);
    }
  }

  // Every operation keeps a timer alive exactly while it is in the set, and the set sorted.
  lemma StepKeeps(s: State, op: Op, now: nat)
    requires Inv(s) && Legal(s, op)
    ensures Inv(Step(s, op, now).0)
  {
    match op
    case AddTimer(_, _, _, _, _) => AddKeeps(s, op);
    case CancelTimer(t) => CancelKeeps(s, t);
    case RefreshTimer(t) => RefreshKeeps(s, t, now);
    case ResetTimer(t, ms, fromNow) => ResetKeeps(s, t, ms, fromNow, now);
    case NextTimer =>
    case CollectTimers => if s.queue != [] { ExactExpiry(s, now); }
  }

  // An operation and the clock it reads.
  datatype Call = Call(op: Op, now: nat)

  ghost predicate Possible(s: State, run: seq<Call>)
    decreases |run|
  {
    && Inv(s)
    && (run != [] ==> Legal(s, run[0].op) && Possible(Step(s, run[0].op, run[0].now).0, run[1..]))
  }

  ghost function After(s: State, run: seq<Call>): State
    requires Possible(s, run)
    decreases |run|
  {
    if run == [] then s else After(Step(s, run[0].op, run[0].now).0, run[1..])
  }

  ghost function Outcomes(s: State, run: seq<Call>): (outcomes: seq<Outcome>)
    requires Possible(s, run)
    ensures |outcomes| == |run|
    decreases |run|
  {
    if run == [] then []
    else
      var (r, outcome) := Step(s, run[0].op, run[0].now);
      [outcome] + Outcomes(r, run[1..])
  }

  function Start(now: nat): State {
    State(map[], [], false, now, 0)
  }

  // Calls that are legal one by one make a possible run: nothing else is needed to keep
  // the invariant in every reachable state.
  lemma {:induction false} RunKeeps(s: State, run: seq<Call>, call: Call)
    requires Possible(s, run)
    ensures Inv(After(s, run))
    ensures Legal(After(s, run), call.op) <==> Possible(s, run + [call])
    decreases |run|
  {
    if run == [] {
      assert ([] + [call])[1..] == [];
      if Legal(s, call.op) {
        StepKeeps(s, call.op, call.now);
      }
    } else {
      assert (run + [call])[1..] == run[1..] + [call];
      RunKeeps(Step(s, run[0].op, run[0].now).0, run[1..], call);
    }
  }

  // ----- Cancelled and fired timers never come back -----

  predicate Dead(s: State, t: Address) {
    t in s.entries && s.entries[t].cb.None?
  }

  // The call that ends a timer: a successful cancel, or the collection of a one-shot.
  predicate Ends(s: State, call: Call, outcome: Outcome, t: Address) {
    || (call.op == CancelTimer(t) && outcome == Replied(true))
    || (outcome.Collected? && t in outcome.timers && t in s.entries && !s.entries[t].loop)
  }

  lemma StepEnds(s: State, call: Call, t: Address)
    requires Inv(s) && Legal(s, call.op)
    ensures var (r, outcome) := Step(s, call.op, call.now);
            && (Dead(s, t) ==> Dead(r, t) && !Ends(s, call, outcome, t))
            && (Dead(s, t) && outcome.Collected? ==> t !in outcome.timers)
            && (Ends(s, call, outcome, t) ==> Dead(r, t))
  {
    if call.op.CollectTimers? && s.queue != [] {
      ExactExpiry(s, call.now);
      assert t in Expired(s, call.now) ==> t in s.queue;
    }
  }

  lemma {:induction false} DeadForGood(s: State, run: seq<Call>, t: Address, j: nat)
    requires Possible(s, run) && Dead(s, t) && j < |run|
    ensures var outcome := Outcomes(s, run)[j];
            && (outcome.Collected? ==> t !in outcome.timers)
            && !(run[j].op == CancelTimer(t) && outcome == Replied(true))
    decreases |run|
  {
    StepEnds(s, run[0], t);
    if j > 0 {
      DeadForGood(Step(s, run[0].op, run[0].now).0, run[1..], t, j - 1);
    }
  }

  // Call i ends a timer.
  ghost predicate EndsAt(s: State, run: seq<Call>, i: nat, t: Address)
    requires Possible(s, run) && i < |run|
    decreases |run|
  {
    if i == 0 then Ends(s, run[0], Outcomes(s, run)[0], t)
    else EndsAt(Step(s, run[0].op, run[0].now).0, run[1..], i - 1, t)
  }

  lemma OutcomesNext(s: State, run: seq<Call>, j: nat)
    requires Possible(s, run) && 0 < j < |run|
    ensures Outcomes(s, run)[j] == Outcomes(Step(s, run[0].op, run[0].now).0, run[1..])[j - 1]
    ensures run[j] == run[1..][j - 1]
  {
  }

  // Once a timer has been cancelled or, being a one-shot, collected, no later call cancels
  // it with success and no later collection contains it.
  lemma {:induction false} EndsOnce(s: State, run: seq<Call>, i: nat, j: nat, t: Address)
    requires Possible(s, run) && i < j < |run| && EndsAt(s, run, i, t)
    ensures var outcome := Outcomes(s, run)[j];
            && (outcome.Collected? ==> t !in outcome.timers)
            && !(run[j].op == CancelTimer(t) && outcome == Replied(true))
    decreases |run|
  {
    var r := Step(s, run[0].op, run[0].now).0;
    if i == 0 {
      StepEnds(s, run[0], t);
      DeadForGood(r, run[1..], t, j - 1);
    } else {
      EndsOnce(r, run[1..], i - 1, j - 1, t);
    }
    OutcomesNext(s, run, j);
  }

  // ----- No missed wake-up -----

  // The last `getNextTimerTimeMs`: when it was called, until when its report lets the caller
  // sleep (SleepExactly says when `idle` does not sleep longer), and how many wake-up signals
  // had been sent by then.
  datatype Poll = Poll(at: nat, wake: nat, signals: nat)

  // A signal has been sent since the poll, or else the sleeper wakes in time for every
  // timer: by its deadline or, if that had already passed at the poll, at once.
  ghost predicate Awake(s: State, p: Poll) {
    && p.signals <= s.signals
    && (s.notified <==> p.signals < s.signals)
    && (!s.notified ==> forall t :: t in s.queue ==> t in s.entries && InTime(s.entries[t].next, p))
  }

  predicate InTime(deadline: nat, p: Poll) {
    p.wake <= deadline || p.wake <= p.at
  }

  // Where a deadline counts from: `m_next - m_ms` in unsigned arithmetic.
  function From(e: Entry): nat {
    Wrap(e.next - e.ms)
  }

  // All times fit in 64 bits, and every deadline counts from a time that has passed.
  ghost predicate Sane(s: State, clock: nat) {
    && clock < WORD
    && forall t :: t in s.queue ==>
         t in s.entries && s.entries[t].ms < WORD && s.entries[t].next < WORD && From(s.entries[t]) <= clock
  }

  // The clock does not go back. A collection reads it before it takes the lock, so that
  // its time may lie behind that of a call which came in between; so does a new timer.
  predicate InRange(call: Call, clock: nat) {
    && call.now < WORD && (call.op.CollectTimers? || clock <= call.now)
    && (call.op.AddTimer? ==> call.op.created <= call.now && call.op.ms < WORD)
    && (call.op.ResetTimer? ==> call.op.ms < WORD)
  }

  function Later(call: Call, clock: nat): nat {
    if clock <= call.now then call.now else clock
  }

  function Polled(s: State, call: Call, outcome: Outcome, p: Poll): Poll {
    if outcome.Waiting? then Poll(call.now, call.now + outcome.ms, s.signals) else p
  }

  // A timer that goes back into the set without a look at its front does no harm if its
  // new deadline does not wrap around or, if it does, the sleeper is back by then anyway.
  predicate Harmless(e: Entry, now: nat, p: Poll) {
    now + e.ms < WORD || InTime(Wrap(now + e.ms), p)
  }

  // What a refresh and the periodic timers of a collection must meet; nothing else matters.
  // On a rollback timers are collected before they are due, so that even a deadline which
  // does not wrap around can be too early.
  ghost predicate Keeps(s: State, call: Call, p: Poll)
    requires Known(s.entries, s.queue)
  {
    match call.op
    case RefreshTimer(t) => s.notified || (t in s.queue ==> Harmless(s.entries[t], call.now, p))
    case CollectTimers =>
      s.notified
      || forall t :: t in Expired(s, call.now) && s.entries[t].loop ==>
           if RolledBack(s.previous, call.now) then InTime(Wrap(call.now + s.entries[t].ms), p)
           else Harmless(s.entries[t], call.now, p)
    case _ => true
  }

  // Adding to the set: a new front is signalled, and behind the front nothing is earlier.
  lemma EnqueueAwake(s: State, t: Address, p: Poll)
    requires Sorted(s.entries, s.queue) && t in s.entries && t !in s.queue && Awake(s, p)
    ensures Awake(Enqueue(s, t), p)
  {
    InsertSorted(s.entries, s.queue, t);
    var queue := Insert(s.entries, s.queue, t);
    forall x | x in queue
      ensures s.entries[queue[0]].next <= s.entries[x].next
    {
      var i :| 0 <= i < |queue| && queue[i] == x;
      if i > 0 {
        assert Before(s.entries, queue[0], queue[i]);
      }
    }
  }

  lemma AddAwake(s: State, call: Call, p: Poll, clock: nat)
    requires Inv(s) && Awake(s, p) && Sane(s, clock) && InRange(call, clock)
    requires Legal(s, call.op) && call.op.AddTimer?
    ensures var r := Step(s, call.op, call.now).0; Awake(r, p) && Sane(r, call.now)
  {
    var t := call.op.t;
    var entries := Step(s, call.op, call.now).0.entries;
    SortedFrame(s.entries, entries, s.queue);
    InsertSorted(entries, s.queue, t);
    assert t !in s.queue;
    EnqueueAwake(s.(entries := entries), t, p);
  }

  // A refresh keeps everybody awake if and only if it does no harm.
  lemma RefreshAwakeExactly(s: State, t: Address, now: nat, p: Poll, clock: nat)
    requires Inv(s) && Awake(s, p) && Sane(s, clock) && clock <= now < WORD && t in s.entries
    ensures var r := Refresh(s, t, now).0;
            && Sane(r, now)
            && (Awake(r, p) <==> s.notified || (t in s.queue ==> Harmless(s.entries[t], now, p)))
  {
    if t in s.queue {
      var e := s.entries[t];
      MoveKeeps(s, t, Refresh(s, t, now).0.entries[t]);
      assert e.next <= now + e.ms;
    }
  }

  lemma ResetSane(s: State, t: Address, ms: nat, fromNow: bool, now: nat, clock: nat)
    requires Inv(s) && Sane(s, clock) && clock <= now < WORD && t in s.entries && ms < WORD
    ensures Sane(Reset(s, t, ms, fromNow, now).0, now)
  {
    if t in s.queue {
      var entries := Reset(s, t, ms, fromNow, now).0.entries;
      MoveKeeps(s, t, entries[t]);
    }
  }

  lemma ResetAwake(s: State, t: Address, ms: nat, fromNow: bool, now: nat, p: Poll, clock: nat)
    requires Inv(s) && Awake(s, p) && Sane(s, clock) && clock <= now < WORD && t in s.entries && ms < WORD
    ensures var r := Reset(s, t, ms, fromNow, now).0; Awake(r, p) && Sane(r, now)
  {
    ResetSane(s, t, ms, fromNow, now, clock);
    if t in s.queue {
      var entries, queue := Reset(s, t, ms, fromNow, now).0.entries, Remove(s.queue, t);
      MoveKeeps(s, t, entries[t]);
      RemoveSorted(s.entries, s.queue, t);
      EnqueueAwake(s.(entries := entries, queue := queue), t, p);
    }
  }

  // A collection puts back the periodic ones of the first k timers.
  lemma RenewedAwake(s: State, r: State, k: nat, now: nat, p: Poll)
    requires Inv(s) && Awake(s, p) && k <= |s.queue|
    requires Renewed(s.(previous := now, queue := s.queue[k..]), r, s.queue[..k], now)
    ensures Awake(r, p) <==>
              s.notified || forall t :: t in s.queue[..k] && s.entries[t].loop ==> InTime(Wrap(now + s.entries[t].ms), p)
  {
    PrefixApart(s, k);
    if Awake(r, p) && !s.notified {
      forall t | t in s.queue[..k] && s.entries[t].loop
        ensures InTime(Wrap(now + s.entries[t].ms), p)
      {
        assert t in r.queue && r.entries[t].next == Wrap(now + s.entries[t].ms);
      }
    }
  }

  lemma RenewedSane(s: State, r: State, k: nat, now: nat, clock: nat)
    requires Inv(s) && Sane(s, clock) && now <= clock && k <= |s.queue|
    requires Renewed(s.(previous := now, queue := s.queue[k..]), r, s.queue[..k], now)
    ensures Sane(r, clock)
  {
    PrefixApart(s, k);
  }

  lemma CollectAwake(s: State, now: nat, p: Poll, clock: nat)
    requires Inv(s) && Awake(s, p) && Sane(s, clock) && now < WORD
    ensures var r := Collect(s, now).0;
            && Sane(r, Later(Call(CollectTimers, now), clock))
            && (Awake(r, p) <==>
                  s.notified
                  || forall t :: t in Expired(s, now) && s.entries[t].loop ==> InTime(Wrap(now + s.entries[t].ms), p))
  {
    if s.queue != [] {
      ExactExpiry(s, now);
      var r, k := Collect(s, now).0, |Expired(s, now)|;
      RenewedAwake(s, r, k, now, p);
      RenewedSane(s, r, k, now, Later(Call(CollectTimers, now), clock));
    }
  }

  lemma DueHarmless(s: State, now: nat, p: Poll, t: Address)
    requires Inv(s) && Awake(s, p) && !s.notified && !RolledBack(s.previous, now) && t in Expired(s, now)
    requires now + s.entries[t].ms < 2 * WORD
    ensures InTime(Wrap(now + s.entries[t].ms), p) <==> Harmless(s.entries[t], now, p)
  {
    ExpiredAreDue(s, now, t);
  }

  // It keeps everybody awake if and only if each of them does no harm.
  lemma CollectAwakeExactly(s: State, now: nat, p: Poll, clock: nat)
    requires Inv(s) && Awake(s, p) && Sane(s, clock) && now < WORD
    ensures var call, r := Call(CollectTimers, now), Collect(s, now).0;
            && Sane(r, Later(call, clock))
            && (Awake(r, p) <==> Keeps(s, call, p))
  {
    CollectAwake(s, now, p, clock);
    if !s.notified && !RolledBack(s.previous, now) {
      forall t | t in Expired(s, now)
        ensures InTime(Wrap(now + s.entries[t].ms), p) <==> Harmless(s.entries[t], now, p)
      {
        assert t in s.queue;
        DueHarmless(s, now, p, t);
      }
    }
  }

  lemma NextAwake(s: State, now: nat, p: Poll, clock: nat)
    requires Inv(s) && Sane(s, clock) && clock <= now < WORD
    ensures var (r, wait) := NextTime(s, now); Awake(r, Poll(now, now + wait, s.signals)) && Sane(r, now)
  {
    forall t | t in s.queue
      ensures s.entries[s.queue[0]].next <= s.entries[t].next
    {
      var i :| 0 <= i < |s.queue| && s.queue[i] == t;
      if i > 0 {
        assert Before(s.entries, s.queue[0], s.queue[i]);
      }
    }
  }

  lemma StepAwake(s: State, call: Call, p: Poll, clock: nat)
    requires Inv(s) && Awake(s, p) && Sane(s, clock) && InRange(call, clock) && Legal(s, call.op)
    ensures var (r, outcome) := Step(s, call.op, call.now);
            && Sane(r, Later(call, clock))
            && (Awake(r, Polled(s, call, outcome, p)) <==> Keeps(s, call, p))
  {
    match call.op
    case AddTimer(_, _, _, _, _) => AddAwake(s, call, p, clock);
    case CancelTimer(t) => RemoveSorted(s.entries, s.queue, t);
    case RefreshTimer(t) => RefreshAwakeExactly(s, t, call.now, p, clock);
    case ResetTimer(t, ms, fromNow) => ResetAwake(s, t, ms, fromNow, call.now, p, clock);
    case NextTimer => NextAwake(s, call.now, p, clock);
    case CollectTimers => CollectAwakeExactly(s, call.now, p, clock);
  }

  // The calls of a run, in the order of their locks.
  predicate Ordered(run: seq<Call>, clock: nat) {
    run != [] ==> InRange(run[0], clock) && Ordered(run[1..], Later(run[0], clock))
  }

  // In every state of the run either a signal has been sent since the last
  // `getNextTimerTimeMs`, or no deadline is earlier than it reported.
  ghost predicate AlwaysAwake(s: State, run: seq<Call>, p: Poll)
    requires Possible(s, run)
    decreases |run|
  {
    && Awake(s, p)
    && (run != [] ==>
          var (r, outcome) := Step(s, run[0].op, run[0].now);
          AlwaysAwake(r, run[1..], Polled(s, run[0], outcome, p)))
  }

  ghost predicate AlwaysKeeps(s: State, run: seq<Call>, p: Poll)
    requires Possible(s, run)
    decreases |run|
  {
    run != [] ==>
      var (r, outcome) := Step(s, run[0].op, run[0].now);
      Keeps(s, run[0], p) && AlwaysKeeps(r, run[1..], Polled(s, run[0], outcome, p))
  }

  // No wake-up is ever missed if and only if every refresh and every collection is harmless.
  lemma {:induction false} NoMissedWakeUp(s: State, run: seq<Call>, p: Poll, clock: nat)
    requires Possible(s, run) && Ordered(run, clock) && Awake(s, p) && Sane(s, clock)
    ensures AlwaysAwake(s, run, p) <==> AlwaysKeeps(s, run, p)
    decreases |run|
  {
    if run != [] {
      StepAwake(s, run[0], p, clock);
      var (r, outcome) := Step(s, run[0].op, run[0].now);
      if Keeps(s, run[0], p) {
        NoMissedWakeUp(r, run[1..], Polled(s, run[0], outcome, p), Later(run[0], clock));
      }
    }
  }

  // Clocks and periods below 2^63 milliseconds never wrap around.
  const LONG: nat := 0x8000_0000_0000_0000

  // Nor does a collection take for a rollback that it was overtaken by less than an hour.
  predicate Short(call: Call, clock: nat) {
    && call.now < LONG
    && (call.op.AddTimer? ==> call.op.ms < LONG) && (call.op.ResetTimer? ==> call.op.ms < LONG)
    && (clock <= call.now || (HOUR <= call.now && clock <= call.now + HOUR))
  }

  predicate AllShort(run: seq<Call>, clock: nat) {
    run != [] ==> Short(run[0], clock) && AllShort(run[1..], Later(run[0], clock))
  }

  ghost predicate ShortTimers(s: State, clock: nat) {
    && s.previous <= clock < LONG
    && forall t :: t in s.queue ==> t in s.entries && s.entries[t].ms < LONG
  }

  lemma StepShort(s: State, call: Call, p: Poll, clock: nat)
    requires Inv(s) && Legal(s, call.op) && Short(call, clock) && ShortTimers(s, clock)
    ensures Keeps(s, call, p) && ShortTimers(Step(s, call.op, call.now).0, Later(call, clock))
  {
    match call.op
    case AddTimer(t, _, _, _, _) => AddShort(s, call, clock);
    case CancelTimer(t) => RemoveSorted(s.entries, s.queue, t);
    case RefreshTimer(t) => MoveShort(s, call, t, clock);
    case ResetTimer(t, _, _) => MoveShort(s, call, t, clock);
    case NextTimer =>
    case CollectTimers => CollectShort(s, call, p, clock);
  }

  lemma MoveShort(s: State, call: Call, t: Address, clock: nat)
    requires Inv(s) && Legal(s, call.op) && Short(call, clock) && ShortTimers(s, clock)
    requires call.op == RefreshTimer(t) || (call.op.ResetTimer? && call.op.t == t)
    ensures ShortTimers(Step(s, call.op, call.now).0, Later(call, clock))
  {
    var r := Step(s, call.op, call.now).0;
    if t in s.queue {
      MoveKeeps(s, t, r.entries[t]);
    }
    assert r.previous == s.previous && forall x :: x in r.queue ==> x in s.queue;
  }

  lemma AddShort(s: State, call: Call, clock: nat)
    requires Inv(s) && Legal(s, call.op) && Short(call, clock) && ShortTimers(s, clock) && call.op.AddTimer?
    ensures ShortTimers(Step(s, call.op, call.now).0, Later(call, clock))
  {
    var entries := Step(s, call.op, call.now).0.entries;
    SortedFrame(s.entries, entries, s.queue);
    InsertSorted(entries, s.queue, call.op.t);
  }

  lemma CollectShort(s: State, call: Call, p: Poll, clock: nat)
    requires Inv(s) && Short(call, clock) && ShortTimers(s, clock) && call.op.CollectTimers?
    ensures Keeps(s, call, p) && ShortTimers(Collect(s, call.now).0, Later(call, clock))
  {
    RolledBackExactly(s.previous, call.now);
    if s.queue != [] {
      ExactExpiry(s, call.now);
      PrefixApart(s, |Expired(s, call.now)|);
    }
  }

  lemma {:induction false} ShortRunsKeep(s: State, run: seq<Call>, p: Poll, clock: nat)
    requires Possible(s, run) && AllShort(run, clock) && ShortTimers(s, clock)
    ensures AlwaysKeeps(s, run, p)
    decreases |run|
  {
    if run != [] {
      StepShort(s, run[0], p, clock);
      var (r, outcome) := Step(s, run[0].op, run[0].now);
      ShortRunsKeep(r, run[1..], Polled(s, run[0], outcome, p), Later(run[0], clock));
    }
  }

  // What the calls on a timer promise: which of them succeed, and the deadline they set,
  // in unsigned arithmetic. `reset` to the period it has succeeds on a dead timer too.
  lemma TimesMeaning(s: State, t: Address, ms: nat, fromNow: bool, now: nat, clock: nat)
    requires Inv(s) && Sane(s, clock) && clock <= now < WORD && ms < WORD && t in s.entries
    ensures Cancel(s, t).1 <==> t in s.queue
    ensures Refresh(s, t, now).1 <==> t in s.queue
    ensures Reset(s, t, ms, fromNow, now).1 <==> t in s.queue || (ms == s.entries[t].ms && !fromNow)
    ensures t in s.queue ==>
              var e := s.entries[t];
              var start := if fromNow then now else e.next - e.ms;
              && Cancel(s, t).0.entries == s.entries[t := e.(cb := None)]
              && Refresh(s, t, now).0.entries == s.entries[t := e.(next := Wrap(now + e.ms))]
              && Reset(s, t, ms, fromNow, now).0.entries == s.entries[t := e.(ms := ms, next := Wrap(start + ms))]
    ensures t !in s.queue ==>
              Cancel(s, t).0 == s && Refresh(s, t, now).0 == s && Reset(s, t, ms, fromNow, now).0 == s
  {
    if t in s.queue {
      var e := s.entries[t];
      assert s.entries[t := e] == s.entries;
    }
  }

  // What `getNextTimerTimeMs` reports: that nothing is to be waited for exactly if no timer
  // is alive (or, at time 0, none before the end of time), nothing to wait exactly if some
  // live timer is due, and otherwise the time to the least deadline of the live timers.
  lemma NextTimeExactly(s: State, now: nat)
    requires Inv(s) && forall t :: t in s.entries ==> s.entries[t].next < 0x1_0000_0000_0000_0000
    ensures var (r, wait) := NextTime(s, now);
            && (wait == 0xFFFF_FFFF_FFFF_FFFF <==>
                  forall t :: t in s.entries && s.entries[t].cb.Some? ==>
                    now == 0 && s.entries[t].next == 0xFFFF_FFFF_FFFF_FFFF)
            && (wait == 0 <==> exists t :: t in s.entries && s.entries[t].cb.Some? && s.entries[t].next <= now)
            && (0 < wait < 0xFFFF_FFFF_FFFF_FFFF ==>
                  && (exists t :: t in s.entries && s.entries[t].cb.Some? && s.entries[t].next == now + wait)
                  && (forall t :: t in s.entries && s.entries[t].cb.Some? ==> s.entries[t].next >= now + wait))
            && r == s.(notified := false)
  {
    if s.queue != [] {
      var front := s.queue[0];
      assert front in s.queue && s.entries[front].cb.Some?;
      forall t | t in s.entries && s.entries[t].cb.Some?
        ensures s.entries[front].next <= s.entries[t].next
      {
        var i :| 0 <= i < |s.queue| && s.queue[i] == t;
        assert i > 0 ==> Before(s.entries, front, s.queue[i]);
      }
    }
  }

  // When a timer comes in under the lock, a signal is sent exactly if none has been sent
  // since the last poll and the timer is before all others in the set.
  lemma EnqueueSignals(s: State, t: Address)
    requires Sorted(s.entries, s.queue) && t in s.entries && t !in s.queue
    ensures var r := Enqueue(s, t);
            var first := forall x :: x in s.queue ==>
                           s.entries[t].next < s.entries[x].next || (s.entries[t].next == s.entries[x].next && t < x);
            && r.signals == s.signals + (if first && !s.notified then 1 else 0)
            && r.notified == (s.notified || first)
  {
    InsertSorted(s.entries, s.queue, t);
    if s.queue != [] {
      assert s.queue[0] in s.queue;
      forall x | x in s.queue && Before(s.entries, t, s.queue[0])
        ensures Before(s.entries, t, x)
      {
        var i :| 0 <= i < |s.queue| && s.queue[i] == x;
        assert i > 0 ==> Before(s.entries, s.queue[0], s.queue[i]);
      }
    }
  }

  // A new timer.
  lemma AddMeans(s: State, t: Address, cb: Callback, loop: bool, ms: nat, created: nat)
    requires Inv(s) && t !in s.entries
    ensures var r := Add(s, t, cb, loop, ms, created);
            var next := (created + ms) % 0x1_0000_0000_0000_0000;
            var first := forall x :: x in s.entries && s.entries[x].cb.Some? ==>
                           next < s.entries[x].next || (next == s.entries[x].next && t < x);
            && r.entries == s.entries[t := Entry(Some(cb), loop, ms, next)]
            && (forall x :: x in r.queue <==> x == t || x in s.queue)
            && r.signals == s.signals + (if first && !s.notified then 1 else 0)
            && r.notified == (s.notified || first) && r.previous == s.previous
  {
    var next := Wrap(created + ms);
    var m := s.(entries := s.entries[t := Entry(Some(cb), loop, ms, next)]);
    SortedFrame(s.entries, m.entries, s.queue);
    EnqueueSignals(m, t);
    InsertSorted(m.entries, m.queue, t);
    assert forall x :: x in s.queue <==> x in s.entries && s.entries[x].cb.Some?;
  }

  lemma MovedSignals(s: State, t: Address, ms: nat, next: nat)
    requires Inv(s) && t in s.queue
    ensures var r := Enqueue(Taken(s, t, ms, next), t);
            var first := forall x :: x in s.queue && x != t ==>
                           next < s.entries[x].next || (next == s.entries[x].next && t < x);
            && r.entries == s.entries[t := s.entries[t].(ms := ms, next := next)]
            && (forall x :: x in r.queue <==> x in s.queue)
            && r.signals == s.signals + (if first && !s.notified then 1 else 0)
            && r.notified == (s.notified || first) && r.previous == s.previous
  {
    var m := Taken(s, t, ms, next);
    RemoveSorted(s.entries, s.queue, t);
    SortedFrame(s.entries, m.entries, m.queue);
    EnqueueSignals(m, t);
    InsertSorted(m.entries, m.queue, t);
  }

  lemma ResetMoves(s: State, t: Address, ms: nat, fromNow: bool, now: nat) returns (next: nat)
    requires Inv(s) && t in s.queue && !(ms == s.entries[t].ms && !fromNow)
    ensures Reset(s, t, ms, fromNow, now).0 == Enqueue(Taken(s, t, ms, next), t)
  {
    next := Wrap((if fromNow then now else Wrap(s.entries[t].next - s.entries[t].ms)) + ms);
  }

  // A reset that moves a timer signals in the same way, with respect to the other timers.
  lemma ResetSignals(s: State, t: Address, ms: nat, fromNow: bool, now: nat)
    requires Inv(s) && t in s.queue && !(ms == s.entries[t].ms && !fromNow)
    ensures var r := Reset(s, t, ms, fromNow, now).0;
            var next := r.entries[t].next;
            var first := forall x :: x in s.queue && x != t ==>
                           next < s.entries[x].next || (next == s.entries[x].next && t < x);
            && (forall x :: x in r.queue <==> x in s.queue)
            && r.signals == s.signals + (if first && !s.notified then 1 else 0)
            && r.notified == (s.notified || first) && r.previous == s.previous
  {
    var next := ResetMoves(s, t, ms, fromNow, now);
    MovedSignals(s, t, ms, next);
  }

  // Nothing else signals, and only a poll forgets that a signal was sent.
  lemma OthersSignalNot(s: State, op: Op, now: nat)
    requires Inv(s) && Legal(s, op) && !op.AddTimer? && !op.ResetTimer?
    ensures var r := Step(s, op, now).0;
            r.signals == s.signals && r.notified == (s.notified && !op.NextTimer?)
  {
    if op.CollectTimers? && s.queue != [] {
      ExactExpiry(s, now);
    }
  }

  // ----- How long `idle` sleeps -----

  const MAX_TIMEOUT: nat := 3000

  const HALF_INT: nat := 0x8000_0000

  // A 64-bit word as an int: its low half, in two's complement.
  function ToInt(n: nat): (i: int)
    ensures 0 <= i + HALF_INT < 2 * HALF_INT
  {
    var low := n % (2 * HALF_INT);
    if low < HALF_INT then low else low - 2 * HALF_INT
  }

  // What `idle` passes to epoll_wait; a negative timeout is no limit at all.
  function EpollTimeout(reported: nat): int {
    if reported == NEVER || ToInt(reported) > MAX_TIMEOUT then MAX_TIMEOUT else ToInt(reported)
  }

  // It sleeps no longer than reported if and only if the low half of the report is not
  // negative as an int. After a signal it passes the timeout again; only -1 is then read as
  // a report that there is no timer.
  lemma SleepExactly(reported: nat)
    requires reported < WORD
    ensures 0 <= EpollTimeout(reported) <= reported <==>
              reported == NEVER || reported % (2 * HALF_INT) < HALF_INT
    ensures EpollTimeout(reported) <= MAX_TIMEOUT
    ensures EpollTimeout(Wrap(EpollTimeout(reported)))
         == if EpollTimeout(reported) == -1 then MAX_TIMEOUT else EpollTimeout(reported)
  {
    var i := EpollTimeout(reported);
    if i < 0 {
      assert Wrap(i) == i + WORD;
      assert (i + WORD) % (2 * HALF_INT) == i + 2 * HALF_INT;
    }
  }

  // ----- Wake-ups that are missed -----

  // A timer that is added at 1000, and a poll that lets its caller sleep until it is due.
  function Asleep(loop: bool, ms: nat): State {
    State(map[1 := Entry(Some(0), loop, ms, 1000 + ms)], [1], false, 1000, 1)
  }

  function Lately(loop: bool, ms: nat, last: Call): seq<Call> {
    [Call(AddTimer(1, 0, loop, ms, 1000), 1000), Call(NextTimer, 1000), last]
  }

  lemma AsleepSteps(loop: bool, ms: nat, last: Call) returns (m: State)
    requires 1000 + ms < WORD && (last.op == RefreshTimer(1) || last.op == CollectTimers)
    ensures var add, next := Call(AddTimer(1, 0, loop, ms, 1000), 1000), Call(NextTimer, 1000);
            && Legal(Start(1000), add.op) && Step(Start(1000), add.op, 1000) == (m, Replied(true))
            && Inv(m) && Legal(m, NextTimer) && Step(m, NextTimer, 1000) == (Asleep(loop, ms), Waiting(ms))
            && Inv(Asleep(loop, ms)) && Legal(Asleep(loop, ms), last.op) && m.signals == 1
  {
    var e := Entry(Some(0), loop, ms, 1000 + ms);
    m := State(map[1 := e], [1], true, 1000, 1);
    assert map[][1 := e] == map[1 := e] && Insert(map[1 := e], [], 1) == [1];
    assert Add(Start(1000), 1, 0, loop, ms, 1000) == m;
  }

  lemma AsleepEnds(s: State, last: Call, p: Poll)
    requires Inv(s) && Legal(s, last.op) && Inv(Step(s, last.op, last.now).0)
    requires !Awake(Step(s, last.op, last.now).0, p) && (last.op.RefreshTimer? || last.op.CollectTimers?)
    ensures Possible(s, [last]) && !AlwaysAwake(s, [last], p)
  {
    var r := Step(s, last.op, last.now).0;
    assert [last][1..] == [];
    assert Possible(r, []) && !AlwaysAwake(r, [], p);
  }

  lemma AsleepRun(loop: bool, ms: nat, last: Call)
    requires 1000 + ms < WORD && (last.op == RefreshTimer(1) || last.op == CollectTimers)
    requires Inv(Start(1000)) && Inv(Step(Asleep(loop, ms), last.op, last.now).0)
    requires !Awake(Step(Asleep(loop, ms), last.op, last.now).0, Poll(1000, 1000 + ms, 1))
    ensures Possible(Start(1000), Lately(loop, ms, last))
    ensures !AlwaysAwake(Start(1000), Lately(loop, ms, last), Poll(1000, 1000, 0))
  {
    var run := Lately(loop, ms, last);
    var m := AsleepSteps(loop, ms, last);
    var s, p := Asleep(loop, ms), Poll(1000, 1000 + ms, 1);
    assert run[1..] == [Call(NextTimer, 1000), last] && run[1..][1..] == [last];
    AsleepEnds(s, last, p);
    assert Possible(m, run[1..]) && !AlwaysAwake(m, run[1..], Poll(1000, 1000, 0));
  }

  // Refreshing a timer whose period is so long that the new deadline wraps around to one
  // that is long past: nobody is woken for it.
  lemma RefreshCanMissWakeUp()
    ensures var run := Lately(false, NEVER - 1000, Call(RefreshTimer(1), 2000));
            && Possible(Start(1000), run) && Ordered(run, 1000)
            && Awake(Start(1000), Poll(1000, 1000, 0)) && Sane(Start(1000), 1000)
            && !AlwaysAwake(Start(1000), run, Poll(1000, 1000, 0))
  {
    var s := Asleep(false, NEVER - 1000);
    var r := Refresh(s, 1, 2000).0;
    assert Remove([1], 1) == [];
    assert r.entries[1].next == 999 && 1 in r.queue;
    AsleepRun(false, NEVER - 1000, Call(RefreshTimer(1), 2000));
    OrderedThree(false, NEVER - 1000, Call(RefreshTimer(1), 2000));
  }

  // A periodic timer can do so by itself, when a collection puts it back.
  lemma RenewalCanMissWakeUp()
    ensures var run := Lately(true, LONG, Call(CollectTimers, 1000 + LONG));
            && Possible(Start(1000), run) && Ordered(run, 1000)
            && Awake(Start(1000), Poll(1000, 1000, 0)) && Sane(Start(1000), 1000)
            && !AlwaysAwake(Start(1000), run, Poll(1000, 1000, 0))
  {
    var last := Call(CollectTimers, 1000 + LONG);
    var s := Asleep(true, LONG);
    assert Expired(s, last.now) == [1];
    var r := FireOne(s.(previous := last.now, queue := []), 1, last.now);
    assert Fire(r, [], last.now).0 == r && [1][1..] == [];
    assert Collect(s, last.now).0 == r;
    assert r.entries[1].next == 1000 && 1 in r.queue;
    AsleepRun(true, LONG, last);
    OrderedThree(true, LONG, last);
  }

  lemma OrderedThree(loop: bool, ms: nat, last: Call)
    requires ms < WORD && 1000 <= last.now < WORD && (last.op == RefreshTimer(1) || last.op == CollectTimers)
    ensures Ordered(Lately(loop, ms, last), 1000)
  {
    var run := Lately(loop, ms, last);
    assert run[1..] == [Call(NextTimer, 1000), last] && run[1..][1..] == [last];
    assert Ordered([last], 1000) && Ordered(run[1..], 1000);
  }
}
