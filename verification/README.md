# A verified model of the fiber framework

The repository is a network framework that runs callbacks and fibers on a pool of threads,
parks a fiber when a hooked system call would block, and wakes it by epoll or by a timer.
This project models the parts of it that carry invariants, and proves them. `dafny verify
dfyconfig.toml` checks everything.

| Part | Modules | What is proved |
|---|---|---|
| the growable buffer and its formats | `ByteArrays`, `Serializers`, `Streams` over `Bytes`, `Wire`, `Codec`, `Float32`, `Arith`, `Digits` | the chain of nodes with its cached cursor behaves as one flat byte string; every format round-trips across node boundaries; scattered and partial transfers are single writes and sends |
| timers | `TimerSets` (values, runs), `Timers` (classes) | exact expiry, a timer is alive exactly while it is in the set, ends once, no missed wake-up |
| the event table | `EventTables` (values, runs), `IOSchedulers` (classes) | mask, contexts, kernel interest and counter agree in every reachable state; every registration ends exactly once, by waking its own waiter or by being deleted |
| the scheduler | `SchedulerSteps` (N workers as a transition system), `SchedulerRuns`, `SchedulerRounds`, `FiberExclusion`, `IOStopping`, `Schedulers` and `Fibers` (classes) | no task is lost, doubled or stranded; when no fiber is run twice at once; when no timer and no registration is left behind |
| hooked calls | `Hooks` (the steps), `HookWaits`, `HookTimeouts`, `HookRuns`, `HookResults` | timers, event table and task queue composed: every park is matched by one scheduling, no timeout is lost or invented, and each call returns what it should |
| two text routines | `FormatParsers`, `IPv6Printers` | the lexer is lossless and one to one; the printer means the address |

Where the source updates objects in place, the model has two layers: functions on values,
about which the properties are proved for every sequence of operations, and classes whose
methods are proved to be those functions on the state they hold. Clocks, random choices of
the allocator (addresses, new fibers), the results of system calls, and what the network
delivers are parameters, so the properties hold for all of them.

Six properties one would expect are false of the code. For each there is a lemma with an
input, a run or a family of states that shows it, and theorems that say exactly when the
property does hold:

- `addTotalSize` takes its ceiling in single precision and can allocate one node too few
  (`Float32.CeilOfFloatQuotientTooSmall`). It is exact for every node size and every size
  below a bound if and only if the bound is at most 2^24 + 1 (`ExactBound`). For node sizes
  that are powers of two, as the default is, it is too small or too large if and only if the
  float nearest to the size lies beyond the exact number of nodes (`CeilByPowerExactly`).
- A timer that goes back into the set without a look at its front can miss a wake-up when
  its new deadline wraps around 64 bits: a refresh (`TimerSets.RefreshCanMissWakeUp`) and a
  periodic timer in a collection (`RenewalCanMissWakeUp`). No wake-up is missed in a run if
  and only if every refresh and every renewal is harmless (`NoMissedWakeUp`): the deadline
  does not wrap, or the sleeper is back by then. Below 2^63 milliseconds nothing wraps
  (`ShortRunsKeep`).
- Two workers can run one fiber at once, because `run` sets the state HOLD after the switch
  back, when another worker may already run the fiber (`FiberExclusion.MarkingRace`). The
  invariant that rules it out is kept by the disciplined submissions and by no others
  (`StepExclusiveExactly`): a fiber is submitted only when it is not queued and, while a
  worker still holds it, only to that worker. A fiber submitted otherwise is taken by two
  workers (`NextTakeExactly`, `QueuedTwiceTaken`). With a single worker no swap-in fails,
  and the fiber it is in is the only one marked as running (`OneWorkerExclusive`).
- A task pinned to a thread can be left behind at shutdown. A callback is, for good, if and
  only if the thread is no worker, has left, or has looked at the queue for the last time
  when the callback is submitted (`SchedulerRuns.PinnedCallbackExactly`); workers leave while
  others still run code, in the gap before a Ready fiber is requeued
  (`PinnedTaskStranded`) or while an idle worker collects the last timer
  (`PinnedByTimerStranded`). A fiber can also be left behind by a worker that looks while the
  fiber runs elsewhere (`PinnedFiberStranded`, `OrphanedExactly`). An unpinned task cannot,
  and what is pinned to a worker before `stop` is looked for (`PinnedBeforeStop`).
- A timer or a registration can be left behind when all workers have left, because `stopping`
  looks at timers, registrations and tasks one after the other: a timer that the program adds
  just before `stop` (`IOStopping.TimerLeftBehind`), or one that a callback adds after it
  (`CallbackTimerLeftBehind`). None is left behind in a run in which the first timer, or
  registration, never comes when every worker has looked for the last time
  (`NothingLeftOver`), and such steps are the only ones that leave something unwatched
  (`GuardedExactly`); while it stays, it is watched again if and only if some later look
  still finds something (`RemainsExactly`).
- A hooked call on whose timeout epoll_ctl fails stays registered beyond the reach of its
  timeout, and only such a call does (`HookRuns.TimeoutReaches`, `RefusedForGood`).

Where code and comments differ the code is modelled: `Fiber::reset` names the states TERM and
INIT in its test but refuses only ERROR, and the positional `read` starts from the cached
node of the current position, not from the requested one.

## Model

| member | source | states |
|---|---|---|
| `Float32.CeilOfFloatQuotientExact` | util/serializer.cpp:737-740 | the ceiling that `addTotalSize` takes of a float quotient is the exact integer ceiling for every size up to 2^24 and every node size |
| `Float32.ExactBound` | util/serializer.cpp:737-740 | it is exact for all sizes below a bound and all node sizes if and only if the bound is at most 2^24 + 1 |
| `Float32.CeilByPowerExactly` | util/serializer.cpp:737-740 | with nodes of 2^k bytes, too few or too many nodes result if and only if the float nearest to the size is beyond what the exact number of nodes, less one or not, holds |
| `Float32.NearestAgain` | util/serializer.cpp:739 | rounding a float changes nothing |
| `Arith.DivIsQuotient` | util/serializer.cpp:656-660 | the recursive quotient and remainder of the model are `/` and `%` |
| `Float32.CeilOfFloatQuotientTooSmall` | util/serializer.cpp:737-740 | beyond that it can be too small: one node short for 2^24 + 1 bytes in nodes of 4096 |
| `Float32.NearestError` | util/serializer.cpp:739 | the relative error of rounding to single precision is less than 2^-24 |
| `ByteArrays.GrownIsLeast` | util/serializer.cpp:724-761 | the capacity after growing is the least multiple of the node size that keeps the old capacity and covers position + size |
| `ByteArrays.ByteArray.constructor` | util/serializer.cpp:84-89 | a new buffer is one node, at position 0, empty, big-endian |
| `ByteArrays.ByteArray.Clear` | util/serializer.cpp:351-366 | only the first node stays, with its bytes; position and data size are 0 |
| `ByteArrays.GrownTwice` | util/serializer.cpp:724-761 | growing for one write and then for the next is growing for both at once |
| `ByteArrays.SmallGrowRight` | util/serializer.cpp:737-740 | writes of at most 2^24 bytes each, however many, get enough nodes, and together exactly as many as one write of all of them |
| `ByteArrays.CapacityExactly` | util/serializer.cpp:737-757 | the capacity after growing by the float ceiling is a multiple of the node size, and the least one that fits if and only if the ceiling is exact; then it is enough |
| `ByteArrays.ByteArray.AddTotalSize` | util/serializer.cpp:724-761 | for every size: grows by as many nodes as the float ceiling says (`Capacity`) when the capacity left is too small, keeps every byte and the cursor invariant, and reaches the least multiple that fits if and only if that ceiling is exact |
| `ByteArrays.ByteArray.SetPosition` | util/serializer.cpp:498-520 | refuses positions beyond the capacity without any effect; otherwise the cursor node is again number position / node size, and the data size covers the position |
| `ByteArrays.ByteArray.Write` | util/serializer.cpp:368-407 | on the flat string exactly [pos, pos + n) becomes the n bytes written and everything else is unchanged, for every write that gets enough nodes, also too many; the capacity grows to the least multiple that fits if and only if the float ceiling is exact |
| `ByteArrays.ByteArray.WriteChunks` | util/serializer.cpp:380-402 | the node-by-node copying loop is one splice of the flat string, across any number of node boundaries |
| `ByteArrays.ByteArray.Read` | util/serializer.cpp:409-450 | delivers exactly flat[pos..pos + n] and moves past it, or throws without any effect when fewer bytes are readable |
| `ByteArrays.ByteArray.AliasedIsExact` | util/serializer.cpp:464-467 | the positional read starts where it should if and only if the requested position lies in the current node |
| `ByteArrays.ByteArray.AheadMeans` | util/serializer.cpp:458-463 | its bound is data size - position in 64-bit unsigned arithmetic |
| `ByteArrays.ByteArray.ReadAt` | util/serializer.cpp:452-494 | the positional read delivers the bytes from the place it really starts at, which AliasedIsExact relates to the requested one |
| `ByteArrays.ByteArray.ToString` | util/serializer.cpp:584-594 | everything from the position to the end of the data, without moving |
| `ByteArrays.ByteArray.SegmentsDisjoint` | util/serializer.cpp:611-721 | no two segments handed out share a byte |
| `ByteArrays.ByteArray.GetReadBuffers` | util/serializer.cpp:611-645 | segments that are, in order, exactly the next min(len, readable) bytes; nothing moves |
| `ByteArrays.ByteArray.GetReadBuffersAt` | util/serializer.cpp:647-687 | the same from any position inside the data, found by walking from the root |
| `ByteArrays.ByteArray.GetWriteBuffers` | util/serializer.cpp:689-722 | grows as a write would, leaves position and data size alone, and returns segments that are exactly [pos, pos + len), whenever there are enough nodes |
| `Wire.MachineWord32` | util/serializer.cpp:7-53 | the shifts, masks and exclusive ors on 32-bit words are the arithmetic the model uses |
| `Wire.MachineWord64` | util/serializer.cpp:15-70 | the same on 64-bit words |
| `Wire.MachineGroup` | util/serializer.cpp:265-275 | setting the bits of a varint group above those read so far adds them |
| `Wire.ZigZagEncodeOnWords` | util/serializer.cpp:7-17 | for words of any width the encoding expression, with exclusive or taken bit by bit and an arithmetic shift, is the encoding of the model |
| `Wire.ZigZagDecodeOnWords` | util/serializer.cpp:7-17 | the same of the decoding expression |
| `Wire.ZigZagMeaning` | util/serializer.cpp:7-17 | the zigzag expression is 2n for n >= 0 and -2n - 1 otherwise, for every word width, and decoding inverts it |
| `Wire.ZigZagOnto` | util/serializer.cpp:9-17 | every unsigned word is the zigzag code of the number it decodes to |
| `Wire.LebLength` | util/serializer.cpp:38-70 | a number takes k bytes if and only if it is below 128^k and, for k > 1, not below 128^(k-1) |
| `Wire.LebFits` | util/serializer.cpp:147-158 | five bytes hold every 32-bit number and ten every 64-bit number |
| `Wire.LebIsVarint` | util/serializer.cpp:38-70 | the code byte by byte (`IsVarint`): byte i holds bits 7i to 7i + 6 of the number, and has its top bit set if and only if it is not the last |
| `Wire.UnLebExactly` | util/serializer.cpp:259-297 | on any input: where the decoder stops, and when it runs out of data |
| `Wire.UnLebGroup` | util/serializer.cpp:259-297 | on any input: byte i gives bits 7i to 7i + 6 of the number |
| `Wire.UnLebOfLeb` | util/serializer.cpp:38-70 | decoding a code, whatever follows it, gives the number and consumes exactly the code |
| `Wire.UnLeb` | util/serializer.cpp:259-297 | the decoder consumes at most its number of groups, and no more than there is, on any input |
| `Wire.LebPrefixFree` | util/serializer.cpp:38-70 | no code is a prefix of another |
| `Wire.LittleFromLittle` | util/serializer.cpp:107-141 | fixed-width bytes and numbers below 256^w correspond one to one |
| `Wire.HostDoesNotMatter` | util/serializer.cpp:107-141 | the bytes written are those of the order of the buffer, whatever the host |
| `Wire.FixedInMeaning` | util/serializer.cpp:215-255 | the number read is that of the order of the buffer, whatever the host |
| `Wire.MemoryIsFixed` | util/serializer.cpp:103-141 | byte by byte (`IsFixed`): big-endian, byte i of w is n / 256^(w-1-i) mod 256; little-endian, n / 256^i mod 256 |
| `Wire.ReadIsFixed` | util/serializer.cpp:201-255 | the number read is the one below 256^w with these bytes |
| `Wire.MemorySum` | util/serializer.cpp:201-255 | it is the sum of the bytes, each times 256^(w-1-i) or 256^i |
| `Wire.FixedRoundTrip` | util/serializer.cpp:107-255 | what one host wrote any other host reads back |
| `Codec.RoundTrip` | util/serializer.cpp:103-349 | every value of every type reads back as itself and takes exactly the bytes it was written to, whatever follows |
| `Codec.TextRoundTrip` | util/serializer.cpp:175-191 | a string behind a fixed-width length reads back if and only if its length fits the prefix |
| `Codec.VarTextRoundTrip` | util/serializer.cpp:193-197 | a string behind a varint length reads back |
| `Codec.ListRoundTrip` | util/serializer.cpp:103-349 | any list of values written back to back reads back as the same list with the same types |
| `Codec.EncodeBytes` | util/serializer.cpp:103-197 | the bytes of every typed value: two's complement in the order of the buffer, zigzag (2n or -2n - 1) in groups of seven bits, and strings as their length, cut to the prefix, before the characters |
| `Codec.DecodeFixedExactly` | util/serializer.cpp:201-255 | on any bytes: the number in range that these bytes are, or nothing used if there are too few |
| `Codec.VarintExactly` | util/serializer.cpp:259-297 | on any bytes: at most five or ten groups, and the number cut to 32 or 64 bits |
| `Codec.DecodeVarExactly` | util/serializer.cpp:145-159 | on any bytes: that number, or u / 2 for even and -(u / 2) - 1 for odd zigzag codes u |
| `Codec.DecodeTextExactly` | util/serializer.cpp:315-349 | on any bytes: as many characters as the length says; if there are fewer, the length has been used up |
| `Serializers.EncodeVarint` | util/serializer.cpp:38-70 | the encoding loop fills the front of the buffer with the varint of the number and returns its length |
| `Serializers.WriteVarint` | util/serializer.cpp:145-159 | writes the varint code at the position of any buffer |
| `Serializers.WriteFixed` | util/serializer.cpp:103-141 | writes the number byte by byte in the order of the buffer, on either kind of host |
| `Serializers.WriteText` | util/serializer.cpp:175-197 | length and characters are one write of the code of the string |
| `Serializers.WriteValue` | util/serializer.cpp:103-197 | each typed writer is one write of the code of its value |
| `Serializers.ScanIsVarint` | util/serializer.cpp:259-297 | the reading loop, which cuts to its word after every group, gives the number of the varint cut once |
| `Serializers.ReadVarint` | util/serializer.cpp:259-297 | the loop over the buffer delivers that number, moves past the bytes it looked at, and stops where the data ends |
| `Serializers.ReadFixed` | util/serializer.cpp:201-255 | delivers the number whose bytes, in the order of the buffer, are the next ones, or nothing when the data ends |
| `Serializers.ReadText` | util/serializer.cpp:315-349 | length and characters, with the position behind the length when the characters are missing |
| `Serializers.ReadValue` | util/serializer.cpp:201-349 | each typed reader decodes the readable bytes and moves past exactly those it used |
| `Serializers.ShortTextsGrowRight` | util/serializer.cpp:103-197 | a list whose strings have 2^24 characters at most can be written into any buffer, which grows to the least capacity that holds the codes |
| `Serializers.WriteAll` | util/serializer.cpp:103-197 | a list of values is one write of their codes |
| `Serializers.ReadAll` | util/serializer.cpp:201-349 | reading a list of types decodes the readable bytes, also when they end early |
| `Serializers.WriteSeekRead` | tests/test_net.cpp:128-145 | write a list, seek back, read the same types: the same list and the same position, for every node size, alignment and pair of hosts |
| `Streams.Socket.Scatter` | net/socketstream.cpp:29-43 | filling the segments of a buffer in order splices its flat string |
| `Streams.SocketStream.Read` | net/socketstream.cpp:29-43 | reading into a buffer is one write of the bytes that the network delivers for one receive, but that room was made for len bytes; result and what stays to be delivered are exact |
| `Streams.SocketStream.Write` | net/socketstream.cpp:54-68 | sends as many of the readable bytes, up to len, as the kernel accepts, and moves exactly past them; result and what the kernel accepts next are exact |
| `Streams.SocketStream.ReadF` | util/stream.cpp:28-41 | over any sequence of partial reads the buffer is as after one write of everything that the network delivers before it fails or ends, up to len bytes; the result is len, or 0 or -1 by how it ended |
| `Streams.SocketStream.WriteF` | util/stream.cpp:60-73 | over any sequence of partial sends exactly the stretch the position moved over is sent, in order; its length is the least of len, the readable bytes and what the kernel accepts before it accepts nothing |
| `TimerSets.InsertSorted` | scheduler/timer.cpp:83-106 | inserting keeps the set strictly sorted by deadline and address, and says when the new timer is the front |
| `TimerSets.DueExactly` | scheduler/timer.cpp:199-203 | the due timers at the front are exactly those with a deadline up to now |
| `TimerSets.LowerBoundAmongDue` | scheduler/timer.cpp:198-203 | wherever the probe timer lives, its lower bound is among the due timers and everything behind it is not before now |
| `TimerSets.StepKeeps` | scheduler/timer.cpp:18-216 | every operation keeps the set sorted and a timer in it exactly while it has its callback |
| `TimerSets.RunKeeps` | scheduler/timer.cpp:18-216 | so after every run, and a run goes on with every legal call |
| `TimerSets.ExactExpiry` | scheduler/timer.cpp:171-216 | a collection takes exactly the due timers, or all of them after a rollback, gives each callback once in set order, renews the periodic ones at now + period, ends the others, and touches nothing else |
| `TimerSets.RolledBackExactly` | scheduler/timer.cpp:224-233 | when the rollback test fires: more than 3,600,000 ms back, or any step back while the clock is below that |
| `TimerSets.EndsOnce` | scheduler/timer.cpp:18-29 | after a successful cancel, or after a one-shot was collected, no later cancel of it succeeds and no later collection contains it |
| `TimerSets.DeadForGood` | scheduler/timer.cpp:18-81 | a timer without callback is never collected and never cancelled with success |
| `TimerSets.StepAwake` | scheduler/timer.cpp:31-216 | each operation keeps the wake-up argument if and only if it is harmless; adding, resetting, cancelling and polling always are |
| `TimerSets.NoMissedWakeUp` | scheduler/timer.cpp:121-216 | over every run, with a clock that does not go back and collectors overtaken by other threads: in all its states a signal is pending or no deadline is earlier than the last one reported, if and only if every refresh and renewal is harmless |
| `TimerSets.ShortRunsKeep` | scheduler/timer.cpp:31-233 | in runs with clocks and periods below 2^63 milliseconds, and collectors overtaken by less than an hour, all are |
| `TimerSets.RefreshAwakeExactly` | scheduler/timer.cpp:31-47 | a refresh keeps the wake-up argument if and only if the deadline does not wrap or the sleeper is back in time anyway |
| `TimerSets.CollectAwakeExactly` | scheduler/timer.cpp:197-215 | so does a collection, for each periodic timer that it puts back; after a rollback, if and only if the sleeper is back by each new deadline |
| `TimerSets.SleepExactly` | scheduler/ioscheduler.cpp:343-352 | `idle` sleeps no longer than the timers say if and only if the low 32 bits of what they say, taken as an int, are not negative (if they are, epoll waits without limit); the timeout is never above three seconds, and after a signal it is passed again unchanged, except that -1 becomes three seconds |
| `TimerSets.RefreshCanMissWakeUp` | scheduler/timer.cpp:43-46 | a refreshed deadline that wraps around wakes nobody |
| `TimerSets.RenewalCanMissWakeUp` | scheduler/timer.cpp:206-210 | nor does the wrapped deadline of a periodic timer that a collection puts back |
| `TimerSets.TimesMeaning` | scheduler/timer.cpp:18-81 | cancel and refresh succeed exactly on live timers, reset does also on a dead timer if the period stays; what each leaves of the timer, with its deadline in unsigned arithmetic; nothing changes otherwise |
| `TimerSets.NextTimeExactly` | scheduler/timer.cpp:150-169 | over the live timers: never (2^64 - 1) if and only if there is none, 0 if and only if one is due, and otherwise the time to the least deadline; the one exception is a deadline 2^64 - 1 at time 0 |
| `TimerSets.AddMeans` | scheduler/timer.cpp:83-135 | a new timer has callback, period and deadline as given; a signal is sent if and only if none is pending and the timer is before all live ones |
| `TimerSets.ResetSignals` | scheduler/timer.cpp:49-106 | the same of a timer that is moved, among the other ones |
| `TimerSets.OthersSignalNot` | scheduler/timer.cpp:18-216 | no other operation sends a signal, and only a poll forgets that one was sent |
| `Timers.Timer.Cancel` | scheduler/timer.cpp:18-29 | in place: the operation on values, keeping the invariant |
| `Timers.Timer.Refresh` | scheduler/timer.cpp:31-47 | in place: the operation on values, keeping the invariant |
| `Timers.Timer.Reset` | scheduler/timer.cpp:49-81 | in place: the operation on values, keeping the invariant |
| `Timers.TimerManager.AddTimer` | scheduler/timer.cpp:112-135 | in place: a live timer with its deadline joins the set, and a new front is signalled unless a signal is pending |
| `Timers.TimerManager.GetNextTimerTimeMs` | scheduler/timer.cpp:150-169 | in place: what NextTimeExactly says |
| `Timers.TimerManager.HasTimer` | scheduler/timer.cpp:218-222 | whether some timer is alive |
| `Timers.TimerManager.DetectTimeModified` | scheduler/timer.cpp:224-233 | the rollback test, and the time is remembered |
| `Timers.TimerManager.EndOfDue` | scheduler/timer.cpp:197-203 | lower bound and loop end at the number of due timers, for every address of the probe |
| `Timers.TimerManager.GetExpiredCbsList` | scheduler/timer.cpp:171-216 | in place: the collection on values, with its callbacks appended |
| `EventTables.CtlAlwaysLegal` | scheduler/ioscheduler.cpp:132-142 | epoll_ctl is always called with the operation that is legal for what the kernel knows |
| `EventTables.AddEventOutcome` | scheduler/ioscheduler.cpp:107-165 | a registration succeeds unless its bit is set or epoll fails; then its slot waits with the given waiter; a refusal changes nothing but the table size |
| `EventTables.AddEventKeeps` | scheduler/ioscheduler.cpp:107-165 | keeps bits, contexts, kernel interest, counter and history in agreement |
| `EventTables.DelEventKeeps` | scheduler/ioscheduler.cpp:168-206 | keeps them in agreement, and succeeds exactly when the bit is set and epoll does not fail; otherwise nothing changes |
| `EventTables.CancelEventKeeps` | scheduler/ioscheduler.cpp:209-246 | keeps them in agreement, and succeeds exactly when the bit is set and epoll does not fail; otherwise nothing changes |
| `EventTables.CancelAllKeeps` | scheduler/ioscheduler.cpp:248-288 | keeps them in agreement and leaves the entry free, or everything as it was |
| `EventTables.EndOutcome` | scheduler/ioscheduler.cpp:168-246 | deleting ends a registration silently, cancelling hands exactly its own waiter to its own scheduler |
| `EventTables.CancelAllWakesAll` | scheduler/ioscheduler.cpp:276-285 | every waiter of the descriptor is scheduled, the reader first |
| `EventTables.DispatchKeeps` | scheduler/ioscheduler.cpp:392-440 | a delivery takes exactly the reported registered bits; the assertion fails if and only if the mask names a registered and an unregistered bit and epoll does not fail |
| `EventTables.DispatchWakes` | scheduler/ioscheduler.cpp:392-440 | a delivery schedules exactly the waiters of the reported bits, the reader first, and nobody if epoll_ctl fails |
| `EventTables.DeliveryFailsExactly` | scheduler/ioscheduler.cpp:392-440 | in the flags that epoll reports: the assertion fails if and only if readable or writable names a bit that is not set, next to a set bit that is reported, by its flag or by an error, and epoll_ctl does not fail |
| `EventTables.DeliveryTakesExactly` | scheduler/ioscheduler.cpp:392-440 | otherwise the read bit goes if and only if epoll reports readable or an error, and the write bit if and only if it reports writable or an error, unless epoll_ctl fails; a bit that stays keeps its waiter |
| `EventTables.DeliveryWakesExactly` | scheduler/ioscheduler.cpp:392-440 | and just the waiters of the bits that go are scheduled, the reader first |
| `EventTables.ResizedMeans` | scheduler/ioscheduler.cpp:109-123 | the table grows to one and a half times the descriptor, with free entries behind those it had |
| `EventTables.StaleDeliveryFails` | scheduler/ioscheduler.cpp:424-440 | a mask read before another thread deletes one of its bits fails the assertion |
| `EventTables.TableMeaning` | scheduler/ioscheduler.cpp:107-318 | in every reachable state a bit is set exactly while its context is occupied, the kernel interest is the mask, and a zero count means nobody waits |
| `EventTables.ExactlyOnce` | scheduler/ioscheduler.cpp:107-508 | in every reachable state successful adds are triggers plus deletes plus the one still waiting, and each trigger is that of its own registration |
| `IOSchedulers.FdContext.TriggerEvent` | scheduler/ioscheduler.cpp:490-508 | in place: clears bit and context and yields the scheduler and waiter that were registered |
| `IOSchedulers.IOScheduler.constructor` | scheduler/ioscheduler.cpp:80-85 | a table of 32 free entries |
| `IOSchedulers.IOScheduler.Lookup` | scheduler/ioscheduler.cpp:109-123 | the entry of any descriptor, growing the table without moving what is there |
| `IOSchedulers.IOScheduler.AddEvent` | scheduler/ioscheduler.cpp:107-165 | in place: the operation on values, keeping the invariant |
| `IOSchedulers.IOScheduler.DelEvent` | scheduler/ioscheduler.cpp:168-206 | in place: the operation on values, keeping the invariant |
| `IOSchedulers.IOScheduler.CancelEvent` | scheduler/ioscheduler.cpp:209-246 | in place: the operation on values, keeping the invariant |
| `IOSchedulers.IOScheduler.CancelAll` | scheduler/ioscheduler.cpp:248-288 | in place: the operation on values, keeping the invariant |
| `IOSchedulers.IOScheduler.Deliver` | scheduler/ioscheduler.cpp:392-440 | in place: which bits one delivered event takes and whose waiters it schedules, in the flags that epoll reports |
| `IOSchedulers.IOScheduler.DeliverAll` | scheduler/ioscheduler.cpp:368-441 | the loop over a batch: every entry reported loses exactly its reported bits, every other is as before, and exactly the waiters of the reported bits are scheduled, event by event |
| `SchedulerSteps.ScanIsEarliest` | scheduler/scheduler.cpp:148-176 | the scan takes the earliest entry that is not pinned elsewhere and whose fiber does not run, and nothing only if there is none |
| `SchedulerRuns.CountsKept` | scheduler/scheduler.cpp:172-255 | every step keeps the active count equal to the workers between pick and decrement, and the idle count equal to the workers inside `idle` |
| `SchedulerRuns.ExecKept` | fiber/fiber.cpp:233-252 | every step keeps: a fiber marked as running is inside some worker |
| `SchedulerRuns.PinnedKept` | scheduler/scheduler.cpp:153-160 | every step keeps: nobody holds a task pinned to another worker |
| `SchedulerRuns.StrandedKept` | scheduler/scheduler.cpp:148-264 | every step, also between the decrement and the requeue of a Ready fiber, keeps a worker that will look at the queue while an unpinned task is in it |
| `SchedulerRuns.PlacesKept` | scheduler/scheduler.cpp:148-232 | every step keeps every accepted task in exactly one place |
| `SchedulerRuns.CountsAgree` | scheduler/scheduler.cpp:148-245 | active and idle count agree with the workers in every reachable state |
| `SchedulerRuns.OnePlace` | scheduler/scheduler.cpp:148-232 | in every reachable state an accepted task is queued, in one worker's hands, finished, suspended, requeued or discarded, and only one of these |
| `SchedulerRuns.NoTaskStranded` | scheduler/scheduler.cpp:75-129 | if nothing is submitted from outside after stop, an unpinned task in the queue always has a worker that has not left |
| `SchedulerRuns.NothingLeftBehind` | scheduler/scheduler.cpp:75-264 | when all workers have left, only pinned tasks can be in the queue and all other accepted tasks are closed |
| `SchedulerRounds.SubmitMeans` | scheduler/scheduler.h:27-93 | a submitted task joins the end of the queue, and who may take it: the thread it is for, or any worker, and nobody while it is a fiber that runs |
| `SchedulerRounds.LaunchMeans` | scheduler/scheduler.cpp:181-208 | what a worker does with the task it took: discard an ended fiber, fail on a running one, run any other; callbacks in the fiber kept for them, or in a new one |
| `SchedulerRounds.RoundMeans` | scheduler/scheduler.cpp:177-227 | the whole round after a fiber gives up control: queued again for any worker after Ready, put on hold, or finished, with what becomes of the callback fiber |
| `SchedulerRounds.RequeueMeans` | scheduler/scheduler.cpp:185-188 | whatever came between: a requeued fiber is last in the queue with a new ticket, and every worker may take it, whatever thread it was for, unless somebody runs it |
| `SchedulerRounds.ReadyLookedFor` | scheduler/scheduler.cpp:75-188 | in every continuation it has a worker that will look at the queue for as long as it is queued |
| `SchedulerRounds.IdleMeans` | scheduler/scheduler.cpp:229-245 | an idle fiber ends exactly when stop was called, the queue is empty, nobody is active, and no timer or event is left; a worker without a task leaves exactly when its idle fiber has ended |
| `SchedulerRuns.PinnedCallbackExactly` | scheduler/scheduler.cpp:153-264 | a callback submitted for a thread: if that worker stays when it is submitted, it stays as long as the callback is queued, in every continuation; if not, the callback is queued for good |
| `SchedulerRuns.PinnedFiberLookedFor` | scheduler/scheduler.cpp:153-264 | the same for a fiber while the worker's idle fiber goes on |
| `SchedulerRuns.StaysBeforeStop` | scheduler/scheduler.cpp:75-129 | before `stop` no idle fiber has ended and no worker has left, nor is leaving |
| `SchedulerRuns.PinnedBeforeStop` | scheduler/scheduler.cpp:75-264 | whatever is pinned to a worker before `stop`, callback or fiber, has a worker that will look for it as long as it is queued, in every continuation |
| `SchedulerRuns.OrphanedExactly` | scheduler/scheduler.cpp:153-238 | a queued pinned task loses its worker in a step if and only if the worker looks, finds nothing it may run, and its idle fiber has ended; the task is then a fiber that runs elsewhere |
| `SchedulerRuns.OrphanStays` | scheduler/scheduler.cpp:153-160 | a task whose worker does not stay is never taken, and no idle fiber ends any more |
| `SchedulerRuns.PinnedTaskStranded` | scheduler/scheduler.cpp:185-189 | a reachable such state, by the gap before the requeue of a Ready fiber |
| `SchedulerRuns.PinnedByTimerStranded` | scheduler/ioscheduler.cpp:356-366 | another one without any requeue: the last timer is collected after the other worker has left |
| `SchedulerRuns.PinnedFiberStranded` | scheduler/scheduler.cpp:162-167 | a fiber left behind by a worker that stayed when the fiber was submitted to it |
| `IOStopping.ReachableSchedulers` | scheduler/ioscheduler.cpp:308-318 | with the three looks of `stopping` taken apart, every reachable state is one of the scheduler's, so that all of the above holds in it |
| `IOStopping.LookMeans` | scheduler/ioscheduler.cpp:314-318 | the three looks in their order, what each looks at, and what a worker does when one finds something and when none does |
| `IOStopping.WatchedExactly` | scheduler/ioscheduler.cpp:314-318 | while a timer, or registration, is left, some worker will still look for it after a step if and only if one would before, or the step is a look that finds something |
| `IOStopping.GuardedExactly` | scheduler/ioscheduler.cpp:314-341 | a step leaves something that nobody will look for if and only if it adds the first timer, or registration, when every worker has looked for the last time |
| `IOStopping.NothingLeftOver` | scheduler/ioscheduler.cpp:308-446 | in a run without such a step no timer is in the set and no registration waits when all workers have left |
| `IOStopping.RemainsExactly` | scheduler/ioscheduler.cpp:314-341 | over a run in which something stays, somebody will look for it at the end if and only if somebody would at the start or some look found something |
| `IOStopping.TimerLeftBehind` | scheduler/ioscheduler.cpp:314-341 | a reachable state in which all workers have left and a timer is in the set: it was added, and `stop` called, between two looks of one `stopping` |
| `IOStopping.CallbackTimerLeftBehind` | scheduler/ioscheduler.cpp:314-372 | another one, in which a callback run by the second worker after `stop` adds the timer while the first is between its looks |
| `FiberExclusion.StepExclusive` | scheduler/scheduler.cpp:177-226 | every disciplined step keeps: no fiber in two hands, none queued twice, states that fit the points of their holders, spare callback fibers free |
| `FiberExclusion.StepExclusiveExactly` | scheduler/scheduler.cpp:153-226 | and no undisciplined step keeps it |
| `FiberExclusion.NextTakeExactly` | scheduler/scheduler.cpp:153-193 | a fiber submitted while a worker holds it is taken by the next other worker that looks, unless it runs just then or is pinned to a third |
| `FiberExclusion.QueuedTwiceTaken` | scheduler/scheduler.cpp:153-175 | a fiber queued twice is taken by two workers that look one after the other |
| `FiberExclusion.QueuedTooEarly` | scheduler/scheduler.cpp:186-219 | a queued fiber that yields Ready is queued a second time, and one that ends in a callback fiber is reused while it is queued |
| `FiberExclusion.OneWorkerExclusive` | scheduler/scheduler.cpp:148-232 | with a single worker, under any submissions, no swap-in fails, and a fiber is marked as running if and only if the worker is inside it |
| `FiberExclusion.MutualExclusion` | scheduler/scheduler.cpp:177-193 | under the discipline no two workers ever hold a fiber and no swap-in fails |
| `FiberExclusion.CallbackFiberIsFree` | scheduler/scheduler.cpp:195-226 | the fiber reused for a callback has ended and is neither queued nor held, so never one whose callback is suspended |
| `FiberExclusion.RunningIsNotTaken` | scheduler/scheduler.cpp:162-167 | under any discipline a fiber that runs is not taken and its entry is not lost |
| `FiberExclusion.MarkingRace` | scheduler/scheduler.cpp:190-193 | without the discipline two workers can run one fiber at once: a late setState(HOLD) marks a running fiber |
| `Schedulers.BatchIsSubmissions` | scheduler/scheduler.h:41-55 | a batch is the submissions of its callables one by one, in order |
| `Schedulers.Scheduler.MSchedule` | scheduler/scheduler.h:84-93 | appends unless the callable is empty, and asks for a notification if the queue was empty |
| `Schedulers.Scheduler.ScheduleBatch` | scheduler/scheduler.h:41-55 | appends the callables in order, empties the caller's, and asks for a notification exactly if the queue was empty |
| `Schedulers.Scheduler.ScanTasks` | scheduler/scheduler.cpp:148-176 | the scanning loop takes what Scan says and keeps the order of the rest; it notifies exactly if it passed a task for another worker |
| `Fibers.Fiber.Reset` | fiber/fiber.cpp:162-210 | resets any fiber but one without stack or in state ERROR |
| `Fibers.Fiber.SwapIn` | fiber/fiber.cpp:233-252 | fails exactly on a running fiber |
| `Fibers.Fiber.LeaveBy` | fiber/fiber.cpp:360-428 | a yield goes to the fiber it is given, or else to the main fiber; an end goes to the scheduling fiber, or else to the main fiber; the state is HOLD, READY, TERM or ERROR by the way it was, and the scheduling fiber is forgotten unless control goes to the main fiber by default |
| `Fibers.Fiber.Visit` | fiber/fiber.cpp:233-428 | a running fiber cannot be visited; after a visit the thread is back in the visiting fiber if and only if the fiber ended or yielded to that one, and the scheduling fiber is forgotten unless it yielded to the main fiber |
| `HookRuns.StepKeeps` | hook/hook.cpp:64-168 | every step keeps the agreement of fibers, calls, registrations, queue and timers |
| `HookRuns.ParkedOnce` | hook/hook.cpp:140-154 | in every reachable state a parked fiber is registered or queued exactly once and never both, every other fiber neither |
| `HookRuns.ParksMatched` | hook/hook.cpp:93-165 | over a whole run the parks of a fiber and its scheduling match one to one, but for the park that still waits |
| `HookRuns.TimeoutNotLost` | hook/hook.cpp:119-138 | a parked fiber with a timeout is queued, or its timer is in the set or its timeout callback queued and not yet spent; only a call on whose timeout epoll_ctl failed is none of these |
| `HookRuns.TimeoutReaches` | hook/hook.cpp:124-136 | the timeout callback of a registered fiber queues it if and only if epoll_ctl has not failed on an earlier one; otherwise it does nothing |
| `HookRuns.RefusedForGood` | hook/hook.cpp:124-136 | over every run: after such a failure no later timeout of the call has any effect |
| `HookRuns.TimedOutHonestly` | hook/hook.cpp:155-163 | ETIMEDOUT is returned only if the timeout has elapsed since a wait of the same call was armed |
| `HookResults.AnswerMeans` | hook/hook.cpp:97-116 | an attempt that does not block ends the call with its answer |
| `HookResults.BlockedMeans` | hook/hook.cpp:117-154 | one that blocks ends the call with -1 if and only if the event is registered already or epoll_ctl fails, with its timer out of the set again; otherwise the fiber parks without a result |
| `HookResults.ParkedMeans` | hook/hook.cpp:119-154 | then its event is registered for it, and if the call has a timeout, its timer is in the set with the deadline now + timeout |
| `HookResults.ResumedMeans` | hook/hook.cpp:154-164 | a resumed fiber returns ETIMEDOUT if and only if the call is marked as timed out, and goes on with the call otherwise; its timer is not in the set any more |
| `HookResults.TimedOutExactly` | hook/hook.cpp:123-164 | over every run: if and only if the timeout callback of that very call has run before |
| `HookResults.FirstInFirstOut` | scheduler/scheduler.h:84-93 | every step takes at most the head of the queue and adds at its end |
| `HookRuns.ForeignDeleteLosesFiber` | hook/hook.cpp:123-154 | if other code deletes the event, the parked fiber is neither registered nor queued, and its timeout does not queue it |
| `Hooks.DeliverTable` | scheduler/ioscheduler.cpp:392-440 | the delivery step is the delivery of the event table |
| `Hooks.CloseTable` | scheduler/ioscheduler.cpp:248-288 | closing is cancelAll of the event table |
| `Hooks.TimeoutTable` | hook/hook.cpp:127-136 | the timeout callback is cancelEvent of the event table, unless the call has returned or been cancelled |
| `Hooks.WakeWaits` | scheduler/ioscheduler.cpp:490-508 | a trigger moves one fiber from the table to the queue |
| `FormatParsers.Parse` | util/util.cpp:227-286 | the nested loops compute the lexing function, with the rest of the text in the error |
| `FormatParsers.LexLossless` | util/util.cpp:227-286 | writing the tokens of an accepted string reproduces it |
| `FormatParsers.LexCanonical` | util/util.cpp:227-286 | the tokens of an accepted string are canonical |
| `FormatParsers.LexUnparse` | util/util.cpp:227-286 | every canonical token list is what its text lexes to, so that lexing is one to one |
| `FormatParsers.ClosedMeans` | util/util.cpp:248-263 | a date is closed if and only if a `}` follows its `%d{` |
| `FormatParsers.RejectsExactly` | util/util.cpp:248-263 | a string is rejected if and only if the lexer reaches a `%d{` with no later `}`, and the error carries the text behind it |
| `IPv6Printers.Insert` | net/address.cpp:535-568 | the printing loop emits the body in brackets, and the port in decimal |
| `IPv6Printers.PrinterFaithful` | net/address.cpp:535-568 | by section 2.2 of RFC 4291 the text means exactly the eight groups, also with zeros at the front, at the end, or throughout |
| `IPv6Printers.AtMostOneDouble` | net/address.cpp:547-565 | the text has at most one `::` |
| `IPv6Printers.BodyMeans` | net/address.cpp:540-565 | without a zero the body is the groups joined; otherwise `::` stands for the first run of zeros, even a single one, and for nothing else |
| `IPv6Printers.NumeralDigits` | net/address.cpp:559-566 | the characters of a number are its digits, 0 to 9 and a to f, in its base, decimal for the port and hexadecimal for groups |
| `IPv6Printers.NumeralLength` | net/address.cpp:559-566 | without leading zeros |
| `IPv6Printers.NumeralRoundTrip` | net/address.cpp:559-566 | and they sum up to the number, in every base |
| `IPv6Printers.JoinRoundTrip` | net/address.cpp:559 | groups joined by colons read back |

## Left out

- ByteArrays.ByteArray.Write: requires that `addTotalSize` does not add too few nodes (`GrowsEnough`), because the source would then follow a null pointer. `GetWriteBuffers`, `SocketStream.Read` and the writers of strings and lists require the same of their own writes.
- ByteArrays.ByteArray.Read: returns the bytes as a value instead of filling the caller's memory, and the writers take theirs as a value; aliasing of that memory with the buffer is not modelled.
- ByteArrays.ByteArray.ReadAt: needs a walk that stays inside the chain when the bound check passes; otherwise the source would follow a null pointer.
- ByteArrays.ByteArray.GetReadBuffersAt: needs a current position below the capacity, because the source reads the size of the cached node.
- ByteArrays.ByteArray.GetReadBuffers: stands for both uses of the buffers; `readF` and `writeF` on plain memory (util/stream.cpp:11-26 and 43-58) have the same loop and are not modelled again.
- Serializers.EncodeVarint: models the 32-bit and 64-bit encoders; the 16-bit one has the same body and no caller.
- `writeFloat`, `writeDouble` and their readers: the writers pass the numeric value instead of the copied bits, so no round trip holds.
- `writeToFile`, `readFromFile`, `toStringHex` and running out of memory or of 64-bit sizes.
- Streams.Socket.Scatter: recvmsg and sendmsg are the script of a socket; real sockets, timeouts of sockets and closing are not modelled.
- TimerSets.NoMissedWakeUp: takes setting the flag and sending the signal as one step, although the source sends it after releasing the lock.
- Timers.TimerManager.AddTimer: takes a callback that is not empty; an empty one would sit in the set without being alive. `addConditionTimer` appears in Hooks, as the test at the start of the timeout callback.
- EventTables.AddEventKeeps: looking up an entry and growing the table are one step, while the source checks the size and resizes under separate locks; descriptors are not negative, and the caller runs inside a scheduler.
- EventTables.DispatchKeeps: what epoll delivers is any mask; the kernel forgets no descriptor by itself, as `close` cancels its events first. The Windows branches are not modelled.
- `notify`, the pipe it writes to, and lost or spurious wake-ups of epoll_wait.
- SchedulerRuns.NoTaskStranded: assumes that nothing is submitted from outside once `stop` has been called, that callbacks do not throw (an exception escapes `run` through `Fiber::reset`), and that setting HOLD in a yield and the switch of stacks are one step.
- FiberExclusion.MutualExclusion: holds under the discipline stated there, which StepExclusiveExactly shows to be exact for the invariant.
- Schedulers.Scheduler.ScanTasks: the endless loop of `run` is not a method; its steps are those of SchedulerSteps.
- Fibers.Fiber.Visit: contexts and stacks are not modelled; a switch of stacks is a call that returns, and the main fiber is a fiber like any other.
- IOStopping.NothingLeftOver: counts timers and registrations; which worker adds or removes one is free, except that nothing comes from outside once `stop` has been called.
- `start`, thread creation and joining; the constructor's choice of the caller's thread is the initial state of SchedulerSteps.
- HookRuns.StepKeeps: one worker, on values: calls, fibers and the queue are maps and sequences rather than objects, and the local variables of `io` are the fields of a call. The timers and the event table are used by hooked calls alone, descriptors are registered by them alone, and no deadline wraps.
- The checks before the first attempt of a hooked call, the other hooked functions, and `Fd` objects: each is settled by reading one branch.
- FormatParsers.Parse: strings are sequences of characters; lengths beyond `int` are not modelled.
- The URI automaton, prefix masks, IPv4, configuration, logging, servers and thread wrappers.
