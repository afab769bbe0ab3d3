# Windgent, modelled and verified

This project models the parts of the Windgent C++ server framework in which correctness is hardest to
see, and proves what they promise:

- `ByteArray`, a serialisation buffer kept as a linked list of equal blocks, refines one flat byte
  sequence with a cursor, for every block size and every run of operations. On top of it, every list of
  typed records (fixed-width integers in either byte order, varints, zigzag integers, length-prefixed
  strings) that is written to a fresh buffer is read back the same.
- `Scheduler` and `Fiber`, as a transition system of any number of workers: the active count is exact,
  no unpinned task is left when all workers are gone, they decide to leave only when all is done and then
  all can, and whatever may be scheduled, the assertions in `reset`, `swapIn` and the yields of `Fiber` can
  fire if and only if some worker can take a fiber that another is not done with.
- `Timer` and `TimerManager`: the ordered set stays consistent, a sweep collects exactly what is due, no
  wakeup is lost between a poll and what follows it, every one-shot ends exactly one way.
- `IOManager`'s event table: it agrees with the kernel's interest set after every call, and every waiter
  accepted is registered, handed over or dropped, as often as it was accepted.
- The waiting protocol of the hooked calls (`do_io`): one way back for every waiting fiber, honest
  timeouts, and exactly the two steps by which a call can lose its timeout. It is refined by the event
  table and the timer set themselves, over every run of the three together.
- HTTP bodies: the chunk loop and the Content-Length assembly yield what the byte stream means, for every
  way the network splits it (sections 6.2 and 7.1 of RFC 9112).
- `LogFormatter::init`: the pattern scanner terminates, and scanning a printed list of entries gives the
  list back.

Code that changes objects step by step is modelled by classes and methods that do the same; each method is
proved against a function on values, and the lemmas are about those functions. Protocols between threads
are transition systems whose steps are the program's locked regions. Clocks, addresses, the host's byte
order, the answers of system calls and the splitting of streams are arguments.

## What the code does not do

Some of what one would expect is false of the code. The model keeps the code's behaviour and states when it
holds:

- The scatter lists add the rest of a block, not the offset in it, to the base address of every segment
  that runs to the end of its block (`windgent/bytearray.cc:569`, `604`, `633`): `Scatter.ListIsRightWhen`.
- `writeToFile` can write past a block (`windgent/bytearray.cc:429`): `Scatter.WriteToFile`.
- The `read` that takes a position starts in the cursor's block (`windgent/bytearray.cc:386-390`) and counts
  what is readable from the cursor (`windgent/bytearray.cc:382`), so that it can hand out bytes behind the data:
  `ByteArrays.ByteArray.ReadAtIsRight`.
- So does the scatter list that takes a position (`windgent/bytearray.cc:585`): `Scatter.GetReadBuffersAt`,
  `Scatter.ListIsDataWhen`.
- A fiber that schedules itself and yields can be taken before its worker has looked at it, and is then put
  back twice although nobody scheduled it while it was queued, until an assertion fires:
  `SchedulerRace.TakenTooEarlyIsRequeuedTwice`, `SchedulerRace.TakenTooEarlyAborts`. When exactly a fiber gets
  a second entry: `SchedulerRace.SecondEntryIff`. When exactly an assertion can fire:
  `SchedulerExact.AssertionFiresIff`.
- A worker's `cb_fiber` that was scheduled by hand as well can be run by somebody else while its worker counts
  on finding it INIT: `SchedulerDiscipline.CbFiberIsInitIff`.
- A poll of an empty timer set does not re-arm the wakeup (`windgent/timer.cc:118-121`):
  `TimerProofs.EmptyPollKeepsSilence`, `TimerProofs.SweptUnannounced`.
- Rollover detection misfires when the last sweep was in the clock's first hour: `TimerProofs.RolloverMeaning`.
- An error or a hangup on a descriptor with one of the two events registered trips an assertion
  (`windgent/iomanager.cc:341-374`): `EventProofs.HangupAborts`.
- A timer callback that runs before its fiber is registered, or whose `cancelEvent` fails in `epoll_ctl`,
  leaves the fiber waiting without a timeout (`windgent/hook.cc:116-134`, `windgent/iomanager.cc:204-210`):
  `IoWait.BecomesDeaf`, `IoWait.ADeafCall`.
- `readFixedSize` returns a length as an `int` (`windgent/stream.cc:16`), so that some bodies of 2 GiB and
  more are dropped although they arrived: `FixedBodies.RecvFixedBody`.
- A chunk size of 2^31 and more does not survive in `content_len`: `ChunkLines.ContentLenIsRight`.

## Model

| member | source | states |
|---|---|---|
| ByteArrays.GrowthIsLeast | windgent/bytearray.cc:454-470 | growth makes room for the bytes asked for, in whole blocks, and one block fewer would not do |
| ByteArrays.ByteArray.constructor | windgent/bytearray.cc:27-31 | a fresh buffer is one block, empty, cursor at 0 |
| ByteArrays.ByteArray.AddCapacity | windgent/bytearray.cc:454-483 | the contents so far are kept, the capacity is the least sufficient one, cursor and size stay, the cursor's block is right again even when it was null at full capacity |
| ByteArrays.ByteArray.Write | windgent/bytearray.cc:315-348 | replaces exactly the bytes from the cursor on, in the flat contents across blocks, and nothing else; the cursor ends behind them and the size is their maximum |
| ByteArrays.ByteArray.Read | windgent/bytearray.cc:350-379 | yields exactly the next n bytes of the flat contents and moves the cursor, or refuses exactly when fewer are readable and changes nothing |
| ByteArrays.ByteArray.ReadAt | windgent/bytearray.cc:381-411 | yields the n bytes from the place the code starts at, refusing exactly when fewer than n are readable behind the cursor |
| ByteArrays.ByteArray.ReadAtIsRight | windgent/bytearray.cc:381-411 | what it hands out is the n data bytes at the position, whatever the blocks hold, if and only if n is 0, or the position lies in the cursor's block and n bytes are readable from it on |
| ByteArrays.ByteArray.ToString | windgent/bytearray.cc:516-524 | the readable bytes, cursor unmoved |
| ByteArrays.ByteArray.SetPosition | windgent/bytearray.cc:498-514 | succeeds exactly up to the capacity, finds the block of the new position (null exactly at full capacity) and extends the size when moved past it |
| ByteArrays.ByteArray.Clear | windgent/bytearray.cc:485-496 | one block, empty; that block's bytes are what they were |
| FlatBuffers.Perform | windgent/bytearray.cc:315-379 | one operation on the block list does to its flat form, and returns, what the flat form says |
| FlatBuffers.Run | windgent/bytearray.cc:315-514 | for every block size and every run of write, read, setPosition, addCapacity and clear, the outcomes are those of one flat byte sequence |
| Scatter.SegmentsShape | windgent/bytearray.cc:551-643 | the segment lengths are positive, at most a block, and sum to the request |
| Scatter.ListIsRightWhen | windgent/bytearray.cc:562-577 | the segments are the bytes meant if and only if the request fits the first block, or ends in the second with the first exactly half used |
| Scatter.ListInBoundsWhen | windgent/bytearray.cc:562-577 | the segments stay inside their blocks if and only if the request fits the first block, or ends in the second with the first at least half used |
| Scatter.ListInDataWhen | windgent/bytearray.cc:589-612 | the list for a position ends within the data if and only if the bytes asked for do |
| Scatter.ListIsDataWhen | windgent/bytearray.cc:589-612 | the list names the data bytes at the position if and only if its bases are right, as above, and the bytes end within the data |
| Scatter.GetReadBuffers | windgent/bytearray.cc:551-580 | consecutive blocks from the cursor's, for the clamped length; the list always ends within the data |
| Scatter.GetReadBuffersAt | windgent/bytearray.cc:581-614 | consecutive blocks from the given position's, for the length cut to what is readable from the cursor; the list ends within the data if and only if the position plus that length does |
| Scatter.GetWriteBuffers | windgent/bytearray.cc:616-643 | grows by the least capacity, keeps contents and cursor, lists consecutive blocks from the cursor's |
| Scatter.WriteToFile | windgent/bytearray.cc:413-436 | every piece stays inside its block exactly when the cursor is not inside a block with at most a block but more than its rest to read; then the file is exactly the readable bytes |
| Zigzag.EncodeMeaning | windgent/bytearray.cc:105-119 | the wrapping arithmetic encoder maps v to 2v or -2v-1, the minimum value included |
| Zigzag.DecodeMeaning | windgent/bytearray.cc:121-127 | the shift-and-xor decoder maps back, and its result fits the signed width |
| Zigzag.DecodeEncode | windgent/bytearray.cc:105-127 | decoding undoes encoding over the whole signed range |
| Zigzag.EncodeDecode | windgent/bytearray.cc:105-127 | encoding undoes decoding over the whole unsigned range |
| Zigzag.SmallStaysSmall | windgent/bytearray.cc:105-127 | a value fits a signed integer of m bits if and only if it encodes below 2^m |
| Varint.ReadsBack | windgent/bytearray.cc:134-160 | the reader's loop returns the value written and uses exactly the bytes written, whatever follows |
| Varint.LengthIsLeast | windgent/bytearray.cc:134-145 | a value takes at most k bytes if and only if it is below 2^(7k) |
| Varint.FitsBuffer | windgent/bytearray.cc:134-160 | at most 5 bytes for 32 bits and 10 for 64, so the writers' arrays are never overrun |
| Varint.ZigzagLength | windgent/bytearray.cc:105-160 | a signed value takes at most k bytes if and only if it fits a signed integer of 7k bits |
| Endians.LoadLayout | windgent/endian.h:15-35 | loading in a byte order undoes laying out in it |
| Endians.SwapReversesLayout | windgent/endian.h:15-28 | byteswap turns each layout into the other |
| Endians.SwapInvolution | windgent/endian.h:15-28 | byteswap undoes itself |
| Endians.SwapWhenOrdersDiffer | windgent/bytearray.cc:42-90 | swapping exactly when host order and wanted order differ lays the value out in the wanted order |
| Endians.NetworkOrder | windgent/endian.h:37-62 | byteswapOnLittleEndian puts the value in network order on every host, byteswapOnBigEndian in the other |
| Records.RoundTrip | windgent/bytearray.cc:42-312 | for every record format, decoding what was encoded gives the item and uses exactly its bytes, whatever follows |
| RecordBytes.FixedBytes | windgent/bytearray.cc:42-90 | each byte of a fixed-width number is the base-256 digit of that place, in two's complement, the low one first or last as the order says |
| RecordBytes.VarintBytes | windgent/bytearray.cc:134-160 | each byte of a varint is the base-128 digit of that place, low one first, with 128 added to all but the last |
| RecordBytes.PackedBytes | windgent/bytearray.cc:105-160 | a signed packed number v is the varint of 2v or -2v-1, an unsigned one that of itself |
| RecordBytes.TextBytes | windgent/bytearray.cc:162-181 | a string is its length, as a fixed-width number or a varint, and then its characters |
| Serializer.WriteFixed | windgent/bytearray.cc:42-90 | the bytes written are the value in the buffer's byte order, whatever the host's |
| Serializer.PackVarint | windgent/bytearray.cc:134-160 | the loop fills the array with exactly the encoding |
| Serializer.WriteVarint | windgent/bytearray.cc:134-160 | the encoding is written at the cursor and nothing else changes |
| Serializer.WriteString | windgent/bytearray.cc:162-181 | the length prefix and then the characters are written at the cursor and nothing else changes |
| Serializer.ReadFixed | windgent/bytearray.cc:187-230 | the number in the buffer's byte order, or out of range |
| Serializer.ReadVarint | windgent/bytearray.cc:282-312 | the or-and-shift loop computes the sum of the groups, cut to the word, and uses exactly their bytes |
| Serializer.ReadString | windgent/bytearray.cc:246-276 | the characters the prefix announces, or out of range |
| Serializer.Transfer | windgent/bytearray.cc:42-312 | for every list of records, block size, buffer order and host order: written to a fresh buffer and read from 0 with the matching readers, the list comes back and nothing is left |
| Scheduler.ScanQueue | windgent/scheduler.cc:143-170 | what is taken is unpinned or pinned to this worker and not of a running fiber; every entry passed over is pinned to another or of a running fiber; the others stay in order; others are woken exactly when an entry pinned elsewhere was passed or entries are left behind |
| SchedulerPins.ScanTakesFirst | windgent/scheduler.cc:143-170 | a scan takes the first entry that is unpinned or the worker's own and not of a running fiber, and nothing if there is none |
| SchedulerPins.PinnedWaits | windgent/scheduler.cc:150-154 | over every run in which a worker does not scan, every entry pinned to it stays queued: only the worker it is pinned to ever takes one |
| SchedulerDrain.ActiveCountIsRight | windgent/scheduler.cc:162-212 | in every reachable state the active count is the number of workers between dequeue and the matching decrement |
| SchedulerDrain.DrainOnStop | windgent/scheduler.cc:79-244 | in every interleaving, once all workers have left, every task still queued is pinned |
| SchedulerStop.StopDecisions | windgent/scheduler.cc:236-244 | in every reachable state an idle fiber that looks whether to stop ends if and only if stop() was called, nothing is queued, no worker is between dequeue and decrement and nothing else keeps it; so does the caller's thread, which otherwise goes to work |
| SchedulerStop.LeavesOnlyWhenDone | windgent/scheduler.cc:210-226 | no other step ends an idle fiber, and only a worker whose idle fiber has ended, or the caller's thread when all is done, leaves |
| SchedulerStop.StopCanEnd | windgent/scheduler.cc:79-244 | from every reachable state with stop() called, nothing queued and nobody at work, the workers' own steps can take all of them out, whatever they are still to put back |
| SchedulerStop.StopMustEnd | windgent/scheduler.cc:79-244 | if moreover nobody has a fiber left to look at, every run of their own steps is over after at most seven steps a worker, and over exactly when all have left |
| SchedulerStop.CallingStop | windgent/scheduler.cc:79-118 | stop(), called when nothing is queued and nobody is at work, can end the whole scheduler |
| SchedulerStop.NoDeadlock | windgent/scheduler.cc:132-226 | in every reachable state each worker that has begun and not left can go on |
| SchedulerStop.TaskRuns | windgent/scheduler.cc:143-205 | what is scheduled before stop() and taken is run: a fiber goes on, a callback gets the worker's cb_fiber |
| SchedulerStop.MayPush | windgent/scheduler.h:78-86 | a fiber, or an idle fiber that is not to stop, may schedule anything that exists at any time; it goes behind what is queued |
| SchedulerExact.CarelessAborts | windgent/scheduler.cc:143-208 | from every legal state, a scan that is not careful (it takes a fiber another worker uses and that is alive or about to be reset, or a callback while the worker's cb_fiber is in use or not resettable) is followed, in some run of the workers' own steps alone, by an assertion that fires |
| SchedulerExact.AssertionFiresIff | windgent/fiber.cc:90-178 | for every policy of what may be scheduled, some run trips an assertion of reset, swapIn, YieldToReady or YieldToHold if and only if some run in which every scan so far was careful meets a scan that is not |
| SchedulerExact.HoldTripsYield | windgent/fiber.cc:163-178 | a worker back from a fiber that another is running makes it HOLD, so that its next YieldToReady or YieldToHold trips the assertion |
| SchedulerLegality.ReadyIsRequeuedOnce | windgent/scheduler.cc:182-208 | in careful runs a fiber is put back exactly when it yielded READY, once and unpinned |
| SchedulerLegality.SettleMeans | windgent/scheduler.cc:182-208 | in any state a fiber found READY is put back, one that ended is reset if it is the worker's cb_fiber, any other is HOLD; the cb_fiber is kept exactly if it ended |
| SchedulerDiscipline.CbFiberIsInitIff | windgent/scheduler.cc:188-208 | for every policy, in careful runs a cb_fiber that its worker is not running can be other than INIT if and only if some scan takes an entry of a cb_fiber |
| SchedulerDiscipline.DisciplinedRunsAreLegal | windgent/scheduler.h:78-86 | if whoever schedules a fiber sees that it is neither queued nor held, no assertion fires, cb_fiber is INIT between callbacks and every fiber has at most one place: one queue entry or one worker that holds it |
| SchedulerRace.SecondEntryIff | windgent/scheduler.cc:177-200 | if whoever schedules a fiber sees only that it is not queued, a step gives a fiber a second entry if and only if a worker, back from it, finds it READY while it is queued |
| SchedulerRace.TakenTooEarlyIsRequeuedTwice | windgent/scheduler.cc:177-187 | a run of two workers and such schedulers in which the only entries made are one by the fiber itself, one by the second worker and one by the first, no fiber has two entries before the last step, and the fiber has two after it |
| SchedulerRace.TakenTooEarlyAborts | windgent/fiber.cc:126-134 | such a run goes on, by the workers' own steps alone, until an assertion fires |
| TimerSets.ApplyKeeps | windgent/timer.cc:15-178 | every operation keeps the set ordered and holding exactly the timers that have a callback, under their present deadlines |
| TimerSets.CancelKeeps | windgent/timer.cc:15-24 | cancel never erases the end of the set |
| TimerSets.SweepIsExact | windgent/timer.cc:140-178 | exactly the timers due (all after a rollover) are collected; each is re-armed one period from now or retired; no other timer changes |
| TimerSets.SweepIsOrdered | windgent/timer.cc:6-13 | they are collected by deadline, then address |
| TimerMeaning.CancelMeans | windgent/timer.cc:15-24 | cancel works exactly on a pending timer, which is then not pending; no other timer is touched |
| TimerMeaning.RefreshMeans | windgent/timer.cc:26-40 | refresh works exactly on a pending timer, which then runs since now with the same period; nobody is woken; no other timer is touched |
| TimerMeaning.ResetMeans | windgent/timer.cc:42-67 | reset works on a pending timer or when there is nothing to change; the new period runs since now, or since the old one did; callback and recurrence stay |
| TimerMeaning.ResetWakes | windgent/timer.cc:42-67 | it wakes the poller if and only if the new deadline comes before every other pending one and nobody woke it since its last poll |
| TimerMeaning.SweepMeans | windgent/timer.cc:140-178 | exactly the due timers fire (all after a rollover); a recurring one is pending again since now with its period and callback, a one-shot is not; the clock's reading is kept unless the set was empty; nobody is woken |
| TimerMeaning.AddMeans | windgent/timer.cc:82-102 | a new timer runs since now, with the callback and the recurrence asked for; the poller is woken if and only if its deadline comes before every pending one and nobody woke it since its last poll |
| TimerMeaning.PollMeans | windgent/timer.cc:116-129 | the answer is that nothing is pending, that something is due, or the time to the earliest pending deadline, each exactly when it is so |
| TimerProofs.NoLostWakeup | windgent/timer.cc:26-129 | over every run with a clock that never goes back: after a poll that saw front deadline d, either a wakeup was issued or nothing pending is due before d |
| TimerProofs.EmptyPollKeepsSilence | windgent/timer.cc:116-121 | after a poll of an empty set the next timer wakes the poller if and only if the flag was already clear |
| TimerProofs.SweptUnannounced | windgent/timer.cc:82-95 | it need not be clear: a timer added to an empty set and swept leaves the set empty and the flag set |
| TimerProofs.RolloverMeaning | windgent/timer.cc:131-138 | detection agrees with "fell back more than an hour" if and only if the last sweep was after the clock's first hour or the clock did not fall back |
| TimerProofs.NothingAfterTheEnd | windgent/timer.cc:15-24 | after a successful cancel, or after a one-shot fired, a timer is never collected or cancelled again |
| TimerProofs.TimerFate | windgent/timer.cc:15-178 | over every run a one-shot is pending, fired once or cancelled once, exactly one of the three; a recurring timer is pending until cancelled |
| TimerProofs.AddedTimerFate | windgent/timer.cc:69-178 | over every run with an addTimer among its calls: added as a one-shot, the timer is pending, fired once or cancelled once, exactly one of the three; added as recurring, it is pending until cancelled; every sweep that collects it yields the callback it was added with |
| Timers.Timer.Cancel | windgent/timer.cc:15-24 | the in-place version: a pending timer leaves the set and loses its callback, any other call changes nothing; never erases the end of the set; all other timers keep their fields |
| Timers.Timer.Refresh | windgent/timer.cc:26-40 | the in-place version: a pending timer is found under its present deadline, taken out and put back one period from now; otherwise nothing changes |
| Timers.Timer.Reset | windgent/timer.cc:42-67 | the in-place version: a pending timer is put back with the new period, counted from now or from its old start, and announced if it comes first |
| Timers.TimerManager.AddTimer | windgent/timer.cc:82-102 | the in-place version: a new timer joins the set in its place; a wakeup is issued exactly when it comes first and none was issued since the last poll |
| Timers.TimerManager.GetTimeOfNextTimer | windgent/timer.cc:116-129 | the time to the front deadline, 0 if it has passed; re-arms the wakeup unless the set is empty |
| Timers.TimerManager.ListExpired | windgent/timer.cc:140-178 | the callbacks of exactly the due timers in order, whatever the probe's address; the fields become what the specification says |
| EventProofs.GrowthIndex | windgent/iomanager.cc:53-61 | the table becomes one and a half times the descriptor long, rounded down, which makes the descriptor a valid index if and only if it is at least 2 |
| EventProofs.AddAgrees | windgent/iomanager.cc:95-145 | addEvent keeps the agreement of table, kernel and count; it is refused exactly on a fault of epoll_ctl and trips an assertion exactly when the event is registered already |
| EventProofs.DelAgrees | windgent/iomanager.cc:147-182 | delEvent succeeds exactly when the event is registered and epoll_ctl is not at fault; refused it changes nothing; agreement kept |
| EventProofs.CancelAgrees | windgent/iomanager.cc:184-215 | cancelEvent succeeds exactly when the event is registered and epoll_ctl is not at fault; refused it changes nothing; agreement kept |
| EventProofs.CancelAllAgrees | windgent/iomanager.cc:217-254 | cancelAll succeeds exactly when anything is registered and epoll_ctl is not at fault; afterwards nothing is; refused it changes nothing; agreement kept |
| EventProofs.TriggerEmpties | windgent/iomanager.cc:80-93 | a trigger leaves its slot empty |
| EventProofs.DispatchAgrees | windgent/iomanager.cc:339-376 | dispatch keeps agreement, removes exactly the ready events, and trips an assertion exactly when some of what is taken for ready is registered and some is not |
| EventProofs.HangupAborts | windgent/iomanager.cc:341-374 | when the kernel reports only what it was asked for, that is exactly an error or hangup with one of the two events registered |
| EventMeaning.CallMeans | windgent/iomanager.cc:95-376 | every call adds or removes exactly the events it names, on its descriptor only; every other descriptor keeps its contexts and its kernel mask |
| EventMeaning.CancelMeans | windgent/iomanager.cc:184-215 | exactly the waiter of that event is handed over |
| EventMeaning.CancelAllMeans | windgent/iomanager.cc:217-254 | exactly the waiters registered are handed over, reader first |
| EventMeaning.ReadyMeans | windgent/iomanager.cc:339-376 | exactly the waiters of the ready events are handed over, reader first, and the other event stays registered |
| EventMeaning.ReportMeans | windgent/iomanager.cc:341-374 | when the kernel reports input or output, and only what it was asked for, the call succeeds if and only if anything is reported; the reader goes exactly on input, the writer exactly on output, and exactly those are handed over, reader first |
| EventMeaning.ErrorMeans | windgent/iomanager.cc:341-374 | on an error or hangup both waiters are handed over if both events are registered, and nobody if neither is |
| EventProofs.WaiterConservation | windgent/iomanager.cc:80-253 | over every run: as often as a waiter was accepted, it is still registered, was handed to the scheduler it came with, or was dropped by delEvent |
| EventTable.FdContext.Trigger | windgent/iomanager.cc:80-93 | the waiter is swapped out and handed to its scheduler, the callback before the fiber; fails exactly when the event is not registered |
| EventTable.IOManager.ContextResize | windgent/iomanager.cc:53-61 | old contexts stay, new places get blank ones |
| EventTable.IOManager.AddEvent | windgent/iomanager.cc:95-145 | the in-place version, outcome and state: grows the table if need be, tells the kernel, and stores the waiter and its scheduler in the empty slot |
| EventTable.IOManager.DelEvent | windgent/iomanager.cc:147-182 | the in-place version, outcome and state: tells the kernel, empties the slot, hands nobody over |
| EventTable.IOManager.CancelEvent | windgent/iomanager.cc:184-215 | the in-place version, outcome and state: tells the kernel, then hands the waiter over and empties its slot |
| EventTable.IOManager.CancelAll | windgent/iomanager.cc:217-254 | the in-place version, outcome and state: takes the descriptor from the kernel, then hands over reader and writer |
| EventTable.IOManager.Dispatch | windgent/iomanager.cc:339-376 | the in-place version: widens errors and hangups, leaves the rest to the kernel, hands over those ready; aborts exactly when the value does |
| IoWait.OneWayBack | windgent/hook.cc:108-165 | in every interleaving of calls, readiness, timers and callbacks, a waiting fiber is either registered or queued, exactly once, and any other is neither |
| IoWait.TimedOutHonestly | windgent/hook.cc:155-159 | with a clock that never goes back, ETIMEDOUT is returned only when a timer of that call has run, at least the whole timeout after the call began |
| IoWait.Outcome | windgent/hook.cc:108-170 | in every reachable state: a call returns the system call's result if and only if the attempt completed, fails if and only if its addEvent is refused, and when it looks is timed out if and only if one of its timers has run, trying again otherwise |
| IoWait.ResultIs | windgent/hook.cc:108-170 | over every run: a call has returned exactly if its last own step was an attempt that completed, has failed exactly if that was a refused addEvent, and is timed out only if it was the look |
| IoWait.NeverStuck | windgent/hook.cc:108-165 | in every reachable state an unfinished call can take a step, unless another fiber holds the event when it wants to register, or it is parked and registered |
| IoWait.TimeoutCanEnd | windgent/hook.cc:116-165 | from every reachable state a call that waits with a timeout and is not marked can still end with ETIMEDOUT, whatever other calls do |
| IoWait.TimeoutStillAhead | windgent/hook.cc:116-134 | a call that waits with a timeout and is not marked as timed out still has its callback to come |
| IoWait.FinishedForGood | windgent/timer.cc:104-109 | consequence of the weak condition being dead once its call has returned: a callback that starts afterwards changes no other call, the slot or the queue, and nothing changes the result |
| IoWait.ResultStands | windgent/hook.cc:108-170 | so over any later run the call's result stands |
| IoWait.TimeoutWakes | windgent/hook.cc:119-131 | a callback that runs while the fiber is registered wakes it if and only if the call is not marked yet and epoll_ctl does not fail |
| IoWait.BecomesDeaf | windgent/hook.cc:116-146 | a call comes to wait without a timeout by two steps exactly: registering although it is already marked, or a callback of its own that marks it while registered and whose cancelEvent fails |
| IoWait.StaysDeaf | windgent/hook.cc:119-131 | and then its own timers never wake it |
| IoWait.ADeafCall | windgent/hook.cc:116-151 | a run in which that happens at the first park |
| IoWaitLinks.RegisterIsAddEvent | windgent/iomanager.cc:95-145 | on the event table, registering is an addEvent that trips an assertion exactly when a fiber is registered already, is refused exactly on a fault, and leaves the slot as the protocol says |
| IoWaitLinks.CallbackIsCancelEvent | windgent/iomanager.cc:184-215 | a callback that acts is a cancelEvent: the waiter the table hands over is the one the queue gains |
| IoWaitLinks.OthersAreWake | windgent/iomanager.cc:184-376 | any other call of the table is a wakeup of the slot's fiber, handed over, if it takes the event away, and nothing otherwise |
| IoWaitLinks.StartTimerIsAdd | windgent/timer.cc:82-114 | starting the timer is an addTimer at a new address, due when the protocol says |
| IoWaitLinks.DropIsCancel | windgent/hook.cc:140-154 | dropping it is cancel, on the set as in the protocol |
| IoWaitLinks.SweepLinked | windgent/timer.cc:140-178 | a sweep of the set collects exactly the calls' timers that are due |
| IoWaitLinks.RunIsSteps | windgent/hook.cc:108-165 | over every run of calls, sweeps and other people's calls the real table and timers stay linked to the protocol (slot with context, queue with those handed over and not resumed, timers with the set), and the protocol's part of it is a run of the protocol, sweeps being runs of expiries |
| IoWaitLinks.OneWayBackInTable | windgent/hook.cc:108-165 | over every such run a waiting fiber is the waiter in the event's context, or the table handed it over once more than it was resumed, one of the two; any other fiber is not in the context and was resumed as often as it was handed over |
| Sockets.ReadFixedSize | windgent/stream.cc:5-17 | the buffer gets exactly the next length bytes of the stream for every split, or 0 is returned when it ends too soon |
| FixedBodies.RecvFixedBody | windgent/http/http_session.cc:39-60 | the body is the first Content-Length bytes of leftover and stream for every split, none when the stream ends too soon or the rest's length is not positive as an int |
| ChunkLines.ContentLenIsRight | windgent/http/httpclient_parser.rl:95-105 | content_len is the chunk's size if and only if the size is below 2^31 |
| ChunkLines.ContentLenOtherwise | windgent/http/httpclient_parser.rl:95-105 | other sizes leave their low 32 bits as a signed number, and -1 beyond the largest long |
| ChunkLines.LineOfPrefix | windgent/http/httpclient_parser.rl:150-156 | a buffer that holds a chunk line is read as the whole stream would be |
| ChunkGrammar.GrammarIsAccepted | windgent/http/httpclient_parser.rl:119-156 | every line of digits, extensions and a line end is accepted, with the size its digits say |
| ChunkGrammar.SpelledIsAccepted | windgent/http/httpclient_parser.rl:95-156 | the size is the number its digits spell in base 16, each in upper or lower case |
| ChunkGrammar.TokenIs | windgent/http/httpclient_parser.rl:121-126 | the token characters are the tchar of section 5.6.2 of RFC 9110 |
| ChunkGrammar.AcceptedIsGrammar | windgent/http/httpclient_parser.rl:119-156 | every line accepted is of that form |
| ChunkLines.ChunkParser.Execute | windgent/http/http_parser.cc:211-218 | starting afresh, takes exactly the chunk line and records its size, or what stands in front of the byte refused, and moves the rest to the front |
| Chunked.ReadLine | windgent/http/http_connection.cc:175-197 | the inner loop ends with exactly the line consumed, or fails exactly when no chunk line stands there |
| Chunked.TakePayload | windgent/http/http_connection.cc:200-220 | exactly the payload and the two bytes behind it are consumed, wherever the split falls in them |
| Chunked.RecvChunks | windgent/http/http_connection.cc:172-222 | for every split that cuts no chunk line, the result is what the stream means, failures included |
| ChunkEncoding.DecodeEncode | windgent/http/http_connection.cc:172-222 | decoding a list of chunks gives the concatenated payloads, whatever follows |
| ChunkEncoding.EncodeIsRegular | windgent/http/http_connection.cc:172-222 | such a stream meets the loop's precondition if no read ends inside a chunk line |
| ChunkEncoding.HexLine | windgent/http/httpclient_parser.rl:150-156 | the plain line of a size is read as that size, for any spelling of its digits in upper and lower case |
| ChunkEncoding.HexIs | windgent/http/httpclient_parser.rl:150-156 | the bytes taken for digits are exactly those that spell one of the sixteen |
| ChunkEncoding.RecvEncoded | windgent/http/http_connection.cc:172-222 | for every list of chunks and every such split the loop yields the payloads |
| LogPatterns.ScanDirective | windgent/log.cc:441-476 | the inner loop finds the name, the format and the end of a directive, or that its format is left open |
| LogPatterns.Scan | windgent/log.cc:428-495 | the scan of every pattern ends, with the entries and the error its meaning says |
| LogPatterns.Init | windgent/log.cc:423-528 | the error flag is set exactly for an open format or a directive without an output class |
| LogPatterns.OneLetter | windgent/log.cc:499-525 | for every letter c the pattern "%c" is the directive c, and twelve letters have an output class |
| LogPatterns.PrintThenScan | windgent/log.cc:423-495 | printing a list of entries and scanning it gives the list back, without an error, if and only if it is normal: no text is empty, behind another text, or has a percent sign not at its end or not before a directive; names and formats are ones that can be read; what stands behind a directive without a format does not run on from it |
| LogPatterns.OpenFormat | windgent/log.cc:441-476 | a directive is left open if and only if a brace follows its name and no closing brace follows that |
| LogPatterns.OpenIsError | windgent/log.cc:484-488 | an open format is an error: an entry says so, and the scan goes on behind the percent sign with the text collected so far |

## Left out

- Machine sizes of positions and lengths in `ByteArray`: naturals here, `size_t` there. The capacity formula's ceiling is exact integer arithmetic here and a `double` there.
- Freeing memory (`clear`, destructors), float and double records, `readFromFile`, `toHexString`.
- `ByteArrays.ByteArray.Read`: a zero-length read at full capacity dereferences a null block in the code, so there must be a block under the cursor.
- `Scatter.GetReadBuffers`: so does asking for a list of bytes at full capacity.
- `Scatter.GetReadBuffersAt`: the bytes listed must lie within the capacity; the code walks off the last block otherwise.
- `ByteArrays.ByteArray.ReadAt`: it must not run past the last block from where it starts.
- `Serializer.Transfer`: an empty string that comes last must not fill the blocks to the brim, because reading it is such a zero-length read.
- `SchedulerDrain.DrainOnStop`: a pinned task may be stranded, as in the code; a task is only known to be unpinned or pinned by its entry.
- `SchedulerExact.AssertionFiresIff`: a policy restricts what is scheduled, not the order of the workers' steps; fairness and priorities of threads are not modelled.
- Setting a fiber's state and switching away are one step; context switches, stacks, locks and the memory model are not modelled, nor are `switchTo` and `call`.
- The rest of `IOManager::idle` around the dispatch loop: what else keeps an `IOManager` from stopping, and what its idle fiber schedules, are arbitrary in the scheduler's steps. Two threads growing the table at once.
- The kernel's interest set changes by `epoll_ctl` only: a descriptor closed without `cancelAll` before is not modelled.
- `EventTable.IOManager.Dispatch`: when an assertion fails nothing is said about the fields, because the process ends.
- Timer addresses are never reused while the manager lives, callbacks given to `addTimer` are not empty, and deadlines do not wrap around 64 bits.
- `TimerProofs.NoLostWakeup`: relative to polls of a non-empty set, for the reason given above.
- `IoWait.OneWayBack`: calls that wait for one event of one descriptor; a foreign `delEvent` would leave a fiber waiting for good and is not among the steps.
- `IoWaitLinks.OneWayBackInTable`: the scheduler is taken to add no second entry for a waiting fiber and to resume one only after it has yielded, so the race of `SchedulerRace.TakenTooEarlyIsRequeuedTwice` is not part of it. Calls stand for the fibers that make them; other fibers have other numbers.
- `IoWait.FinishedForGood`: a timer callback is one step, the owners of the weak condition are not modelled one by one; a callback that was already past its test when the call returned would cancel the event of whoever is registered then, which for that call is a `Wake`.
- The early exits of `do_io` before the retry loop, and the other hooked calls.
- `Sockets.ReadFixedSize`: reads never fail with a negative count, which the code would store unsigned.
- `FixedBodies.RecvFixedBody`: the leftover must not exceed Content-Length; the code's subtraction wraps otherwise.
- `Chunked.RecvChunks`: no read ends inside a chunk line, chunk sizes are at most 2^31 - 3, no read fills the buffer to the last byte, and no status line stands in place of a chunk line; the callbacks for chunk extensions and trailers are not modelled.
- The HTTP grammars other than the chunk line, and the loops that read the header.
- `LogPatterns.PrintThenScan`: entries are printed as they are: "%%" is not a way to print a percent sign, because the scanner looks at the second one again; the formatter's output is not modelled.
- Sockets, addresses, configuration, servlets, connection pools and appenders: plumbing, or only easy members.
