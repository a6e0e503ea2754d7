# FreeRTOS kernel services of the hbird SDK, modelled and proved in Dafny

This project models the services that FreeRTOS V10.3.1 builds on top of its task scheduler, as they
are shipped in the SDK, and the fixed-point kernel of its neural-network library:

- **Software timers** (`Ticks`, `SortedLists`, `Timer*`). The daemon sees a wrapping tick counter, two
  sorted lists and a command queue. `TimerModel` says in unbounded true time what it should do;
  `TimerDaemon` is the daemon on ticks, proved to do exactly that; `TimerSwitch`, `TimerDrift`,
  `TimerCommands`, `TimerStops`, `TimerRequests`, `TimerResets` and `TimerLoop` say what it means for callbacks,
  commands and pended calls, over whole runs.
- **Intrusive lists** (`IntrusiveLists`): the doubly linked ring on the heap under everything else.
- **Queues** (`Queue*`, `RecursiveMutexes`): a ring of bytes that refines a deque, and the lock counts
  that defer wake-ups while interrupts use a locked queue, over all interleavings of tasks and
  interrupts.
- **Stream and message buffers** (`Stream*`, `Message*`): one writer and one reader racing on a ring of bytes,
  and length-prefixed messages in it.
- **Co-routines** (`CoRoutine*`, `ReadyLists`): delays across tick wraps, events and time-outs that race.
- **Event groups** (`Event*`): any/all waits with clear-on-exit, and the rendezvous.
- **Requantization** (`Requantize`): a rounding multiply and a rounding shift with an error bound.

Code that updates state in place is a class whose methods are proved against functions on values; what
the services promise is proved about those functions, step by step and then over every run. Interrupts
and preemption are steps of a state machine at the granularity of the critical sections in the source
(single bytes in the stream buffer).

The tick counter has an arbitrary modulus M (the port uses 16 or 64 bits). Where the behaviour depends
on C types, they are written out: signed-byte lock counts, 32-bit conversions, truncating division, 64-bit
event bits, a 4-byte length field.

## Main results

- Timers: `StartedTimerKeepsTime`, `OneShotFiresOnce`, `StoppedStaysStopped`, `StopIsFinalExactly`,
  `ResetIsFinalExactly` and `PendedCallsRunOnce` over whole runs; `SwitchIsExact` for
  the wrap; `WrapExact`, `RightExactlyWhenInTime` and `WaitTicksRight` for the arithmetic of ticks; the methods of
  `Daemon` for the code.
- Lists: `List.Insert`, `List.InsertEnd` and `List.Remove`, with `RotationInsertEnd`, `RotationDelete` and
  `RoundVisitsAll` for the rotation.
- Queues: `NoLostWakeup`, `WaitersAreListed`, `NoItemLost` and `FirstInFirstOut` over every interleaving; the methods of `Queue` against a deque; `ExclusiveAndBalanced`.
- Stream and message buffers: `StreamIsFaithful` and `MessagesSurviveTheRace` over every interleaving of single
  byte copies; `MessagesArriveWhole`; `RollbackOverwrites`; `Exchange` and `ExchangeMessages` for any calls on the object.
- Co-routines: `DelayWakesAtItsTick`, `AlwaysInOnePlace`, `RunsTheHighest`, `EqualShare`, `EventWakesHighest`,
  `StaysOnItsList`, `ScheduleWakes`.
- Event groups: `NoneLeftBehind`, `SetReleases`, `OrderDoesNotMatter`, `SyncCompletes`; `WaitReturns` and `SyncReturns` bit by bit.
- Requantization: `MultiplyIsVQRDMULH`, `DivideRoundsAway`, `RequantizeError`, `RequantizeMonotone`.

## What was found

- A stop does not always stop: a restart that the daemon has already queued behind it revives the timer
  (`FiresAfterStop`, with `ReachesListed` and `RestartIsQueued` for how the restart comes there; exact condition in
  `StopIsFinalExactly` for a running timer, from the request on, and in `StoppedStaysStopped` for any).
- A reset is undone in the same way: the restart behind it takes the timer off the times it was reset to
  (`FiresBeforeReset`; exact condition over every run in `OnTimeExactly`, and read off the queue in
  `ResetIsFinalExactly` and `ResetHoldsExactly`).
- A one-shot timer that has fired stays marked active on two of three paths (`LateOneShotStaysActive`; exact condition
  in `FiredIsMarkedInactive`).
- Resetting a queue wakes one waiting sender only, as the comment there says it should (queue.c:270-283),
  although all slots become free: a second sender can then wait for ever beside a free slot
  (`ResetLosesAWakeup`; exact condition in `ResetKeepsExactly` and `QuietResetKeepsExactly`).
- A lock count wraps at its 128th interrupt operation and the wake-ups counted are lost (`LockOverflowLosesWakeups`;
  exact condition in `LockCountLimit`).
- A start command taken M ticks late or later can be misjudged (`LateCommandIsMisjudged`; exact condition in
  `RightExactlyWhenInTime`).
- Overwriting a full queue whose items have size 0 pushes the count past the length (`OverfullQueue`; exact condition
  in `CopyDataToQueue`).
- A blocking send to a message buffer can be refused although there is room, because the space is not looked at again
  after the last wait (`MissedSpace`; exact condition in `WaitingMissesOnlyLastWait`).
- The assertion that a short message buffer is empty fails while a send has published just its length
  (`BareLengthIsShort`; exact condition in `ShortIsEmpty`).
- The tail that a refused receive moves and puts back is visible to a writer in between (`RollbackExample`;
  exact condition in `RollbackOverwrites`, `AcceptedDuringRollback` and `WriteDuringRefusal`).
- The comment on `vListInsertEnd` (include/list.h:372-390) says that every other item is returned before the new one;
  the item the list index stands on is returned after it (`NotLastInRotation`, and `RotationInsertEnd` for all lists).
- The doubling multiply is the documented instruction only where `long` has 32 bits (`LongWidthExample`; exact condition
  in `LongWidthMatters`). The comment on `riscv_nn_requantize` omits the factor 2^31, and that on the divide allows
  exponent 31, for which `1l << exponent` is not defined with a 32-bit `long`.

## Model

| member | source | states |
|---|---|---|
| `TimerCommands.StartedTimerKeepsTime` | hbird-sdk/OS/FreeRTOS/Source/timers.c:734-879 | an auto-reload timer, running or not, is started or reset for `t0` with no other command of its own queued behind: from the moment the command is taken, over every run without further commands for it, it fires for exactly `t0 + p`, `t0 + 2p`, … without gap or repeat, none before its instant, and when the daemon is about to block nothing due is missing |
| `TimerCommands.StartTakenArms` | hbird-sdk/OS/FreeRTOS/Source/timers.c:795-824 | taking a start command puts an auto-reload timer on the ladder of the time the command carries, whatever it was doing and whatever is queued behind |
| `TimerDrift.QueuedStartKeepsTime` | hbird-sdk/OS/FreeRTOS/Source/timers.c:507-546 | the same from the moment the command is queued, for a timer that is not listed |
| `TimerDrift.NoDrift` | hbird-sdk/OS/FreeRTOS/Source/timers.c:507-546 | the inductive form: over every run the timer moves up the ladder, and is linked at exactly last + period or has exactly one pending restart carrying last, never both |
| `TimerDrift.StepOnLadder` | hbird-sdk/OS/FreeRTOS/Source/timers.c:882-938 | one step of anything (time, other commands, a pass over the lists, a switch of the lists) keeps a timer on its ladder |
| `TimerDrift.RungIsMultiple` | hbird-sdk/OS/FreeRTOS/Source/timers.c:521-525 | rung n of the ladder is `t0 + n * p` |
| `TimerDrift.SettledIsUpToDate` | hbird-sdk/OS/FreeRTOS/Source/timers.c:584-642 | when the daemon has no command left and nothing in the current list has expired, every linked expiry lies in the future |
| `TimerDrift.StepKeepsInvariant` | hbird-sdk/OS/FreeRTOS/Source/timers.c:548-582 | every step keeps the list invariant, fires nothing early and never carries a time from the future |
| `TimerDrift.RunKeepsInvariant` | hbird-sdk/OS/FreeRTOS/Source/timers.c:548-582 | so does every run |
| `TimerCommands.OneShotFiresOnce` | hbird-sdk/OS/FreeRTOS/Source/timers.c:734-879 | a one-shot timer, running or not, is started or reset for `t0` with no other command of its own queued behind: from the moment the command is taken, over every run, it fires at most once, for `t0 + p` and not before; when the daemon is about to block after that instant it has fired; then it is neither listed nor restarted |
| `TimerCommands.QueuedOneShotFiresOnce` | hbird-sdk/OS/FreeRTOS/Source/timers.c:534-546 | the same from the moment the command is queued, for a timer that is not listed |
| `TimerCommands.StepOnce` | hbird-sdk/OS/FreeRTOS/Source/timers.c:734-879 | one step of anything keeps a one-shot timer in one of these stages |
| `TimerCommands.StartStarts` | hbird-sdk/OS/FreeRTOS/Source/timers.c:795-824 | taking a start command marks the timer active and fires it if and only if its expiry has passed, then with a restart at that expiry for an auto-reload timer, and links it for that expiry otherwise; no other timer is marked |
| `TimerCommands.StopStops` | hbird-sdk/OS/FreeRTOS/Source/timers.c:826-830 | taking a stop or delete command leaves the timer inactive and in no list, and nothing fires or is queued for it on the way, even if the lists are switched; no other timer is marked |
| `TimerStops.StoppedStaysStopped` | hbird-sdk/OS/FreeRTOS/Source/timers.c:734-879 | after a stop or delete is taken, over every run without further user commands for it, the timer stays in no list and never fires if and only if none of the commands queued behind the stop that the run takes is a start, restart or period change of it |
| `TimerStops.NothingBehindStop` | hbird-sdk/OS/FreeRTOS/Source/timers.c:826-870 | so with no command of its own queued behind the stop it never fires again |
| `TimerStops.RestsUnlessRevived` | hbird-sdk/OS/FreeRTOS/Source/timers.c:734-879 | over every run, a timer in no list stays so and does not fire if and only if the run takes no start, restart or period change of it |
| `TimerStops.RevivalIsQueued` | hbird-sdk/OS/FreeRTOS/Source/timers.c:734-879 | a run that takes k commands takes such a command if and only if one of the first k in the queue is one: the daemon adds none by itself |
| `TimerRequests.StopIsFinalExactly` | hbird-sdk/OS/FreeRTOS/Source/timers.c:734-879 | a running auto-reload timer is stopped or deleted: when that command is taken, either the timer is still listed, and then it rests over every run without further user commands for it, or it is in no list, the restart for its last expiry is queued behind, and it rests over a run if and only if the run does not take that restart |
| `TimerRequests.RequestedIsTaken` | hbird-sdk/OS/FreeRTOS/Source/timers.c:734-879 | from the request of any command for a running auto-reload timer until it is at the head of the queue, over every run: the timer keeps to its times, and is then either listed for the next one with nothing of its own behind or in no list with exactly the restart for its last expiry behind |
| `TimerRequests.StepWhileWaiting` | hbird-sdk/OS/FreeRTOS/Source/timers.c:734-879 | one step of anything keeps it so, whether the restart is before the waiting command, behind it or not needed |
| `TimerResets.ResetIsFinalExactly` | hbird-sdk/OS/FreeRTOS/Source/timers.c:734-879 | a running auto-reload timer is reset to `u`: when the reset is taken, either the timer is still listed, and then it fires at `u + p`, `u + 2p`, … over every run, or the restart for its last expiry is queued behind and, unless that expiry is one of these times, it keeps to them over a run if and only if the run does not take the restart |
| `TimerResets.ResetHoldsExactly` | hbird-sdk/OS/FreeRTOS/Source/timers.c:734-879 | after any start or reset to `u` is taken with a start of another ladder first among its own behind: the timer keeps to the times of `u` over a run if and only if the run does not take that one |
| `TimerResets.OnTimeExactly` | hbird-sdk/OS/FreeRTOS/Source/timers.c:734-879 | whatever starts and restarts of an auto-reload timer are queued: over every run it keeps to the times of `u` if and only if each of them that is taken carries the expiry for which it fired last |
| `TimerResets.StartHoldsExactly` | hbird-sdk/OS/FreeRTOS/Source/timers.c:795-824 | a timer that has fired n times since `u` keeps to the times of `u` when a start command is taken if and only if the command carries exactly the n-th expiry |
| `TimerResets.ReachesListed` | hbird-sdk/OS/FreeRTOS/Source/timers.c:795-824 | a new timer that is started so as to expire at the last tick before a wrap gets into the current list |
| `TimerResets.RestartIsQueued` | hbird-sdk/OS/FreeRTOS/Source/timers.c:895-933 | a stop (or a reset) requested just after that expiry, then a pass of the timer task: the daemon queues its restart behind it |
| `TimerResets.FiresAfterStop` | hbird-sdk/OS/FreeRTOS/Source/timers.c:895-933 | the stop is taken, and then that restart fires the stopped timer |
| `TimerResets.FiresBeforeReset` | hbird-sdk/OS/FreeRTOS/Source/timers.c:895-933 | the reset is taken and lists the timer for its period from then, and then that restart fires it one tick early |
| `TimerDrift.StepIdle` | hbird-sdk/OS/FreeRTOS/Source/timers.c:734-879 | nothing changes for a timer in no list until a command for it is taken |
| `TimerDrift.StepKeepsQueue` | hbird-sdk/OS/FreeRTOS/Source/timers.c:734-879 | each step takes at most the head of the command queue and otherwise adds at its end |
| `TimerStops.LateOneShotStaysActive` | hbird-sdk/OS/FreeRTOS/Source/timers.c:795-824 | a one-shot timer started late fires at once and stays marked active in no list |
| `TimerStops.FiredIsMarkedInactive` | hbird-sdk/OS/FreeRTOS/Source/timers.c:534-541 | the step that fires a one-shot timer marks it inactive if and only if it is a pass of the timer task that does not switch the lists; fired by a late start command or by a switch it stays marked active |
| `TimerCommands.PeriodCountsFromNow` | hbird-sdk/OS/FreeRTOS/Source/timers.c:832-845 | a new period makes the timer active and listed for exactly now plus the period, and for nothing else |
| `TimerCommands.ExpiredExactly` | hbird-sdk/OS/FreeRTOS/Source/timers.c:507-546 | an expired timer fires for its expiry; an auto-reload timer is then listed for the next one if that lies ahead and otherwise leaves one restart, a one-shot timer becomes inactive |
| `TimerCommands.PassMarksOne` | hbird-sdk/OS/FreeRTOS/Source/timers.c:584-642 | a pass of the timer task changes the record of no timer but an expired one-shot timer |
| `TimerLoop.LoopIsRun` | hbird-sdk/OS/FreeRTOS/Source/timers.c:734-879 | the command loop for given clock readings is a run in which only time passes and the daemon takes commands, one for each reading or all there are |
| `TimerLoop.LoopTakes` | hbird-sdk/OS/FreeRTOS/Source/timers.c:741-742 | with a reading for each of the first commands, exactly these leave the queue |
| `TimerLoop.PendedCallsRunOnce` | hbird-sdk/OS/FreeRTOS/Source/timers.c:743-767 | over every run, the pended functions that have run followed by those queued are those requested: each runs once, in order |
| `TimerSwitch.SwitchIsExact` | hbird-sdk/OS/FreeRTOS/Source/timers.c:882-938 | the list switch, in closed form: the callbacks come in global expiry order; every listed timer fires for exactly its expiries left in the old epoch and leaves one restart carrying the last of them (a one-shot fires once and leaves none); no other timer fires; the overflow list becomes current |
| `TimerSwitch.FiresExactly` | hbird-sdk/OS/FreeRTOS/Source/timers.c:895-933 | the part of this for one timer |
| `TimerSwitch.FiresInOrder` | hbird-sdk/OS/FreeRTOS/Source/timers.c:895-910 | the switch loop fires in non-decreasing expiry order and only expiries of the old epoch |
| `TimerSwitch.OthersDoNotFire` | hbird-sdk/OS/FreeRTOS/Source/timers.c:895-933 | a timer that is not in the outgoing list is neither fired nor restarted |
| `TimerModel.DrainStepDecreases` | hbird-sdk/OS/FreeRTOS/Source/timers.c:895-933 | the switch loop terminates although it re-inserts timers: the sum of M minus each listed expiry decreases |
| `TimerInvariant.InsertInv` | hbird-sdk/OS/FreeRTOS/Source/timers.c:693-731 | linking a (re)started timer keeps both lists sorted, duplicate-free and in their epochs, with active owners |
| `TimerInvariant.DrainInv` | hbird-sdk/OS/FreeRTOS/Source/timers.c:895-933 | so does emptying the outgoing list, which ends empty |
| `TimerInvariant.SampleInv` | hbird-sdk/OS/FreeRTOS/Source/timers.c:670-690 | so does sampling the time, switching the lists when the tick count has wrapped |
| `TimerInvariant.EmptyAtWrap` | hbird-sdk/OS/FreeRTOS/Source/timers.c:670-690 | right after a wrap the overflow list is empty, because its expiries are less than a whole wrap away |
| `TimerInvariant.ProcessExpiredInv` | hbird-sdk/OS/FreeRTOS/Source/timers.c:507-546 | so does processing an expired timer |
| `TimerInvariant.TimerPassInv` | hbird-sdk/OS/FreeRTOS/Source/timers.c:584-642 | so does one pass of the timer task |
| `TimerInvariant.CommandPassInv` | hbird-sdk/OS/FreeRTOS/Source/timers.c:734-879 | so does taking any command, whatever it is |
| `TimerDaemon.WrapExact` | hbird-sdk/OS/FreeRTOS/Source/timers.c:693-731 | judging by wrapped ticks alone, insertion says "process now" exactly if the true expiry is not after the true time, and picks the current or the overflow list exactly by the wrap epoch of the true expiry, for every period 1..M-1 and command latency below M |
| `TimerDaemon.WholeWrapsAreInvisible` | hbird-sdk/OS/FreeRTOS/Source/timers.c:693-731 | for a later command the decision is that of a command younger by whole wraps |
| `TimerDaemon.RightExactlyWhenInTime` | hbird-sdk/OS/FreeRTOS/Source/timers.c:693-731 | the decision is right if and only if the latency is below M or the period is at most the latency modulo M |
| `TimerDaemon.LateCommandIsMisjudged` | hbird-sdk/OS/FreeRTOS/Source/timers.c:709-727 | a concrete late command that is linked although it expired long ago |
| `TimerDaemon.WaitTicksRight` | hbird-sdk/OS/FreeRTOS/Source/timers.c:584-642 | the block time is at least 1 and below M, so the next sample is in time; it ends exactly at the first expiry of the current list, or at the next wrap if only the overflow list has timers; nothing listed expires earlier |
| `TimerDaemon.Daemon.constructor` | hbird-sdk/OS/FreeRTOS/Source/timers.c:941-988 | the initial daemon is valid and has no timers |
| `TimerDaemon.Daemon.CreateTimer` | hbird-sdk/OS/FreeRTOS/Source/timers.c:349-377 | a new timer is inactive and in no list |
| `TimerDaemon.Daemon.SendCommand` | hbird-sdk/OS/FreeRTOS/Source/timers.c:381-421 | a command is queued with the tick of the time it carries, or refused with nothing changed if the command queue has no room |
| `TimerDaemon.Daemon.InsertTimerInActiveList` | hbird-sdk/OS/FreeRTOS/Source/timers.c:693-731 | on ticks, does exactly the insertion of the true-time model and returns whether the expiry has passed |
| `TimerDaemon.Daemon.SwitchTimerLists` | hbird-sdk/OS/FreeRTOS/Source/timers.c:882-938 | on ticks, does exactly the switch of the true-time model |
| `TimerDaemon.Daemon.SwitchOne` | hbird-sdk/OS/FreeRTOS/Source/timers.c:898-932 | one turn of its loop |
| `TimerDaemon.Daemon.SampleTimeNow` | hbird-sdk/OS/FreeRTOS/Source/timers.c:670-690 | detects a wrap by comparing ticks: with a timer listed, it switches exactly if the epoch has changed |
| `TimerDaemon.Daemon.ProcessExpiredTimer` | hbird-sdk/OS/FreeRTOS/Source/timers.c:507-546 | removes the head, re-links it at its old expiry plus its period or sends itself a restart, and calls back |
| `TimerDaemon.Daemon.GetNextExpireTime` | hbird-sdk/OS/FreeRTOS/Source/timers.c:644-667 | returns the tick of the next instant at which the daemon has something to do: the earliest true expiry, or the next wrap if the current list is empty; no listed timer expires before it |
| `TimerDaemon.Daemon.ProcessTimerOrBlockTask` | hbird-sdk/OS/FreeRTOS/Source/timers.c:584-642 | one pass equals the true-time pass, and the wait it decides on is right |
| `TimerDaemon.Daemon.TimerTaskPass` | hbird-sdk/OS/FreeRTOS/Source/timers.c:568-576 | the task body up to the command loop is one pass of the true-time model, and its wait is right: it waits only if nothing in the current list has expired, and if it does not wait the lists were switched or a timer fired |
| `TimerDaemon.Daemon.StartTimer` | hbird-sdk/OS/FreeRTOS/Source/timers.c:795-824 | start, reset and restart commands: link the timer, or fire it and queue a restart carrying the expiry |
| `TimerDaemon.Daemon.ChangeTimerPeriod` | hbird-sdk/OS/FreeRTOS/Source/timers.c:832-845 | a period change counts from now |
| `TimerDaemon.Daemon.ProcessOneCommand` | hbird-sdk/OS/FreeRTOS/Source/timers.c:734-879 | one queued command, timer command or pended call, has the effect of the true-time model |
| `TimerDaemon.Daemon.ProcessReceivedCommands` | hbird-sdk/OS/FreeRTOS/Source/timers.c:734-879 | the loop takes one queued command for each clock reading it uses, and stops only when the queue or the readings end; what it leaves is the run of LoopIsRun |
| `Ticks.TickIsRemainder` | hbird-sdk/OS/FreeRTOS/Source/timers.c:670-690 | a tick is the true time modulo M |
| `Ticks.Near` | hbird-sdk/OS/FreeRTOS/Source/timers.c:670-690 | for instants less than M apart, comparing ticks tells whether a wrap lies between, and the wrapped difference is the true one |
| `SortedLists.InsertByTick` | hbird-sdk/OS/FreeRTOS/Source/timers.c:714-727 | sorted insertion by tick and by true time agree on a list that spans one epoch |
| `SortedLists.InsertKeepsSorted` | hbird-sdk/OS/FreeRTOS/Source/list.c:103-166 | sorted insertion keeps a list sorted |
| `IntrusiveLists.List.constructor` | hbird-sdk/OS/FreeRTOS/Source/list.c:37-58 | the new list is a one-node ring of its end marker |
| `IntrusiveLists.List.Insert` | hbird-sdk/OS/FreeRTOS/Source/list.c:103-166 | inserts after the last item whose value is not larger (so stably, also for the maximal value), keeps the doubly linked ring, the count and the position of the list index |
| `IntrusiveLists.List.FindPosition` | hbird-sdk/OS/FreeRTOS/Source/list.c:129-159 | the search finds the last item not larger; it terminates, and the maximal value takes the short cut to the same position |
| `IntrusiveLists.List.InsertEnd` | hbird-sdk/OS/FreeRTOS/Source/list.c:74-100 | inserts just before the list index, keeping the ring |
| `IntrusiveLists.List.Remove` | hbird-sdk/OS/FreeRTOS/Source/list.c:170-196 | deletes exactly that item, keeps the ring and the order of the others, and moves a list index that stood on it to its predecessor |
| `IntrusiveLists.List.NextEntry` | hbird-sdk/OS/FreeRTOS/Source/include/list.h:277-288 | moves the list index to the next item, passing over the end marker |
| `IntrusiveLists.RingInsert` | hbird-sdk/OS/FreeRTOS/Source/list.c:87-95 | redirecting the pointers on both sides of a gap closes the ring around the new node |
| `IntrusiveLists.RingDelete` | hbird-sdk/OS/FreeRTOS/Source/list.c:176-177 | redirecting the neighbours closes the ring without the node |
| `IntrusiveLists.RotationInsertEnd` | hbird-sdk/OS/FreeRTOS/Source/include/list.h:372-390 | where an item inserted at the end stands in the rotation: after every other item except the one the list index stands on, which stays last |
| `IntrusiveLists.NotLastInRotation` | hbird-sdk/OS/FreeRTOS/Source/include/list.h:372-390 | a concrete list in which the item inserted at the end is not the last to be returned |
| `IntrusiveLists.RotationDelete` | hbird-sdk/OS/FreeRTOS/Source/list.c:170-196 | removal keeps the rotation order of the others, also when the list index stood on the removed item |
| `IntrusiveLists.RotationNext` | hbird-sdk/OS/FreeRTOS/Source/include/list.h:277-288 | each call returns the first of the rotation and moves it to the end |
| `IntrusiveLists.RoundVisitsAll` | hbird-sdk/OS/FreeRTOS/Source/include/list.h:277-288 | one round visits every item once, in rotation order |
| `IntrusiveLists.InsertSortedValues` | hbird-sdk/OS/FreeRTOS/Source/list.c:103-166 | on item values, insertion into the ring is the sorted insertion the other modules use, and keeps them sorted |
| `IntrusiveLists.InsertShows` | hbird-sdk/OS/FreeRTOS/Source/list.c:103-166 | on the sequence of entries that the other modules use, insertion into the ring is `InsertSorted` |
| `IntrusiveLists.RemoveShows` | hbird-sdk/OS/FreeRTOS/Source/list.c:170-196 | and removal from the ring is `Without` |
| `QueueWakeups.NoLostWakeup` | hbird-sdk/OS/FreeRTOS/Source/queue.c:2171-2288 | in every reachable interleaving of tasks and interrupts: while a task waits to receive, the items are at most the receivers woken that have not looked again plus the Tx lock count; symmetrically for senders and free slots |
| `QueueWakeups.StepKeeps` | hbird-sdk/OS/FreeRTOS/Source/queue.c:740-947 | every step of send, receive, take and peek, of locking, unlocking, blocking and timing out, and of the interrupt forms keeps this |
| `QueueWakeups.RunKeeps` | hbird-sdk/OS/FreeRTOS/Source/queue.c:740-947 | so does every run |
| `QueueWakeups.QuietMeansNothingMissed` | hbird-sdk/OS/FreeRTOS/Source/queue.c:1277-1413 | once all woken tasks have looked and nobody holds the queue, tasks wait to receive only on an empty queue and to send only on a full one |
| `QueueWakeups.PlaceKeeps` | hbird-sdk/OS/FreeRTOS/Source/queue.c:902-945 | blocking after the queue was found full or empty misses nothing |
| `QueueWakeups.UnlockTxKeeps` | hbird-sdk/OS/FreeRTOS/Source/queue.c:2171-2243 | unlocking wakes the first receivers in the list, one per item counted while locked or all of them, each accounted for until it looks; the invariant is kept |
| `QueueWakeups.UnlockRxKeeps` | hbird-sdk/OS/FreeRTOS/Source/queue.c:2246-2288 | unlocking wakes one sender per slot freed while locked, or all of them |
| `QueueWakeups.InterruptSendKeeps` | hbird-sdk/OS/FreeRTOS/Source/queue.c:950-1109 | an interrupt that finds the queue locked only counts, and that is enough |
| `QueueWakeups.StepKeepsPriorityOrder` | hbird-sdk/OS/FreeRTOS/Source/queue.c:902-945 | both waiting lists stay in priority order |
| `QueueWakeups.UnlockWakesHighest` | hbird-sdk/OS/FreeRTOS/Source/queue.c:2171-2243 | the receivers an unlock wakes are of no lower priority than those it leaves |
| `QueueWaits.WaitersAreListed` | hbird-sdk/OS/FreeRTOS/Source/queue.c:740-947 | over every run, a task waits exactly if it is on a waiting list, and then on that of its operation, once |
| `QueueWaits.StepKeepsListed` | hbird-sdk/OS/FreeRTOS/Source/queue.c:740-947 | every step keeps the waiting tasks listed |
| `QueueWaits.WakesFromTheFront` | hbird-sdk/OS/FreeRTOS/Source/queue.c:2171-2288 | no step but the placing puts a task on a waiting list; but for a time-out a task leaves one only at its front, and then tries again |
| `QueueWaits.WakesHighest` | hbird-sdk/OS/FreeRTOS/Source/queue.c:2171-2288 | the tasks that any step wakes have no lower priority than those it leaves waiting |
| `QueueWaits.CallEnds` | hbird-sdk/OS/FreeRTOS/Source/queue.c:740-947 | a call ends exactly when it is served, and then it had room or found an item and counted it, or when it gives up: with no block time, or after its time-out and then a receive only on an empty queue; giving up changes nothing |
| `QueueWaits.CallGoesOn` | hbird-sdk/OS/FreeRTOS/Source/queue.c:868-943 | otherwise it waits exactly if its time has not expired and the queue is still full, or empty, and else tries again |
| `QueueContents.NoItemLost` | hbird-sdk/OS/FreeRTOS/Source/queue.c:740-947 | over every interleaving of tasks and interrupts that send to either end, overwrite, receive and peek: the items received, in the queue and overwritten are exactly the items sent, and the count is the number of items |
| `QueueContents.FirstInFirstOut` | hbird-sdk/OS/FreeRTOS/Source/queue.c:740-947 | if all sends are to the back: the items received followed by those in the queue are the items sent, in order |
| `QueueContents.FrontIsNext` | hbird-sdk/OS/FreeRTOS/Source/queue.c:2115-2133 | over every run that sends only to the back meanwhile, an item sent to the front is the next one received |
| `QueueContents.StepKeeps` | hbird-sdk/OS/FreeRTOS/Source/queue.c:2074-2180 | each step moves items as it counts them |
| `QueueContents.ReceiveFindsItem` | hbird-sdk/OS/FreeRTOS/Source/queue.c:1285-1363 | a receive that may complete finds an item |
| `QueueWakeups.ResetKeepsExactly` | hbird-sdk/OS/FreeRTOS/Source/queue.c:255-300 | resetting a queue keeps the invariant if and only if at most one sender waits or the woken senders already account for every slot |
| `QueueWakeups.QuietResetKeepsExactly` | hbird-sdk/OS/FreeRTOS/Source/queue.c:255-300 | when no woken sender has yet to look: if and only if at most one sender waits or the queue has one slot |
| `QueueWakeups.ResetLosesAWakeup` | hbird-sdk/OS/FreeRTOS/Source/queue.c:270-283 | two senders on a full queue: after a reset and one send the second waits although there is room and nobody is left to wake it |
| `QueueWakeups.LockCountLimit` | hbird-sdk/OS/FreeRTOS/Source/queue.c:1091-1095 | the signed byte counts the next interrupt rightly if and only if it is below 127 |
| `QueueWakeups.LockOverflowLosesWakeups` | hbird-sdk/OS/FreeRTOS/Source/queue.c:1091-1095 | the 128th interrupt on a locked queue makes the unlock wake nobody |
| `QueueRing.PushBack` | hbird-sdk/OS/FreeRTOS/Source/queue.c:2098-2111 | the bytes of an item copied at the write pointer appear at the back of the deque |
| `QueueRing.PushFront` | hbird-sdk/OS/FreeRTOS/Source/queue.c:2112-2123 | copied at the read pointer, which then moves back, they appear at the front |
| `QueueRing.PopFront` | hbird-sdk/OS/FreeRTOS/Source/queue.c:2153-2168 | moving the read pointer on removes the front |
| `QueueRing.OverwriteOnly` | hbird-sdk/OS/FreeRTOS/Source/queue.c:2112-2146 | on a queue of length 1 the overwriting copy replaces the only item |
| `QueueRing.CopyIntoSlot` | hbird-sdk/OS/FreeRTOS/Source/queue.c:2113-2135 | copying into one slot leaves the bytes of every other slot alone |
| `QueueRing.PlacesDiffer` | hbird-sdk/OS/FreeRTOS/Source/queue.c:2074-2168 | different positions of the deque are different slots |
| `Queues.Queue.constructor` | hbird-sdk/OS/FreeRTOS/Source/queue.c:422-463 | a new queue is an empty deque with both lock counts unlocked |
| `Queues.Queue.CopyDataToQueue` | hbird-sdk/OS/FreeRTOS/Source/queue.c:2074-2151 | sending to the back makes the item the last, to the front the first with the others behind it, overwriting the only one; the count exceeds the length exactly if a full queue whose items have size 0 is overwritten |
| `Queues.Queue.CopyDataFromQueue` | hbird-sdk/OS/FreeRTOS/Source/queue.c:2153-2168 | advances the read pointer with wrap-around and returns the front item |
| `Queues.Queue.TrySend` | hbird-sdk/OS/FreeRTOS/Source/queue.c:754-835 | sends exactly if there is room or it overwrites, with the item then where the position says, and takes the step of QueueProtocol; otherwise nothing changes |
| `Queues.Queue.TryReceive` | hbird-sdk/OS/FreeRTOS/Source/queue.c:1296-1332 | the same for receive: the front item and the rest of the deque |
| `Queues.Queue.TryPeek` | hbird-sdk/OS/FreeRTOS/Source/queue.c:1654-1698 | peek returns the front item, leaves deque and read pointer as they were and may wake another receiver |
| `Queues.Queue.SendFromISR` | hbird-sdk/OS/FreeRTOS/Source/queue.c:950-1109 | the same from an interrupt, waking or counting by the lock |
| `Queues.Queue.ReceiveFromISR` | hbird-sdk/OS/FreeRTOS/Source/queue.c:1785-1873 | the interrupt form of receive |
| `Queues.Queue.LockQueue` | hbird-sdk/OS/FreeRTOS/Source/queue.c:240-252 | marks both lock counts as locked unless they already count |
| `Queues.Queue.UnlockTx` | hbird-sdk/OS/FreeRTOS/Source/queue.c:2171-2243 | the first unlock loop wakes exactly the first receivers, as many as were counted, and unlocks |
| `Queues.Queue.UnlockRx` | hbird-sdk/OS/FreeRTOS/Source/queue.c:2246-2288 | the second loop does so for senders |
| `Queues.Queue.BlockOnSend` | hbird-sdk/OS/FreeRTOS/Source/queue.c:897-945 | the slow path of a send, undisturbed: the task goes on the waiting list, in priority order, exactly if the queue is full and the time-out has not expired; nothing else changes |
| `Queues.Queue.BlockOnReceive` | hbird-sdk/OS/FreeRTOS/Source/queue.c:1363-1413 | the slow path of a receive |
| `Queues.Queue.Reset` | hbird-sdk/OS/FreeRTOS/Source/queue.c:255-300 | the deque is emptied, both locks are cleared and the first waiting sender is woken; receivers stay |
| `Queues.OverfullQueue` | hbird-sdk/OS/FreeRTOS/Source/queue.c:2074-2151 | two overwrites leave two messages in a queue of length 1 with items of size 0 |
| `RecursiveMutexes.ExclusiveAndBalanced` | hbird-sdk/OS/FreeRTOS/Source/queue.c:589-679 | over every run of takes and gives by any number of tasks: at most one has outstanding takes, the recursive count equals them, available count plus holder is 1, and between calls the mutex is available exactly when all gives balance all takes |
| `RecursiveMutexes.StepKeeps` | hbird-sdk/OS/FreeRTOS/Source/queue.c:589-679 | one step keeps the invariant, between the two halves of a first take or last give as well |
| `RecursiveMutexes.GiveIsAlwaysEnabled` | hbird-sdk/OS/FreeRTOS/Source/queue.c:601-625 | the recursive count of the holder is never 0, as the comment in the source claims |
| `RecursiveMutexes.TakeExactly` | hbird-sdk/OS/FreeRTOS/Source/queue.c:644-685 | a take by the holder, or on an available mutex, succeeds and is counted; any other is refused and changes nothing |
| `RecursiveMutexes.GiveExactly` | hbird-sdk/OS/FreeRTOS/Source/queue.c:589-639 | a give by the holder succeeds and the last one returns the mutex; any other is refused and changes nothing |
| `RecursiveMutexes.RecursiveMutex.TakeRecursive` | hbird-sdk/OS/FreeRTOS/Source/queue.c:644-679 | one attempt: succeeds exactly for the holder or if the mutex is available, and is counted; otherwise nothing changes |
| `RecursiveMutexes.RecursiveMutex.GiveRecursive` | hbird-sdk/OS/FreeRTOS/Source/queue.c:589-637 | succeeds exactly for the holder, and the last give makes the mutex available |
| `StreamRace.StreamIsFaithful` | hbird-sdk/OS/FreeRTOS/Source/stream_buffer.c:1088-1206 | over every interleaving of one writer and one reader, with the copying of each byte and the publication of the index as separate steps and old counts on both sides: received bytes followed by unread bytes are the accepted bytes, what the reader holds continues what it received, and bytes plus space is length - 1 |
| `StreamRace.WriterHitsNoUnreadByte` | hbird-sdk/OS/FreeRTOS/Source/stream_buffer.c:1088-1131 | the slot the writer fills is the slot of no unread byte |
| `StreamRace.ReaderSeesPublishedByte` | hbird-sdk/OS/FreeRTOS/Source/stream_buffer.c:1134-1186 | the byte the reader copies is the next accepted one |
| `StreamRace.StepKeeps` | hbird-sdk/OS/FreeRTOS/Source/stream_buffer.c:1088-1186 | every such step keeps the invariant |
| `StreamRace.RunKeeps` | hbird-sdk/OS/FreeRTOS/Source/stream_buffer.c:535-584 | so does every run |
| `StreamRing.BytesAndSpace` | hbird-sdk/OS/FreeRTOS/Source/stream_buffer.c:470-491 | bytes available plus space available is length - 1, in every state |
| `StreamRing.FreeSlot` | hbird-sdk/OS/FreeRTOS/Source/stream_buffer.c:470-491 | the free part of the ring holds no unread byte |
| `StreamRing.Publish` | hbird-sdk/OS/FreeRTOS/Source/stream_buffer.c:1118-1128 | publishing bytes in place behind the head appends them |
| `StreamRing.Consume` | hbird-sdk/OS/FreeRTOS/Source/stream_buffer.c:1168-1178 | moving the tail removes the oldest bytes |
| `MessageRuns.MessagesSurviveTheRace` | hbird-sdk/OS/FreeRTOS/Source/stream_buffer.c:661-967 | over every interleaving of byte copies and index updates by a message writer and a message reader, with receives that are refused and put the tail back (unless a write has begun in between that needs the room of the length): the messages delivered are the first messages sent, and parsing the unread bytes gives exactly the others |
| `MessageRuns.StepKeeps` | hbird-sdk/OS/FreeRTOS/Source/stream_buffer.c:918-967 | every such step keeps the framing, and as long as no such write has begun the buffer is also in order with the tail put back |
| `MessageRuns.WriteDuringRefusal` | hbird-sdk/OS/FreeRTOS/Source/stream_buffer.c:932-948 | after a write has begun while a length is taken, the tail can be put back if and only if the write also fits with that tail |
| `MessageRace.StepKeeps` | hbird-sdk/OS/FreeRTOS/Source/stream_buffer.c:661-967 | every such step keeps: what is accepted and what is taken are whole messages with at most one bare length, and the old count of the reader covers whole messages |
| `MessageRace.DataTaken` | hbird-sdk/OS/FreeRTOS/Source/stream_buffer.c:918-967 | the data taken after a length is exactly the next message sent |
| `MessageRace.RollbackOverwrites` | hbird-sdk/OS/FreeRTOS/Source/stream_buffer.c:932-948 | a writer that looks while a refused receive (or a question for the next length) has moved the tail overwrites the length that is put back if and only if it writes more than one byte beyond the true space; the unread bytes are counted rightly afterwards if and only if it stays within the true space |
| `MessageRace.AcceptedDuringRollback` | hbird-sdk/OS/FreeRTOS/Source/stream_buffer.c:932-948 | a message is wrongly accepted then exactly if its frame exceeds the true space by at most the size of a length |
| `MessageRace.RollbackExample` | hbird-sdk/OS/FreeRTOS/Source/stream_buffer.c:932-948 | 16 bytes with 12 unread: a message of 3 bytes is accepted and overwrites three bytes of the length put back |
| `MessageFraming.MessagesArriveWhole` | hbird-sdk/OS/FreeRTOS/Source/stream_buffer.c:918-967 | over every run with length and data published separately and the reader working on an old count: the messages sent are the messages received, whole and in order, followed by what parsing the buffer gives |
| `MessageFraming.ReceiveExactly` | hbird-sdk/OS/FreeRTOS/Source/stream_buffer.c:918-967 | a receive returns exactly the first message, or nothing when it does not fit the receiver's room or no whole message is there |
| `MessageFraming.WholeMessageFirst` | hbird-sdk/OS/FreeRTOS/Source/stream_buffer.c:661-710 | more than a bare length in the buffer means that a whole message is first |
| `MessageFraming.ShortIsEmpty` | hbird-sdk/OS/FreeRTOS/Source/stream_buffer.c:842-849 | the assertion that a short buffer is empty holds if and only if no send has published just its length |
| `MessageFraming.BareLengthIsShort` | hbird-sdk/OS/FreeRTOS/Source/stream_buffer.c:842-849 | the first length published gives a buffer of 4 bytes that is not empty |
| `MessageFraming.HeaderPublished` | hbird-sdk/OS/FreeRTOS/Source/stream_buffer.c:685-691 | publishing the length leaves whole messages and one bare header |
| `MessageFraming.DataPublished` | hbird-sdk/OS/FreeRTOS/Source/stream_buffer.c:699-702 | publishing the data then adds one whole message |
| `MessageFraming.TakeKeeps` | hbird-sdk/OS/FreeRTOS/Source/stream_buffer.c:918-967 | a receive takes the first whole message or leaves everything as it was |
| `MessageFraming.LengthRoundTrip` | hbird-sdk/OS/FreeRTOS/Source/stream_buffer.c:685-691 | the length field gives the length back if and only if it is below 2^32 |
| `MessageFraming.ParseRoundTrip` | hbird-sdk/OS/FreeRTOS/Source/stream_buffer.c:918-967 | the buffered bytes determine the messages in them |
| `StreamBuffers.StreamBuffer.constructor` | hbird-sdk/OS/FreeRTOS/Source/stream_buffer.c:1209-1234 | a new buffer is empty |
| `StreamBuffers.StreamBuffer.WriteBytes` | hbird-sdk/OS/FreeRTOS/Source/stream_buffer.c:1088-1131 | the split copy appends the data, across the end of the array as well |
| `StreamBuffers.StreamBuffer.ReadBytes` | hbird-sdk/OS/FreeRTOS/Source/stream_buffer.c:1134-1186 | the split copy returns and removes the oldest bytes, as many as were asked for and seen |
| `StreamBuffers.StreamBuffer.WriteMessage` | hbird-sdk/OS/FreeRTOS/Source/stream_buffer.c:661-710 | appends the first bytes of a stream, as many as fit, or one frame exactly if it fits |
| `StreamBuffers.StreamBuffer.ReadMessage` | hbird-sdk/OS/FreeRTOS/Source/stream_buffer.c:918-967 | in stream mode the oldest bytes, as many as fit and were seen, come out and the rest stay; in message mode the first message or, with too little room, nothing |
| `StreamBuffers.StreamBuffer.Send` | hbird-sdk/OS/FreeRTOS/Source/stream_buffer.c:506-607 | the data written depends on the space seen when waiting ended: in stream mode the first bytes, as many as fit, in message mode the whole frame exactly if it fits; the count returned says so |
| `StreamBuffers.StreamBuffer.WaitForSpace` | hbird-sdk/OS/FreeRTOS/Source/stream_buffer.c:535-584 | the waiting loop, for any amount the reader takes during each wait |
| `StreamBuffers.StreamBuffer.Receive` | hbird-sdk/OS/FreeRTOS/Source/stream_buffer.c:713-815 | the same for what is there after at most one wait: in stream mode the bytes returned followed by those left are all there were |
| `StreamBuffers.StreamBuffer.NextMessageLength` | hbird-sdk/OS/FreeRTOS/Source/stream_buffer.c:817-858 | the length of the first message, with the contents as before, and whether the assertion on a short buffer holds |
| `StreamBuffers.StreamBuffer.BytesAvailable` | hbird-sdk/OS/FreeRTOS/Source/stream_buffer.c:1189-1206 | the number of unread bytes |
| `StreamBuffers.StreamBuffer.SpaceAvailable` | hbird-sdk/OS/FreeRTOS/Source/stream_buffer.c:470-491 | length - 1 minus the unread bytes |
| `StreamBuffers.AddedKeepsFraming` | hbird-sdk/OS/FreeRTOS/Source/stream_buffer.c:661-710 | a send to a message buffer adds one whole message behind the others or nothing |
| `StreamBuffers.WaitingMissesOnlyLastWait` | hbird-sdk/OS/FreeRTOS/Source/stream_buffer.c:535-584 | a send is refused although there is room if and only if the room came up during the last wait and there was some room, but too little, before it |
| `StreamBuffers.WaitsUntilRoom` | hbird-sdk/OS/FreeRTOS/Source/stream_buffer.c:535-584 | the writer waits while there is too little room and no longer than it may; then it works with the space there is, or after a time-out with what it saw before the last wait, a count of 0 being looked at again |
| `StreamBufferRuns.Exchange` | hbird-sdk/OS/FreeRTOS/Source/stream_buffer.c:506-811 | any sequence of sends and receives on one stream buffer, with the other side acting during their waits: what came out followed by what is left is what was there followed by what went in |
| `StreamBufferRuns.ExchangeMessages` | hbird-sdk/OS/FreeRTOS/Source/stream_buffer.c:506-811 | any sequence of sends and receives on one message buffer: the messages received followed by those left are those there were followed by those accepted |
| `StreamBufferRuns.SendMessage` | hbird-sdk/OS/FreeRTOS/Source/stream_buffer.c:661-711 | a message is accepted exactly if it fits with its length, and is then the last |
| `StreamBufferRuns.ReceiveMessage` | hbird-sdk/OS/FreeRTOS/Source/stream_buffer.c:918-967 | a receive gives exactly the first message if there is one and it fits the room, and otherwise changes nothing |
| `StreamBuffers.MissedSpace` | hbird-sdk/OS/FreeRTOS/Source/stream_buffer.c:535-584 | 8 bytes are refused with 4 seen although 4 more become free in the last wait |
| `CoRoutineWakeups.DelayWakesAtItsTick` | hbird-sdk/OS/FreeRTOS/Source/croutine.c:159-194 | over every run with interrupts between any two steps: a co-routine that delays itself by d ticks (1..M-1) at tick t is timed out, if at all, in the tick iteration whose counter is (t + d) mod M, an event can only wake it before, and it never sleeps past that iteration |
| `CoRoutineWakeups.DelayIsExact` | hbird-sdk/OS/FreeRTOS/Source/croutine.c:220-275 | the same for any sleeping co-routine and wake tick |
| `CoRoutineWakeups.WakesExactly` | hbird-sdk/OS/FreeRTOS/Source/croutine.c:220-275 | one step lets it sleep on, times it out in exactly its iteration, or readies it because its event occurred |
| `CoRoutineWakeups.NeverOverdue` | hbird-sdk/OS/FreeRTOS/Source/croutine.c:220-275 | a wake tick that has been passed is never still listed |
| `CoRoutineWakeups.AlwaysInOnePlace` | hbird-sdk/OS/FreeRTOS/Source/croutine.c:67-74 | in every reachable state each co-routine is in exactly one ready list (that of its priority) or delay list, once; one whose event item is in an event list or the pending list is in only that one, once, and is delayed; and every ready list above the top priority is empty |
| `CoRoutineWakeups.StepKeeps` | hbird-sdk/OS/FreeRTOS/Source/croutine.c:278-311 | every scheduler step, every call of a co-routine and every interrupt keeps the invariant |
| `CoRoutineWakeups.RunKeeps` | hbird-sdk/OS/FreeRTOS/Source/croutine.c:278-311 | so does every run |
| `CoRoutineInvariant.CountTickKeeps` | hbird-sdk/OS/FreeRTOS/Source/croutine.c:224-242 | counting a tick keeps it, and whenever the count wraps the delay list that is swapped out is empty |
| `CoRoutineInvariant.TimeOutKeeps` | hbird-sdk/OS/FreeRTOS/Source/croutine.c:243-270 | a time-out keeps it, also when the event has just moved the event item to the pending list |
| `CoRoutineInvariant.TakePendingKeeps` | hbird-sdk/OS/FreeRTOS/Source/croutine.c:197-216 | so does moving a co-routine from the pending list to its ready list |
| `CoRoutineInvariant.DelayKeeps` | hbird-sdk/OS/FreeRTOS/Source/croutine.c:159-194 | so does a delay with or without an event, and the wake time is now plus the delay |
| `CoRoutineInvariant.EventOccursKeeps` | hbird-sdk/OS/FreeRTOS/Source/croutine.c:334-356 | so does an event, which readies nothing itself |
| `CoRoutineInvariant.CreateKeeps` | hbird-sdk/OS/FreeRTOS/Source/croutine.c:102-156 | so does creating a co-routine, which becomes ready |
| `CoRoutineInvariant.RunsTheHighest` | hbird-sdk/OS/FreeRTOS/Source/croutine.c:291-307 | the scheduler calls a ready co-routine of the highest priority that has one, and none only if none is ready |
| `CoRoutineEvents.EventWakesHighest` | hbird-sdk/OS/FreeRTOS/Source/croutine.c:334-347 | over every run, the co-routine an event readies has the highest priority of those that wait for it |
| `CoRoutineEvents.StepKeepsPriorityOrder` | hbird-sdk/OS/FreeRTOS/Source/croutine.c:137-142 | every step keeps the event lists in priority order, with item values that stand for the priorities |
| `CoRoutineEvents.RunKeepsPriorityOrder` | hbird-sdk/OS/FreeRTOS/Source/croutine.c:188-193 | so does every run |
| `ReadyLists.EnqueueIsInsertEnd` | hbird-sdk/OS/FreeRTOS/Source/croutine.c:67-74 | adding to a ready list is insertion at the end of a kernel list |
| `ReadyLists.DequeueIsRemove` | hbird-sdk/OS/FreeRTOS/Source/croutine.c:167-170 | leaving a ready list is removal from a kernel list |
| `CoRoutineShares.ChosenIsNext` | hbird-sdk/OS/FreeRTOS/Source/croutine.c:291-307 | the choice is the first of the highest ready list in its rotation order, which is then the last; nothing else changes |
| `CoRoutineShares.EqualShare` | hbird-sdk/OS/FreeRTOS/Source/croutine.c:291-307 | over every run in which the same co-routines of a priority are ready and none of a higher one is when the scheduler chooses, its choices go round them in order: each once in every round |
| `CoRoutineShares.ChoicesAreVisits` | hbird-sdk/OS/FreeRTOS/Source/croutine.c:304 | the choices of such a run are the visits of the list index |
| `CoRoutineShares.JoinsAtEnd` | hbird-sdk/OS/FreeRTOS/Source/croutine.c:67-74 | one that becomes ready runs after all others of its priority but the one that ran last |
| `CoRoutineShares.LeavesOrder` | hbird-sdk/OS/FreeRTOS/Source/croutine.c:168-170 | one that delays itself takes only itself out of the order |
| `CoRoutineShares.StepReadies` | hbird-sdk/OS/FreeRTOS/Source/croutine.c:102-307 | each step readies, unreadies or chooses exactly the co-routine it concerns |
| `CoRoutineWaits.WaitsExactly` | hbird-sdk/OS/FreeRTOS/Source/croutine.c:334-356 | a co-routine that waits for an event stays on its list until the event finds it first there, or it times out |
| `CoRoutineWaits.CalledExactly` | hbird-sdk/OS/FreeRTOS/Source/croutine.c:197-216 | one whose event has occurred stays pending until the scheduler readies it, or it times out |
| `CoRoutineWaits.DelayWaits` | hbird-sdk/OS/FreeRTOS/Source/croutine.c:159-194 | a delay with an event puts the co-routine on the list of that event, one without on none |
| `CoRoutineWaits.StaysOnItsList` | hbird-sdk/OS/FreeRTOS/Source/croutine.c:137-142 | so over every run it is on its event list, once, until one of the two happens |
| `CoRoutineCalls.ScheduleIsRun` | hbird-sdk/OS/FreeRTOS/Source/croutine.c:278-311 | what a scheduler call computes is the end of a run of the steps, so all results on runs hold of it |
| `CoRoutineScheduler.ScheduleWakes` | hbird-sdk/OS/FreeRTOS/Source/croutine.c:278-311 | one call of the scheduler readies a sleeping co-routine exactly if its event has occurred or its wake tick has come, and calls one of the highest ready priority |
| `CoRoutineScheduler.PassingWakes` | hbird-sdk/OS/FreeRTOS/Source/croutine.c:220-275 | catching up n ticks readies exactly the co-routines whose wake tick is among them |
| `CoRoutineScheduler.ExpireWakes` | hbird-sdk/OS/FreeRTOS/Source/croutine.c:243-272 | one tick iteration readies exactly those of this very tick |
| `CoRoutineScheduler.PendingWakes` | hbird-sdk/OS/FreeRTOS/Source/croutine.c:197-216 | the pending loop readies exactly those whose event has occurred |
| `CoRoutineScheduler.LinksByTick` | hbird-sdk/OS/FreeRTOS/Source/croutine.c:165-187 | the test for an overflowed wake time picks the right list, and insertion by tick is insertion by true time |
| `CoRoutineScheduler.Scheduler.constructor` | hbird-sdk/OS/FreeRTOS/Source/croutine.c:314-331 | the new lists are empty and satisfy the invariant |
| `CoRoutineScheduler.Scheduler.Create` | hbird-sdk/OS/FreeRTOS/Source/croutine.c:102-156 | on the real fields, creates a ready co-routine with exactly the priority asked for or, if that is too high, the highest |
| `CoRoutineScheduler.Scheduler.AddToDelayedList` | hbird-sdk/OS/FreeRTOS/Source/croutine.c:159-194 | on ticks, does exactly the delay of the true-time model |
| `CoRoutineScheduler.Scheduler.RemoveFromEventList` | hbird-sdk/OS/FreeRTOS/Source/croutine.c:334-356 | moves the first waiter to the pending list and tells whether its priority is at least that of the current co-routine |
| `CoRoutineScheduler.Scheduler.CheckPendingReadyList` | hbird-sdk/OS/FreeRTOS/Source/croutine.c:197-216 | the loop readies everything pending |
| `CoRoutineScheduler.Scheduler.CheckDelayedList` | hbird-sdk/OS/FreeRTOS/Source/croutine.c:220-275 | on ticks, catches up with the tick count exactly as the true-time model does |
| `CoRoutineScheduler.Scheduler.TimeOutHead` | hbird-sdk/OS/FreeRTOS/Source/croutine.c:245-270 | one time-out on the real fields |
| `CoRoutineScheduler.Scheduler.Schedule` | hbird-sdk/OS/FreeRTOS/Source/croutine.c:278-311 | one call of the scheduler is pending, ticks and choice of the model, and ends with the tick count caught up |
| `EventGroupRuns.NoneLeftBehind` | hbird-sdk/OS/FreeRTOS/Source/event_groups.c:519-609 | over every run of set, clear, wait, sync, time-out and resumption by any number of tasks: no call stays blocked whose any/all condition the bits meet |
| `EventGroupRuns.StepKeeps` | hbird-sdk/OS/FreeRTOS/Source/event_groups.c:191-308 | every such step keeps the invariant |
| `EventGroupRuns.RunKeeps` | hbird-sdk/OS/FreeRTOS/Source/event_groups.c:191-308 | so does every run |
| `EventGroupRuns.SetReleases` | hbird-sdk/OS/FreeRTOS/Source/event_groups.c:545-605 | setting bits releases a blocked call if and only if old\|set meets its condition; it will return exactly old\|set; and if it clears on exit its bits end clear |
| `EventGroupRuns.SetClearsOnlyMasks` | hbird-sdk/OS/FreeRTOS/Source/event_groups.c:577-605 | bits outside the clear-on-exit masks of the released calls keep their old\|set value |
| `EventGroupRuns.OrderDoesNotMatter` | hbird-sdk/OS/FreeRTOS/Source/event_groups.c:545-605 | bits, released calls and remaining calls do not depend on the order of the list |
| `EventGroupRuns.ResumeReturns` | hbird-sdk/OS/FreeRTOS/Source/event_groups.c:414-451 | a call unblocked by bits returns a value without control bits that meets its condition, whatever happened since; one that timed out returns the current bits, and consumes them if they meet its condition by then |
| `EventGroupRuns.ReleasedValueStays` | hbird-sdk/OS/FreeRTOS/Source/event_groups.c:589-595 | over every run, the value an unblocked call returns is fixed when it is released |
| `EventGroupRuns.SyncCompletes` | hbird-sdk/OS/FreeRTOS/Source/event_groups.c:206-222 | a completed rendezvous: the caller and every blocked party to it return old\|set, and the rendezvous bits end clear |
| `EventGroupReturns.WaitReturns` | hbird-sdk/OS/FreeRTOS/Source/event_groups.c:311-397 | bit by bit: if all, or some, of the bits waited for are set, the call returns the bits before, and exactly those it waits for end clear if it clears on exit and none if not; if not and it may not block, it returns the bits and changes nothing; otherwise it is the last on the list with its request |
| `EventGroupReturns.WaitClearsExactly` | hbird-sdk/OS/FreeRTOS/Source/event_groups.c:344-352 | a call whose condition is met leaves none of its bits set if and only if it clears on exit |
| `EventGroupReturns.SyncReturns` | hbird-sdk/OS/FreeRTOS/Source/event_groups.c:191-249 | the caller sets its bits; if all those it waits for are then set it returns all bits set then, and exactly those it waits for end clear; if not and it may not block, it returns what is left; otherwise it waits for all, clearing on exit |
| `EventGroupReturns.ClearReturns` | hbird-sdk/OS/FreeRTOS/Source/event_groups.c:461-485 | exactly the bits asked for end clear, and nothing else changes |
| `EventGroupReturns.TimeOutLeaves` | hbird-sdk/OS/FreeRTOS/Source/event_groups.c:414-418 | a time-out takes just the task itself off the list |
| `EventGroupRuns.SyncKeeps` | hbird-sdk/OS/FreeRTOS/Source/event_groups.c:206-249 | a rendezvous keeps the invariant; the caller blocks only if its own condition is unmet after the bits it set |
| `EventGroupRuns.WaitKeeps` | hbird-sdk/OS/FreeRTOS/Source/event_groups.c:329-397 | waiting keeps it |
| `EventGroupRuns.ClearKeeps` | hbird-sdk/OS/FreeRTOS/Source/event_groups.c:461-485 | clearing keeps it |
| `EventBits.ItemValueRoundTrip` | hbird-sdk/OS/FreeRTOS/Source/event_groups.c:362-387 | the item value in which a blocked call leaves its request is read back as that request, and never taken for an unblocking |
| `EventBits.TestMeans` | hbird-sdk/OS/FreeRTOS/Source/event_groups.c:671-703 | the masked comparisons ask whether each, or whether some, single bit of those wanted is set |
| `EventGroups.EventGroup.SetBits` | hbird-sdk/OS/FreeRTOS/Source/event_groups.c:519-609 | the walk over the list, which removes waiters while walking, computes the specified bits, list and released values |
| `EventGroups.ReadItem` | hbird-sdk/OS/FreeRTOS/Source/event_groups.c:548-587 | reading the item value that a blocked call left decides whether each, or some, of the bits it waits for is set, and returns the bits it clears on exit |
| `EventGroups.EventGroup.Visit` | hbird-sdk/OS/FreeRTOS/Source/event_groups.c:545-600 | one turn of the walk |
| `EventGroups.EventGroup.WaitBits` | hbird-sdk/OS/FreeRTOS/Source/event_groups.c:311-397 | waiting up to the blocking point: returns at once, consuming bits if asked to, or blocks |
| `EventGroups.EventGroup.Sync` | hbird-sdk/OS/FreeRTOS/Source/event_groups.c:191-249 | the rendezvous up to the blocking point |
| `EventGroups.EventGroup.Resume` | hbird-sdk/OS/FreeRTOS/Source/event_groups.c:251-300 | from the blocking point to the return, after an unblocking or a time-out |
| `EventGroups.EventGroup.TimeOut` | hbird-sdk/OS/FreeRTOS/Source/event_groups.c:414-418 | a time-out takes the task off the list and leaves its item value as it was |
| `EventGroups.EventGroup.ClearBits` | hbird-sdk/OS/FreeRTOS/Source/event_groups.c:461-485 | clears bits and returns the bits before |
| `EventGroups.EventGroup.TestCondition` | hbird-sdk/OS/FreeRTOS/Source/event_groups.c:671-703 | true exactly if every single bit, or at least one single bit, of those waited for is set |
| `Requantize.MultiplyIsVQRDMULH` | hbird-sdk/NMSIS/NN/Include/riscv_nnsupportfunctions.h:255-285 | with 32-bit longs the doubling multiply is the documented VQRDMULH, saturation included, for every pair |
| `Requantize.MultiplyRounds` | hbird-sdk/NMSIS/NN/Include/riscv_nnsupportfunctions.h:255-285 | it is floor((m1 * m2 + 2^30) / 2^31), within half a unit of the product over 2^31, except for the one saturated pair |
| `Requantize.LongWidthMatters` | hbird-sdk/NMSIS/NN/Include/riscv_nnsupportfunctions.h:278-283 | with 64-bit longs it is VQRDMULH if and only if the factors have equal signs and are not both the minimum, or the product lies just below a midpoint; otherwise it is one too small, or the minimum |
| `Requantize.LongWidthExample` | hbird-sdk/NMSIS/NN/Include/riscv_nnsupportfunctions.h:278-283 | 1 times -1: 0 with 32-bit longs, -1 with 64-bit longs |
| `Requantize.DivideRoundsAway` | hbird-sdk/NMSIS/NN/Include/riscv_nnsupportfunctions.h:287-316 | the divide rounds to the nearest integer, midpoints away from zero, for every exponent |
| `Requantize.RoundsAwayUnique` | hbird-sdk/NMSIS/NN/Include/riscv_nnsupportfunctions.h:287-292 | that property determines the result |
| `Requantize.DivideMonotone` | hbird-sdk/NMSIS/NN/Include/riscv_nnsupportfunctions.h:295-316 | the divide is monotone |
| `Requantize.PowersOfTwo` | hbird-sdk/NMSIS/NN/Include/riscv_nnsupportfunctions.h:318-331 | the powers of two: 1, 2 and products for sums |
| `Requantize.RequantizeError` | hbird-sdk/NMSIS/NN/Include/riscv_nnsupportfunctions.h:318-331 | the result is within 1 of `val * multiplier * 2^(shift - 31)`, stated with the power of two of the shift itself, and within `1/2 + 1/2^(1 + right shift)` unless the multiply saturates |
| `Requantize.RequantizeMonotone` | hbird-sdk/NMSIS/NN/Include/riscv_nnsupportfunctions.h:318-331 | for a non-negative multiplier it is monotone in the value |

## Left out

- Allocation, deletion and static variants, trace and coverage macros, the queue registry, MPU wrappers: no hard property.
- Queue sets (configUSE_QUEUE_SETS is taken as 0) and priority inheritance, whose logic is in the task scheduler (tasks.c is not part of this model).
- The task scheduler itself: suspending it, placing a task on an event list, time-outs and yields are taken as the critical sections and list operations they amount to.
- Timer callbacks and pended functions are traces; the commands they send are requests of the environment, ordered after the list switch during which they are sent, and they do not change a reload mode during it.
- TimerDaemon.Daemon.SendCommand: a refused command is modelled, but the daemon's own restarts are always accepted, as its assertions require; freeing a deleted timer is left out.
- TimerDaemon.Daemon.TimerTaskPass: does not include the command loop, because other tasks send commands while the daemon blocks; ProcessReceivedCommands is that loop, and TimerDrift interleaves the two.
- TimerDrift.NoDrift: assumes that the daemon is scheduled often enough (samples less than M ticks apart while a timer is listed, start commands taken less than M ticks after their time); RightExactlyWhenInTime says what happens otherwise.
- TimerDrift.QueuedStartKeepsTime: for a timer that is not listed when the command is queued; TimerCommands.StartedTimerKeepsTime and TimerResets.ResetIsFinalExactly have no such condition.
- TimerCommands.QueuedOneShotFiresOnce: likewise; TimerCommands.OneShotFiresOnce has no such condition.
- QueueWakeups.NoLostWakeup: runs do not include resets and have at most 127 interrupt operations per locked period, because both are shown to lose wake-ups.
- Queues.Queue.BlockOnSend: no interrupt falls inside the path; QueueProtocol has its critical sections as separate steps between which interrupts run.
- Queues.Queue.BlockOnReceive: likewise.
- QueueContents.NoItemLost: items that are overwritten have a size above 0 (OverfullQueue shows the other case), and the item of a send is fixed when its attempt succeeds.
- The retry loops of send, receive and peek are the steps of QueueProtocol, not methods: a method cannot be interrupted between its critical sections.
- RecursiveMutexes.RecursiveMutex.TakeRecursive: one attempt; a take that waits is a later attempt of the same task, and the steps of RecursiveMutexes allow any number of them.
- The co-routine forms of the queue operations (queue.c:2373-2645) are left out.
- StreamRace.StreamIsFaithful: index sums are assumed not to overflow size_t.
- MessageRuns.MessagesSurviveTheRace: a refused receive puts the tail back only if no write has begun since that needs the room of the length; WriteDuringRefusal and RollbackOverwrites say what happens otherwise.
- MessageFraming.MessagesArriveWhole: messages have 1..2^32-1 bytes, as the length field and the kernel's assertions require; a refused receive is one step (MessageRuns takes it apart).
- Trigger levels and task notifications of stream buffers are left out; `waits` and `arriving` stand for what the other side does while a task is blocked.
- CoRoutineWakeups.DelayWakesAtItsTick: fewer than M ticks pass between two calls of the scheduler.
- CoRoutineScheduler.Scheduler.Schedule: the class runs a scheduler call undisturbed; interrupts inside a call are steps in CoRoutineWakeups. The body of a co-routine is not modelled, only the choice of it.
- Lists in modules other than IntrusiveLists are sequences; InsertShows and RemoveShows tie them to the pointer structure.
- Event groups: the layout of the control byte is that of 32-bit and wider ticks; deletion and the deferral of interrupt calls to the timer daemon are left out; the in-use mark the task scheduler keeps in an item value is in the control byte and is not modelled.
- Requantize.RequantizeError: the left shift does not overflow and shift counts are at most 30, where C defines them.
- The rest of NMSIS, the RT-Thread and uC/OS-II headers, drivers and hardware access: declarations, tables or straight-line code.
