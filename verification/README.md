# kit_server: a verified model of its hard cores

kit_server is a coroutine server framework. This project models the parts of it that keep state by
hand and proves, for every input or every interleaved run, what that state stands for.

| files | what they model |
|---|---|
| `Runtime.dfy`, `RuntimeTasks.dfy`, `RuntimeTokens.dfy`, `RuntimeCors.dfy`, `RuntimeSafety.dfy`, `RuntimeTheorems.dfy`, `RuntimeSetups.dfy`, `RuntimeShutdown.dfy`, `RuntimeUnclean.dfy`, `RuntimeCleanIff.dfy`, `RuntimeQueue.dfy`, `RuntimeCallbacks.dfy`, `RuntimeStates.dfy`, `RuntimeProgress.dfy` | the coroutine runtime: N workers in `Scheduler::run` and `IOManager::idle`, the task queue, coroutine states, event slots, timers and shutdown, as a transition system |
| `Common.dfy` | types the parts share |
| `Hook.dfy`, `HookAnswers.dfy` | one hooked I/O call (`do_io`): park, wake and timeout over any number of retries |
| `EventTable.dfy` | `IOManager`'s event table with its pending count and epoll's interest set, as a class |
| `Timers.dfy` | `TimerManager`: the set ordered by a mutable key, expiry, and the wake-up flag, as classes |
| `Blocks.dfy`, `ByteArray.dfy`, `SocketStream.dfy` | `ByteArray`: the block list that behaves as one flat byte sequence, and the zero-copy windows |
| `Codec.dfy`, `Stream.dfy`, `StreamBytes.dfy` | byte order, varints, ZigZag, length-prefixed strings and whole typed streams |
| `AddressText.dfy`, `AddressForm.dfy`, `AddressPrefix.dfy`, `NetworkOrder.dfy` | the IPv6 printer and the prefix masks |

## How the runtime is modelled

`Runtime.State` holds the queue, the coroutines, the program counter of each worker, the registered
events and the timers. One step (`Runtime.Next`) is one critical section of `m_mutex` or of a
descriptor's lock, or one atomic operation; a run is any sequence of enabled steps, so every theorem
holds for every interleaving. Some fields are auxiliary: no step decides anything by them. They say
where each task is (`taskAt`), on which worker's stack a coroutine is (`on`), where its wake-up is
(`token`), and which registration made which task (`parks`, `Task.from`).

Assumptions, most of them about what is one step:

- `IOManager::stopping()` is three steps, one per read: the pending count, the timers, and
  `Scheduler::stopping()`, which is one critical section.
- The registration of an event, its epoll call included, is one step, and so is growing the context
  table. A trigger is one step; the decrement of the pending count that follows it is another.
- The batch `schedule(begin, end)` of expired callbacks is one step per callback, and `cancelAll` is one
  step per event. Both allow more interleavings than the locks do.
- A coroutine suspends itself after leaving exactly one wake-up: on an event, in a sleep timer, or
  with user code that will schedule it once (`Op.Lend`, `Op.Return`).
- Calls from threads that are not workers stop when `stop` is called.
- The base `Scheduler` is the same system without events and timers: its idle loop is the idle loop
  here with nothing to expire and nothing ready.
- A callback of an expired timer tests `canceled`, sets it and calls `cancelEvent` in three separate steps
  in `Hook.dfy`. There the timeouts of other calls on the descriptor are among the wakes that may come at any time.
- The wake-up pipe is not part of the runtime model: a worker in `epoll_wait` may return at any time.

## Findings

Places where the code does not do what its comments or its callers expect. Each has its exact
condition, proved for all inputs, and an instance or a run of the failing side.

- kit_server/scheduler.cpp:284-290. The active count goes down before a READY coroutine is queued
  again, and another worker's `stopping()` can succeed in between. For any two or more threads
  `RuntimeUnclean.ReadyLeavesWork` gives a run, without any event or timer, that ends with a task queued.
- kit_server/iomanager.cpp:452-456. The pending count, the timers and the queue are read one after the
  other. One worker can leave with a timer armed that was added before `stop` was called
  (`RuntimeUnclean.ReadsLeaveTimer`), and any two or more threads can leave with an event registered,
  without `YieldToReady` (`RuntimeUnclean.ReadsLeaveEvent`).
- Both together (`RuntimeCleanIff.CleanIff`): a shutdown always leaves nothing behind if and only if the
  caller of `stop` is the only thread, or no event or timer is added between the reads of `stopping()`
  and there is one thread or no `YieldToReady`. The base `Scheduler` has no events and timers, so for it
  the condition is one thread or no `YieldToReady`. No task without a pinned thread is left in any case
  (`RuntimeShutdown.CleanLeave`).
- kit_server/timer.cpp:243-244. `listExpiredCb` fires every due timer if and only if the clock was rolled
  back or no timer is overdue (`Timers.TimerManager.ListExpired`). One overdue timer stops all expiry for
  as long as it is left alone and the clock does not go back, whatever is done to the other timers
  (`Timers.OverdueNeverFires`; `Timers.OverdueTimer` is an instance).
- kit_server/timer.cpp:49-69. `refresh` never wakes the waiter. A waiter that was covered stays covered
  if and only if the call failed, a wake is already out, or the new deadline is not before the first
  deadline of the set (`Timers.TimerManager.Refresh`). A clock that does not go back guarantees that
  (`Timers.NoLostWakeUp`); `Timers.RefreshAfterClockWentBack` shows a loss.
- kit_server/timer.cpp:90-106. `reset` releases the lock between erasing and inserting. The set and the
  callbacks agree afterwards if and only if nobody cancels the timer in between; otherwise the cancel
  reports failure and a timer without a callback stays in the set (`Timers.TimerManager.ResetRaced`).
- kit_server/hook.cpp:181-190. A timeout can still wake a parked call if and only if a callback is on its
  way to `cancelEvent` or, while `canceled` is clear, a timer or its callback is still there
  (`Hook.TimeoutWakes`). With a timeout configured it is lost only after a `cancelEvent` that woke nobody
  (`Hook.LostOnlyIfMissed`): because it came before `addEvent` (`Hook.EarlyTimeoutIsLost`) or because
  `epoll_ctl` failed (`Hook.LateCancel`).
- kit_server/iomanager.cpp:568-603. `idle` aborts if and only if `epoll_ctl` works and some but not all of
  what it takes for ready is still registered (`EventTables.EventTable.HandleReady`);
  `EventTables.ReportedThenCancelled` does it.
- kit_server/iomanager.cpp:170-185. A grow that lost a race may shrink the table, and `addEvent` holds its
  context without a lock for a while. The table agrees with epoll and the pending count afterwards if and
  only if no event was registered beyond the new size and no `addEvent` held a context beyond it
  (`EventTables.AddEventsRaced`; `EventTables.RacedGrowLosesEvent` is an instance).
- kit_server/bytearray.cpp:228-248, 148-150 and 437-446. `setPosition(capacity)`, a read at the capacity
  that passes the range check, and `getReadBuf` up to the capacity follow a null block. The model makes
  this the outcome `NullDeref`, with an equivalence for each call; `Streams.NullBlocks` does all three.
- kit_server/bytearray.cpp:716-742. A stream is read back if and only if no string is longer than its
  length field can say and the stream does not end with an empty string that fills the last block
  (`Streams.RoundTrip`; `Streams.LongTextIsLost` and `Streams.EmptyTextIsLost` are instances).

## Model

| member | source | states |
|---|---|---|
| RuntimeSafety.RunInv | kit_server/scheduler.cpp:222-377 | every state of every run satisfies the whole invariant: task places, active count, wake-up places, coroutine states, callback coroutines and registrations agree |
| RuntimeSafety.StepInv | kit_server/scheduler.cpp:222-377 | each step of a worker, of user code or of `stop` keeps that invariant |
| RuntimeSafety.InitialInv | kit_server/scheduler.cpp:71-97 | it holds before anything is scheduled, for any number of workers, with or without the calling thread |
| RuntimeTheorems.TaskConservation | kit_server/scheduler.cpp:232-263 | an accepted task is once in the queue, or in exactly one worker's hand, or begun |
| RuntimeTheorems.TaskFlow | kit_server/scheduler.h:147-160 | no step forgets or alters a task, and it moves only from queue to the hand of the worker that took it to begun |
| RuntimeTheorems.ActiveCount | kit_server/scheduler.cpp:257-350 | `m_activeThreadCount` is the number of workers between a dequeue and their one decrement, so it never underflows, and it is zero exactly when no worker is in between |
| RuntimeTheorems.OneRunner | kit_server/scheduler.cpp:249-259 | no coroutine is on the stack of two workers |
| RuntimeTheorems.ResumeAfterYield | kit_server/coroutine.cpp:174-191 | the coroutine a worker is about to resume is INIT, HOLD or READY and on no worker, so the assertion in `swapIn` holds, even if its event fired before it yielded |
| RuntimeTheorems.AssertionsHold | kit_server/coroutine.cpp:148-171 | a callback coroutine is INIT when it is reused and a running coroutine is EXEC, as `reset`, `addEvent` and the yields assert |
| RuntimeTheorems.OneWakeUp | kit_server/iomanager.cpp:46-68 | over event slots, timers, expired callbacks, tasks, running callbacks and user code, the wake-up of a coroutine is in at most one place |
| RuntimeTheorems.NoLostCoroutine | kit_server/scheduler.cpp:279-343 | a coroutine on no worker has a wake-up if and only if it is neither finished nor a blank callback coroutine |
| RuntimeTheorems.NeverStuck | kit_server/scheduler.cpp:222-377 | a worker in `run` always has a step it can take |
| RuntimeTheorems.OneWakePerPark | kit_server/iomanager.cpp:316-351 | a registration is in the table and has made no task, or is out of it and has made exactly one, with the registered waiter |
| RuntimeTheorems.LaterTriggersLose | kit_server/iomanager.cpp:369-417 | once a registration has been triggered, in any run from there on, whoever triggers it again changes nothing: its one task stays the only one |
| RuntimeTheorems.DecidedOnce | kit_server/iomanager.cpp:546-603 | only a trigger of its own event decides a registration, and what became of it never changes |
| RuntimeShutdown.CleanLeave | kit_server/scheduler.cpp:100-198 | once all workers have left `run`, every task still queued is pinned to a thread, in any interleaving, `YieldToReady` included |
| RuntimeShutdown.EmptyScan | kit_server/scheduler.cpp:235-263 | a scan that finds nothing leaves only pinned tasks, or another worker still has a coroutine |
| RuntimeShutdown.SafeStep | kit_server/scheduler.cpp:174-179 | when the caller of `stop` is the only thread, no event or timer is added between its reads |
| RuntimeShutdown.CleanShutdown | kit_server/iomanager.cpp:452-618 | with the caller of `stop` as the only thread, or with no event or timer added between the reads of `stopping()` and one thread or no `YieldToReady`: once all have left, nothing is queued, registered or armed and every coroutine is finished, blank or kept by user code |
| RuntimeShutdown.RunOut | kit_server/scheduler.cpp:344-374 | under the same condition, outstanding work or a READY coroutine about to be queued implies a worker whose idle coroutine is not TERM, in every state of every run |
| RuntimeUnclean.ReadyLeavesWork | kit_server/scheduler.cpp:284-290 | for every count of two or more threads, a run with `YieldToReady` and without events and timers after which all have left and a task is queued |
| RuntimeUnclean.ReadsLeaveEvent | kit_server/iomanager.cpp:452-456 | for every count of two or more threads, a run without `YieldToReady` after which all have left and an event is registered |
| RuntimeUnclean.ReadsLeaveTimer | kit_server/iomanager.cpp:452-456 | a run of one worker that leaves with a timer armed before `stop` was called |
| RuntimeCleanIff.CleanIff | kit_server/iomanager.cpp:452-456 | over threads, use of `YieldToReady` and use of events and timers: every state in which all threads have left is clean if and only if the caller of `stop` is the only thread, or nothing is added between the reads and there is one thread or no `YieldToReady` |
| Runtime.ScanQueue | kit_server/scheduler.cpp:236-261 | the loop finds the first entry for this worker whose coroutine is not running |
| Runtime.FirstEligible | kit_server/scheduler.cpp:236-261 | that entry is eligible and none before it is |
| Runtime.NextMove | kit_server/scheduler.cpp:257-377 | a move of one worker moves its program counter alone, changes the active count accordingly, and touches no event |
| RuntimeTokens.ExpireTok | kit_server/iomanager.cpp:517-524 | moving any set of expired timers into a local keeps each wake-up in one place |
| RuntimeTokens.TriggerTok | kit_server/iomanager.cpp:57-67 | so does triggering an event |
| RuntimeCors.InHand | kit_server/scheduler.cpp:279-318 | what a worker may rely on when it begins a task: a coroutine that has yielded, or a blank callback coroutine |
| RuntimeQueue.TakesFirst | kit_server/scheduler.cpp:235-261 | a worker takes the first queued task that is neither pinned to another thread nor a coroutine some worker has, the others keep their order; if it finds nothing every queued task is one of these |
| RuntimeQueue.PinnedToHand | kit_server/scheduler.cpp:240-244 | in every reachable state a task in a worker's hand is pinned to that worker or to none |
| RuntimeQueue.Accepts | kit_server/scheduler.h:147-160 | which task, with which thread, each step makes, that it goes to the back of the queue, and that no other step changes queue or tasks except the scan |
| RuntimeCallbacks.PostsInOrder | kit_server/iomanager.cpp:517-524 | from the expiry check to the ready events, whatever the others do, each expired callback becomes one task of its own, in order |
| RuntimeCallbacks.TimerStep | kit_server/timer.cpp:153-184 | a timer is in the set with its callback from the step that adds it to the one that cancels it or, unless it recurs, finds it expired |
| RuntimeCallbacks.ExpireCollects | kit_server/timer.cpp:262-276 | an expiry check collects the callbacks of the timers it found, in order |
| RuntimeCallbacks.TimerRuns | kit_server/iomanager.cpp:517-524 | the callback of a timer that is left alone until a check finds it becomes a task, over any runs before and after the check, and the timer stays in the set exactly if it recurs |
| RuntimeCallbacks.ArmedRuns | kit_server/iomanager.cpp:517-524 | the same from `addTimer` on, for the callback it was given |
| RuntimeCallbacks.RegStep | kit_server/iomanager.cpp:185-239 | an event is registered from its `addEvent` to its trigger, for the running coroutine or the given callback |
| RuntimeCallbacks.PendingStep | kit_server/iomanager.cpp:216 | registered events and owed decrements together change by one with each `addEvent` and each decrement, and not otherwise |
| RuntimeCallbacks.ReadsZero | kit_server/iomanager.cpp:452-456 | the first read of `stopping()` passes exactly if both together are zero |
| RuntimeStates.StateDiagram | kit_server/coroutine.cpp:148-191 | a coroutine goes INIT, HOLD or READY to EXEC, EXEC to HOLD, READY, TERM or EXCEPTION, and from the last two to INIT only as a callback coroutine, each only by its own step |
| RuntimeProgress.TimerServed | kit_server/iomanager.cpp:486-524 | from any idle worker a run of its own takes up any timer in the set and queues its callback |
| RuntimeProgress.QueueServed | kit_server/scheduler.cpp:347-372 | a worker in `epoll_wait` has a run of its own that takes up a queued task that is for it, or one before it |
| RuntimeProgress.EventServed | kit_server/iomanager.cpp:585-599 | a worker behind `epoll_wait` may trigger any registered event, after `stop` as well, and its waiter is queued |
| RuntimeProgress.IdleLeaves | kit_server/scheduler.cpp:347-354 | after `stop`, with nothing outstanding, an idle worker has a run of its own that leaves `run` |
| Hook.RunKeeps | kit_server/hook.cpp:153-233 | the invariant of one hooked call over any run of call, registration, expiry, wake and resume, with the callback's test, its setting of `canceled` and its `cancelEvent` as separate steps and `epoll_ctl` free to fail |
| Hook.OneWakePerRound | kit_server/hook.cpp:153-233 | over any number of retries each park is woken exactly once before the coroutine runs again and no wake is left over |
| Hook.TimeoutMeansTimeout | kit_server/hook.cpp:178-228 | ETIMEDOUT is reported only if the descriptor has a timeout and its callback ran (exactly when: `HookAnswers.AnswerIff`) |
| Hook.TimeoutWakes | kit_server/hook.cpp:181-190 | some run of the timer alone wakes a parked call if and only if a callback is past its test, or `canceled` is clear and a timer or its callback is still there |
| Hook.LostOnlyIfMissed | kit_server/hook.cpp:181-195 | a call with a timeout that no timer can wake any more has had a `cancelEvent` that woke nobody |
| Hook.EarlyTimeoutIsLost | kit_server/hook.cpp:181-195 | a reachable parked call whose callback came between adding the timer and registering the event |
| Hook.LateCancel | kit_server/hook.cpp:186-195 | with the registration between setting `canceled` and `cancelEvent`, the callback wakes the call if `epoll_ctl` works and loses the timeout if not |
| Hook.LostForGood | kit_server/hook.cpp:181-212 | when nothing is on its way to `cancelEvent` and nothing will set out to, only readiness or close wakes the call, in every run |
| HookAnswers.AnswerIff | kit_server/hook.cpp:153-233 | in every run: the call has returned n if and only if its system call said n last, ETIMEDOUT if and only if it was resumed last after a callback had set `canceled`, and -1 without waiting if and only if its last step was a registration that failed |
| HookAnswers.GoesOn | kit_server/hook.cpp:153-230 | otherwise its last own step says whether it tries again, is about to register, or is parked |
| HookAnswers.ForgottenForGood | kit_server/hook.cpp:178-190 | once the call has returned and no callback holds its `tinfo`, no timer of it ever sets `canceled` or cancels an event again |
| HookAnswers.ReadinessWakes | kit_server/hook.cpp:212-230 | readiness wakes a parked call, which then tries again with its timer gone, unless `canceled` was set |
| EventTables.EventTable.constructor | kit_server/iomanager.cpp:115-116 | the table starts valid with nothing registered |
| EventTables.EventTable.ContextResize | kit_server/iomanager.cpp:141-154 | every context below the new size keeps its registrations, new ones are empty and numbered, and those beyond it are dropped |
| EventTables.ShrinkKeepsIff | kit_server/iomanager.cpp:173-182 | at the moment of a shrink, contexts, count and interest set agree if and only if nothing is registered beyond the new size |
| EventTables.EventTable.AddToContext | kit_server/iomanager.cpp:184-242 | the part of `addEvent` under the lock of the context it was handed, in the table or not |
| EventTables.AddEventsRaced | kit_server/iomanager.cpp:170-185 | any number of `addEvent` calls hold their contexts while the table is resized, then register: everything agrees if and only if nothing was registered and no context was held beyond the new size |
| EventTables.RacedGrowLosesEvent | kit_server/iomanager.cpp:170-185 | an instance with descriptor 1000 and a table that shrinks to 450 |
| EventTables.EventTable.EpollCtl | kit_server/iomanager.cpp:199-206 | callers issue ADD exactly for unwatched descriptors; a failed call changes nothing |
| EventTables.EventTable.AddEvent | kit_server/iomanager.cpp:158-244 | aborts exactly on a double registration, fails exactly when epoll does, otherwise registers this waiter and changes no other registration |
| EventTables.EventTable.DelEvent | kit_server/iomanager.cpp:247-301 | removes exactly a registered event and wakes nobody |
| EventTables.EventTable.TriggerEvent | kit_server/iomanager.cpp:46-68 | fails its assertion exactly when the bit is clear; otherwise posts the waiter to its scheduler and leaves an empty slot |
| EventTables.EventTable.CancelEvent | kit_server/iomanager.cpp:304-354 | wakes the waiter if and only if the event was registered and epoll worked, and changes no other registration |
| EventTables.EventTable.CancelAll | kit_server/iomanager.cpp:357-422 | wakes the waiters of both events, READ first, and leaves nothing of the descriptor |
| EventTables.EventTable.HandleReady | kit_server/iomanager.cpp:543-603 | the exact conditions for waking, for doing nothing and for the assertion failure when only part of the reported events is registered |
| EventTables.ReportIff | kit_server/iomanager.cpp:552-603 | event by event: `idle` acts if a registered event was reported or there was an error, and then aborts exactly if an event was reported that is not registered |
| EventTables.ReportedThenCancelled | kit_server/iomanager.cpp:568-603 | both events reported, one cancelled before the lock is taken: it aborts |
| EventTables.TryWake | kit_server/iomanager.cpp:543-603 | timeout, readiness of any reported events with or without an error bit, and close post exactly the waiters they cover and find registered; readiness aborts exactly on a partly registered report |
| EventTables.Contend | kit_server/iomanager.cpp:316-351 | after any sequence of attempts on a descriptor up to the first that aborts, each registered waiter has been posted once if some attempt covers it and otherwise not at all |
| EventTables.TotalUpdate | kit_server/iomanager.cpp:216-219 | changing one context changes the number of set bits by the difference |
| EventTables.Replace | kit_server/iomanager.cpp:268-293 | contexts, count and interest set still agree after one context and the matching epoll call change |
| Timers.FindIff | kit_server/timer.cpp:113-135 | searching the sorted set by deadline and address finds a timer exactly when it is in the set |
| Timers.InsertOrder | kit_server/timer.cpp:165-170 | inserting an absent timer keeps the set strictly sorted and adds exactly that timer |
| Timers.EraseOrder | kit_server/timer.cpp:63-65 | erasing keeps it sorted and removes exactly that timer |
| Timers.TimerManager.AddTimer | kit_server/timer.cpp:153-184 | the new timer is in the set with its 64-bit deadline, the set is valid, and a waiter stays covered |
| Timers.TimerManager.InsertTimer | kit_server/timer.cpp:165-184 | a wake goes out exactly when the timer is first and the flag was down; whatever deadline a waiter was covered for before the insertion it is covered for after it |
| Timers.TimerManager.Cancel | kit_server/timer.cpp:27-46 | succeeds exactly if the timer had a callback, and then it is out of the set |
| Timers.TimerManager.TakeOut | kit_server/timer.cpp:55-63 | `find` succeeds exactly if the timer is in the set, and its key is free to change afterwards |
| Timers.TimerManager.Refresh | kit_server/timer.cpp:49-69 | the new deadline; whatever a waiter was covered for it still is, if and only if the call failed, a wake is out or the new deadline is not before the first |
| Timers.TimerManager.Reset | kit_server/timer.cpp:72-109 | with nobody in between, the new period and deadline from now or from the old start, with 64-bit wrap-around; a waiter stays covered |
| Timers.TimerManager.ResetErase | kit_server/timer.cpp:77-103 | the first critical section: the timer is out of the set with its new key |
| Timers.TimerManager.ResetRaced | kit_server/timer.cpp:90-106 | with a cancel between the two sections the set keeps a timer without a callback and the cancel fails; without one the set is valid again |
| Timers.TimerManager.GetNextTime | kit_server/timer.cpp:209-223 | the time to wait, the flag is down, and the waiter is covered for the deadline it was told |
| Timers.RolledBackIff | kit_server/timer.cpp:282-291 | a rollback is reported exactly when the clock went back by over an hour, or went back at all while the last time was in its first hour, where the subtraction wraps |
| Timers.AnHourBack | kit_server/timer.cpp:282-291 | going back 3600000 ms is no rollback, going back 3600001 ms is one |
| Timers.TimerManager.DuePrefix | kit_server/timer.cpp:249-255 | the position found is the end of the timers due now, or of the set after a rollback |
| Timers.TimerManager.FireAll | kit_server/timer.cpp:262-276 | the callbacks in order; a recurring timer is back in the set one period from now, any other has lost its callback |
| Timers.TimerManager.ListExpired | kit_server/timer.cpp:226-278 | each timer fires once or is untouched, in set order; none later than now fires without a rollback; all due timers fire if and only if there was a rollback or none is overdue |
| Timers.OverdueNeverFires | kit_server/timer.cpp:243-244 | while one overdue timer is left alone and the clock does not go back, no expiry check fires anything, with any additions and any operations on other timers in between |
| Timers.OverdueTimer | kit_server/timer.cpp:243-244 | an instance: due at 1100, not fired at 1200 |
| Timers.CheckBounded | kit_server/timer.cpp:226-278 | an expiry check by any worker keeps every timer started by the clock and a waiter covered |
| Timers.Sleep | kit_server/iomanager.cpp:486-511 | while one waiter sleeps, a first deadline earlier than the one slept on means the flag is up and a wake was issued |
| Timers.NoLostWakeUp | kit_server/iomanager.cpp:486-511 | the same from the constructor on, in any run of add, cancel, refresh, reset, expiry checks by any worker and questions by the waiter, with a clock that does not go back |
| Timers.RefreshAfterClockWentBack | kit_server/timer.cpp:49-69 | a run with a clock that goes back, an earlier first deadline and no wake |
| ByteArrays.ByteArray.constructor | kit_server/bytearray.cpp:44-54 | an empty valid array of one block |
| ByteArrays.ByteArray.Clear | kit_server/bytearray.cpp:71-85 | back to the empty view over the first block |
| ByteArrays.ByteArray.AddCapacity | kit_server/bytearray.cpp:319-361 | capacity grows to the next multiple of the block size that holds the request; no byte changes and the cursor block is right again |
| ByteArrays.ByteArray.Write | kit_server/bytearray.cpp:88-137 | the flat view after the call is the old one with the bytes at the cursor, everything else unchanged, size and cursor moved |
| ByteArrays.ByteArray.Read | kit_server/bytearray.cpp:141-185 | returns what the flat view holds at the cursor, or out-of-range, or the null block, each under its exact condition |
| ByteArrays.ByteArray.SetPosition | kit_server/bytearray.cpp:228-248 | moves the cursor and its block; out-of-range above capacity, null block exactly at capacity |
| ByteArrays.ByteArray.CursorBlock | kit_server/bytearray.cpp:96-98 | the current block is number position / base, and it is null exactly at the capacity |
| ByteArrays.ByteArray.FlatIsBlocks | kit_server/bytearray.cpp:319-361 | capacity is base times the number of blocks, and byte k is byte k mod base of block k / base |
| ByteArrays.ByteArray.GetWriteBuf | kit_server/bytearray.cpp:502-538 | the windows tile exactly the next len positions, after growing for them |
| ByteArrays.ByteArray.GetReadBuf | kit_server/bytearray.cpp:415-452 | the windows tile exactly what a read would return; null block exactly when they end at the capacity |
| ByteArrays.TilesDisjoint | kit_server/bytearray.cpp:512-535 | windows that tile a range do not overlap |
| ByteArrays.GatherTiles | kit_server/bytearray.cpp:424-449 | gathering tiling windows gives the flat bytes of the range |
| ByteArrays.WriteTwice | kit_server/bytearray.cpp:88-137 | two writes in a row have the effect of one write of both |
| SocketStreams.Receive | kit_server/socket_stream.cpp:37-56 | receiving through the windows has the effect of writing the bytes at the cursor, with the null block at the capacity as the one exception |
| SocketStreams.Send | kit_server/socket_stream.cpp:69-84 | the windows offer exactly the bytes a read would return and the cursor moves past those taken |
| SocketStreams.Scatter | kit_server/socket_stream.cpp:45-48 | filling tiling windows in order overwrites the flat range and nothing else |
| Blocks.CeilDiv | kit_server/bytearray.cpp:331-333 | the number of blocks to add, rounded up |
| Codec.SwapReverses | kit_server/endian.h:22-54 | swapping a value of any width reverses its bytes |
| Codec.SwapTwice | kit_server/endian.h:22-54 | swapping twice gives the value back |
| Codec.StoreOnHost | kit_server/bytearray.cpp:552-605 | swapping when the orders differ puts the bytes of the wanted order in memory on either host |
| Codec.ReadOnHost | kit_server/bytearray.cpp:764-803 | and reading back undoes it on either host |
| Codec.VarintRoundTrip | kit_server/bytearray.cpp:810-858 | the decoder's loop returns the value and consumes exactly its bytes |
| Codec.VarintLength | kit_server/bytearray.cpp:663-699 | a value below 2^(7k) takes at most k bytes |
| Codec.VarintPrefixFree | kit_server/bytearray.cpp:663-699 | no encoding is a proper prefix of another |
| Codec.ZigzagRoundTrip | kit_server/bytearray.cpp:611-656 | decoding inverts encoding for every signed integer of the width, the smallest included |
| Codec.ZigzagOnto | kit_server/bytearray.cpp:611-656 | encoding inverts decoding, so ZigZag is a bijection |
| Streams.WriteNumber | kit_server/bytearray.cpp:542-605 | the bytes written depend on the order of the array alone, not on the host |
| Streams.LoadNumber | kit_server/bytearray.cpp:751-803 | the number read is the one the flat bytes mean in the array's order |
| Streams.VarintBytes | kit_server/bytearray.cpp:663-699 | the loop fills its buffer of 5 or 10 bytes with exactly the encoding and never runs over it |
| Streams.LoadVarint | kit_server/bytearray.cpp:810-858 | the reading loop agrees with the decoder on the flat view |
| Streams.WriteText | kit_server/bytearray.cpp:716-742 | a length cut to its width, then the bytes |
| Streams.ValueRoundTrip | kit_server/bytearray.cpp:751-913 | when one value is read back, when the null block is followed, when a cut length loses it |
| Streams.StreamRoundTrip | kit_server/bytearray.cpp:542-913 | a list of values is read back if and only if every length fits and the list does not end with an empty string at the capacity |
| Streams.WriteAll | kit_server/bytearray.cpp:542-747 | writing a list has the effect of writing the concatenated encodings |
| Streams.ReadAll | kit_server/bytearray.cpp:751-913 | reading a list of kinds agrees with the decoder on the flat view, failures included |
| Streams.RoundTrip | kit_server/bytearray.cpp:542-913 | write all, rewind, read all: the same values and nothing left, for any block size, host and byte order, under the exact condition |
| Streams.NullBlocks | kit_server/bytearray.cpp:148-150 | a full buffer on which reading nothing, a window to the end and moving to the end all follow a null block |
| Streams.EmptyTextIsLost | kit_server/bytearray.cpp:723-728 | an empty string whose length fills the only block is not read back |
| Streams.LongTextIsLost | kit_server/bytearray.cpp:716-721 | no string of 65536 bytes is read back through a two-byte length |
| StreamBytes.FixedByte | kit_server/bytearray.cpp:542-605 | a fixed-width integer, signed or not, is written as the base-256 digits of its two's complement, the most significant first in big-endian order and last in little-endian order |
| StreamBytes.LoadedByte | kit_server/bytearray.cpp:751-803 | any bytes are the digits, in that order, of the value they are read as |
| StreamBytes.VarintByte | kit_server/bytearray.cpp:663-699 | seven bits of the value in each byte, the low ones first, with the high bit on every byte but the last |
| StreamBytes.VarintMinimal | kit_server/bytearray.cpp:663-699 | as many bytes as the value needs and no more |
| StreamBytes.VarintMeaning | kit_server/bytearray.cpp:810-858 | any bytes, not only those of a writer: a read takes them up to the first without the high bit or to the width and returns their value cut to the width |
| StreamBytes.TextBytes | kit_server/bytearray.cpp:716-735 | two, four or eight bytes with the low digits of the length, then the string |
| AddressText.Print | kit_server/address.cpp:580-618 | the printer's loop writes the first run of zero groups as `::`, all other groups in full, and the port |
| AddressText.PrintGroup | kit_server/address.cpp:590-607 | what one turn of the loop adds |
| AddressText.TextRoundTrip | kit_server/address.cpp:580-618 | a parser for section 2.2 of RFC 4291 reads back the same groups and port from every printed address |
| AddressText.TextInjective | kit_server/address.cpp:580-618 | different addresses or ports have different text |
| AddressText.DoubleOnce | kit_server/address.cpp:595-610 | the text contains `::` exactly if some group is zero, and then at exactly one place |
| AddressText.NumeralRoundTrip | kit_server/address.cpp:606-613 | printed hexadecimal and decimal numbers are read back |
| AddressForm.WholeRun | kit_server/address.cpp:590-611 | the character behind `::` is never 0, so `::` stands for the whole first run of zero groups |
| AddressForm.NumeralForm | kit_server/address.cpp:606-613 | numbers are printed in lower-case digits of their base, and only zero begins with a 0 |
| AddressForm.Loopback | kit_server/address.cpp:580-618 | the address ::1 with port 80 is printed as `[::1]:80` |
| AddressPrefix.CountBytes | kit_server/address.cpp:36-44 | clearing the lowest one until zero counts the ones of the binary notation |
| AddressPrefix.Prefix4 | kit_server/address.cpp:466-488 | in network byte order the subnet address has the host bits cleared and the broadcast address has them set, on either host |
| AddressPrefix.MaskIsPrefix4 | kit_server/address.cpp:490-503 | the mask is len leading ones in network byte order and counting its ones gives len |
| AddressPrefix.MaskLaws4 | kit_server/address.cpp:466-503 | subnet is address AND mask, broadcast is address OR NOT mask |
| AddressPrefix.Network4 | kit_server/address.cpp:466-488 | the addresses that share the prefix are exactly those from subnet to broadcast address, and have the same subnet address |
| AddressPrefix.Idempotent4 | kit_server/address.cpp:466-488 | the subnet of a subnet address and the broadcast of a broadcast address are themselves |
| AddressPrefix.SwapBitwise | kit_server/endian.h:22-54 | byte swapping commutes with the bit operators |
| AddressPrefix.Subnet6 | kit_server/address.cpp:638-652 | the 16 bytes are the 128-bit number with the host bits cleared; null above 128, undefined at 128 |
| AddressPrefix.Broadcast6 | kit_server/address.cpp:621-636 | the same with the host bits set |
| AddressPrefix.Mask6 | kit_server/address.cpp:654-670 | the bytes are len leading ones |
| AddressPrefix.Network6 | kit_server/address.cpp:621-670 | AND, OR NOT, the range of the network, and the ones of the mask, for every address and length below 128 |
| AddressPrefix.Idempotent6 | kit_server/address.cpp:621-652 | the subnet address of a subnet address and the broadcast address of a broadcast address are the same bytes |
| AddressPrefix.PrefixLength6 | kit_server/address.cpp:299-305 | summing the ones of the bytes counts the ones of the number |
| AddressPrefix.MaskRoundTrip6 | kit_server/address.cpp:299-305 | and on the mask for a length gives that length |
| AddressPrefix.PrefixIsRange | kit_server/address.cpp:466-488 | for numbers of any size: sharing the high bits is lying between cleared and filled |
| AddressPrefix.PrefixCanonical | kit_server/address.cpp:466-488 | sharing the high bits is having the same cleared, and the same filled, number |
| NetworkOrder.WordBytes4 | kit_server/address.cpp:466-503 | on either host the memory bytes of a stored word are the digits, most significant first, of the number the theorems about prefixes speak of |
| NetworkOrder.ValueBytes6 | kit_server/address.cpp:621-670 | and the 16 bytes are the digits of the 128-bit number |

## Left out

- The Ragel machines for URI and HTTP, the HTTP session and connection loops, and `Stream::readFixSize`/`writeFixSize`: mechanical states or framing the code does not settle.
- `writeToFile` and `readFromFile`, logging, configuration, environment, daemon, servlets, connection pool and descriptor manager: I/O or simple bookkeeping.
- Sockets, DNS, ucontext switching, threads and mutexes: they appear only as atomic steps or as inputs. Clocks and results of system calls are parameters.
- The wake-up pipe: that a worker in `epoll_wait` is woken in time is not stated; `tickle` and the erased-iterator test at kit_server/scheduler.cpp:263 only decide whether to write to the pipe.
- `delEvent` is in the event table but not in the runtime: nothing in the modelled hooks calls it.
- Kernel-side removal of a closed descriptor from epoll: `close` is hooked and cancels first.
- The linked list of blocks is a sequence with an index for the cursor block, so `next` pointers and their release are not modelled; the index one past the end is the null pointer. The const `read` and the `getReadBuf` with a position, which are right only for the current position, are left out.
- Floats and doubles are their bit patterns, which are fixed-width unsigned values here.
- Memory exhaustion, and block arithmetic above 2^53, where the `ceil` on a double is not exact.
- An address is not reused while its timer may still be referred to: every timer of a manager has its own address.
- Timers.TimerManager.Reset: says what its two critical sections do when nothing comes between them; `ResetRaced` says what a cancel in between does, other operations in between are not modelled.
- Timers.TimerManager.InsertTimer: counts the wake when it is decided on; the code issues it after the lock is released.
- `connect_with_timeout`, which parks once in the way `do_io` does, has no model of its own.
- Codec.ZigzagRoundTrip: is on wrapping integers; the signed arithmetic of kit_server/bytearray.cpp:616-619 and 632-635 overflows for the smallest and for large values, which C++ leaves undefined.
- Timers.NoLostWakeUp: assumes deadlines that do not wrap around 64 bits, a clock past its first hour, and an expiry check that gets the lock within an hour of reading the clock.
- AddressPrefix.Prefix4: lengths 0 and 1 are `Undefined`, since the int shift by 32 or 31 is not defined.
- Unix addresses, address lookup and the comparison operators of addresses.
