# Verified models of the lock-free, timing and project-generator code

This Dafny project models six parts of the repository and proves what they promise.

- **Lock-free algorithms** (`rtatomic.h`). `AtomicCell` holds the soft atomic operations and the
  retry loop `rt_atomic_fetch_add_unless`, run in place against an environment that changes the
  word before each compare-exchange. `RefCount` and `LockFreeList` are transition systems with any
  number of threads, one shared load, store or compare-exchange per step, every interleaving
  allowed. The LIFO is linearizable when no node is enqueued twice, and when there is a single
  dequeuer; in general, re-enqueuing a node is harmless exactly when no dequeuer still holds it,
  and a short run with two dequeuers shows the ABA failure. The class `SharedList` runs the same
  statements in place on a heap and is proved to follow the transition system.
- **Hook lists** (`rtdef.h` over `rt_list_*`). `HookList` interleaves any number of hook calls,
  `sethook`s and `rmhook`s, every pointer store being a step. `nested` is the number of calls in
  progress, a pointer changes only when there is none, and each completed call has run exactly the
  hooks registered when it incremented `nested`, once each, in registration order. Calls and
  mutations may be begun inside a handler; all activities can end if and only if no handler is
  waiting for a sethook or rmhook of its own.
- **Intrusive lists** (`rtservice.h`). `IntrusiveLists` proves the C pointer code on a heap of
  objects against sequences of nodes; the `modifies` clauses name the only nodes that change.
- **Hardware timer** (`hwtimer.c` on `drv_hwtimer.c`). `TickSplit` and `TimeoutSearch` prove the
  search that splits a time into rounds (where it stops, when its int counter overflows, quality of
  the split, when it fails); `HwTimer` follows the counter tick by tick through interrupts, in both
  modes, and bounds the error of a read.
- **PWM** (`pwm.c` on `drv_rockchip_pwm.c`). `Pwm` has the two conversions in 32- and 64-bit
  arithmetic, the register updates, the invariant over every run of commands, and the exact drift
  of the period register under repeated writes. `CommonDivisors` supplies the number theory.
- **Bounded buffer** (`sem_example.c`). `ProducerConsumer` takes the buffer size and the number of
  items as parameters and proves every interleaving.
- **Project generator** (`utils.py`, `eclipse.py`). `PosixPath` models the `posixpath` functions on
  strings, `RelativePath` the relative path and its resolution, `RewrittenPaths` what rewriting
  backslashes does to it, `ProjectTree` the excluded directories as an exact cover of what is not
  used.

Sequential code is imperative here too: classes with fields for objects, arrays for buffers,
methods with loops for loops. Protocols are transition systems on values with a class beside them
whose methods are the C statements, each proved equal to a step.

## Where the code falls short

- `timeout_calc` divides by `index == 0` when the first divisor that fits loses more than a second
  (`SearchCanFail`, `FailsAtFirstFit`, and `SearchFails` in general). A request of at most `maxcnt`
  seconds is never affected (`NeverFails`).
- The loop counter `i` of the search is an int. `EndsIff` says exactly when some divisor stops the loop
  before `i++` overflows, from the first divisor that fits; 6,000,000 s on a 24 MHz timer of 16 bits do
  overflow it (`IntCanOverflow`), and so does 0.75 s at 2 Hz on a counter of one tick, for which no
  divisor at all would stop (`OneTickCounter`).
- A read in one-shot mode forgets all expiries before the last (`OneShotRead`).
- A sethook or rmhook issued by a handler never returns (`HandlerMutatesForever`,
  `SelfDeadlockReachable`).
- `_make_path_relative` turns backslashes into slashes even where they belong to file names: from an
  origin without backslashes the result leads to dest if and only if dest has none
  (`ResolvesIffDestClean`). When both may have them, `ResolvesIff` has the condition for equal roots,
  `ResolvesIffOtherRoot` and `ResolvesIffStartsDiffer` for different ones.
- Above 1 GHz, and only there, a SET can leave a duty above its period (`OrderIffGigahertz`).
- Every accepted `_pwm_write` whose period is not a whole number of nanoseconds costs the period
  register a tick (`WriteLosesATick`, `Drift`).
- The producer and the consumer get stuck if there is no slot or no item (`StuckIff`).
- The LIFO breaks under ABA (`AbaReachable`, `ReuseBreaksIffHeld`).

## Model

| member | source | states |
|---|---|---|
| `AtomicCell.Cell.Sub` | rt-thread/include/rtatomic.h:74-84 | returns the old value; the difference wraps at 64 bits |
| `AtomicCell.Cell.CompareExchangeStrong` | rt-thread/include/rtatomic.h:164-183 | succeeds exactly if the value equals `expected`; otherwise the value is kept and reported in `expected` |
| `AtomicCell.Cell.DecAndTest` | rt-thread/include/rtatomic.h:185-188 | true exactly if the decrement took the value from 1 to 0 |
| `AtomicCell.Cell.FetchAddUnless` | rt-thread/include/rtatomic.h:190-203 | after finitely many stores of other threads between its accesses, whatever they are, the loop has ended, its effect is one atomic add-unless on the value returned, and each retry was caused by a change since the previous observation |
| `AtomicCell.Cell.IncNotZero` | rt-thread/include/rtatomic.h:205-214 | at the first zero it sees it gives up, leaving the cell at 0; else it leaves the value it returns on plus one |
| `RefCount.FetchAddUnlessIsAtomic` | rt-thread/include/rtatomic.h:190-203 | in every interleaving each operation takes effect atomically in the step in which it returns, and returns the value it found there |
| `RefCount.StepReturns` | rt-thread/include/rtatomic.h:190-203 | a thread leaves the loop exactly in a step that returns, with its own operands and the value found; until then it goes on with the same call |
| `RefCount.CallsReturn` | rt-thread/include/rtatomic.h:190-203 | over every run the calls of each thread are, in order, those that returned and the one it is still in |
| `RefCount.RetriesBounded` | rt-thread/include/rtatomic.h:190-203 | a thread retries at most once per change of the word made by another thread since its last observation |
| `RefCount.OwnStepsBounded` | rt-thread/include/rtatomic.h:190-203 | a call takes two steps of its thread and one more per retry, so no call goes on for ever by itself |
| `RefCount.StepKeepsCounting` | rt-thread/include/rtatomic.h:185-214 | every step of every thread keeps the counter equal to the number of references held |
| `RefCount.RunIsAccounted` | rt-thread/include/rtatomic.h:185-214 | over a whole run of any length each take and each drop returns the exact number of references at that moment |
| `RefCount.LastDropOnce` | rt-thread/include/rtatomic.h:185-214 | a drop reports being the last exactly once if everything is dropped in the end, else never; from 0 on no take succeeds |
| `RefCount.CounterIsReferences` | rt-thread/include/rtatomic.h:185-214 | all of this, every call accounted for, for every run of the protocol, of any length, that never holds more references at once than the word can count |
| `LockFreeList.StepRefines` | rt-thread/include/rtatomic.h:226-248 | one step of any thread is one step of an atomic LIFO on the list the heap holds, and keeps the invariant |
| `LockFreeList.RunRefines` | rt-thread/include/rtatomic.h:226-248 | every interleaving in which no held node is re-enqueued is accepted by the atomic LIFO, null results included, and the heap ends up holding its contents |
| `LockFreeList.ChainUnique` | rt-thread/include/rtatomic.h:221-248 | the heap determines the abstract list |
| `LockFreeList.Conservation` | rt-thread/include/rtatomic.h:226-248 | start + pushed = popped + remaining, as multisets of nodes |
| `LockFreeList.StepReturns` | rt-thread/include/rtatomic.h:226-248 | a thread leaves an enqueue exactly with the push of its own node, and a dequeue exactly with the pop of the node it observed or with an empty list |
| `LockFreeList.EnqueuesReturn` | rt-thread/include/rtatomic.h:226-234 | over every run each thread pushes the nodes of its calls, in order, up to the one it is working on |
| `LockFreeList.DequeuesReturn` | rt-thread/include/rtatomic.h:236-248 | and gets one pop or null result for each dequeue, but for the one it is in |
| `LockFreeList.AllEnqueuesReturn` | rt-thread/include/rtatomic.h:226-234 | over all threads: nodes passed to enqueue = nodes pushed + nodes still being enqueued |
| `LockFreeList.OnceImpliesHazardFree` | rt-thread/include/rtatomic.h:226-248 | enqueuing each node at most once rules the hazard out |
| `LockFreeList.OnceOnlyLinearizable` | rt-thread/include/rtatomic.h:221-248 | any number of enqueuers and dequeuers, each node enqueued at most once: linearizable to a LIFO and conservative, and every call returns with its effect or is still at work |
| `LockFreeList.SingleImpliesHazardFree` | rt-thread/include/rtatomic.h:236-248 | with one dequeuer the observed head cannot be removed and linked again under it |
| `LockFreeList.SingleDequeuerLinearizable` | rt-thread/include/rtatomic.h:221-248 | one dequeuer, nodes reused freely by their owners: linearizable to a LIFO and conservative, and every call returns with its effect or is still at work |
| `LockFreeList.StaleSuccessorBreaks` | rt-thread/include/rtatomic.h:245-246 | re-enqueuing a node whose successor a dequeuer has already read can corrupt the list |
| `LockFreeList.EarlySuccessorBreaks` | rt-thread/include/rtatomic.h:226-248 | so can re-enqueuing one whose successor it is about to read |
| `LockFreeList.ReuseBreaksIffHeld` | rt-thread/include/rtatomic.h:226-248 | from any state of the invariant, an enqueue of an owned node can lead to a non-LIFO run if and only if some dequeuer holds that node |
| `LockFreeList.AbaReachable` | rt-thread/include/rtatomic.h:226-248 | from the empty list, two dequeuers and one reused node reach such a run |
| `LockFreeList.RetriesBounded` | rt-thread/include/rtatomic.h:226-248 | each failed compare-exchange of a thread is paid for by a different successful one of another thread since its last observation |
| `LockFreeList.OwnStepsBounded` | rt-thread/include/rtatomic.h:226-248 | a call takes three steps of its thread and two more for each retry |
| `LockFreeList.LockFree` | rt-thread/include/rtatomic.h:226-248 | so only successful calls of other threads can keep a thread's calls from returning |
| `LockFreeList.SharedList.CompareExchange` | rt-thread/include/rtatomic.h:164-183 | compare-exchange on the list head |
| `LockFreeList.SharedList.EnqueueStep` | rt-thread/include/rtatomic.h:226-234 | the next statement of an enqueue, on the heap, is the step of the transition system |
| `LockFreeList.SharedList.DequeueStep` | rt-thread/include/rtatomic.h:236-248 | the next statement of a dequeue, on the heap, is the step of the transition system |
| `LockFreeList.SharedList.Execute` | rt-thread/include/rtatomic.h:221-248 | running any schedule in place gives the state and events of the transition system |
| `LockFreeList.SharedList.ExecuteOnceOnly` | rt-thread/include/rtatomic.h:221-248 | from an initialised list, any schedule without a repeated enqueue behaves as a LIFO whose contents the heap holds, with every call accounted for |
| `HookList.SetExtendsRing` | rt-thread/include/rtservice.h:69-76 | the four stores of an insertion before the head, one by one, append the node to the ring |
| `HookList.RmShrinksRing` | rt-thread/include/rtservice.h:82-88 | the four stores of a removal take the node out of the ring, or change nothing if it was not in it |
| `HookList.StepKeepsCounting` | rt-thread/include/rtdef.h:432-449 | every step keeps `nested` equal to the number of calls in progress, re-entrant ones included |
| `HookList.StepKeepsQuiet` | rt-thread/include/rtdef.h:392-417 | no call can begin while a writer is between its stores |
| `HookList.StepKeepsShape` | rt-thread/include/rtdef.h:392-417 | the heap is always what the stores done so far by the writer have made of a proper ring of the registered hooks |
| `HookList.StepKeepsCalls` | rt-thread/include/rtdef.h:432-449 | a call has always run a prefix of the hooks it started with, and its cursor stands on the next |
| `HookList.StepKeepsInv` | rt-thread/include/rtdef.h:392-449 | the whole invariant is kept by every step of every activity |
| `HookList.RunKeepsInv` | rt-thread/include/rtdef.h:392-449 | and by every run |
| `HookList.CallsRunTheirSnapshot` | rt-thread/include/rtdef.h:392-449 | in every reachable state `nested` counts the calls in progress and every completed call has run exactly the hooks registered at its increment, once each and in order |
| `HookList.ListChangesOnlyWhenQuiet` | rt-thread/include/rtdef.h:392-417 | a step from a reachable state changes a pointer only if no call is in progress |
| `HookList.StepTakesEffect` | rt-thread/include/rtdef.h:392-449 | a call takes effect with its increment and the hooks registered then, a mutator with the step that appends its node or takes it out, the others keeping their order |
| `HookList.CompletedCall` | rt-thread/include/rtdef.h:432-449 | every completed call has incremented nested at one moment of its life and run exactly the hooks registered at that moment, in order |
| `HookList.CompletedMutation` | rt-thread/include/rtdef.h:392-417 | every completed sethook has appended its node and every completed rmhook removed it, in a step of its own |
| `HookList.RemovedHookIsNotRun` | rt-thread/include/rtdef.h:404-449 | after rmhook(n), and without a sethook(n) under way or begun, no call that increments nested runs n |
| `HookList.AddedHookIsRun` | rt-thread/include/rtdef.h:392-449 | after sethook(n), and without an rmhook(n) under way or begun, every such call that completes has run n |
| `HookList.StepKeepsFamily` | rt-thread/include/rtdef.h:439-445 | an unfinished activity begun by a handler keeps its call inside that handler |
| `HookList.HandlerMutatesForever` | rt-thread/include/rtdef.h:392-417 | a sethook or rmhook issued by a handler stays unfinished in every run |
| `HookList.CanFinishIff` | rt-thread/include/rtdef.h:392-449 | from a reachable state there is a schedule on which every call and mutation begun so far ends if and only if no handler has an unfinished sethook or rmhook |
| `HookList.SelfDeadlockReachable` | rt-thread/include/rtdef.h:404-417 | a handler that removes its own hook reaches a state without such a schedule |
| `HookList.Hooks.InsertBeforeHead` | rt-thread/include/rtservice.h:69-76 | the single stores of the insertion, in place |
| `HookList.Hooks.Remove` | rt-thread/include/rtservice.h:82-88 | the single stores of the removal, in place |
| `HookList.Hooks.CallStep` | rt-thread/include/rtdef.h:432-449 | the next statement of the call macro, in place, is the step of the transition system |
| `HookList.Hooks.MutateStep` | rt-thread/include/rtdef.h:392-417 | the next statement of sethook or rmhook, in place, is the step of the transition system |
| `HookList.Hooks.Execute` | rt-thread/include/rtdef.h:392-449 | running any schedule in place gives the state of the transition system |
| `HookList.Hooks.ExecuteFromStart` | rt-thread/include/rtdef.h:392-449 | so after any schedule from the empty list every completed call has run its hooks exactly |
| `IntrusiveLists.ListNode.constructor` | rt-thread/include/rtservice.h:43-46 | a new node is a ring of its own |
| `IntrusiveLists.InsertAfter` | rt-thread/include/rtservice.h:54-61 | from a ring with l at position k, a ring with n at k + 1; only three nodes' fields change |
| `IntrusiveLists.InsertBefore` | rt-thread/include/rtservice.h:69-76 | a ring with n in front of l, at the tail if l is the head |
| `IntrusiveLists.Remove` | rt-thread/include/rtservice.h:82-88 | the ring without n, and n a ring of its own |
| `IntrusiveLists.IsEmpty` | rt-thread/include/rtservice.h:94-97 | true exactly if the contents are empty |
| `IntrusiveLists.Len` | rt-thread/include/rtservice.h:103-114 | the walk ends and counts the contents |
| `IntrusiveLists.Turn` | rt-thread/include/rtservice.h:139-141 | one turn of the safe traversal, the current node removed or not, keeps the ring and reaches the next original node |
| `IntrusiveLists.ForEachSafe` | rt-thread/include/rtservice.h:139-141 | every original node is visited once, in order, whichever are removed on the way; exactly those are gone |
| `IntrusiveLists.Append` | rt-thread/include/rtservice.h:190-200 | ends on an acyclic list and appends n |
| `IntrusiveLists.Insert` | rt-thread/include/rtservice.h:202-206 | n becomes the first element |
| `IntrusiveLists.SlistLen` | rt-thread/include/rtservice.h:208-219 | the length of the contents |
| `IntrusiveLists.Pop` | rt-thread/include/rtservice.h:221-233 | null and no change on an empty list, else the first element, taken out |
| `IntrusiveLists.SlistRemove` | rt-thread/include/rtservice.h:235-245 | takes n out wherever it is, without effect when it is absent |
| `IntrusiveLists.Tail` | rt-thread/include/rtservice.h:252-257 | the last node |
| `TickSplit.CountIsQuotient` | rt-thread/drivers/hwtimer/hwtimer.c:45-46 | the counter value and the deviation for i rounds are the quotient and the remainder of the whole ticks by i |
| `TickSplit.StopsAtTurn` | rt-thread/drivers/hwtimer/hwtimer.c:39-64 | past the square root the loop stops at the last divisor with the quotient of the first one that fits, if that loses nothing, else right after it |
| `TickSplit.EndsIff` | rt-thread/drivers/hwtimer/hwtimer.c:22-64 | some divisor that an int holds ends the search if and only if the first divisor that fits is within an int and either loses more than a second or has a nonzero quotient whose last divisor is within an int too (the largest int only if it loses nothing) |
| `TickSplit.GigahertzFitsInt` | rt-thread/drivers/hwtimer/hwtimer.c:22-64 | with a counter of 2 or more ticks in 32 bits and a clock up to 1 GHz, no request of up to maxcnt seconds overflows the loop counter |
| `TickSplit.IntCanOverflow` | rt-thread/drivers/hwtimer/hwtimer.c:39-39 | 6,000,000 s on a 24 MHz timer of 16 bits overflow the loop counter, though a larger divisor would end the search |
| `TickSplit.StopsNearRoot` | rt-thread/drivers/hwtimer/hwtimer.c:39-64 | it ends within two of the square root of the ticks if that many rounds fit the counter |
| `TimeoutSearch.InTicks` | rt-thread/drivers/hwtimer/hwtimer.c:41-46 | the expressions in seconds and the analysis in ticks agree |
| `TimeoutSearch.Examine` | rt-thread/drivers/hwtimer/hwtimer.c:41-58 | the loop body's comparisons in seconds are those of the lost ticks |
| `TimeoutSearch.Search` | rt-thread/drivers/hwtimer/hwtimer.c:39-64 | for every request of a tick or more: i overflows exactly if no divisor up to the largest int meets the break condition; else the loop stops at the first that does and leaves the divisor that loses least of all examined, or 0 exactly under `SearchFails` |
| `TimeoutSearch.TimeoutCalc` | rt-thread/drivers/hwtimer/hwtimer.c:17-73 | requests below a tick get cycles 0 and one tick; every other split has cycles >= 1, a counter in 1..maxcnt and no overshoot; index 0 only beyond maxcnt seconds; always a split up to maxcnt seconds and 1 GHz |
| `TickSplit.NeverFails` | rt-thread/drivers/hwtimer/hwtimer.c:48-51 | a request of at most maxcnt seconds is always split |
| `TickSplit.FailsAtFirstFit` | rt-thread/drivers/hwtimer/hwtimer.c:43-53 | unless it loses exactly one second, the first divisor that fits decides: the search fails if and only if it loses more |
| `TickSplit.SearchCanFail` | rt-thread/drivers/hwtimer/hwtimer.c:48-51 | 5.5 s on a 1 Hz timer with maxcnt 2 leaves index 0 |
| `TickSplit.OneTickCounter` | rt-thread/drivers/hwtimer/hwtimer.c:39-64 | with maxcnt 1 no divisor ends the search for 1.5 ticks at 2 Hz, while at 1 Hz the second one does, with index 0 |
| `TimeoutSearch.SplitIsGood` | rt-thread/drivers/hwtimer/hwtimer.c:28-72 | every split, also of more than maxcnt seconds: cycles >= 1, 1 <= counter <= maxcnt, no overshoot, fewer ticks lost than any fitting divisor has rounds, least loss of all divisors examined |
| `TimeoutSearch.SplitAnswers` | rt-thread/drivers/hwtimer/hwtimer.c:28-72 | in integers: below a tick the request gets one tick; otherwise counter * cycles ticks of a millionth never exceed (sec * 10^6 + usec) * freq and fall short by less than any fitting number of rounds |
| `HwTimer.RequestIsReported` | rt-thread/drivers/hwtimer/hwtimer.c:29-29 | the time a write requests, taken as an elapsed time, is reported by a read as exactly the seconds and microseconds requested |
| `TimeoutSearch.SecondsWithinMaxcnt` | platform/drivers/hwtimer/drv_hwtimer.c:170-177 | the condition of `NeverFails` is tv_sec <= maxcnt |
| `TimeoutSearch.CalcEndsIff` | rt-thread/drivers/include/drivers/hwtimer.h:35-39 | the condition of `EndsIff` is exact for every time the struct can hold and clocks up to 2 GHz |
| `TimeoutSearch.LoopCounterFitsInt` | platform/drivers/hwtimer/drv_hwtimer.c:170-177 | at 24 MHz and 32 bits the search for any such time stops by divisor 227100003 |
| `HwTimer.HwTimer.Stop` | platform/drivers/hwtimer/drv_hwtimer.c:128-143 | disables the counter and changes nothing else |
| `HwTimer.HwTimer.Start` | platform/drivers/hwtimer/drv_hwtimer.c:94-126 | loads cnt - 1 in 32 bits, chooses the hardware mode and enables |
| `HwTimer.HwTimer.Write` | rt-thread/drivers/hwtimer/hwtimer.c:182-213 | stop, reset of overflow, a split that answers the integer request (`SplitAnswers`), start; which hardware mode is started; with index 0 the timer goes on with no rounds and any counter value |
| `HwTimer.HwTimer.Isr` | rt-thread/drivers/hwtimer/hwtimer.c:322-361 | overflow, cycles, reload, stop in one-shot mode and the indication |
| `HwTimer.HwTimer.Read` | rt-thread/drivers/hwtimer/hwtimer.c:145-180 | the elapsed time cut toward zero to whole microseconds, whenever its seconds fit the int32 conversion |
| `HwTimer.WriteStarts` | rt-thread/drivers/hwtimer/hwtimer.c:182-213 | a write with a usable split leaves a timer counting from counter - 1 with nothing expired |
| `HwTimer.PeriodTicks` | rt-thread/drivers/hwtimer/hwtimer.c:322-361 | the whole state n ticks after a write in period mode, in closed form |
| `HwTimer.OverflowCounts` | rt-thread/drivers/hwtimer/hwtimer.c:330-330 | the int32 overflow field is the number of interrupts below 2^31 |
| `HwTimer.OverflowWraps` | rt-thread/drivers/hwtimer/hwtimer.c:330-330 | and in general that number wrapped around in 32 bits |
| `HwTimer.IndicationTimes` | rt-thread/drivers/hwtimer/hwtimer.c:322-361 | after n ticks there have been n div (counter * max(reload, 1)) indications |
| `HwTimer.PeriodicRequest` | rt-thread/drivers/hwtimer/hwtimer.c:182-213 | from any split request on: indications come every cycles * counter ticks, never later than requested |
| `HwTimer.OneShotTicks` | rt-thread/drivers/hwtimer/hwtimer.c:322-361 | the whole state n ticks after a write in one-shot mode, before and after the last expiry |
| `HwTimer.OneIndicationPerWrite` | rt-thread/drivers/hwtimer/hwtimer.c:337-356 | exactly one indication and one stop per write, from tick counter * max(reload, 1) on |
| `HwTimer.ReadIsClose` | rt-thread/drivers/hwtimer/hwtimer.c:159-177 | in period mode the computed time is ahead of the true one by at least one and at most overflow + 1 ticks |
| `HwTimer.ReportedTimeIsClose` | rt-thread/drivers/hwtimer/hwtimer.c:145-180 | the reported time exceeds the true one by at most (overflow + 1) / freq and falls short by less than 1 us |
| `HwTimer.OneShotRead` | rt-thread/drivers/hwtimer/hwtimer.c:168-173 | before the last expiry of a one-shot timer the computed time is one tick ahead of the time since the expiry before |
| `Pwm.PwmDevice.PwmEnable` | platform/drivers/pwm/drv_rockchip_pwm.c:25-32 | sets the three bits and keeps everything else |
| `Pwm.PwmDevice.PwmDisable` | platform/drivers/pwm/drv_rockchip_pwm.c:34-41 | clears the enable, mode, output and clock bits and keeps everything else |
| `Pwm.PwmDevice.SetConfig` | platform/drivers/pwm/drv_rockchip_pwm.c:43-83 | refuses a pulse above the period without touching a register, else writes ticks and mode and unlocks |
| `Pwm.PwmDevice.GetConfig` | platform/drivers/pwm/drv_rockchip_pwm.c:85-101 | the registers in nanoseconds |
| `Pwm.PwmDevice.Read` | rt-thread/drivers/pwm/pwm.c:37-59 | the pulse in nanoseconds |
| `Pwm.PwmDevice.WritePulse` | rt-thread/drivers/pwm/pwm.c:66-94 | GET, replace the pulse, SET; accepted exactly if the pulse is at most the period read back |
| `Pwm.ProductsFit` | platform/drivers/pwm/drv_rockchip_pwm.c:62-65 | no product of two words overflows 64 bits |
| `Pwm.TicksExact` | platform/drivers/pwm/drv_rockchip_pwm.c:62-65 | for clocks up to 1 GHz the 32-bit store does not cut |
| `Pwm.NanosExact` | platform/drivers/pwm/drv_rockchip_pwm.c:95-98 | nor does the way back, for registers in range |
| `Pwm.SetThenGet` | platform/drivers/pwm/drv_rockchip_pwm.c:53-101 | a time set and read back never exceeds the request and is short by less than 10^9/freq + 1 ns |
| `Pwm.SetIsRead` | platform/drivers/pwm/drv_rockchip_pwm.c:43-101 | through the registers: an accepted SET is read back by a GET, period and pulse each within that bound; a refused one changes nothing |
| `Pwm.WriteIsRead` | rt-thread/drivers/pwm/pwm.c:37-94 | so is the pulse of an accepted framework write |
| `Pwm.ReadsLastPulse` | rt-thread/drivers/pwm/pwm.c:37-94 | a read after any run of commands returns the last accepted pulse within that bound |
| `Pwm.PwmDevice.PutPeriod` | platform/drivers/pwm/drv_rockchip_pwm.c:58-63 | the period register is written only while the configuration is locked |
| `Pwm.PwmDevice.PutDuty` | platform/drivers/pwm/drv_rockchip_pwm.c:58-65 | and so is the duty register |
| `Pwm.StepKeepsOrder` | platform/drivers/pwm/drv_rockchip_pwm.c:25-101 | every command keeps duty <= period and the period in range |
| `Pwm.RunKeepsOrder` | platform/drivers/pwm/drv_rockchip_pwm.c:188-218 | so does every run of SET, GET, ENABLE, DISABLE and framework writes |
| `Pwm.EnabledByLastSwitch` | platform/drivers/pwm/drv_rockchip_pwm.c:188-218 | over every run the enable and clock bits are those of the last ENABLE or DISABLE |
| `Pwm.ModesByLast` | platform/drivers/pwm/drv_rockchip_pwm.c:25-78 | over every run the mode and the output bit are those of the last accepted command that sets them |
| `Pwm.ConfiguredByLast` | platform/drivers/pwm/drv_rockchip_pwm.c:58-81 | an accepted configuration leaves both polarities set and the registers unlocked, and nothing undoes that |
| `Pwm.CutAbove` | platform/drivers/pwm/drv_rockchip_pwm.c:53-65 | above 1 GHz some accepted SET gets its period cut below its duty |
| `Pwm.OrderIffGigahertz` | platform/drivers/pwm/drv_rockchip_pwm.c:53-65 | every accepted SET leaves duty <= period if and only if the clock is at most 1 GHz |
| `Pwm.WriteLosesATick` | rt-thread/drivers/pwm/pwm.c:76-91 | an accepted write keeps the period register if freq divides h * 10^9 and lowers it by exactly one tick otherwise |
| `Pwm.Drift` | rt-thread/drivers/pwm/pwm.c:66-94 | after any writes the period register is its start h less min(accepted writes, h mod (freq / gcd(freq, 10^9))) |
| `Pwm.DriftOverRuns` | rt-thread/drivers/pwm/pwm.c:66-94 | the same over runs of all commands, from the last accepted SET and the writes accepted since |
| `ProducerConsumer.Example.constructor` | 01_os_ipc_sem/applications/sem_example.c:79-88 | the initial indices and semaphore values |
| `ProducerConsumer.Example.ProducerStep` | 01_os_ipc_sem/applications/sem_example.c:23-46 | the producer's next statement, in place on the array |
| `ProducerConsumer.Example.ConsumerStep` | 01_os_ipc_sem/applications/sem_example.c:48-77 | the consumer's next statement, in place |
| `ProducerConsumer.Example.Run` | 01_os_ipc_sem/applications/sem_example.c:23-77 | under a scheduler that picks any unblocked thread the program ends, with 1, ..., items consumed in order and their sum |
| `ProducerConsumer.ProducerKeepsInv` | 01_os_ipc_sem/applications/sem_example.c:27-42 | the invariant is kept by every producer statement |
| `ProducerConsumer.ConsumerKeepsInv` | 01_os_ipc_sem/applications/sem_example.c:52-75 | and by every consumer statement |
| `ProducerConsumer.StepCounts` | 01_os_ipc_sem/applications/sem_example.c:23-77 | every step lowers the number of steps left by exactly one |
| `ProducerConsumer.EveryReachableState` | 01_os_ipc_sem/applications/sem_example.c:23-77 | at every point of every interleaving: units conserved, mutual exclusion, buffer bounds and contents, consumption in order, no deadlock, no thread at or blocked on a detached semaphore |
| `ProducerConsumer.CompleteRun` | 01_os_ipc_sem/applications/sem_example.c:23-77 | every maximal run takes 14 * items + 3 steps, ends both threads, sums to items(items+1)/2 modulo 2^32 and leaves all slots empty, the lock free and the semaphores detached |
| `ProducerConsumer.StuckIff` | 01_os_ipc_sem/applications/sem_example.c:23-88 | the threads can get stuck if and only if there is no slot or no item |
| `PosixPath.SplitPath` | rt-thread/scripts/utils.py:43-43 | splitting undoes the last join of a normalised path |
| `PosixPath.StepsJoinAll` | rt-thread/scripts/utils.py:91-91 | joining parts to a path adds exactly those steps to it |
| `RelativePath.SplitAll` | rt-thread/scripts/utils.py:29-49 | ends on every string, with the parts of its recursive description |
| `RelativePath.SplitAllNormal` | rt-thread/scripts/utils.py:29-49 | the parts of a normalised path are its root and components, and they join back to it |
| `RelativePath.SplitAllFirst` | rt-thread/scripts/utils.py:33-36 | for every string the first part is ".", "..", empty or a root |
| `RelativePath.SplitAllRelative` | rt-thread/scripts/utils.py:29-49 | the parts of a relative path are its components, after an empty one unless it starts with "." or "..", and they join back to it |
| `RelativePath.Diverge` | rt-thread/scripts/utils.py:73-78 | the length of the longest common prefix |
| `RelativePath.MakePathRelative` | rt-thread/scripts/utils.py:51-91 | on every pair of strings: both rewritten and split, then dest for different first parts, else "." or the joined `..`s and the rest of dest |
| `RelativePath.RelativeOfNormal` | rt-thread/scripts/utils.py:51-91 | between paths that are normalised once rewritten: dest for different roots, else the way up from and down to the common part of the components |
| `RelativePath.RelativeText` | rt-thread/scripts/utils.py:58-91 | the text between clean paths of one root: "." for identical ones, else the segments with single slashes between them |
| `RelativePath.StepsOfRelative` | rt-thread/scripts/utils.py:83-91 | read back, the relative path is all its `..` first and then names, and it is not absolute |
| `RelativePath.RelativeResolves` | rt-thread/scripts/utils.py:51-91 | joined to origin and followed, the result leads from the root of dest to dest, for all normalised paths without backslashes |
| `RewrittenPaths.ResolvesOnlyIfClean` | rt-thread/scripts/utils.py:62-91 | between any normalised paths the result leads to dest only if dest has no backslash below its common part with origin |
| `RewrittenPaths.ResolvesIffDestClean` | rt-thread/scripts/utils.py:62-91 | from an origin without backslashes the result leads to dest if and only if dest has none |
| `RewrittenPaths.RewrittenIsNormal` | rt-thread/scripts/utils.py:62-63 | a path of tame names is normalised after rewriting, with its names taken apart at their backslashes |
| `RewrittenPaths.ResolvesIff` | rt-thread/scripts/utils.py:62-91 | between normalised paths of tame names with the same root it does if and only if neither has a backslash below the common part, or dest has none and the rewritten paths share no component |
| `RewrittenPaths.ResolvesIffStartsDiffer` | rt-thread/scripts/utils.py:62-71 | between any normalised paths whose rewritten forms have different first parts it does if and only if dest has no backslash |
| `RewrittenPaths.ResolvesIffOtherRoot` | rt-thread/scripts/utils.py:62-71 | so it does between paths of tame names with different roots |
| `RelativePath.RelativeIsShortest` | rt-thread/scripts/utils.py:80-91 | no sequence of steps from origin to dest is shorter |
| `ProjectTree.CollectPaths` | rt-thread/scripts/eclipse.py:43-59 | the paths and all their parents, each once, in ascending order |
| `ProjectTree.CollectedIsClosed` | rt-thread/scripts/eclipse.py:43-59 | it contains every path asked for and with each path the directories above it |
| `ProjectTree.CollectedOnly` | rt-thread/scripts/eclipse.py:43-59 | nothing else is collected: every path is one asked for or a nonempty proper prefix of one |
| `ProjectTree.ParentsOfNormal` | rt-thread/scripts/eclipse.py:46-51 | of a normalised path exactly the directories up to its root are collected, one by one |
| `ProjectTree.BeforeMeans` | rt-thread/scripts/eclipse.py:58-59 | the order of the result is the lexicographic one |
| `ProjectTree.ExcludePaths` | rt-thread/scripts/eclipse.py:114-131 | the loop with its recursion, rewriting each root by OSPath, gives the excluded paths in listing order |
| `ProjectTree.FrontierIsExcluded` | rt-thread/scripts/eclipse.py:114-131 | a visible directory that is the first unused one on its way from the rewritten root is excluded |
| `ProjectTree.ExcludedIsFrontier` | rt-thread/scripts/eclipse.py:114-131 | every excluded path is such a directory |
| `ProjectTree.ExcludedOnce` | rt-thread/scripts/eclipse.py:114-131 | nothing is excluded twice |
| `ProjectTree.ExcludedIsClean` | rt-thread/scripts/eclipse.py:114-131 | no excluded path has a backslash, whatever the root is written like |
| `ProjectTree.AncestorExcludedIff` | rt-thread/scripts/eclipse.py:114-131 | an ancestor-or-self of a visible directory is excluded exactly if it is unused and all above it are used |
| `ProjectTree.ExcludedOnTheWay` | rt-thread/scripts/eclipse.py:114-131 | for any used paths at most one ancestor-or-self is excluded, and none only if all are used |
| `ProjectTree.ExactCover` | rt-thread/scripts/eclipse.py:43-131 | with used paths closed upward every visible directory below the rewritten root is either used, with nothing excluded on its way, or has exactly one excluded ancestor-or-self, listed once |
| `ProjectTree.NothingUsedBelowExcluded` | rt-thread/scripts/eclipse.py:43-131 | no excluded directory contains a used path, in the tree or not, hidden or not |

## Left out

- The compiler's and the processor's memory ordering: every shared access is one sequentially consistent step.
- The other soft atomics (store, exchange, add, flags, and, or, xor), and the mapping of `rt_atomic_*` to hardware instructions.
- The C addition to a signed atomic word and to the overflow field of a timer is taken to wrap around.
- RefCount.CounterIsReferences: states the result for runs that never hold 2^63 - 1 references at once, because one more would overflow the word.
- The spinlock, the semaphores and the scheduler: taking and releasing are atomic steps, a taken lock or an empty semaphore blocks. Fairness, time slices and the delays in the example are not modelled.
- HookList.CanFinishIff: states that a schedule exists, not that every fair one ends. What a handler does besides calls and mutations of this hook list is not modelled.
- The width of `nested` and of the list lengths: they are unbounded here.
- HookList: a hook is registered only while it is unregistered, as the lists require; registering a node twice corrupts the C list.
- IntrusiveLists: the `entry` macros, which only shift pointers within a structure.
- TimeoutSearch: `float` is replaced by exact reals; rounding, and with it the C code's own choice between nearly equal divisors, is not modelled.
- TickSplit.EndsIff: is stated for less than (2^31 - 3)^2 ticks, and beyond for requests whose first fitting divisor is past the square root of the ticks. Only clocks between 2 GHz and 2^31 Hz leave anything out, and there only requests of about 2^31 s.
- TimeoutSearch.TimeoutCalc: an overflow of the loop counter is undefined in C and a result of its own here, IntOverflow.
- HwTimer.HwTimer.Write: when the search leaves index 0 the C code stores an infinite period and converts it to a counter value, which is undefined; here the period is any real and the counter any word. After an overflow of the loop counter nothing is defined in C; the model leaves the timer stopped. The checks for missing operations and for a wrong size are not modelled.
- HwTimer.HwTimer.Read: when the time does not fit the conversion to rt_int32_t, which C leaves undefined, any value may result. Reads after the last expiry of a one-shot timer and up-counting timers are not analysed.
- HwTimer: the counter is taken to reload itself from the load register when it expires and, in the hardware one-shot mode, to stop; an expiry is handled before the next tick. The 8-bit init_cnt and timer_cnt, used for reads from inside the interrupt handler, are not modelled.
- Changing mode or frequency of a timer between a write and a read.
- PWM: SET_PERIOD and SET_PULSE, capture with its semaphore, channels, null configurations, and the bit layout of the control register.
- Pwm.Drift: for clocks up to 1 GHz and a period that a GET can report, which is what a SET leaves.
- ProducerConsumer.CompleteRun: for item numbers below 2^32, the range of set, get and sum; the producer's cnt is a C int and limits the program itself to 2^31 - 1.
- `os.path.abspath` and the Windows side of the path scripts: separators, drive letters and case folding. The theorems on relative paths are about normalised absolute POSIX paths.
- RewrittenPaths.ResolvesIff: names whose backslashes stand at an end, next to one another or next to "." or ".." are covered by ResolvesOnlyIfClean, ResolvesIffDestClean and ResolvesIffStartsDiffer only, because their rewritten paths are not normalised.
- The real file system: a directory is a finite tree of entries with distinct names, without symbolic links, listed once.
- ProjectTree.ExactCover: entries with a backslash in their name are not covered (`WellFormed`), since `OSPath` would rewrite their path before it is listed; the root may have them.
- Other kernel sources, device wrappers, examples and build scripts: thin delegation to code that is not in the repository.
