# A verified model of the stimc kernel

stimc is a cooperative thread and event kernel on top of a Verilog simulator. This project models its
logic in Dafny and proves what that logic promises: which threads a trigger or a timer wakes, in which
order threads run, how threads end, what is torn down at the end of a simulation, and which bits of a
four-state net a slice access touches.

## What is modelled

**Waiting, scheduling, finalisation** (`lib/src/stimc.c`, the larger part).
`WaitSpec.dfy` is the behaviour without any representation: every thread has a set of awaited events, a
mode (ANY or ALL), maybe a timer, a timeout flag, a state and its own list of cleanup callbacks, and there
is one queue of ready threads. `Step` says what each of 25 actions does, `Enabled` when it can happen,
`Exec` what a sequence of them leads to.
`Objects.dfy`, `Handles.dfy`, `Memory.dfy` and `Kernel.dfy` are the code: threads with handle lists
`(event, index)`, events with slot arrays that are overwritten with null, swap removal of handles, the
double-buffered main and shadow queue, the cancelable cleanup list. The class `Kernel` updates these in
place. Each API operation is proved to perform exactly one enabled step of `WaitSpec` (`Did`) and to keep
`Valid`, which holds the cross-index coherence of handles and slots, the registration of every live thread
and every event with waiters for cleanup, and the fact that the state is the one the log of all
steps so far leads to. So each theorem of `RunTheorems.dfy` and `Unwinding.dfy`, which speak of arbitrary
sequences of enabled steps, is a theorem about every run of the kernel. `Simulation.dfy` puts the pieces
together: a kernel from its creation through any number of simulations, each of them any callbacks in any
order followed by a teardown. `Calls.dfy` says what code outside the kernel can and cannot change.
Trigger and free walk the slots of an event while the handle lists shrink by "first match, swap with last".
With an event listed twice in a combination, index pairing breaks in the middle of such a loop; the loop
invariants count the occurrences instead, and the pairing is recovered at the end.

**Nets** (`Bits.dfy`, `Nets.dfy`, `SliceLaws.dfy`). A net is a sequence of 0, 1, X and Z; the accessors
work in loops over arrays of 32-bit `aval`/`bval` words, as laid out in section 38.15 of IEEE 1800-2017.
Words are natural numbers with width, truncation and wrap-around written out, and are reasoned about bit
by bit.

**Deferred assignments, time, growth, coroutine switches, combinations** (`Nba.dfy`, `Times.dfy`,
`Buffers.dfy`, `Coroutines.dfy`, `Combinations.dfy`). The queue of non-blocking assignments and its replay,
the scaling of time units in 64 bits, the doubling of capacities, the bracketing of coroutine switches in
`lib/src/stimc_thread.inl`, and ownership and contents of the C++ wrapper `event_combination` in
`lib/src/stimc++.h`.

## Environment and assumptions

- Thread functions, module initialisation, cleanup callbacks and simulator callbacks are the environment:
  between two points of control they make any number of API calls in any order (`Kernel.ApiCalls`,
  `Kernel.AnySuspend`, `Kernel.Body` choose arbitrarily), in a teardown as well.
- Delay callbacks and registered methods start when the kernel rests: no thread runs and no batch and no
  teardown is under way (`Kernels.Kernel.Callback`). Value changes caused by a thread, a method or a cleanup
  callback may also enter the main loop inside another callback, as long as the main queue is empty or finish is
  pending; the loop then leaves at once (`Kernels.Kernel.CallLoop`). What happens otherwise is the first item of
  the next section.
- The end of the simulation comes when the kernel rests, or at once when it is asked for, in the middle of a
  batch (`lib/src/stimc.c:828-831`) or of a registered method (`lib/src/stimc.c:1148`). It does not come while
  cleanup callbacks run.
- A thread that a teardown resumes in the middle of a wait does not wait again; any other thread may, also in
  its final resume. The waits clear the handle list without visiting the slots it names, which is right
  exactly if the list is empty (`Memory.ClearedCoherentIff`). In stimc++ `lib/src/stimc++.h:62-67` takes care of
  it by throwing after every suspension; `Unwinding.FinishedOnReturnIff` shows that it throws in the final
  resume and nowhere else.
- The simulator delivers 0 in the unused bits of the last word of a vector and ignores them when writing.
- A setter replayed from the queue of deferred assignments may queue more assignments for the same net as a
  side effect, any number of them, and does nothing else that concerns that net.
- The 32-bit masks of the X/Z accessors (`lib/src/stimc.c:1452-1464`) wrap around, as they do on two's complement
  hardware; C leaves `2 << 31` and `1 << 31` undefined for `int`.
- Freed blocks are not identified with later ones: addresses are not reused in the model.

## Where the code departs from its promise

- The main loop can be entered in the middle of itself or of a teardown. While cleanup callbacks run
  (`lib/src/stimc.c:517`, `lib/src/stimc.c:1816-1859`) the current thread is already null, so the assertion in
  `lib/src/stimc.c:819` does not hold it off. A callback that makes a thread ready and writes a net with a
  registered method gets there (`lib/src/stimc.c:319-334`). The inner loop appends to the batch under way and
  starts again at index 0: it switches to threads that have run already, the one being finished included, even
  if its function has returned (`Simulations.NestedLoopEntersReturned`). Such an entry changes nothing iff the
  main queue is empty or finish is pending, and otherwise its first switch is none that the kernel may make
  (`Kernels.Kernel.EnterLoop`, `Kernels.Kernel.EnterLoopNested`, `Kernels.Kernel.NoStartNow`). The theorems about runs
  assume that condition of every entry from within another callback.
- A thread spawned during a teardown is queued, but never started (`RunTheorems.SpawnedLateNeverStarts`) and
  never freed: the queue is discarded, and its cleanup entry was put in front of the list after the teardown
  had taken hold of it (`RunTheorems.SpawnedLateIsLost` is such a run). Exactly the other threads are freed
  (`RunTheorems.ResetFreesAll`). For the same reason an event first waited for during a teardown keeps
  pointing to an entry that is in no list any more, not a freed one, and no later teardown drops its waiters
  (`Kernels.Kernel.EndOfSimulation`, `Kernels.Kernel.WaitedIsRegistered`).
- A wait by a thread that a teardown has resumed in the middle of an earlier wait leaves its old slots behind in
  the events' queues, or its old timer: `lib/src/stimc.c:927-930` drops the handles without visiting the slots
  they name, which is right iff there are none (`Memory.ClearedCoherentIff`).
- A timed wait on an empty combination is ended by its timer and still reports no timeout, because
  `lib/src/stimc.c:563-568` takes the presence of handles for the presence of a wait
  (`RunTheorems.EmptyCombinationDeniesTimeout`; `RunTheorems.TimeoutIsTrue` has the exact condition).
- `lib/src/stimc.c:1583` shifts an `int` literal where `lib/src/stimc.c:1632` shifts a 64-bit one. In C this is
  undefined for a distance above 29. On two's complement hardware with shift counts taken modulo 32, the
  setter keeps its promise exactly for the slices of `SliceLaws.NarrowIsEnough`
  (`SliceLaws.NarrowWriteExactIff`); with a 64-bit literal it always does (`SliceLaws.WideWriteIsExact`).
- A one-bit net is set to 1 by every nonzero value, not to its low bit (`SliceLaws.WholeSetIsSliceIff`).
- Deferred slice writes store their bounds in 16 bits (`lib/src/stimc.c:211-212`), silently. When this changes
  nothing is characterised by `Nba.DeferredXzIsFaithfulIff` and `Nba.DeferredWriteIsFaithfulIff`.
- `stimc_event_combination_copy` clears its target first, so that copying a combination onto itself empties
  it (`Combinations.Program.CopyAssign`).
- The documentation of `stimc_wait_time` does not say what happens to units finer than the simulator's; they
  are rounded down (`Times.FineWaitIsRoundedDown`).

## Model

| member | source | states |
|---|---|---|
| Memory.TriggerSlotKeepsInv | lib/src/stimc.c:1101-1130 | One round of the trigger loop keeps the counting invariant, also when the event is listed several times in one combination: slots before the current one hold woken threads only, each once; every other waiter still has as many handles of the event as slots ahead. |
| Memory.WokenIffWakes | lib/src/stimc.c:1109-1129 | A thread whose first slot is reached is woken by the loop iff its wait is ANY or the event is the last one it awaits. |
| Memory.TriggerRefines | lib/src/stimc.c:1099-1136 | When the slot loop is done and the event's queue cleared, the views of all threads are the old ones after "remove the event everywhere, wake exactly those that are done", the remaining slots list the woken threads, each once, and handles and slots are paired again. |
| Memory.FreeSlotKeepsInv | lib/src/stimc.c:873-885 | One round of the loop over the slots of a disappearing event keeps its counting invariant. |
| Memory.FreeRefines | lib/src/stimc.c:869-888 | After that loop no thread has a handle of the event left, nobody was woken, and a timed wait without any event left is marked as a timeout. |
| Memory.EnqueueCoherent | lib/src/stimc.c:989-1000 | A new slot at the end and a handle with its index keep handles and slots paired. |
| Memory.LeaveAllCoherent | lib/src/stimc.c:510-514 | Nulling the slot of each handle of a thread and dropping the handles keeps all other pairs. |
| Memory.ClearedCoherentIff | lib/src/stimc.c:927-930 | Clearing a handle list without visiting the slots keeps handles and slots paired iff the list is empty already. |
| Handles.RemoveFirstEffect | lib/src/stimc.c:526-544 | Removing the first match by swapping in the last handle removes that one handle and no other, keeps the list free of duplicates, and lowers the number of handles of that event by one. |
| Handles.PairedCount | lib/src/stimc.c:989-1000 | Where slots and handles are paired by index, a thread has as many handles of an event as slots there. |
| Kernels.Kernel.SwapRemove | lib/src/stimc.c:526-544 | The in-place search and swap removal computes RemoveFirst. |
| Kernels.Kernel.TriggerEvent | lib/src/stimc.c:1099-1136 | A trigger performs the step Trigger: every waiter loses the event, exactly the ANY waiters and the ALL waiters with nothing else left are appended to the ready queue, each once, in slot order, and their other handles and timers are gone. |
| Kernels.Kernel.EventCreate | lib/src/stimc.c:838-867 | A new event without waiters, not registered for cleanup. |
| Kernels.Kernel.EventFree | lib/src/stimc.c:890-903 | Freeing an event wakes nobody, leaves no handle of it, marks timed waits it leaves empty, and cancels the event's cleanup entry. |
| Kernels.Kernel.SpawnThread | lib/src/stimc.c:408-435 | The new thread is in state CREATED, at the end of the ready queue, and has one uncanceled cleanup entry in front of all others; at any time, also during a teardown. |
| Kernels.Kernel.WaitEvent | lib/src/stimc.c:1018-1029 | The current thread waits for the one event, without a timer, and control is handed back. The event is registered for cleanup afterwards: by the entry it had, or by a new one in front of the list. Outside a teardown this is so for every running thread, final resumes included. |
| Kernels.Kernel.WaitCombination | lib/src/stimc.c:1002-1041 | The current thread waits for all events of the combination, duplicates included, in its mode, and every one of them is registered for cleanup; otherwise as WaitEvent. |
| Kernels.Kernel.WaitEventTimeout | lib/src/stimc.c:1043-1055 | As WaitEvent with a timer and the timeout flag reset; the handle list, which is not cleared here, is empty on entry. |
| Kernels.Kernel.WaitCombinationTimeout | lib/src/stimc.c:1071-1083 | As WaitCombination with a timer and the timeout flag reset. |
| Kernels.Kernel.WaitedIsRegistered | lib/src/stimc.c:989-1000 | Outside a teardown every event that some thread waits for has an uncanceled cleanup entry of its own, in the list or among those an earlier teardown gave up. |
| Kernels.Kernel.WaitTime | lib/src/stimc.c:650-676 | The current thread waits for its timer only; the timeout flag stays as it is. |
| Kernels.Kernel.TimerCallback | lib/src/stimc.c:551-571 | The thread is appended to the ready queue, leaves all event queues, and is timed out iff it still had a handle. |
| Kernels.Kernel.ThreadHalt | lib/src/stimc.c:446-455 | A running thread is STOPPED afterwards, one in its final resume stays in CLEANUP; control is handed back. |
| Kernels.Kernel.ThreadExit | lib/src/stimc.c:457-466 | Likewise with STOPPED_TO_FINISH; control is handed back. |
| Kernels.Kernel.ThreadReturn | lib/src/stimc.c:576-589 | When the thread function returns likewise with FINISHED; control is handed back. |
| Kernels.Kernel.FinishSimulation | lib/src/stimc.c:1145-1156 | From a thread: finish is pending, a running thread is STOPPED_TO_FINISH, and control is handed back. From the simulator: the simulator is asked to finish, and nothing in the kernel changes by this itself; the teardown asked for may follow at once (AskForEnd). |
| Kernels.Kernel.AskForEnd | lib/src/stimc.c:1145-1149 | Called by a registered method between callbacks, with the teardown at once or not, it leads from a resting kernel to a resting kernel. |
| Kernels.Kernel.ResumeOnFinish | lib/src/stimc.c:468-473 | Sets what the thread wants at its end. |
| Kernels.Kernel.ThreadIsFinished | lib/src/stimc.c:475-482 | True iff the current thread's state is STOPPED or later. |
| Kernels.Kernel.WaitTimedOut | lib/src/stimc.c:1138-1143 | Answers the current thread's timeout flag. |
| Kernels.Kernel.RegisterThreadCleanup | lib/src/stimc.c:437-444 | The callback is put in front of the current thread's own list. |
| Kernels.Kernel.RegisterCleanup | lib/src/stimc.c:1158-1170 | An uncanceled entry that belongs to no thread or event is put in front of the cleanup list; nothing else changes, and a teardown under way goes on through the same entries. |
| Kernels.Kernel.SwitchTo | lib/src/stimc.c:605-609 | Only the thread at the front of the ready queue is started; it leaves the queue and is in state RUNNING. |
| Kernels.Kernel.BeginFinish | lib/src/stimc.c:484-500 | The end of a thread begins: its cleanup entry and no other is canceled, its state is CLEANUP, and a final resume is due iff it asked for one, was started and has not returned. |
| Kernels.Kernel.UnhookThread | lib/src/stimc.c:506-514 | The timer of the thread is removed and its slots in all event queues are cleared. |
| Kernels.Kernel.CallCleanups | lib/src/stimc.c:516-518 | The thread's callbacks are called newest first, each once; whatever API calls they make, entries of the main loop that find nothing to do included, the kernel is valid in between, and the thread stays out of all event queues. Entries that find something to do are left to EnterLoopNested. |
| Kernels.Kernel.ReleaseThread | lib/src/stimc.c:520-523 | A thread that is in no queue, has no timer and whose callbacks have all been called is freed; nothing else changes. |
| Kernels.Kernel.Run | lib/src/stimc.c:605-619 | Whatever API calls the thread makes, the kernel is valid when it gives up control; if it has come to its end it is finished and freed before anything else happens, so that no ended thread is left; no other queued thread was started meanwhile. |
| Kernels.Kernel.FinishThread | lib/src/stimc.c:484-524 | The end of the thread is the first step and afterwards the thread is freed, with a final resume in between if one was due; the batch under way has not moved. |
| Kernels.Kernel.EnterLoop | lib/src/stimc.c:810-823 | Entered at any time, the loop leaves at once and changes nothing iff finish is pending or the main queue is empty; otherwise its first switch is to the first thread of the batch under way followed by the main queue, whether or not that thread has run already. |
| Kernels.Kernel.NoStartNow | lib/src/stimc.c:484-524 | While a thread is being finished or a teardown is under way, starting a thread from the queue is no step of the kernel. |
| Kernels.Kernel.EnterLoopNested | lib/src/stimc.c:319-334 | Entered from a callback within the end of a thread or a teardown, the loop keeps to the kernel's steps iff finish is pending or the main queue is empty; otherwise its first switch is none of them. |
| Simulations.NestedLoopEntersReturned | lib/src/stimc.c:810-823 | A concrete run from a new kernel in which a cleanup callback enters the loop and the loop switches to the thread being finished, whose function has returned. |
| Kernels.Kernel.EnqueueAll | lib/src/stimc.c:792-803 | Appends the non-null slots in order. |
| Kernels.Kernel.StartBatch | lib/src/stimc.c:813-816 | Swapping main and shadow queue changes nothing in the order of ready threads. |
| Kernels.Kernel.EndBatch | lib/src/stimc.c:821-835 | A batch that has run is cleared without losing a thread; when finish is pending the rest of it, and only that, is dropped. |
| Kernels.Kernel.RunThreads | lib/src/stimc.c:810-836 | The loop leaves by itself only with nobody ready or with finish pending; otherwise as many batches have run as were watched, each of which starts a thread; at the end every thread that has ended has been freed. When it leaves with finish pending, the simulator has been asked to finish. The simulation may end inside the loop. |
| Kernels.Kernel.Callback | lib/src/stimc.c:551-574 | For a callback that arrives when the kernel rests with no batch or teardown under way: the first step is the expiry of the timer, if it is a delay callback; then the ready threads run as in RunThreads, and every ended thread has been freed. |
| Kernels.Kernel.CleanupEvent | lib/src/stimc.c:1912-1918 | The waiters of the event are dropped as by a free, and the event forgets its entry. |
| Kernels.Kernel.CleanupUser | lib/src/stimc.c:1816-1859 | The callback of the user's entry is called, as the first step, and makes any API calls; the teardown goes on to the next entry. |
| Kernels.Kernel.EndOfSimulation | lib/src/stimc.c:1816-1884 | The callbacks called are, newest first and each once, exactly those of the entries that were not canceled before the teardown nor by any step of it up to the moment they were reached, and the teardown of their thread or event starts right then, with a step of its own for each kind of entry; the steps for events and for entries of the user are these, in this order, and no others. An event that had waiters has them dropped unless it is freed first, and only events with an entry in the list have; afterwards every thread not spawned meanwhile is freed, both queues are empty, no event points to a freed entry, and no queued thread was started on the way. It may come in the middle of a batch. |
| Simulations.SimulateOnce | lib/src/stimc.c:1886-1895 | From a resting kernel, any simulator callbacks in any order and then the teardown lead to a resting kernel without threads; all threads of all its runs so far have been freed except those spawned during a teardown. |
| Simulations.Simulate | lib/src/stimc.c:1886-1895 | The same for a new kernel and any number of simulations, whose log is a run of the specification. |
| Kernels.Kernel.NoStaleReferences | lib/src/stimc.c:506-523 | In every valid state slots hold live threads only, handles name live events and slots that hold their thread, and outside the teardown the ready queue holds live threads only. |
| WaitSpec.StepKeepsInv | lib/src/stimc.c:810-836 | Every enabled step keeps: no thread queued twice; queued and running threads wait for nothing; only running or ending threads wait; a never-started thread is queued unless finish is pending; threads that are owed a final resume are alive and in state CLEANUP. |
| WaitSpec.RunKeepsInv | lib/src/stimc.c:810-836 | The invariant holds in every state any run reaches. |
| RunTheorems.RunsInReadyOrder | lib/src/stimc.c:792-836 | As long as nothing is discarded, threads are started in exactly the order in which they became ready, none lost or doubled, including those made ready by threads of the same batch. |
| RunTheorems.NothingStartsAfterFinish | lib/src/stimc.c:824-832 | Once finish is pending no queued thread is started until the simulation has been torn down. |
| RunTheorems.StillWaiting | lib/src/stimc.c:1018-1136 | A thread not yet made ready awaits exactly the events of its wait that were neither triggered nor freed since. |
| RunTheorems.BecomesReadyWhen | lib/src/stimc.c:1018-1136 | A waiting thread becomes ready at a step iff its timer fires, or an event it still awaits is triggered that suffices (ANY) or is the last one left (ALL). |
| RunTheorems.AllWaitEndsWhen | lib/src/stimc.c:1099-1136 | Without frees and before its timer fires, an ALL wait ends at the first step by which each awaited event has been triggered since it began. |
| RunTheorems.AnyWaitEndsWhen | lib/src/stimc.c:1099-1136 | Likewise an ANY wait ends at the first trigger of a member. |
| RunTheorems.TimeoutIsTrue | lib/src/stimc.c:551-569 | A timed wait reports a timeout iff its timer woke it and it was a wait on at least one event, whatever was freed meanwhile. |
| RunTheorems.TimedWaitBegins | lib/src/stimc.c:1043-1083 | A timed event wait starts with the flag reset, the timer armed and exactly the given events awaited. |
| RunTheorems.WaitBegins | lib/src/stimc.c:1002-1083 | Every wait, timed or not: exactly which events are awaited, whether a timer runs, the mode, what becomes of the timeout flag, and that nothing else of the thread changes. |
| RunTheorems.EventGone | lib/src/stimc.c:869-888 | An event that is freed, or whose waiters a teardown drops, wakes nobody, every waiter loses it and nothing else, and a timed wait is marked as timed out iff this was its last event. |
| RunTheorems.StateAfterLeaving | lib/src/stimc.c:446-466 | A running thread is STOPPED after a halt, STOPPED_TO_FINISH after an exit or the end of the simulation, FINISHED after its return; finish is pending iff it was or the thread finishes the simulation. |
| RunTheorems.EmptyCombinationDeniesTimeout | lib/src/stimc.c:1071-1083 | The concrete run in which a timed wait on no event is ended by its timer and reports no timeout. |
| RunTheorems.TimeoutFlagKept | lib/src/stimc.c:1138-1143 | Until its next timed event wait nothing changes what a thread's last one reported. |
| RunTheorems.TimedWaitVerdict | lib/src/stimc.c:1138-1143 | What the flag shows after a timed wait and any number of later plain waits is the outcome of that timed wait. |
| RunTheorems.OnePlace | lib/src/stimc.c:596-619 | Outside the teardown every live thread is in exactly one place: queued exactly once, running, waiting, or parked; and a thread never started is not parked unless finish is pending. |
| RunTheorems.ParkedOnlyBy | lib/src/stimc.c:446-466 | A thread becomes parked exactly by halting, ending, waiting for nothing, losing its last event to a free without having a timer, or being dropped because the simulation finishes. |
| RunTheorems.ParkedStays | lib/src/stimc.c:446-466 | No step queues, starts or wakes a parked thread. |
| RunTheorems.ParkedForGood | lib/src/stimc.c:446-466 | Over any run without a teardown a parked thread is never queued, started or woken again. |
| RunTheorems.EndedIsReleased | lib/src/stimc.c:615-618 | A thread that exits, returns or finishes the simulation is released before the kernel starts another thread, handles an expired timer, drops a batch or enters a teardown. |
| RunTheorems.LifeStep | lib/src/stimc.c:89-98 | Every step moves every thread as the life automaton of a single thread says, and only where that automaton allows it. |
| RunTheorems.StateNeverFalls | lib/src/stimc.c:89-98 | Over any run the state of a thread never goes back. |
| RunTheorems.OnceInALife | lib/src/stimc.c:484-524 | A thread is created at most once, finished at most once and freed at most once; after its end has begun no queue entry starts it, and once it is freed nothing happens to it. With EndedIsReleased and ResetFreesAll: exactly once. |
| RunTheorems.NoResumeAfterEnd | lib/src/stimc.c:492-504 | There is at most one final resume, and a thread function that has returned is never entered again. |
| RunTheorems.NeverStartedByCleanup | lib/src/stimc.c:492-504 | A thread that was never started is not started by being cleaned up. |
| RunTheorems.ThreadsAccounted | lib/src/stimc.c:1905-1910 | In every run the created threads are exactly those alive, freed or lost; only created ones are freed, and only threads spawned during a teardown are lost. |
| RunTheorems.ResetFreesAll | lib/src/stimc.c:1861-1884 | When a teardown is over, exactly the threads not spawned during a teardown have been freed; so all threads have iff none was. |
| RunTheorems.SpawnedLateIsLost | lib/src/stimc.c:1861-1884 | The concrete run in which a thread is spawned during a teardown and is neither freed nor alive afterwards. |
| RunTheorems.SpawnedLateNeverStarts | lib/src/stimc.c:1861-1884 | In every run, a thread spawned during a teardown is never started. |
| RunTheorems.LiveNotEnded | lib/src/stimc.c:484-490 | An event that is alive was never freed in the run, and a thread that is alive and not in its end never began to end. |
| RunTheorems.ReleaseCallsRegistered | lib/src/stimc.c:516-518 | When a thread is freed, exactly the callbacks it registered in the run have been called, newest first. |
| Unwinding.FinishedOnReturnIff | lib/src/stimc++.h:62-67 | A thread that gets control sees itself finished iff this is its final resume. |
| Unwinding.ResumedBeforeFreedIff | lib/src/stimc.c:492-504 | Between the begin of its end and its release a thread is resumed a last time iff it asked for it, was started and has not returned. |
| Unwinding.ResumedIffWished | lib/src/stimc.c:468-504 | In terms of the history: a thread is resumed a last time iff the last thing it said was that it wants to be, and it is RUNNING, STOPPED or STOPPED_TO_FINISH when its end begins. |
| Unwinding.UnwoundUnlessReturned | lib/src/stimc++.h:1412-1425 | A thread that has asked for its final resume, as the spawn wrapper does first of all, and does not call it off is unwound before it is freed iff its function has not returned already. |
| Nets.Net.SetBitsUint64 | lib/src/stimc.c:1562-1603 | The loop over at most three words writes exactly the bits selected by the mask, up to the word of msb; every shift amount stays below 64. |
| Nets.Net.SetBitsXz | lib/src/stimc.c:1432-1476 | For X the value X, for Z the value Z: exactly the bits lsb..msb inside the net become X or Z, across any number of words. |
| Nets.Net.BitsAreXz | lib/src/stimc.c:1523-1560 | True iff some bit of the slice inside the net is X or Z. |
| Nets.Net.GetBitsUint64 | lib/src/stimc.c:1605-1635 | The value of the slice, unknown bits and bits beyond the net read as 0. |
| Nets.Net.SetXz | lib/src/stimc.c:1389-1430 | Every bit of the net becomes X for an X write and Z for a Z write. |
| Nets.Net.IsXz | lib/src/stimc.c:1487-1511 | The loop over whole words answers true iff some bit of the net is X or Z; the unused bits of the last word do not count. |
| Nets.Net.SetUint64 | lib/src/stimc.c:1637-1686 | All bits of the net become those of the value, bits above 63 become 0; a one-bit net becomes 1 for every nonzero value. |
| Nets.Net.GetUint64 | lib/src/stimc.c:1688-1707 | The value of the lowest 64 bits, unknown bits read as 0. |
| Nets.XzMaskBit | lib/src/stimc.c:1452-1464 | The 32-bit wrap-around mask of a word covers exactly the bits of the slice in that word. |
| SliceLaws.WideWriteIsExact | lib/src/stimc.c:1562-1603 | With the mask computed in 64 bits, the write sets bit lsb+k to bit k of the value for k up to min(msb-lsb, 63) inside the net and leaves every other bit alone. |
| SliceLaws.NarrowWriteExactIff | lib/src/stimc.c:1583 | With the mask as written, for exactly which net sizes and slices that still holds for all contents and values. |
| SliceLaws.GetAfterSet | lib/src/stimc.c:1562-1635 | Reading back a slice just written gives the value modulo 2^(msb-lsb+1). |
| SliceLaws.DisjointSliceUnchanged | lib/src/stimc.c:1562-1635 | A write does not show in a slice it does not overlap. |
| SliceLaws.DisjointWritesCommute | lib/src/stimc.c:1562-1603 | Writes to disjoint slices can be done in either order. |
| SliceLaws.UnknownAfterXz | lib/src/stimc.c:1432-1560 | After an X or Z write the slice is unknown iff it reaches into the net, and it reads as 0. |
| SliceLaws.KnownAfterSet | lib/src/stimc.c:1523-1603 | After a value write of at most 64 bits no bit of the slice is unknown. |
| SliceLaws.WholeSetIsSliceIff | lib/src/stimc.c:1637-1686 | Setting a whole net is writing the slice of all its bits iff the net has more than one bit or the value is 0 or odd. |
| SliceLaws.XzSetWrites | lib/src/stimc.c:1432-1476 | Bit by bit: X or Z as asked for inside the slice, the old bit outside. |
| SliceLaws.SliceSetWrites | lib/src/stimc.c:1562-1603 | Bit by bit: the binary digits of the value inside the first 64 bits of the slice, the old bit outside. |
| SliceLaws.WholeSetAt | lib/src/stimc.c:1637-1686 | For nets of any size but one bit: bit p is the digit of weight 2^p of the value below 64, and 0 above. |
| SliceLaws.GetAfterWholeSet | lib/src/stimc.c:1637-1707 | Reading back a whole net of more than one bit gives the value modulo its size, and slices above bit 63 read as 0. |
| SliceLaws.Encoding | lib/src/stimc.c:1399-1424 | Which pair of aval and bval bits stands for which of 0, 1, X and Z. |
| Nba.NbaNet.Append | lib/src/stimc.c:1290-1344 | The entry is queued last; a synchronisation callback is held afterwards, and it is registered only if none was. |
| Nba.NbaNet.Execute | lib/src/stimc.c:1350-1377 | Each entry has the effect of the blocking setter it stands for. |
| Nba.NbaNet.Replay | lib/src/stimc.c:1346-1387 | Afterwards the net is what the matching blocking setters leave in program order, entries queued by side effects during the replay included, any number of them per setter; without such entries it is what each setter promised when it was called; the queue is empty and no callback is held. |
| Nba.NbaNet.SetBitsUint64Nonblock | lib/src/stimc.c:1759-1769 | The slice write is queued with its bounds truncated to 16 bits; once replayed, these bits are the digits of the value and all others as they would have been (where the mask of the setter is wide enough). |
| Nba.NbaNet.SetBitsXzNonblock | lib/src/stimc.c:1727-1747 | The X or Z slice write is queued with its bounds truncated to 16 bits; once replayed, exactly these bits are X or Z as asked for. |
| Nba.NbaNet.SetXzNonblock | lib/src/stimc.c:1709-1725 | The whole-net X or Z write is queued last; once replayed, every bit is X or Z as asked for. |
| Nba.NbaNet.SetUint64Nonblock | lib/src/stimc.c:1749-1757 | The whole-net value write is queued last; once replayed, every bit is the digit of the value. |
| Nba.NbaNet.SetInt32Nonblock | lib/src/stimc.c:1771-1779 | The number is queued last, converted to uint64_t; once replayed, the net holds what the simulator makes of that number. |
| Nba.ToInt32 | lib/src/stimc.c:1771-1779 | The number stored as uint64_t and passed to the int32_t setter at replay is the number given. |
| Nba.ApplyAllConcat | lib/src/stimc.c:1350-1377 | Replaying two batches one after the other is replaying their concatenation. |
| Nba.DeferredXz | lib/src/stimc.c:1350-1377 | Replaying a whole-net X or Z write after any others leaves X or Z, as asked for, in every bit. |
| Nba.DeferredBitsXz | lib/src/stimc.c:1350-1377 | Replaying an X or Z slice write after any others leaves X or Z, as asked for, in the slice of the truncated bounds, and what the others leave elsewhere. |
| Nba.DeferredUint64 | lib/src/stimc.c:1350-1377 | Replaying a whole-net value write leaves the 64 digits of the value, and 1 for any nonzero value in a one-bit net. |
| Nba.DeferredInt32 | lib/src/stimc.c:1350-1377 | Replaying a number leaves what the simulator makes of exactly this number. |
| Nba.DeferredBits | lib/src/stimc.c:1350-1377 | Replaying a slice write leaves the digits of the value in the slice of the truncated bounds, and what the others leave elsewhere. |
| Nba.LastWriteStays | lib/src/stimc.c:1350-1377 | The last write wins: what an entry leaves in a bit stays there until a later entry reaches that bit. |
| Nba.DeferredXzIsFaithfulIff | lib/src/stimc.c:205-213 | For exactly which net sizes and bounds a deferred X or Z write does what the immediate one does. |
| Nba.DeferredWriteIsFaithfulIff | lib/src/stimc.c:205-213 | The same for deferred value writes, for all contents and values. |
| Times.WaitTicks | lib/src/stimc.c:628-648 | The scaling loops compute t*10^k modulo 2^64 or floor(t/10^k), and the two 32-bit halves recombine to it. |
| Times.CurrentTime | lib/src/stimc.c:695-721 | The same for the current time, from the two halves the simulator delivers. |
| Times.TicksOfWait | lib/src/stimc.c:628-648 | The tick count itself: t units in ticks modulo 2^64 for units no finer than the simulator's, the whole ticks in t units for finer ones. |
| Times.TimeOfTicks | lib/src/stimc.c:695-721 | The time itself: the whole units that n ticks fill, or n ticks in a finer unit modulo 2^64. |
| Times.Thousandfold | lib/src/stimc.c:628-721 | With ticks of a nanosecond, microseconds are a thousand ticks each, and the other way round. |
| Times.CoarseWaitIsExact | lib/src/stimc.c:628-721 | Waiting t units no finer than the simulator's advances the time in that unit by exactly t from any start, as long as no count leaves 64 bits. |
| Times.FineWaitIsRoundedDown | lib/src/stimc.c:628-721 | Waiting t units finer than the simulator's advances the time by at most t and by more than t minus one tick. |
| Buffers.Buffer.Prepare | lib/src/stimc.c:754-768 | The capacity suffices afterwards, stays below twice what is needed plus the initial capacity, and the contents survive. |
| Buffers.Buffer.Append | lib/src/stimc.c:779-790 | The element is appended and its index returned. |
| Coroutines.Switcher.Run | lib/src/stimc_thread.inl:170-179 | The new coroutine is active, and the global names the one that runs it. |
| Coroutines.Switcher.Suspend | lib/src/stimc_thread.inl:181-186 | Control goes to the coroutine that issued the matching run, and the three variables describe the stack below. |
| Coroutines.RunAndSuspendMatch | lib/src/stimc_thread.inl:170-186 | Whatever is run and suspended in between, at any depth, the stack of who runs whom is as before the run once the matching suspend is done. |
| Coroutines.Switcher.Execute | lib/src/stimc_thread.inl:170-186 | Any allowed sequence of runs and suspends leaves the stack that the operations prescribe, and the three variables describe it. |
| Coroutines.Switcher.RunToSuspend | lib/src/stimc_thread.inl:170-186 | A run, whatever is run and suspended inside it, and the matching suspend: the active coroutine, the global and all saved copies of it are what they were before. |
| Coroutines.NestedKeepsStack | lib/src/stimc_thread.inl:170-186 | Nested runs and suspends leave everything below them on the stack alone. |
| Combinations.Program.Combine | lib/src/stimc++.h:202-207 | Two events in order, in the given mode, owned by one new wrapper. |
| Combinations.Program.CopyConstruct | lib/src/stimc++.h:238-242 | An equal combination of its own, the operand unchanged. |
| Combinations.Program.ExtendCopy | lib/src/stimc++.h:441-446 | A copy longer by one event, the operand unchanged. |
| Combinations.Program.ExtendMove | lib/src/stimc++.h:455-459 | The same combination, longer by one event, has changed hands; the operand is left empty. |
| Combinations.Program.MoveConstruct | lib/src/stimc++.h:262-266 | The combination changes hands; nothing is created or freed. |
| Combinations.Program.CopyAssign | lib/src/stimc.c:966-979 | The target waits for what the operand waits for, unless it is assigned to itself, which empties it. |
| Combinations.Program.MoveAssign | lib/src/stimc++.h:275-282 | Exactly the target's old combination is freed and the operand's changes hands. |
| Combinations.Program.Destroy | lib/src/stimc++.h:291-294 | Exactly the wrapper's combination is freed, if it still owns one. |
| Combinations.Program.WaitConsume | lib/src/stimc++.h:312-402 | The kernel performs the same wait, the combination is freed once, and the wrapper is left empty. |
| Combinations.Program.WaitCopy | lib/src/stimc++.h:301-377 | The kernel performs the wait on exactly the events and in the mode the wrapper holds, with or without a timer, and the wrapper keeps its combination unchanged. |
| Combinations.Program.Chain | lib/src/stimc++.h:441-525 | A chain of temporaries over n events yields those events in order and in the right mode, with nothing else left alive. |
| Combinations.Program.ChainOfCopies | lib/src/stimc++.h:441-525 | The same chain through named variables gives the same wait, and each variable keeps its own part. |
| Combinations.Program.WaitOnChain | lib/src/stimc++.h:441-525 | Waiting on a chain of temporaries makes the kernel perform the wait on the given events in order and in the given mode, and no combination is left over. |
| Combinations.Program.NoLeak | lib/src/stimc++.h:291-294 | When every wrapper has been destroyed, no combination is left. |

## Left out

- VPI: calls into the simulator, the table of simulator products, and the lookup of modules, ports and parameters by name. What is left of it is a net's bits, a flag per thread for its pending delay callback, and the current tick count as a parameter.
- The clock in the wait kernel: a timer fires at an arbitrary time, and all theorems hold for every such choice; the tick count of a wait is in `Times.dfy`.
- The coroutine libraries and their stacks: a thread run is a sequence of API calls that ends in one suspension.
- Times as `double`, real-valued nets and deferred real assignments: rounding and `pow` are the whole content.
- The conversion of an `int32_t` to a net by the simulator (vpiIntVal): it is an arbitrary function of size and number in `Nba.dfy`.
- Kernels.Kernel.RunThreads: termination is not claimed, since threads can wake each other forever in zero time; the loop is observed for any finite number of batches.
- Allocation failure, memory fences and stack sizes: no effect on the behaviour of a single-threaded program that does not fail.
- The capacities of the thread queues and handle lists inside the kernel: there they are sequences; the growing array on its own is in `Buffers.dfy`, with the queue of deferred assignments built on it.
- Kernels.Kernel.CallCleanups: a thread's cleanup callbacks are numbers; what they do is any number of API calls, all other effects of them are the user's.
- Kernels.Kernel.RegisterCleanup: what the user's entry does at the teardown is any number of API calls; the removal of a value change callback is a VPI call.
- Kernels.Kernel.WaitEvent: a thread resumed by a teardown in the middle of a wait must not wait again, and likewise for WaitEventTimeout, WaitCombination, WaitCombinationTimeout and WaitTime; the source would leave its old slots, or its old timer, behind.
- Kernels.Kernel.EnterLoopNested: a main loop entered within a batch or a teardown is followed up to its first switch only; what the thread switched to in error does is not modelled.
- Configurations without cleanup (STIMC_DISABLE_CLEANUP) and without stack unwinding.
- Logging, SystemC compatibility, the export tool, module registration and the macros: formatting and plumbing without state of their own.
