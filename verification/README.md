# The SSM runtime in Dafny

The Sparse Synchronous Model runtime advances a model time from event to event. A routine schedules
updates of variables for later instants; in each instant all due updates take effect together, the
routines sensitive to the updated variables are woken, and they run in priority order. This project
models that runtime and proves what it promises.

How the files follow the program:

- `Instant.dfy` says what an instant means with no queue, array or list in sight: a state is the time,
  the variables, the set of runnable routines and the triggers; a program chooses a routine's runtime
  calls from what it can read. `Timeline.dfy` takes runs apart into small operations and carries the
  theorems about them; `History.dfy` states what they mean for sequences of ticks and calls made between
  ticks: an update waits while all ticks are earlier and takes effect in exactly the tick whose time is its
  time, unless something overwrites or cancels it before, and a timer that renews itself does not drift.
- `Effects.dfy` says what each part of a state is in terms of the operations that led to it, and that a
  routine's step reads exactly that state. `Clock.dfy` is one of the example programs, from its start to
  any number of ticks.
- `Scheduler.dfy` is `src/ssm-scheduler.c`: variables, routines and triggers are objects, both queues
  are arrays, and every function is a method. `Tick` is proved to compute exactly `Instant.Tick`, whose
  argument holds no array and no list, so the result, the order in which routines run and the throws
  depend on neither. `TickDropping` is the same tick when dropping old values finalises other variables
  on the way. `BinaryHeap.dfy` holds the heap facts both queues use, `Simulation.dfy` the simulator's loop.
- `EventQueue.dfy` says what the functions on the event queue do to its array, whether or not it is a
  heap. `PendingDrop.dfy` is about the one place where the runtime re-enters the queue while it is not.
- `ObjectHeap.dfy`, `Closure.dfy`, `PoolAllocator.dfy` and `Allocator.dfy` are `src/ssm-mem.c` and
  `src/ssm-closure.c`: reference counts, finalisation, closure application, free lists and block sizes.
- `InputProtocol.dfy` is the input queue between a producer and the main loop as two interleaved state
  machines; `InputQueue.dfy` is the ring buffer and its loops in place; `InputIndices.dfy` says how far
  indices of a machine word go; `RawTimer.dfy` reconstructs
  64-bit times.
- `ProcessTree.dfy` and `PriorityTree.dfy` are entering and leaving of routines and the sharing out of
  priorities; `Forking.dfy` shows that sharing them out in this way leaves no doubt which routine runs
  next, although a first child has its parent's priority, and `Joining.dfy` that a caller resumed inside
  its last child's step wakes only routines behind that child.

Results that are not what one would hope for, each with its exact condition:

- Dropping the old pending value in the middle of rescheduling can leave an event array that is not a
  heap, so that a later event is taken for the next one (`PendingDrop.LaterSkips`). Moving from one time
  to another is safe in every queue, whatever is finalised, if and only if the two times are the same
  (`PendingDrop.AlwaysSafeIffUnchanged`); in a given queue it is safe if nothing queued is finalised or
  the array is a heap as soon as the new time is written (`EventQueue.RescheduledIsHeap`). The methods
  `Reschedule` and `Later` cover both cases and say which array results.
- The value of a pending update is never dropped when its variable is finalised, because the update is
  cancelled before the test that would drop it (`ObjectHeap.PendingValueIsLost`). Dropping all roots
  empties an acyclic heap if and only if every pending value is packed
  (`ObjectHeap.DropAllRootsEmptiesIff`), and dropping some of them leaks nothing if and only if every
  variable that gets out of reach has only packed or still reachable values pending
  (`ObjectHeap.NothingLeaksIff`).
- A variable can be finalised by the drop of its own old value in the middle of its update. It is if and
  only if, without that value, nothing but the event queue refers to it, through pending values and
  cycles included (`ObjectHeap.UpdatedIsFinalisedIff`); on acyclic graphs it never is
  (`ObjectHeap.UpdatedSurvives`), and a variable that holds the only reference to itself is
  (`ObjectHeap.SelfHeldIsFinalised`).
- Time objects, and no others, are given back to another pool than they came from
  (`Allocator.SizesMatch`).
- An update can be scheduled for the present instant, although the comment at the check says it must be
  in the future. If nothing is runnable then, the next tick throws
  (`Timeline.TickThrowsOnlyForPresent`), and `Timeline.PresentTickThrows` is a program that gets there.
  `include/ssm.h` names the opposite condition for the throw ("later than now"); the model follows the
  code.
- Scheduling for the time that stands for "never" is accepted and breaks the documented invariant that
  a variable is queued exactly when it has a time (`Scheduler.Scheduler.Later`).
- A packet can carry a time that model time has reached already. That cannot happen if and only if the
  main loop takes no snapshot of the ring between a producer's reading of the clock and its publishing of
  the packet, and the producer's readings are later than all earlier ones, the loop's and its own. Whether
  the loop's readings repeat earlier ones makes no difference, nor whether the producer is a thread or an
  interrupt handler (`InputProtocol.FaultlessIffCareful`).

- The indices of the ring may wrap around as far as its slots are concerned if the size of the ring divides
  the range of the index type; but the loop that converts time stamps then skips packets. It converts all
  packets of every snapshot up to a limit if and only if the limit is below that range
  (`InputIndices.PollsExactlyIff`).

The header documents an internal error for stale events at the start of a tick; the code throws
"not ready", and so does the model.

## Model

| member | source | states |
|---|---|---|
| Prelude.NeverIsLast | include/ssm.h:399-417 | the time stamps are the 64-bit numbers, and "never" is the last of them, later than every time an update can be scheduled for |
| BinaryHeap.RootIsMin | src/ssm-scheduler.c:391-393 | the first slot of a heap holds a least element, from the parent-child order alone |
| BinaryHeap.StepUp | src/ssm-scheduler.c:142-151 | one move on the way up keeps all other pairs in order and the children of the hole behind its parent |
| BinaryHeap.StepDown | src/ssm-scheduler.c:164-185 | one move of the earlier child up keeps all other pairs in order |
| BinaryHeap.Perturbed | src/ssm-scheduler.c:342-345 | putting any element, with any key, at any slot of a heap leaves an array ready for percolating down if the parent is earlier, and ready for percolating up otherwise |
| BinaryHeap.RekeyReady | src/ssm-scheduler.c:340-345 | the comparison with the parent picks the right direction after a change of key |
| BinaryHeap.RemoveReady | src/ssm-scheduler.c:378-386 | moving the last element into a removed slot: the same comparison picks the right direction, the elements are the old ones without the removed one, and the root is no later than the moved element |
| BinaryHeap.UpOrders | src/ssm-scheduler.c:142-151 | the array after percolating up, as a function of the array before, is a heap if that was one but for the hole |
| BinaryHeap.DownOrders | src/ssm-scheduler.c:164-185 | so is the array after percolating down |
| BinaryHeap.RemovedKeepsElems | src/ssm-scheduler.c:378-387 | removal takes exactly the removed element away, also where the array is not a heap |
| BinaryHeap.DistinctSlots | src/ssm-scheduler.c:196-207 | no element sits in two slots, so the linear search finds the only one |
| BinaryHeap.LevelIsLog | src/ssm-scheduler.c:85-185 | the bound on percolation moves is the floor of the base-two logarithm |
| Scheduler.Scheduler.constructor | src/ssm-scheduler.c:52-74 | both queues are empty, have room for as many elements as they were made for, and every invariant holds at the start |
| Scheduler.Scheduler.EventPercolateUp | src/ssm-scheduler.c:142-151 | on any array: the same elements, nothing behind the last slot touched, at most log2 of the slot moves, and the array that `BinaryHeap.PercolatedUp` gives; from an array in order but for the hole, a heap |
| Scheduler.Scheduler.EventPercolateDown | src/ssm-scheduler.c:164-185 | the same downwards, with 16-bit indices and their doubling cut off to 16 bits, and at most log2 of the length moves |
| Scheduler.TwiceIsExactIff | src/ssm-scheduler.c:42-52 | doubling a 16-bit index is exact for all slots of a queue if and only if its capacity is at most 32767 |
| Scheduler.Scheduler.FindQueuedEvent | src/ssm-scheduler.c:196-207 | finds the first slot of a queued variable in any array, heap or not; fails exactly if its time says it is not queued |
| Scheduler.Scheduler.ScheduleNew | src/ssm-scheduler.c:323-331 | the queue gains exactly the variable; throws exactly when the array is full |
| Scheduler.Scheduler.Reschedule | src/ssm-scheduler.c:333-346 | time written, old pending value dropped, variable moved, in this order: for any finalised variables the queue is the one `EventQueue.Rescheduled` gives, holds exactly the others, each with its time, and throws only for "never"; it is a heap if nothing queued is finalised or the array fits in place |
| Scheduler.Scheduler.Reposition | src/ssm-scheduler.c:340-345 | on any array: the same elements, in the array that `BinaryHeap.Repositioned` gives |
| Scheduler.Scheduler.RemoveSlot | src/ssm-scheduler.c:378-387 | removal from any slot of any array takes away exactly that variable and leaves the array that `BinaryHeap.Removed` gives |
| Scheduler.Scheduler.Later | src/ssm-scheduler.c:318-348 | exactly when which error is thrown; otherwise, whatever is finalised, the variable is queued with this time and value and the finalised ones are not; where finalising does no harm the array is a heap, and the invariant "queued if and only if it has a time" holds if and only if the time is not "never"; so for every 64-bit time from now on but the last, with room left and nothing finalised, the update is pending and the invariant kept |
| Scheduler.Scheduler.Unschedule | src/ssm-scheduler.c:374-389 | on any array the queue loses exactly the variable, from wherever it is, and is the one `EventQueue.Unscheduled` gives; a heap stays a heap |
| Scheduler.Scheduler.RootEvent | src/ssm-scheduler.c:391-393 | the root of the array is an earliest of all pending updates |
| Scheduler.Scheduler.NextEventTime | src/ssm-scheduler.c:391-393 | the time read at the root is the least pending time, or "never" if nothing is pending |
| Scheduler.Scheduler.SetNow | src/ssm-scheduler.c:401-411 | throws exactly if time would not advance, or if a queued event would be skipped |
| Scheduler.Scheduler.ActPercolateUp | src/ssm-scheduler.c:85-95 | as for events, and the routine is marked as scheduled |
| Scheduler.Scheduler.ActPercolateDown | src/ssm-scheduler.c:108-128 | as for events, with 16-bit indices |
| Scheduler.Scheduler.Activate | src/ssm-scheduler.c:298-308 | the set of scheduled routines gains the routine, which changes nothing if it is in it; throws exactly if it is not and the array is full |
| Scheduler.Scheduler.PopAct | src/ssm-scheduler.c:450-459 | takes off a routine of least priority number among those scheduled, and no other |
| Scheduler.Scheduler.Push | src/ssm-scheduler.c:350-363 | from a well-linked list, the pointers spell out the list with the trigger in front, forwards and backwards |
| Scheduler.Scheduler.Unlink | src/ssm-scheduler.c:365-372 | from any position, the pointers spell out the list without that trigger, the others in order |
| Scheduler.Scheduler.Sensitize | src/ssm-scheduler.c:350-363 | puts the trigger first on the variable's list and leaves all other lists alone |
| Scheduler.Scheduler.Desensitize | src/ssm-scheduler.c:365-372 | removes exactly the trigger, wherever it is, and keeps every list acyclic and well linked |
| Scheduler.Scheduler.WokenAreSensitive | src/ssm-scheduler.c:310-316 | the routines on a variable's list are those whose trigger is attached to it, whatever the order of the list |
| Scheduler.Scheduler.Wake | src/ssm-scheduler.c:421-422 | walking the pointers schedules exactly the routines on the list above a priority, and throws if and only if these and the others are more than the queue has room for |
| Scheduler.Scheduler.Assign | src/ssm-scheduler.c:310-316 | writes value and time, and schedules exactly the sensitive routines of larger priority number |
| Scheduler.Scheduler.UnscheduleEach | src/ssm-mem.c:336-342 | cancelling any variables one after the other, on any array, takes exactly those away; a heap stays a heap and another variable at its root stays there |
| Scheduler.Scheduler.Update | src/ssm-scheduler.c:413-423 | exactly what is thrown; otherwise value, time and woken routines are as promised, also when dropping the old value cancels other updates in between |
| Scheduler.Scheduler.PopEvent | src/ssm-scheduler.c:442-447 | removing the root whose time has already been cleared restores the heap and the invariant |
| Scheduler.Scheduler.UpdateRoot | src/ssm-scheduler.c:413-448 | update and removal together, with any number of finalised variables in between, equal cancelling those and then applying the root's update |
| Scheduler.Scheduler.ApplyEvents | src/ssm-scheduler.c:436-448 | the loop over the heap makes updates that are due, each after cancelling what its drop finalises, until none is due; it throws if and only if the routines woken are too many |
| Scheduler.Scheduler.Execute | src/ssm-scheduler.c:298-389 | each runtime call on queues and lists is the corresponding change of the abstract state, and throws exactly what the abstract one throws |
| Scheduler.Scheduler.Step | src/ssm-scheduler.c:461-461 | a step of a routine is its calls in order, up to the first throw |
| Scheduler.Scheduler.Advance | src/ssm-scheduler.c:425-434 | the checks at the start of a tick throw exactly when the abstract ones do, and time moves to the earliest update |
| Scheduler.Scheduler.RunFirst | src/ssm-scheduler.c:450-462 | one turn of the loop is the first turn of the abstract instant |
| Scheduler.Scheduler.RunActs | src/ssm-scheduler.c:450-462 | the loop over the activation queue runs the routines in the order the abstract instant has, with the same throws |
| Scheduler.Scheduler.TickDropping | src/ssm-scheduler.c:425-463 | with any finalisation of variables by dropped values, the tick is `Instant.TickDropping` for the order in which the updates were made, with exactly its throws |
| Scheduler.Scheduler.Tick | src/ssm-scheduler.c:425-463 | with packed values, the resulting state, the order of routines and all throws are those of `Instant.Tick`, a function of the abstract state and the queues' capacities only |
| Instant.UnscheduleAllIs | src/ssm-scheduler.c:374-389 | cancelling a list of variables clears their pending updates and nothing else |
| Instant.ApplyDueStep | src/ssm-scheduler.c:436-448 | applying one due update first and then the others gives the same state |
| Instant.AnyOrder | src/ssm-scheduler.c:436-448 | same-time updates applied in any order give the same state |
| Instant.DrainedIsApplyDue | src/ssm-scheduler.c:436-448 | if nothing is finalised, updates made one by one in any order until none is due give what all of them give at once |
| Instant.PackedTick | src/ssm-scheduler.c:425-463 | if nothing is finalised, the tick does not depend on the order of the updates |
| Instant.TickUnambiguous | src/ssm-scheduler.c:450-462 | if in no state of an instant two runnable routines have the same priority, there is never a choice of which one runs next |
| Instant.AmpleTick | src/ssm-scheduler.c:304-330 | queues with room for every variable and every routine are never exhausted |
| Instant.CallsAreDownward | src/ssm-scheduler.c:310-316 | a step makes runnable only routines below its own if it activates only such routines and no routine of smaller priority number makes assignments in it |
| Instant.InstantOrder | src/ssm-scheduler.c:450-462 | if steps make runnable only routines at or above their own priority number, an instant runs its routines in priority order |
| Instant.InstantEnds | src/ssm-scheduler.c:450-462 | if steps make runnable only larger priority numbers, an instant ends after at most as many turns as there are routines |
| Instant.OncePerInstant | src/ssm-scheduler.c:310-316 | under the same condition, met by waking through assignments, no routine runs twice in a tick and every tick ends |
| Effects.ValueIsLast | src/ssm-scheduler.c:310-448 | in every run, a variable's value and the time of its last update are those of the last assignment to it or update of it that took effect, or what they were at the start |
| Effects.LinkIsLast | src/ssm-scheduler.c:350-372 | in every run, a trigger is on a variable's list if and only if it was put there last, or was there from the start |
| Effects.PcIsLast | include/ssm.h:125-130 | in every run, a routine goes on where it said last |
| Effects.RunnableIff | src/ssm-scheduler.c:298-316 | in every run, a routine is to run if and only if an update of a variable it listens to, an assignment to one by a routine of smaller priority number, or an activation has woken it and it has not been taken off the queue since, or it was to run from the start |
| Effects.TickReads | src/ssm-scheduler.c:450-462 | when a routine's turn comes in a tick, it makes exactly the calls that the program chooses from the time, the variables and the program counters of that moment, before the next one's turn |
| Effects.TickDroppingReads | src/ssm-scheduler.c:450-462 | the same in ticks in which dropping old values finalises variables |
| Clock.FirstTick | examples/simulation/clock.c:59-161 | the program that counts seconds starts: its three routines run, the timer is set and nothing is counted |
| Clock.NextTick | examples/simulation/clock.c:59-115 | every later tick is a period later, runs the ticker and then the reporter, and counts one more |
| Clock.KeepsTime | examples/simulation/clock.c:59-161 | for every k and every period: after the first tick and k others the time is k periods, k is counted, the next tick is a period later, and nothing has been thrown |
| Timeline.TimelyRun | src/ssm-scheduler.c:401-411 | in every run time never goes back and no pending update is left behind it |
| Timeline.PendingExactness | src/ssm-scheduler.c:318-448 | in every run, a pending update not overwritten or cancelled is still waiting, not overdue and not applied, or is applied exactly once, with its value, when the time is its time, and is gone |
| Timeline.Exactness | src/ssm-scheduler.c:318-448 | the same for an update scheduled at any step of a run |
| Timeline.Provenance | src/ssm-scheduler.c:318-448 | in every run, whatever is pending was put there by the last call that touched the variable |
| Timeline.TickProgress | src/ssm-scheduler.c:433-434 | with nothing runnable and something pending, a tick moves time strictly forward onto a pending update, unless one is pending for the present, and then it throws |
| Timeline.TickThrowsOnlyForPresent | src/ssm-scheduler.c:425-434 | a tick throws if and only if nothing is runnable and an update is pending for the present |
| Timeline.TickThrowsIff | src/ssm-scheduler.c:425-434 | in every state: a tick throws "not ready" if and only if a routine is to run and an update is overdue, and "invalid time" if and only if none is to run and an update is overdue or due |
| Timeline.TickIsRun | src/ssm-scheduler.c:425-463 | every tick is a run of exactly these operations: time advances, the due updates are applied one by one, in any order, and then each routine is taken off the queue and makes its calls |
| Timeline.TickDroppingIsRun | src/ssm-scheduler.c:413-448 | so is every tick in which dropping old values finalises variables: exactly the cancellations of these and then the application, for each update, between the advance and the calls |
| History.HistoryIsRun | src/ssm-scheduler.c:318-463 | every sequence of ticks and calls made between ticks is a run of exactly their operations, one move after the other |
| History.TickOn | src/ssm-scheduler.c:425-463 | a tick makes the update pending on a variable if and only if its time is the update's and nothing in it overwrites or cancels the update first; then once and with its value, whatever the routines do to the variable afterwards; no tick goes past an update or makes one that was not pending |
| History.UpdatesAreExact | src/ssm-scheduler.c:318-463 | in every history a pending update waits, all ticks being earlier, up to the first move that overwrites or cancels it or the tick whose time is its time, which makes it; after that nothing is made of the variable until a call schedules again |
| History.ScheduledUpdatesAreExact | src/ssm-scheduler.c:318-463 | the same for an update scheduled by any call, of a routine inside a tick or from outside |
| History.PackedTickIsMove | src/ssm-scheduler.c:425-463 | a tick that finalises nothing is a move of a history, for any order of its updates |
| History.TimerIsPeriodic | examples/simulation/clock.c:59-75 | in every history, a timer scheduled again, a period later, by each tick that makes its update is made at its first time plus whole periods, the k-th time after k periods, and no tick goes past it |
| Timeline.PresentThrows | src/ssm-scheduler.c:318-321 | for every such state: when the last runnable routine schedules for the present, the run goes on to a state whose next tick throws |
| Timeline.PresentTickThrows | src/ssm-scheduler.c:401-404 | the same with two whole ticks of a program, the first completed, the second throwing |
| Timeline.ForwardTick | src/ssm-scheduler.c:425-463 | if steps schedule strictly forward, ticks throw only if a queue is exhausted, so never if there is room for everything, keep all updates ahead, and advance time |
| Timeline.SimulationEnds | platform/simulation/src/simulation-main.c:89-90 | the simulator's loop ends, with nothing pending or the limit reached |
| Timeline.SimulationStops | platform/simulation/src/simulation-main.c:89-90 | the loop makes neither a tick too few nor one too many: before each of its ticks something is pending and the limit is not reached, and after the last that is not so |
| Simulation.Turn | platform/simulation/src/simulation-main.c:89-90 | each turn completes its tick, and the turns left shrink |
| Simulation.Simulate | platform/simulation/src/simulation-main.c:89-90 | the loop over real queues ends, without a throw, in the state the abstract loop ends in |
| EventQueue.UnscheduledIsQueue | src/ssm-scheduler.c:374-389 | unscheduling in a heap leaves a heap of the others, with their times |
| EventQueue.UnscheduledAllKeepsRoot | src/ssm-scheduler.c:374-389 | unscheduling any other variables of a heap leaves the next event at the root |
| EventQueue.RescheduledIsHeap | src/ssm-scheduler.c:333-346 | rescheduling leaves a heap of exactly the variables not finalised, with their times, if no finalised variable is queued or the array is a heap as soon as the new time is written |
| PendingDrop.LaterBreaks | src/ssm-scheduler.c:333-346 | for every move to a later time there is a queue in which finalising a queued variable leaves no heap |
| PendingDrop.EarlierBreaks | src/ssm-scheduler.c:333-346 | so there is for every move to an earlier time |
| PendingDrop.LaterSkips | src/ssm-scheduler.c:333-346 | for all times o < m < w, a queue after whose move from o to w an event for m is next although one for o is queued |
| PendingDrop.AlwaysSafeIffUnchanged | src/ssm-scheduler.c:333-346 | moving from one time to another withstands finalisation in every queue if and only if the times are equal |
| ObjectHeap.DropConcat | src/ssm-mem.c:372-375 | dropping a list is dropping its parts one after the other, however deep finalisation recurses |
| ObjectHeap.DropKeepsBodies | src/ssm-mem.c:325-361 | apart from freed objects, dropping changes only counts |
| ObjectHeap.DropCounted | include/ssm.h:338-370 | dropping references one holds meets no freed object, ends, and keeps every count equal to the number of references |
| ObjectHeap.AtMost255 | include/ssm.h:254-268 | where the counts are exact, no object has more than 255 references |
| ObjectHeap.LastDropLowers | src/ssm-mem.c:325-375 | dropping the last reference to an object of any kind whose members all have further references frees it, lowers each member's count by its occurrences among the fields, the value, the arguments or the elements, cancels a variable's update, and does nothing else |
| ObjectHeap.MembersAreFields | src/ssm-mem.c:325-361 | what finalisation drops and what the counts count are the members that each kind of object has |
| ObjectHeap.DupCounted | include/ssm.h:352-352 | one more reference keeps the counts exact if and only if the eight-bit count is below 255 |
| ObjectHeap.DropIsSafe | src/ssm-mem.c:325-375 | on any object graph, dropping never frees an object that the remaining roots reach |
| ObjectHeap.DropIsExact | src/ssm-mem.c:325-375 | on an acyclic graph, what survives a drop is exactly what the remaining roots, references lost before, and values pending before the drop reach |
| ObjectHeap.NothingLeaksIff | src/ssm-mem.c:325-375 | every survivor is reachable from the remaining roots if and only if every variable they do not reach has pending only packed values and values they reach |
| ObjectHeap.PackedDropIsExact | src/ssm-mem.c:325-375 | with packed pending values, exactly what the remaining roots reach survives |
| ObjectHeap.DropAllRootsEmptiesIff | src/ssm-mem.c:325-375 | dropping all roots of an acyclic graph frees everything if and only if every pending value is packed |
| ObjectHeap.PendingValueIsLost | src/ssm-mem.c:336-342 | a heap value in a pending update outlives its variable: an example left behind with nothing reaching it |
| ObjectHeap.CancelledAreFreed | src/ssm-mem.c:338-338 | finalisation cancels exactly the updates of the freed variables that have one, each once |
| ObjectHeap.CancelledAreUnreachable | src/ssm-mem.c:338-338 | no variable that the remaining roots reach has its update cancelled |
| ObjectHeap.DropIsExactOnAnyGraph | src/ssm-mem.c:325-375 | on any graph, cycles included, an object survives a drop if and only if it belongs to a set of objects each of which is referred to by a remaining root, a lost reference, a pending value or a field of another in the set |
| ObjectHeap.UpdatedIsFinalisedIff | src/ssm-scheduler.c:413-423 | on any graph, an update finalises the variable itself if and only if, without its old value, the variable belongs to no such set |
| ObjectHeap.UpdatedSurvives | src/ssm-scheduler.c:413-423 | on an acyclic graph, an update never finalises the variable itself |
| ObjectHeap.SelfHeldIsFinalised | src/ssm-scheduler.c:413-423 | a variable whose value is the only reference to it is finalised by its own update |
| ObjectHeap.Heap.New | src/ssm-mem.c:266-323 | a new object has one reference and no event |
| ObjectHeap.Heap.Dup | include/ssm.h:325-352 | raises the eight-bit count, with wrap-around, and nothing else |
| ObjectHeap.Heap.Drop | include/ssm.h:338-370 | the recursive in-place drop ends and does what the specification of dropping says; the event queue never holds a freed variable |
| ObjectHeap.Heap.DropFinal | src/ssm-mem.c:325-361 | finalisation while other objects are being finalised does what the specification says |
| Closure.DupCount | src/ssm-mem.c:367-370 | without wrap-around each count grows by the number of occurrences |
| Closure.DupThenDrop | src/ssm-mem.c:367-375 | duplicating and then dropping the same values restores the store and frees nothing |
| Closure.LastDrop | include/ssm.h:938-943 | with its arguments duplicated, the last drop of a closure frees it and nothing else and restores every count |
| Closure.Machine.Dups | src/ssm-mem.c:367-370 | the loop duplicates every value of the list |
| Closure.Machine.Clone | src/ssm-closure.c:12-23 | a new closure with the same arguments, each with one more reference |
| Closure.Machine.Apply | src/ssm-closure.c:25-41 | a full closure starts the child with all arguments and is left as it was; otherwise a new closure with the argument |
| Closure.Machine.ApplyFinal | src/ssm-closure.c:43-64 | the in-place path: the child started and the closure freed, or the closure with the argument |
| Closure.Machine.ApplyThenDrop | include/ssm.h:938-943 | the general path followed by a drop has the outcome of the in-place path: same child or same closure but for its address, every other object and count as before |
| Closure.DupAllCounted | src/ssm-mem.c:367-370 | duplicating a list keeps every count exact for a program that now holds those references too |
| Closure.ApplyCounted | src/ssm-closure.c:25-41 | after the general path every count is exact, the child or the new closure holding one reference to each argument |
| Closure.ApplyFinalCounted | src/ssm-closure.c:43-64 | after the in-place path every count is exact, the closure's references having moved without being counted again |
| Closure.SameButForAddress | include/ssm.h:938-943 | for a closure not full yet, the two outcomes differ in the closure's address only, with as many live objects |
| PoolAllocator.PageBlocksApart | src/ssm-mem.c:112-124 | the blocks of a page lie inside it, apart and distinct |
| PoolAllocator.PageChain | src/ssm-mem.c:82-87 | in a zeroed page, writing the last link alone makes all blocks a free list in address order, continued by the old one |
| PoolAllocator.ChainFrame | src/ssm-mem.c:82-87 | what is written into other blocks does not change a free list |
| PoolAllocator.Pool.AllocPage | src/ssm-mem.c:112-124 | pushes the blocks of a page onto the stack in address order |
| PoolAllocator.Pool.Alloc | src/ssm-mem.c:196-222 | pops the stack, after pushing a page if it is empty; the block was not handed out |
| PoolAllocator.Pool.Free | src/ssm-mem.c:247-257 | pushes the block; free and handed-out blocks stay as many as the pages hold |
| PoolAllocator.Pool.Write | src/ssm-mem.c:82-87 | whatever a program writes into a block it holds leaves the free list alone |
| PoolAllocator.Pool.Prealloc | src/ssm-mem.c:178-179 | the loop pushes page after page |
| PoolAllocator.Pool.FreeListLength | src/ssm-mem.c:394-400 | the walk reaches the sentinel and counts every free block once |
| PoolAllocator.Pool.HandedOutApart | src/ssm-mem.c:183-231 | handed-out blocks never overlap, and each lies inside one page |
| Allocator.FindPoolSize | src/ssm-mem.c:75-80 | the smallest pool with room for the size, or none |
| Allocator.PoolForIsUnique | src/ssm-mem.c:75-80 | a size decides its pool, so a block is given back to the pool it came from |
| Allocator.Allocator.AllApart | src/ssm-mem.c:183-264 | no two handed-out blocks overlap, whichever pools they are from |
| Allocator.Allocator.Alloc | src/ssm-mem.c:183-231 | hands out a block that is large enough and not in use; the other pools stay as they are |
| Allocator.Allocator.Free | src/ssm-mem.c:233-264 | gives a block back to the pool of its size, on top of its stack |
| Allocator.Allocator.Prealloc | src/ssm-mem.c:174-180 | pushes the pages onto the pool of the size and no other, or nothing if the size fits no pool; nothing is handed out and pools stay apart |
| Allocator.SizesMatch | src/ssm-mem.c:266-361 | the size computed at finalisation is the size allocated, and so is the pool, if and only if the object is not a time |
| Allocator.StructSizes | include/ssm.h:254-1013 | the sizes used are those of the structures' members laid out in order with their alignment, and the first field, argument and element are 8, 16 and 8 bytes from the start |
| Allocator.ValuesFit | include/ssm.h:558-1031 | every field, argument or element lies behind the header and inside what is allocated and so inside the block of the pool, and nothing is allocated behind the last one |
| Allocator.FirstValueIsLastMember | include/ssm.h:493-1013 | the first value of an object is where the last member of its structure is |
| Allocator.StructuresFit | src/ssm-mem.c:266-291 | times and variables fit into what is allocated for them |
| Allocator.BlobFits | src/ssm-mem.c:313-323 | the rounded size has room for the payload behind a header of four bytes, and wastes less than four bytes |
| InputProtocol.SlotsDiffer | platform/posix/src/posix-common.h:206-210 | indices less than the ring size apart share a slot only if they are equal |
| InputProtocol.ReadinessIsCounting | platform/posix/src/posix-common.h:206-210 | with at most size - 1 packets, the modular tests say what the counters say |
| InputProtocol.StaleIsConservative | platform/posix/src/posix-io.c:53-57 | a stale reading of the read index never lets the producer write into a full ring |
| InputProtocol.ProducerKeepsInv | platform/posix/src/posix-io.c:53-69 | every producer step, at any moment, keeps the invariant of ring, times and both program counters |
| InputProtocol.ConsumerKeepsInv | platform/posix/src/posix-main.c:126-148 | so does every step of the main loop |
| InputProtocol.ConsumesOne | platform/posix/src/posix-main.c:65-80 | with distinct time stamps the consumption loop takes one packet, whose time is after the present and no later than any queued event |
| InputProtocol.RunIsSafe | platform/posix/src/posix-main.c:65-148 | in every state of every interleaving: no time check can fire, no raw time is read as converted or converted twice, no queued event is skipped, packets are taken in order and unaltered, at most size - 1 wait, and what is not taken is still to come |
| InputProtocol.PutIsSent | platform/posix/src/posix-io.c:57-69 | the packet a thread publishes has the variable, the payload and the clock reading it was written with, whatever the loop does in between |
| InputProtocol.HandledIsSent | platform/zephyr/src/zephyr-tick.c:77-101 | what a handler puts in is sent at once, with the time it reads |
| InputProtocol.LoopTakesRow | platform/posix/src/posix-main.c:65-80 | the loop takes all packets in a row that have the time of the first one, in their order and unaltered, and none behind them |
| InputProtocol.TickIsExact | platform/zephyr/src/zephyr-tick.c:126-148 | every packet stamped in the time a tick passes over is stamped with the tick's own time and is pending for that tick, in the whole run |
| InputProtocol.UnguardedIsFaulty | platform/zephyr/src/zephyr-tick.c:77-101 | if a snapshot can come between reading the clock and publishing, a packet is handed over whose time has passed, with a thread or a handler and with any clock |
| InputProtocol.ReadingOfLoopIsFaulty | platform/posix/src/posix-io.c:57-69 | a producer that reads a time the loop has read already can make a tick throw, also behind the lock of a thread |
| InputProtocol.OwnReadingIsFaulty | platform/posix/src/posix-io.c:57-69 | so can one that reads the same time twice, even if its readings are later than the loop's |
| InputProtocol.FaultlessIffCareful | platform/zephyr/src/zephyr-tick.c:49-148 | for all combinations of thread or handler, guarded or not, and of what clock readings may repeat: no reachable state is faulty if and only if no snapshot comes between reading the clock and publishing, and the producer's readings are later than the loop's earlier ones and than its own |
| InputIndices.IndicesAreBelow | platform/posix/src/posix-main.c:65-148 | in careful runs no index, shared or local, exceeds the number of packets sent, so none is cut off before that reaches the range of the word |
| InputIndices.SlotsSurviveIff | platform/posix/src/posix-common.h:206-207 | packets keep their slots when indices wrap around if and only if the size divides the range |
| InputIndices.PollsExactlyIff | platform/posix/src/posix-main.c:82-91 | the conversion loop converts what every snapshot shows, for all snapshots up to a limit, if and only if the limit is below the range of the word |
| InputQueue.ScheduledIsNext | platform/posix/src/posix-main.c:71-80 | scheduling packets of one time, no later than any event, makes that time the next one |
| InputQueue.OthersKeepPending | platform/posix/src/posix-main.c:74-78 | variables without a packet keep their pending update |
| InputQueue.Ring.Insert | platform/zephyr/src/zephyr-tick.c:77-101 | appends the packet, or refuses exactly if size - 1 packets wait |
| InputQueue.Ring.Poll | platform/zephyr/src/zephyr-tick.c:49-58 | converts each new time stamp once and no other |
| InputQueue.Ring.Consume | platform/posix/src/posix-main.c:65-80 | takes nothing if there is nothing or an event comes first; otherwise the longest run of packets of the first packet's time, each scheduled in order |
| RawTimer.CalcIsExact | platform/zephyr/include/platform/zephyr-timer.h:86-89 | the reconstructed time is that of the low read if the reads take at most 2^31 ticks |
| RawTimer.Ranges | platform/zephyr/include/platform/zephyr-timer.h:72-89 | the counter has 32 bits, its top bit is worth 2^31, and the reconstructed times have 64 bits |
| RawTimer.ExactUpToHalf | platform/zephyr/include/platform/zephyr-timer.h:72-108 | that bound is the largest that works |
| RawTimer.Reading.ReadRaw | platform/zephyr/include/platform/zephyr-timer.h:101-108 | the three fields are filled in from three moments, and the time is that of the second |
| RawTimer.ReadingsAreOrdered | platform/zephyr/include/platform/zephyr-timer.h:72-108 | readings that do not overlap are never out of order |
| ProcessTree.KidsOfFewer | src/ssm-scheduler.c:290-295 | a routine's leaving lowers its caller's count by one and no other |
| ProcessTree.CascadeIsExact | src/ssm-scheduler.c:290-296 | exactly the callers that lose their last child are resumed, exactly those of them that are done leave, and there is at most one per level |
| ProcessTree.CountsAddUp | src/ssm-scheduler.c:273-296 | the children counts of all routines add up to the number of routines |
| ProcessTree.CountIsExactIff | include/ssm.h:128-129 | a count is the number of live children if and only if that number has sixteen bits |
| ProcessTree.Runtime.Enter | src/ssm-scheduler.c:273-288 | adds the routine to the tree; every 16-bit count stays the number of live children |
| ProcessTree.Runtime.EnterMany | src/ssm-scheduler.c:273-288 | a routine that is resumed can enter any number of children that its count can hold |
| ProcessTree.Runtime.Leave | src/ssm-scheduler.c:290-296 | the recursive leaving does what the specification of the cascade says, a resumed caller leaving in turn or entering new children, and keeps every count right |
| PriorityTree.ChildIsWithin | examples/simulation/fib.c:139-151 | the repeated 32-bit additions never wrap, and a child's priorities lie within its parent's |
| PriorityTree.FitsExactly | examples/simulation/fib.c:90-97 | the depth rule has room for 2^k children and for no more |
| PriorityTree.DescendantsAreWithin | examples/simulation/fib.c:139-151 | in every fork tree, descendants own part of their ancestor's priorities |
| PriorityTree.BranchesAreDisjoint | examples/simulation/fib.c:139-151 | different branches own disjoint priorities, in the order of the branches |
| PriorityTree.DepthOnPath | examples/simulation/fib.c:90-97 | a routine has the depth its tree started with, less what the forks on the way to it used up |
| PriorityTree.RootOwnsAll | include/ssm.h:104-114 | the entry point owns every 32-bit priority |
| PriorityTree.LeavesAreDistinct | include/ssm.h:98-114 | routines without children never share a priority, and lower means earlier in the order of forking |
| Forking.ForkedTickUnambiguous | examples/simulation/fib.c:139-151 | if priorities are shared out by forking and only routines without live children are runnable, there is never a choice of which routine runs next |
| Forking.ForkedRunWithSharedPriority | examples/simulation/fib.c:90-97 | an instance in which a parent and its first child share their priority and the parent is resumed inside the step of its last child |
| Joining.StagesAreResumed | src/ssm-scheduler.c:290-296 | the routines that run in a step that leaves are the one whose turn it is and then, in order, exactly the callers that the cascade of leaving resumes |
| Joining.BranchesAreApart | examples/simulation/fib.c:139-151 | of two live routines neither of which is above the other, neither has a priority of the other |
| Joining.ForkKeepsNested | examples/simulation/fib.c:139-151 | forking up to 2^k children keeps all priorities nested |
| Joining.LeavingIsDownward | src/ssm-scheduler.c:290-316 | whatever the callers resumed in a step assign, they make runnable only routines of larger priority number than the one whose turn it is, provided those that have left are sensitive to nothing |
| Joining.JoinedOrder | src/ssm-scheduler.c:450-462 | so a tick in which routines are joined by their callers runs its routines in priority order |
| Joining.JoinedTick | src/ssm-scheduler.c:450-462 | and, if everything is woken strictly downward, it ends and runs no routine twice |

## Left out

- Scheduler.Scheduler.Later: what the drop of the old pending value finalises is a parameter, any list without the variable itself, to which the caller holds a reference. That the result is a heap is promised where finalising does no harm; for one given queue and list no condition is given that is also necessary, and `PendingDrop.AlwaysSafeIffUnchanged` is exact over all queues.
- EventQueue.RescheduledIsHeap: the same.
- Scheduler.Scheduler.CallLater: a step's call finalises nothing in that place; finalisation elsewhere in a step is the call `Cancel`.
- Scheduler.Scheduler.Execute: a call that schedules for "never" is not among those a program may make; `Scheduler.Scheduler.Later` says what it does to the queue.
- Scheduler.Scheduler.Update: the variables finalised by the drop of the old value are a parameter, any list without the variable itself. On acyclic graphs `ObjectHeap.UpdatedSurvives` shows that it is never among them; on cyclic ones `ObjectHeap.UpdatedIsFinalisedIff` says when it is, and what the tick does then is not modelled, because it goes on to write into a freed object. Values themselves are words.
- Scheduler.Scheduler.UpdateRoot: the same restriction.
- Scheduler.Scheduler.ApplyEvents: the same restriction, for each update.
- Scheduler.Scheduler.TickDropping: the same restriction, for each update.
- Scheduler.Scheduler.Tick: routines, variables and triggers come from fixed sets; a routine entered during an instant is one of them that had not been activated. A step is the list of calls made in it, each by the routine itself or by a caller that `ssm_leave` resumes inside it; `Joining` says which callers these are and what follows for the order, of steps in which a resumed caller activates only routines behind the one whose turn it is.
- Scheduler.Scheduler.RunActs: a bound on the number of turns stands in for a loop that need not end; `Instant.InstantEnds` says when as many turns as there are routines are enough.
- Timeline.ForwardTick: programs schedule strictly after the present; `Timeline.PresentTickThrows` shows that this is needed.
- ObjectHeap.Heap.New: addresses are never used again, so that a freed object can be told from a new one; reuse of blocks is in `PoolAllocator`.
- ObjectHeap.DropCounted: counts are exact only while fewer than 256 references to an object exist; `DupCounted` shows that this is needed.
- Closure.Machine.Apply: the arguments' counts stay below 256; the started child is recorded with its arguments, not run.
- Closure.Machine.ApplyFinal: the same.
- PoolAllocator.Pool.Prealloc: the choice of the pool is in `Allocator.Allocator.Prealloc`.
- PoolAllocator.Pool.Alloc: only the first word of each block is modelled, and the page handler returns a zeroed page behind the sentinel and apart from all others.
- Allocator.StructSizes: the layout is that of a machine with eight-byte pointers and natural alignment.
- InputProtocol.RunIsSafe: clock times are below "never", there is one producer, and the routines of a tick schedule strictly forward; ring indices are unbounded, which is exact up to the range of the index type (`InputIndices`); later states of a program whose indices wrap are not followed.
- InputQueue.Ring.Consume: the time of the next event is a parameter, read before.
- RawTimer.CalcIsExact: the overflow handler has run whenever the high word is read after a wrap.
- ProcessTree.Runtime.Leave: a record has fewer than 65536 live children, only routines without children leave, and a resumed routine leaves or enters children, not first the one and then the other.
- PriorityTree.ChildIsWithin: the increment is 2^depth; in C the shift of the signed constant 1 by 31 is undefined.
- `ssm_throw` is an outcome of the method; nothing is said about the state after it.
- Operating system and device calls: sleeping, alarms, pipes, threads, Zephyr counters and semaphores. Locks, the clock and the atomic indices are abstract steps.
- Large allocations, the page and memory handlers, and `ssm_mem_destroy`.
- Statistics, tracing, Valgrind hooks and the heap that uses `malloc`.
- `ssm_reset`, which clears the queues but not the fields that say what is queued.
- The macros that combine assignment with duplicating and dropping, and the marshalling of words.
- The unused 32-bit time macro of the POSIX platform, command-line parsing, output handlers and the other example programs.
