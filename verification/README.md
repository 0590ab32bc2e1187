# Verified model of rtdag

rtdag runs a DAG of periodic real-time tasks, one thread per task, to measure end-to-end response times. This
project models its execution protocol, its matrix code and its time arithmetic in Dafny, and proves what they
are there for.

## What is modelled

**The DAG protocol** (`src/newstuff/rtask.cpp`, `src/newstuff/rtask.h`, `src/newstuff/taskset.cpp`,
`src/multi_queue.h`), in layers:

- `Wiring` is the `DagTaskset` constructor: from an adjacency matrix to queues, edges, push indices and edge
  lists. `Graph` relates acyclicity (no closed walk) to topological orders.
- `BusyMask` and `MultiQueueData` are the 64-bit mask, with its shifts as written, and the regions that `push`
  and `pop` run under the mutex. `Monitor` is the same queue at the granularity of lock, wait, notify and wake-up,
  with the mask, spurious wake-ups and any number of producers per slot. It refines `AtomicQueue`: one-place slots
  with a guarded atomic push, and an atomic pop that is released when all slots are full and there are at most 31.
- `DagModel` is a labelled transition system over the step program of each task: aligning, start push, pop of the
  inputs, one read per input, work, begin and end of the write and the push for every output, start pop, period wait. Message
  buffers have no lock; while one is being written another thread may see arbitrary bytes in it. `TaskBody` has
  the nested loops of `task_body` and shows that they take exactly these steps in this order.
- `DagInvariant` has the conservation laws every step keeps. `DagSafety`, `DagProgress` and `DagResults` derive
  the safety of the unlocked buffers, deadlock freedom and termination, and what a complete run measures.
  `DagRace` constructs the runs in which a second sink makes the buffers unsafe. `Dag` puts constructor and
  protocol together: its statements start from a matrix. A matrix is *well-formed* if it is square and acyclic
  and has no negative entry; *accepted* means that it passes the constructor's two checks.
- `Startup` is the two-round barrier of `common_init`.
- `Messages` are the message bytes, `PeriodicTask` the activation instants.

The central argument: on every edge slot, pushes exceed pops by the busy bit. Along the edges the number of
activations begun can only fall, from the originator down to the sink, and the one-slot `start_time` queue keeps
the two ends at most one apart. All bounds on who can be where follow from that, for every acyclic graph and
every interleaving.

**The matrix code** (`src/hellogauss.h`, `src/hellogauss.c`, `src/rtgauss.cpp`), in place on flat row-major arrays, of
any size, over the reals: `LinearAlgebra` has matrices and row operations, `HelloGauss` is `gauss_invert`,
`GaussMultiply` the sequential and the parallel product, `RtGauss` the work loop with `Count_Ticks` of
`src/time_aux.c`.

**Hyperperiods and activation counts** (`scripts/dagc2rtdag.py`, `src/newstuff/taskset.cpp`): `Hyperperiod`.

`Common` has finite sums and counts.

## Where the code and its intent differ

The model follows the code. These results are about places where that matters.

- The constructor checks for one originator twice; the second check is meant for the sink
  (`src/newstuff/taskset.cpp:165-170`). A graph with several sinks is accepted, and then no run of it completes
  (`Dag.AcceptedYetStuck` is a family of inputs). Nor are the buffers kept apart any more: a message can be
  written while it is read, and this happens if and only if there is not exactly one sink
  (`Dag.AcceptedNeverOverlapIff`). A wrong message can be read only where messages differ:
  `Dag.AcceptedSinksReadExactlyIff` has the exact condition for the sinks.
- `push` shifts an `int` (`src/multi_queue.h:49`). With 32 slots the sign extension of bit 31 sets the upper half
  of the mask, and `pop` waits forever. A task with 32 inputs is accepted all the same, and then no run completes
  (`Dag.WideAcceptedYetStuck`). `BusyMask.PopTestExactIff` gives the bound of the mask, 31, and
  `Dag.AcceptedCompletesIff` the exact condition for completing: one sink, and at most 31 inputs to every task.
- Queue sizes count non-zero entries, edges positive ones outside the diagonal. The two agree, as the assertion
  in `pop` needs, under the condition of `Wiring.QueueFitsIff`; `Wiring.QueueDoesNotFit` has matrices where they
  do not. With the assertion compiled out a consumer that sleeps first is then never signalled
  (`BusyMask.NobodySignals`).
- `-S` promises a minimum running time, but the quotient is rounded down (`scripts/dagc2rtdag.py:294-297`), and the
  truncation to microseconds may shorten every repetition. `Hyperperiod.MinimumTimeKeptIff` says when the promise
  is kept, `Hyperperiod.MinimumTimeMissed` has inputs where it is not, and `Hyperperiod.SpansHyperperiodIff` says
  when a DAG spans the whole hyperperiod.

## Model

| member | source | states |
|---|---|---|
| `Dag.EveryReadIsExact` | src/newstuff/rtask.cpp:172-201 | On every well-formed accepted matrix with one sink, in every state of every interleaving, a task that is reading its i-th input in activation k finds in the unlocked buffer the complete message its sender wrote in the sender's activation k, of the size in the matrix |
| `Dag.AcceptedResponseTimes` | src/newstuff/rtask.cpp:273-288 | On every well-formed accepted matrix with one sink, every complete run leaves one response time for each requested activation; entry k was written by exactly one step, the sink's start pop of activation k, and is the clock reading of that step in whole microseconds minus the initial reading, 100 ms and k periods, and not negative |
| `Dag.AcceptedInbox` | src/newstuff/rtask.cpp:172-201 | On the same inputs, in every complete run each task has read, for each requested activation and in order, one message per positive entry of its column, with that sender, that activation and that size, and nothing else, and its checksum is that of these messages |
| `Dag.AcceptedNeverOverlapIff` | src/newstuff/rtask.cpp:172-251 | On every well-formed accepted matrix with at most 31 inputs to a task and at least two activations: in no state of any run is a message written while it is read, if and only if exactly one row has no outputs; and likewise in no state is a sender between beginning a write and completing its push while its receiver reads |
| `Dag.AcceptedSinksReadExactlyIff` | src/newstuff/rtask.cpp:221-251 | On the same inputs: in all states of all runs, a task without outputs that reads a completely written message reads the one of its own activation, if and only if there is one such task, or no message to any of them has room for an iteration number |
| `Dag.AcceptedRunsAreSafe` | src/newstuff/rtask.cpp:203-304 | On every well-formed accepted matrix with one sink and at most 32 inputs to a task, in every state of every run: skew at most one, nobody overtakes, safe reads, no blocking edge push or start pop, the start pop's own instant, and an empty DAG at every start push that can complete |
| `Dag.AcceptedCompletesIff` | src/newstuff/taskset.cpp:161-170 | For every well-formed accepted matrix with at most 32 inputs to a task, some run completes if and only if exactly one row has no outputs and no task has more than 31 inputs |
| `Dag.AcceptedYetStuck` | src/newstuff/taskset.cpp:165-170 | Every fan-out of one task to two is accepted, and none of its runs completes |
| `Dag.WideAcceptedYetStuck` | src/multi_queue.h:49-61 | One task feeding 32 others that all feed a last one is accepted, with one sink and no undefined shift, and none of its runs completes |
| `Dag.EveryMaximalRunIsComplete` | src/newstuff/rtask.cpp:76-95 | On every well-formed accepted matrix with one sink and at most 31 inputs to a task every run is bounded by the total work, and cannot be extended if and only if all tasks are done, each after the requested number of activations |
| `Dag.QueuesFit` | src/multi_queue.h:77 | On every well-formed matrix the assertion of `pop` holds for every task that has inputs |
| `DagSafety.UnlockedReadsAreSafe` | src/newstuff/rtask.cpp:172-201 | From a receiver's pop to its last read its senders are outside their write-to-push windows, and each buffer holds the k-th message, whose only NUL is its last byte |
| `DagSafety.SenderHasPushedOnce` | src/newstuff/rtask.cpp:244-251 | While the receiver reads in activation k, each sender has written exactly k + 1 messages and its slot is empty |
| `DagSafety.BoundedSkew` | src/newstuff/rtask.cpp:203-219 | The activations begun by any two tasks differ by at most one, whatever the depth of the graph |
| `DagSafety.NoneAheadOfOriginator` | src/newstuff/rtask.cpp:208-218 | No task has begun more activations than the originator |
| `DagSafety.NoneBehindSink` | src/newstuff/rtask.cpp:273-288 | No task has begun fewer activations than the sink has finished |
| `DagSafety.NobodyOvertakes` | src/newstuff/rtask.cpp:242-304 | While a task still owes a delivery of activation k, nobody has begun activation k + 1 |
| `DagSafety.EdgePushNeverBlocks` | src/newstuff/rtask.cpp:250-251 | With push indices up to 31, where the shift is defined, a push on an edge always finds its slot free |
| `DagSafety.StartPopNeverBlocks` | src/newstuff/rtask.cpp:277 | The sink's pop of the start time always finds it there |
| `DagSafety.StartPushMeetsAnEmptyDag` | src/newstuff/rtask.cpp:208-216 | When the next start push can complete, every other task has read and delivered everything of the previous activation and all slots are empty |
| `DagProgress.SomeoneCanStep` | src/newstuff/rtask.cpp:203-304 | Deadlock freedom: with one sink and at most 31 inputs to a task, as long as one task is unfinished, some task can step |
| `DagProgress.OnlyStartPushWaits` | src/newstuff/rtask.cpp:212 | With push indices up to 31, apart from input pops only the originator's start push ever waits |
| `DagProgress.EveryStepCounts` | src/newstuff/rtask.cpp:76-95 | Every step of any task takes exactly one off the total work left |
| `DagProgress.RunLength` | src/newstuff/rtask.cpp:76-95 | Steps taken plus steps left is the same in every state of every run |
| `DagProgress.EveryMaximalRunCompletes` | src/newstuff/rtask.cpp:76-95 | With one sink and at most 31 inputs to a task every run is bounded by the total work, and it cannot be extended iff it did all of it, iff all tasks are done |
| `DagProgress.FinalStateIsEmpty` | src/newstuff/rtask.cpp:242-304 | When all tasks are done, every slot of every queue is empty |
| `DagProgress.CompletionForcesOneSink` | src/newstuff/rtask.cpp:273-277 | If all tasks finish at least one activation, no two of them are sinks |
| `DagProgress.WideTaskIsStuck` | src/multi_queue.h:80 | With push indices up to 31, a task with more than 31 inputs stays at its first pop in every state of every run |
| `DagProgress.Complete` | src/newstuff/rtask.cpp:76-95 | With one sink and at most 31 inputs to a task any run can be continued to a complete one |
| `DagProgress.CompletesIff` | src/newstuff/taskset.cpp:165-170 | With one originator and push indices up to 31, the program can complete iff there is exactly one sink and no task has more than 31 inputs |
| `DagRace.NeverOverlapIffOneSink` | src/newstuff/rtask.cpp:172-251 | With one originator, at most 31 inputs to a task and at least two activations: no message is ever written while it is read, and no sender ever in its write-to-push window meanwhile, iff there is exactly one sink |
| `DagRace.SinksReadExactlyIff` | src/newstuff/rtask.cpp:172-251 | Likewise, if the messages of each edge all look the same in its buffer or differ from the start: sinks that read complete messages always read those of their own activations iff there is exactly one sink or no edge to a sink tells its messages apart |
| `DagRace.AlikeReadsAreExact` | src/newstuff/rtask.cpp:233-238 | Where all messages of an edge look the same in its buffer, every complete one that is read is the right one, for any number of sinks |
| `DagRace.TwoSinksRace` | src/newstuff/rtask.cpp:244-251 | With two sinks, for every input of either there is a run that stops it at reading that input in activation 0 while the sender is writing it in activation 1 |
| `DagRace.TwoSinksOvertake` | src/newstuff/rtask.cpp:244-251 | And one in which the message of activation 1 is complete in the buffer before that of activation 0 is read |
| `DagRace.SomeoneMayStep` | src/newstuff/rtask.cpp:203-304 | Until then, whatever task the race needs next, some task that is not held back can step |
| `DagResults.EveryStateIsSafe` | src/newstuff/rtask.cpp:203-304 | With push indices up to 31, in every state of every run: skew at most one, nobody overtakes, safe reads, no blocking edge push or start pop, the start pop's own instant, and an empty DAG at every start push that can complete |
| `DagResults.StartPopReturnsOwnInstant` | src/newstuff/rtask.cpp:273-280 | The sink's k-th start pop returns the originator's instant k, and that instant has passed |
| `DagResults.ResponseTimesPairUp` | src/newstuff/rtask.cpp:279-288 | After every complete run there is one entry per activation; for each k exactly one step of the run is the sink's start pop of activation k, and entry k is the clock reading in that step's label, in whole microseconds, minus the initial instant, 100 ms and k periods, and is not negative |
| `DagResults.RunTracked` | src/newstuff/rtask.cpp:277-288 | In every run each start pop of the sink writes the entry of its own activation so, and no other step changes any entry |
| `DagResults.RunAccounted` | src/newstuff/rtask.cpp:172-201 | In every state of every run the messages read are exactly those due so far, the checksums are theirs, and the response times still to come are untouched |
| `DagResults.EveryCompleteRunPrintsTheSame` | src/newstuff/rtask.cpp:186-190 | Every complete run gives each task the same messages in the same order, and leaves it with their checksum, whatever the interleaving |
| `DagResults.EveryCompleteRunEndsEmpty` | src/newstuff/rtask.cpp:76-95 | Every complete run leaves all queues empty |
| `DagInvariant.StepSlot` | src/multi_queue.h:48-96 | Every step keeps, on every edge slot, completed pushes equal to completed pops plus the busy bit |
| `DagInvariant.StepStart` | src/newstuff/rtask.cpp:212 | Every step keeps start pushes equal to the sum of all sinks' start pops plus the busy bit |
| `DagInvariant.StepStartValue` | src/newstuff/rtask.cpp:208-212 | Every step keeps in the start slot the instant of the last start push |
| `DagInvariant.StepMessage` | src/newstuff/rtask.cpp:245-251 | Every step keeps in each buffer, outside its sender's writes, the last complete message |
| `DagInvariant.RunInv` | src/newstuff/rtask.cpp:203-304 | All the conservation laws hold in every state of every run, for any number of sinks |
| `TaskBody.Run` | src/newstuff/rtask.cpp:76-95 | The nested loops of one task take exactly the steps of the transition system's program, in order, and as many as the termination measure says |
| `TaskBody.LoopBodyBefore` | src/newstuff/rtask.cpp:203-219 | From the loop header the start push or the pop and all reads lead to the work step |
| `TaskBody.LoopBodyAfter` | src/newstuff/rtask.cpp:242-304 | After the work step all writes and pushes, the sink's pop and the period wait lead to the next loop header |
| `TaskBody.ProgramLength` | src/newstuff/rtask.cpp:76-95 | The number of steps from any point of the program to its end |
| `Startup.StartsInOrder` | src/newstuff/rtask.cpp:128-150 | In every state of every start-up: the period is initialised only after all tasks set their scheduling, nobody passes the second barrier before that or before everyone arrived, rounds do not mix, and nobody is stuck |
| `Startup.LastArrival` | src/newstuff/rtask.cpp:97-107 | The arrival that opens the barrier finds all others waiting in the same phase |
| `Startup.RunInv` | src/newstuff/rtask.cpp:128-150 | In every state the barrier's phase says where each task can be |
| `Startup.StartUpEnds` | src/newstuff/rtask.cpp:128-150 | Every start-up of n tasks takes at most 5 n + 1 steps, and exactly that many when all are ready |
| `Wiring.DagTaskset.constructor` | src/newstuff/taskset.cpp:77-171 | The loops leave the queues, edges and edge lists of the specification, and accept iff exactly one task has no inputs |
| `Wiring.InQueues` | src/newstuff/taskset.cpp:87-95 | One queue per task, with as many slots as the specification says |
| `Wiring.MakeEdges` | src/newstuff/taskset.cpp:97-112 | The nested loops make the edges of the specification, in order, with their push indices |
| `Wiring.HowManyInputs` | src/newstuff/taskset.cpp:30-39 | Counts the non-zero entries of a column |
| `Wiring.TaskEdges` | src/newstuff/taskset.cpp:124-133 | Gives a task all edges that leave it, and all that enter it from another task, in order |
| `Wiring.SingleCheck` | src/newstuff/taskset.cpp:47-70 | Succeeds iff exactly one task matches |
| `Wiring.OneEdgePerEntry` | src/newstuff/taskset.cpp:97-112 | There is an edge iff the entry is positive, only one, and of that size |
| `Wiring.QueueFitsIff` | src/newstuff/taskset.cpp:88-95 | A task asks its queue for as many elements as it has slots iff its column has no negative entry and no self-loop |
| `Wiring.QueueDoesNotFit` | src/multi_queue.h:77 | Beside a real input, a negative entry or a self-loop makes a queue of two slots for a task with one input |
| `Wiring.InEdgeIsWired` | src/newstuff/taskset.cpp:98-133 | The i-th element of a task's `in_buffers` has push index i, enters that task, and has one place in its sender's `out_buffers` |
| `Wiring.OutEdgeIsWired` | src/newstuff/taskset.cpp:98-133 | Every element of a task's `out_buffers` is the element of the receiver's `in_buffers` at its push index |
| `Wiring.ConfigIsWired` | src/newstuff/taskset.cpp:77-159 | For every matrix without self-loops the two families of edge lists are inverse to each other |
| `Wiring.ConfigRanks` | src/newstuff/taskset.cpp:98-112 | A topological order of the matrix orders the wired tasks |
| `Wiring.EmptyListsMatchMatrix` | src/newstuff/rtask.h:119-125 | A task is an originator iff its column, and a sink iff its row, has no positive entry |
| `Monitor.NoLostWakeups` | src/multi_queue.h:48-96 | In every state of every run, with spurious wake-ups and all shifts defined: a producer asleep on a free slot has company that is awake on that slot or a signal to come, and a consumer asleep while a pop is released (all slots full, at most 31) is about to be signalled by the push that holds the mutex |
| `Monitor.RestingSleepersAreBlocked` | src/multi_queue.h:52-58 | When the monitor can do nothing by itself, all who are inside sleep, producers on occupied slots and the consumer on a queue that is not full or has more than 31 slots |
| `Monitor.InternalStepsRunOut` | src/multi_queue.h:48-96 | Every step that is not a call or a spurious wake-up uses up work, so that the monitor does come to rest |
| `Monitor.QuietRunIsShort` | src/multi_queue.h:48-96 | No run has more such steps in a row than the work at their start |
| `Monitor.WideQueueNeverPops` | src/multi_queue.h:80 | With more than 31 slots no pop ever returns, in any run |
| `Monitor.OwnerCanStep` | src/multi_queue.h:48-96 | Whoever holds the mutex can step |
| `Monitor.StepRefines` | src/multi_queue.h:48-96 | With the 64-bit mask and its tests as written, every step is invisible to callers or exactly one atomic push or pop |
| `Monitor.MonitorIsAtomic` | src/multi_queue.h:48-96 | In every state of every run the operations so far are a legal history of the atomic queue, pops return the pushed elements in order, and pushes that returned 1 exceed pops by one exactly while a pop is released |
| `Monitor.CallsArePushed` | src/multi_queue.h:48-60 | In every run, for every producer, the values of the pushes that have taken place are those it called push with, in order, but for a last call that is still pending, however often it had to wait |
| `Monitor.CallsArePopped` | src/multi_queue.h:48-90 | With one producer on a slot, the values it called push with are in every run, in order, those the pops returned from the slot, the one in it, and the one of a pending call |
| `Monitor.PopsAreCalled` | src/multi_queue.h:76-96 | In every run there are as many pops as calls of pop, but for a last one that is still pending |
| `Monitor.EnvironmentIsFree` | src/multi_queue.h:48-96 | Whoever is outside may call at any time and whoever sleeps may wake: the runs leave out none of these |
| `AtomicQueue.SlotIsFifo` | src/multi_queue.h:59-90 | Over every history, what was pushed into a slot is what was popped from it, plus what is in it |
| `AtomicQueue.FillsMatchPops` | src/multi_queue.h:61-70 | Over every history, pushes that returned 1 exceed pops by one exactly while a pop is released: all slots full, at most 31 |
| `AtomicQueue.OneFillBetweenPops` | src/multi_queue.h:45-71 | Between consecutive pops exactly one push returns 1 |
| `MultiQueueData.MultiQueue.constructor` | src/multi_queue.h:42-43 | All slots free, nobody waiting |
| `MultiQueueData.MultiQueue.TryPush` | src/multi_queue.h:48-71 | Suspends and is counted iff its slot is occupied; otherwise fills it and returns 1 iff a pop is now released |
| `MultiQueueData.MultiQueue.ResumePush` | src/multi_queue.h:55-57 | Leaving the wait takes one off the count and nothing else |
| `MultiQueueData.MultiQueue.TryPop` | src/multi_queue.h:76-96 | Suspends iff some slot is free or there are more than 31; otherwise returns all elements, frees all slots and signals exactly the slots with waiters |
| `BusyMask.WeightAddsPower` | src/multi_queue.h:60 | The weight of the busy bits is the sum of `2^i`: marking slot i adds `2^i` |
| `BusyMask.SlotTestIsExact` | src/multi_queue.h:49-52 | For every slot whose shift is defined, slot 31 included, the bit test tells whether the slot is busy |
| `BusyMask.FullTestIsExact` | src/multi_queue.h:61 | The sum over the busy slots is the full mask iff all are busy |
| `BusyMask.OrMarksSlot` | src/multi_queue.h:60 | For every slot whose shift is defined, setting the bit gives the mask of the busy slots with that slot added |
| `BusyMask.PopTestMeans` | src/multi_queue.h:80 | As long as all shifts are defined, the mask equals the full mask iff all slots are busy and there are at most 31 |
| `BusyMask.MaskFollowsBusy` | src/multi_queue.h:49-90 | After any sequence of pushes and pops with defined shifts the mask is the one of the slots pushed since the last pop |
| `BusyMask.MaskAfterIsWeight` | src/multi_queue.h:49-90 | Up to 31 slots, after any sequence of pushes and pops, it is the sum of `2^i` over those slots |
| `BusyMask.HistoryTests` | src/multi_queue.h:52-80 | After every history of the atomic queue the tests on the mask decide what its guards say: slot occupied, pop released |
| `BusyMask.PopTestExactIff` | src/multi_queue.h:80 | Of the slot counts for which the shifts are defined, the test of `pop` is exact for all sequences of pushes and pops iff there are at most 31 |
| `BusyMask.NotExactFor32` | src/multi_queue.h:80 | For 32 slots the test of `pop` fails although every slot has been pushed |
| `BusyMask.NobodySignals` | src/multi_queue.h:61 | If a queue has more slots than its task has inputs, no push ever signals, although the test of the pop comes to hold |
| `Messages.WriteToQueue` | src/newstuff/rtask.cpp:221-240 | The buffer afterwards is the text, truncated or padded with dots, and one NUL |
| `Messages.MessageReads` | src/newstuff/rtask.cpp:233-238 | Every message reads "Message from ", the sender's name, ", iter: " and digits whose decimal value is the activation, as far as there is room, then dots, then the NUL |
| `Messages.DecimalReadsBack` | src/newstuff/rtask.cpp:233-234 | Reading the digits back gives the number, and there is no needless zero in front |
| `Messages.MessageIdentifies` | src/newstuff/rtask.cpp:233-238 | In buffers with room for both texts, equal messages have the same sender and the same activation |
| `Messages.InitialIsDots` | src/newstuff/rtask.h:23-30 | The initial contents of a buffer are dots and a closing NUL |
| `Messages.MessageIsWellFormed` | src/newstuff/rtask.cpp:183-184 | The receiver's assertion holds for every message of every size |
| `Messages.MessageIdentifiesActivation` | src/newstuff/rtask.cpp:233-238 | In a buffer that has room for them, messages of different activations differ |
| `Messages.LookAlikeIff` | src/newstuff/rtask.cpp:233-238 | In a buffer too small for the first iteration number all messages of a task are the same; in any larger one the first two differ |
| `Messages.ReadInputBuffer` | src/newstuff/rtask.cpp:163-169 | The xor of all bytes |
| `Messages.BitIsQuotient` | src/newstuff/rtask.cpp:166 | Bit i of a number, as used below, is the parity of the number divided by 2^i |
| `Messages.XorAllIsParity` | src/newstuff/rtask.cpp:163-169 | Bit i of that xor is set iff an odd number of the bytes have bit i set |
| `Messages.ReadInputs` | src/newstuff/rtask.cpp:181-189 | The checksum afterwards is that of all messages read before and now, in order |
| `Messages.ChecksumIsParity` | src/newstuff/rtask.cpp:189 | Bit i of a checksum is set iff an odd number of the bytes of all messages have bit i set |
| `PeriodicTask.PeriodInfo.IncPeriod` | src/periodic_task.c:4-14 | The loop of carries leaves the one normal timespec of the advanced instant |
| `PeriodicTask.PeriodInfo.AlignAndRepeat` | src/periodic_task.c:22-33 | After aligning and k waits the field is that of activation k |
| `PeriodicTask.MicrosecondsIsFloor` | src/newstuff/rtask.cpp:152-159 | Converting seconds and nanoseconds separately gives the exact instant rounded down |
| `PeriodicTask.InstantsDoNotDrift` | src/newstuff/rtask.cpp:115-126 | Instant k is the initial one plus 100 ms plus k periods, exactly, in microseconds |
| `HelloGauss.Invert` | src/hellogauss.h:53-110 | No division by zero iff the input has an inverse over the reals, and then the output is that inverse, on both sides |
| `HelloGauss.ForwardColumn` | src/hellogauss.h:66-98 | One column of the forward phase keeps the link between input, `m` and output, and makes the column that of a unit upper triangular matrix, unless the input is singular |
| `HelloGauss.BackwardColumn` | src/hellogauss.h:100-109 | One column of the backward phase keeps the link and clears the column above the diagonal |
| `HelloGauss.PlacePivot` | src/hellogauss.h:67-81 | The largest entry of the column ends up on the diagonal, and the link and the shape are kept |
| `HelloGauss.FindPivot` | src/hellogauss.h:68-73 | Finds a largest entry at or below the diagonal |
| `HelloGauss.SwapRows` | src/hellogauss.h:76-81 | Swaps two rows of the flat buffer and nothing else |
| `HelloGauss.DivideRow` | src/hellogauss.h:84-88 | Divides one row of the flat buffer and changes nothing else |
| `HelloGauss.SubtractRow` | src/hellogauss.h:92-96 | Subtracts a multiple of one row from another and changes nothing else |
| `HelloGauss.FillIdentity` | src/rtgauss.cpp:114-120 | The buffer afterwards is the identity matrix |
| `HelloGauss.Copy` | src/hellogauss.h:45-51 | The buffer afterwards equals the input |
| `LinearAlgebra.LinkedAfter` | src/hellogauss.h:75-97 | Every swap, scaling and subtraction done to both `m` and the output keeps `out * in == m` and keeps it reversible |
| `LinearAlgebra.NoPivotIsSingular` | src/hellogauss.h:67-84 | If no pivot is left in a column, the input has no inverse |
| `LinearAlgebra.LinkedToIdentity` | src/hellogauss.h:100-109 | Once `m` is the identity the output is a two-sided inverse |
| `GaussMultiply.Multiply` | src/hellogauss.c:118-129 | The triple loop leaves the matrix product in the flat output buffer |
| `GaussMultiply.InnerLoop` | src/rtgauss.cpp:52-55 | The innermost loop computes one element of the product |
| `GaussMultiply.EveryScheduleMultiplies` | src/hellogauss.c:131-144 | However the iterations of the parallel loop are interleaved, step by step, a finished run leaves the product that the sequential loop leaves |
| `GaussMultiply.EveryScheduleFinishes` | src/hellogauss.c:131-144 | Every schedule is finished after exactly n * n * (n + 2) steps, and only then is it stuck |
| `GaussMultiply.ScheduleDoesNotMatter` | src/hellogauss.c:131-144 | Any two finished schedules leave the same buffer, whatever it held before |
| `GaussMultiply.RunInv` | src/hellogauss.c:136-143 | In every state every output element is untouched or final, and every accumulator is the partial sum of its own iteration |
| `RtGauss.IsEye` | src/rtgauss.cpp:81-96 | True iff every element is close to the identity's, through the `bool` that holds the expected element |
| `RtGauss.CloseIsWithin` | src/rtgauss.cpp:39-43 | Close means within 1e-5 of one on the diagonal and of zero elsewhere, in either direction |
| `RtGauss.MatrixData.constructor` | src/rtgauss.cpp:146-155 | All three matrices are the identity |
| `RtGauss.MatrixData.WasteTime` | src/rtgauss.cpp:157-162 | Leaves the product, and adds 2 or 1, modulo 2^64, as the product is or is not close to the identity |
| `RtGauss.MatrixData.CountTicks` | src/time_aux.c:56-62 | For any two matrices, t ticks return the bonus times 2^t - 1, modulo 2^64 |
| `RtGauss.WorkLoop` | src/rtgauss.cpp:146-162 | For every size and tick count the product stays the identity and the result is 2^(t+1) - 2 modulo 2^64 |
| `RtGauss.TicksSaturate` | src/time_aux.c:57-61 | From 63 ticks on the result no longer changes |
| `Hyperperiod.Lcm` | scripts/dagc2rtdag.py:64-68 | The fold returns a common multiple of all numbers that divides every common multiple |
| `Hyperperiod.JoinIsLeast` | scripts/dagc2rtdag.py:67 | The product divided by the greatest common divisor is the least common multiple of two numbers |
| `Hyperperiod.SpansHyperperiodIff` | src/newstuff/taskset.cpp:41-45 | The activations of a DAG span exactly the repeated hyperperiod iff the period divides it |
| `Hyperperiod.RunningTimeIsRepeated` | src/newstuff/taskset.cpp:41-45 | What a DAG runs for, in nanoseconds, is the repetitions times the whole periods of the truncated hyperperiod |
| `Hyperperiod.AllDagsSpanTheSame` | scripts/dagc2rtdag.py:246-247 | For a period of whole microseconds they do, also after the conversion from nanoseconds |
| `Hyperperiod.FractionalMicrosecondsDrift` | scripts/dagc2rtdag.py:246-247 | Periods of 2.5 and 1 microseconds have a hyperperiod that the first DAG never spans |
| `Hyperperiod.MinimumTimeKeptIff` | scripts/dagc2rtdag.py:293-297 | A DAG runs for the requested minimum iff the given repetitions already do, or the hyperperiod divides the minimum, is a whole number of microseconds and a multiple of the truncated period |
| `Hyperperiod.RepetitionsAreLeast` | scripts/dagc2rtdag.py:293-297 | The repetitions are never fewer than given, exactly those without `-S`, and otherwise the fewest of these that leave less than a hyperperiod of the minimum uncovered |
| `Hyperperiod.WholeMicrosecondsKeepMinimumIff` | scripts/dagc2rtdag.py:293-297 | For a period of whole microseconds: iff the given repetitions of the hyperperiod reach the minimum or the hyperperiod divides it |
| `Hyperperiod.MinimumTimeMissed` | scripts/dagc2rtdag.py:293-297 | A period of 300 ms with `-n 1 -S 1` runs for 0.9 s, and periods of 2.5 and 1 microseconds with `-n 10 -S 1` for 0.8 s |

## Left out

- Threads of control: the protocol, the monitor, the barrier and the parallel product are transition systems on values, because Dafny has no threads; the code they are made of is also there as classes and methods (`MultiQueue`, `TaskBody`, `Messages`, `PeriodicTask`, `GaussMultiply`).
- The C++ memory model: steps are interleaved, and a push and the pop that follows it order the buffer accesses, as the mutex does.
- Monitor.NoLostWakeups: one consumer, as every input queue has; several sinks would be several consumers of `start_time`, which the transition system of the DAG takes to be atomic.
- Fairness of the scheduler: termination is stated for runs that go on until nobody can step.
- Clocks: any non-decreasing readings, with sleeps that end no earlier than asked.
- Integer widths: `long`, `s64` and `int` counters and microsecond counts do not overflow; the mask and `Count_Ticks` wrap as in the code.
- BusyMask.PopTestExactIff: does not go beyond 32 slots, because shifting an `int` further is undefined.
- Dag.AcceptedCompletesIff: at most 32 inputs to a task, for the same reason; the other results that speak of pushes or completion have the same bound or a smaller one.
- Dag.EveryReadIsExact: has no such bound; in the transition system a task with more than 31 inputs never gets to read.
- Dag.AcceptedNeverOverlapIff: at most 31 inputs to a task; a wider one keeps everything after it from running, whether or not that includes the accesses in question.
- Dag.AcceptedSinksReadExactlyIff: reads by sinks, and of complete messages. What another task reads when there are several sinks also depends on the order of the edges, and what a read sees in the middle of a write is not defined.
- DagModel's message buffers during a write: any bytes at all. The safety results hold for all of them; the results on several sinks do not use them.
- MultiQueueData.MultiQueue.TryPush: pushes to slots up to 31 of queues of up to 63 slots, where both shifts are defined.
- Waiting inside `push` and `pop`: the methods are one pass of the loop, up to its wait or its return; `Monitor` composes the passes.
- MultiQueueData.MultiQueue.TryPop: always hands the elements out; a null `dest` is a result that the caller ignores.
- HelloGauss.SwapRows: one buffer at a time, where the code's loop over j swaps in `m` and in the output alternately; the buffers do not overlap. The same goes for `DivideRow` and `SubtractRow`.
- HelloGauss.Invert: real arithmetic, without IEEE rounding; where the code would divide by zero it stops and says so.
- GaussMultiply.Multiply: real arithmetic, and an output that is neither of the inputs, as in all calls.
- RtGauss.MatrixData.CountTicks: the number of ticks is an input; its computation from a float is not modelled.
- Hyperperiod.Lcm: positive numbers, as periods are; a zero would make the code divide by zero.
- Hyperperiod.AllDagsSpanTheSame: integer division, where the script converts through a float quotient.
- Hyperperiod.MinimumTimeKeptIff: integer division, likewise, and periods of at least a microsecond; for shorter ones the code divides by zero.
- Builds without RTDAG_MEM_ACCESS: messages then keep their initial contents.
- `gauss_transpose`: a double loop with nothing to add.
- OpenMP device offload and the parallel identity checks of hellogauss, whose temporaries are shared by all iterations.
- Unsupported task types, for which the constructor only logs: all tasks are taken to be created.
- Creating and joining threads, kernel scheduling, affinity, deadlines and logging.
- Reading the YAML and header inputs, and the rest of scripts/dagc2rtdag.py.
- Calibration of ticks per microsecond, and scaling by `expected_wcet_ratio`.
- src/task_set.h, an older copy of the protocol over another queue.
