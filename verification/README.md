# A verified model of c-coroutine

c-coroutine is a single-threaded coroutine library in C: a FIFO scheduler (`src/coroutine.c`) over a
hand-written x86-64 context switch (`src/asm_ctx.S`), with example and test programs that run on it. This
project models the scheduler, the context switch, the timer wheel and the hardest of those programs in Dafny, and
proves properties of whole runs. `dafny verify dfyconfig.toml` checks it.

## How the model is built

**Scheduler.** `Scheduler` is a transition system over the API calls. A run is any sequence of calls whose
assertions hold, so its theorems speak of every client program. `Programs` adds coroutine bodies: finite lists
of yields, awaits and creations, where a created coroutine brings its own body and is awaited by its number or, by
its creator, through the pointer that `co_create` returned. `Programs.Final` is the state in which `co_run` stops, and
that it is defined is the proof that `co_run` returns. `Deadlock` says which coroutines finish, `Families` says it
before the run, `RoundRobin` says in which order coroutines are resumed, `Resumptions` how often, and `Origins` which
body a created coroutine has. `Runtime` is the C code's own form, coroutine records, a registry and a circular run-queue
updated in place; its `CoRun` computes exactly the final state and the resume order of the program.

**Programs that spin.** The pipeline, generator, barrier, semaphore, mutex and work-stealing programs share
memory and wait by yielding in a loop. Each is a step function whose steps lie between scheduling points.
`Clients` proves once that a step invariant survives every interleaving, and that if only spinning turns leave
memory unchanged and somebody can always go on, then the first-in-first-out run ends with every coroutine finished.
`Clients.Fifo` is that run, its final memory and the log of its steps. Beside every step function stands the code over
objects, arrays and ring buffers in memory, proved to compute it; the `Run` methods run that code on the circular queue
of `Runtime`, and end in the memory and with the log of `Clients.Fifo`. What that log is, is proved of each program. The
task graph creates coroutines while it runs, and drives `Runtime` and its task table in memory itself; the fiber pool
resumes its workers from its own loop. `Ring` is the circular buffer that the scheduler, the pipeline test, the
work-stealing pool and the fiber pool each write out for themselves.

**Timer wheel.** `TimerWheel` is the wheel on lists; `TimerPool` the pool of entries linked through `next`
indices, with the in-place unlinking of `wheel_tick` and whole runs of both calls on it.

**Context switch.** `ContextSwitch` executes the instructions on registers and 8-byte words. Between switches
the running context may do anything except write to another context's record or stack.

## Where the code and its documentation disagree

The model follows the code.

- `include/coroutine.h:80` says that `co_run` ends with every coroutine DONE. It ends when the run-queue is
  empty, so a coroutine that awaits itself is left WAITING (`Deadlock.SelfAwaitHangs`). If
  coroutines await those that `main` creates or their own children, and the registry has room, the promise holds if and
  only if no cycle of awaits, direct or through awaited children, can be reached (`Families.PromiseExactly`). For every
  other program whose run no assertion stops, `Deadlock.DeadlockExactly` says which coroutines are left.
- `examples/timer_wheel.c:68` says that a timer fires after `delay` ticks. With delay 16 it fires after 32
  (`TimerWheel.DelayOfSixteen`). The promise holds if and only if the delay is not a multiple of 16, zero included
  (`TimerWheel.DocumentedExactly`).
- `examples/task_graph.c:45` says that `deps_remaining` is decremented when each dependency finishes. A dependency
  that is listed twice is counted twice and decremented once, so its task never runs (`TaskGraph.DuplicateExample`).
  The counter is right if and only if the list has no duplicate (`TaskGraph.AnyRun`).
- `examples/generator.c:9` announces the sum 286. The program's sum is 232 (`Generator.SumOfTwelve`).
- Several programs call the library by other names or with other arguments than `include/coroutine.h` declares:
  `co_spawn` and a scheduler argument in `tests/test_semaphore.c`, a two-argument `co_create` in
  `examples/work_stealing.c` and `examples/task_graph.c`, `co_init` in `examples/work_stealing.c`, `coroutine_create`
  and `coroutine_resume` in `examples/fiber_pool.c`, `co_schedule` and `co_destroy` in `examples/timer_wheel.c`. They
  are read as creating, running and resuming coroutines on this scheduler; in the fiber pool, `main` does the resuming.

## Model

| member | source | states |
|---|---|---|
| Scheduler.ReachableStates | src/coroutine.c:108-142 | After any calls by any client: the queue lists exactly the READY coroutines without duplicates, at most one runs, nobody waits for a DONE coroutine (no lost wakeup), and at most 512 exist |
| Scheduler.InternalAssertionsHold | src/coroutine.c:108-121 | The overflow assertion and the READY assertion of `co_run` cannot fail: the queue never holds more than the registry, at most 512 of 1024 places, and its head is READY |
| Scheduler.DoneIsAbsorbing | src/coroutine.c:137-148 | DONE stays DONE in every later run |
| Scheduler.QueueLaw | src/coroutine.c:108-121 | Over any run, the coroutines resumed followed by the queue equal the old queue followed by everything enqueued |
| Scheduler.BoundedWaiting | src/coroutine.c:233-251 | With p coroutines ahead of it, a READY coroutine is the p-th (from 0) to be resumed, whatever the others create, await or wake; until then it keeps its place |
| Scheduler.FinishWakesWaiters | src/coroutine.c:124-142 | A finish makes READY exactly the coroutines that wait for it, behind the queue, in creation order, and changes no other |
| Scheduler.Balance | src/coroutine.c:108-142 | From any state, over any run: enqueued = created + yielded + woken, resumptions = yields + blocking awaits + returns, and the counts of DONE and WAITING follow |
| Scheduler.Conservation | src/coroutine.c:233-266 | At the end of a run from the empty scheduler, coroutines left WAITING = created − finished = blocked − woken |
| Programs.AdvanceDecreasesWork | src/coroutine.c:233-266 | Every call, and every resumption, leaves less to do, so `co_run` returns for every finite program |
| Programs.Final | src/coroutine.c:233-239 | `co_run` stops in a consistent state in which nothing can be resumed, or at a failed API assertion |
| Programs.TraceIsLegal | src/coroutine.c:233-266 | The calls made by a program are a legal run of the scheduler that ends in the program's final state |
| Deadlock.StuckForever | src/coroutine.c:253-266 | A coroutine whose chain of awaits leads into a cycle, a self-await included, stays WAITING for the same target in every later run |
| Deadlock.AwaitsKeptThroughout | src/coroutine.c:124-142 | At every point of every program's run, each `co_await` that has returned saw its target DONE |
| Deadlock.HaltedExactly | src/coroutine.c:233-266 | When the queue is empty a coroutine is DONE if and only if no await cycle is reachable from it through the bodies; all others are WAITING on a chain into a cycle |
| Deadlock.DeadlockExactly | src/coroutine.c:233-266 | The same for every program from `main` on whose run no API assertion stops, with coroutines created on the way included; and the WAITING ones never change again |
| Deadlock.StaticExactly | src/coroutine.c:233-266 | For bodies that create nothing, told before the run: no assertion fails, and a coroutine ends DONE if and only if no await cycle is reachable from it through the bodies; otherwise it is WAITING |
| Deadlock.SelfAwaitHangs | src/coroutine.c:253-266 | The program whose one coroutine awaits itself: `co_run` returns and leaves it WAITING |
| Families.PromiseExactly | include/coroutine.h:77-83 | Told before the run, if coroutines await those of `main` or children that they created, at any depth, and the registry has room: no assertion fails; a coroutine of `main` ends DONE if and only if no cycle is reachable from it, where waiting through an awaited child counts; all coroutines end DONE if and only if none is reachable at all |
| Families.OwnChildrenAllDone | src/coroutine.c:253-266 | Coroutines that await only their own children, at any depth, all finish |
| Families.DeepIsAwaitGraph | src/coroutine.c:253-266 | If no coroutine of `main` awaits a child, the graph of `PromiseExactly` is that of the bodies' awaits |
| Families.ChildAwaitsParent | src/coroutine.c:253-266 | A coroutine that awaits its child, which awaits it, is not completed |
| Deadlock.RankedAllDone | src/coroutine.c:253-266 | If awaits go down in rank, a run that no API assertion stops ends with every coroutine DONE |
| Deadlock.RankedStaticAllDone | src/coroutine.c:253-266 | Without creation at run time ranked awaits also never fail an assertion |
| Deadlock.ProgramBalance | src/coroutine.c:233-266 | The conservation law for every completed program, counted from the empty scheduler |
| Deadlock.ChainAwaitsSeeDone | tests/test_stress.c:69-77 | In an await chain created in any order, at every point of the run, a link past its await sees all later links DONE |
| Deadlock.ChainFinishesBackwards | tests/test_stress.c:79-97 | All links finish, and the finish order is the chain reversed |
| Resumptions.ResumesExactly | src/coroutine.c:241-266 | In the run of every program, a coroutine is resumed once for each yield it made, once for each await that found its target unfinished, and once to run or have run to its end: an await of a DONE coroutine costs no resumption |
| Resumptions.DoneResumes | src/coroutine.c:253-266 | A coroutine that ended DONE was resumed 1 + the yields of its body + its blocking awaits times |
| Resumptions.CallsAreNamed | src/coroutine.c:164-251 | Over the whole run, the yields are those that the coroutines passed in their bodies, and the creations those of `main` and those passed in the bodies |
| Resumptions.BackwardRunsOnce | tests/test_stress.c:79-97 | If each await is of a coroutine created before, each coroutine is resumed exactly once, in creation order |
| Origins.EveryoneHasItsBody | src/coroutine.c:164-210 | In the run of every program, the coroutines beyond those of `main` correspond one to one to the `co_create` calls that were made, a coroutine's children in the order of its calls; each has the body named at its creation, and an await through a returned pointer is of exactly the child that the pointer stands for |
| RoundRobin.RoundRobinOrder | tests/test_stress.c:32-52 | If body i yields k_i times, the resume order is, round by round, the coroutines with k_i ≥ r in creation order |
| Rings.Ring.Push | tests/test_pipeline.c:33-38 | Appends to the buffered sequence |
| Rings.Ring.Pop | tests/test_pipeline.c:40-46 | Removes and returns the oldest element |
| Rings.Ring.TryPush | examples/work_stealing.c:64-71 | Appends, or refuses exactly when the buffer is full |
| Rings.Ring.TryPop | examples/work_stealing.c:73-80 | Removes the oldest element, or reports an empty buffer |
| Runtime.System.QPush | src/coroutine.c:108-113 | The queue grows by the coroutine at its end; no status changes |
| Runtime.System.QPop | src/coroutine.c:115-121 | Returns the head and drops it, or NULL exactly when the queue is empty |
| Runtime.System.WakeupWaiters | src/coroutine.c:124-133 | The loop over the registry wakes exactly the waiters and queues them in registry order |
| Runtime.System.Finish | src/coroutine.c:137-144 | The end of `co_entry` is the finish step of the transition system |
| Runtime.System.CoCreate | src/coroutine.c:164-210 | A new record with the next id is registered, READY and queued; this is the create step |
| Runtime.System.ResumeNext | src/coroutine.c:220-239 | One iteration of `co_run` up to the switch is the resume step of the queue's head |
| Runtime.System.CoYield | src/coroutine.c:241-251 | The yield step |
| Runtime.System.CoAwait | src/coroutine.c:253-266 | The await step: nothing if the target is DONE, otherwise WAITING for it |
| Runtime.CoRun | src/coroutine.c:233-239 | The loop over records and circular buffer ends in the program's final state, has resumed coroutines in the program's resume order, and stops early exactly when an API assertion fails |
| Runtime.CreateMany | src/coroutine.c:164-210 | n creations leave n READY coroutines queued in order, in memory |
| Runtime.RunProgram | src/coroutine.c:233-239 | Creating the bodies and running them on the records and the circular queue ends in the program's final state with its resume order; a DONE coroutine occurs in the log 1 + its yields + its blocking awaits times; if no API assertion stopped it, a coroutine is DONE if and only if no await cycle is reachable from it |
| Clients.InterleavingKeepsInv | src/coroutine.c:241-251 | An invariant that every step keeps holds after every interleaving of the coroutines |
| Clients.AdvancesTold | src/coroutine.c:241-251 | A quantity in memory that every step raises by one for the coroutine that takes it, unless it spins, counts that coroutine's steps after every interleaving |
| Clients.Fifo | src/coroutine.c:233-251 | If spinning turns alone change nothing and somebody can always go on, the first-in-first-out run ends, with the invariant and every coroutine finished |
| Clients.FifoIsInterleaving | src/coroutine.c:233-251 | Its final memory is that of the interleaving given by its own log |
| Clients.FifoTakesTurns | src/coroutine.c:241-251 | If every step ends in a yield or a return, nobody takes two steps in a row while another is unfinished |
| Clients.NextUp | src/coroutine.c:233-239 | The next coroutine to take a step is unfinished and the line is unchanged; if there is none, memory and log are those of the whole first-in-first-out run |
| Clients.EndStep | src/coroutine.c:137-251 | After the scheduler call that ends a step, memory, scheduler and log are on the same first-in-first-out run, and either less is left to do or one spinning coroutine fewer stands before one that can go on |
| Clients.RunAll | src/coroutine.c:233-251 | `co_run` on the circular queue computes the first-in-first-out run: its memory and its log |
| Pipeline.AnyInterleaving | tests/test_pipeline.c:52-87 | Under any interleaving, for any length and capacity: consumed, ring 2, held item squared, squares of ring 1 and squares of unproduced items are together the squares of 1..n in order; rings do not overflow |
| Pipeline.NeverStuck | tests/test_pipeline.c:52-87 | Every state of the invariant that is not final has a coroutine that makes progress |
| Pipeline.WaitsExactly | tests/test_pipeline.c:52-87 | A stage spins if and only if its output ring is full or its input is empty and not ended |
| Pipeline.RunIsRounds | tests/test_pipeline.c:89-107 | The run is n + 1 rounds of producer, squarer, consumer, whatever the capacity |
| Pipeline.RunPipeline | tests/test_pipeline.c:89-107 | The run over the rings in memory, on the circular run-queue, takes those steps and ends with sum n(n+1)(2n+1)/6 |
| Pipeline.Rig.ProducerTurn | tests/test_pipeline.c:52-60 | The producer's turn over the ring in memory |
| Pipeline.Rig.SquarerTurn | tests/test_pipeline.c:62-75 | The squarer's turn over both rings in memory |
| Pipeline.Rig.ConsumerTurn | tests/test_pipeline.c:77-87 | The consumer's turn over the ring in memory |
| Generator.AnyInterleaving | examples/generator.c:22-61 | Under any interleaving the consumer has a prefix of the Fibonacci numbers, none is lost in the slot, and one that saw the generator DONE has all n and the sum F(n+1) − 1 |
| Generator.NeverStuck | examples/generator.c:22-61 | Somebody can always go on |
| Generator.WaitsExactly | examples/generator.c:22-61 | The generator spins if and only if it has a number to hand over and the slot is full, the consumer if and only if the slot is empty and the generator not DONE |
| Generator.RunIsRounds | examples/generator.c:63-77 | The run is n rounds in which one number is made and taken and the consumer then yields, and one in which both return |
| Generator.RunGenerator | examples/generator.c:63-77 | The run over the channel in memory takes those steps and ends with the first n Fibonacci numbers and their sum |
| Generator.SumOfTwelve | examples/generator.c:7-15 | For the program's count of 12 the sum is 232, not the announced 286 |
| Generator.Channel.GeneratorTurn | examples/generator.c:22-38 | The generator's turn over the channel in memory |
| Generator.Channel.ConsumerTurn | examples/generator.c:42-61 | The consumer's turn: it empties the slot without yielding, then yields or returns |
| Barriers.AnyInterleaving | tests/test_barrier.c:68-81 | Under any interleaving nobody has left more waits than anybody has entered, entries differ by at most one, `arrived` counts those inside the current generation and is below the total |
| Barriers.NeverStuck | tests/test_barrier.c:68-81 | Somebody can always go on |
| Barriers.GoesOnExactly | tests/test_barrier.c:68-81 | A turn goes straight on if and only if it completes a wait, yields if and only if it leaves the participant inside the current generation, and returns if and only if the participant is gone |
| Barriers.RunIsRunLog | tests/test_barrier.c:120-146 | The steps of the run, in closed form: the opener of a generation goes on at once and is the first in the next, the others arrive in the order of the line, which turns by one in each generation |
| Barriers.RunBarrier | tests/test_barrier.c:120-146 | The run over the barrier in memory takes those steps and ends: all n participants have completed all k waits and the barrier has opened k times |
| Barriers.Barrier.Arrive | tests/test_barrier.c:68-75 | Arrival: the last one resets the count and opens the next generation |
| Barriers.Barrier.TakeTurn | tests/test_barrier.c:68-81 | A participant's turn over the barrier in memory |
| Semaphores.Semaphore.TryWait | tests/test_semaphore.c:52-56 | One look: takes a unit exactly when the count is positive |
| Semaphores.Semaphore.Post | tests/test_semaphore.c:58-60 | Gives a unit back |
| Mutexes.AnyInterleaving | tests/test_semaphore.c:148-158 | Under any interleaving, for any initial value: units free plus units held equal it; with one unit at most one coroutine holds it and no increment is lost |
| Mutexes.NeverStuck | tests/test_semaphore.c:52-60 | With at least one unit somebody can always go on |
| Mutexes.WaitsExactly | tests/test_semaphore.c:148-158 | A coroutine spins if and only if it has iterations left, holds no unit and none is free |
| Mutexes.GivesUpTheCpu | tests/test_semaphore.c:148-158 | Every step ends in a yield or a return, also after the post |
| Mutexes.StepsExactly | tests/test_semaphore.c:148-158 | Under any interleaving, a coroutine that has returned took 2 steps for each of its iterations and one more; all others were waits |
| Mutexes.RunMutex | tests/test_semaphore.c:160-176 | The run over semaphore and counter in memory ends with the counter equal to the total number of iterations; each coroutine took those steps, and nobody two in a row while another was unfinished |
| Mutexes.Counter.TakeTurn | tests/test_semaphore.c:148-158 | The coroutine's turn over semaphore and counter in memory |
| Slots.MaxIsPeak | tests/test_semaphore.c:115-117 | Under any interleaving `t2_max_concurrent` is the largest number of workers inside after any of the steps so far |
| Slots.AnyInterleaving | tests/test_semaphore.c:112-121 | `t2_slots_used` counts the workers inside, its maximum is that largest number and never exceeds the initial count |
| Slots.WaitsExactly | tests/test_semaphore.c:112-121 | A worker spins if and only if it is outside and no slot is free |
| Slots.StepsExactly | tests/test_semaphore.c:112-121 | Under any interleaving, a worker that has returned took one step to enter and one to leave; all others were waits |
| Slots.MaxReached | tests/test_semaphore.c:123-139 | The run reaches min(slots, workers) |
| Slots.RunSlots | tests/test_semaphore.c:123-139 | The run over semaphore and counters in memory ends with every worker done, every slot free and the maximum equal to min(slots, workers); each worker took those steps, and nobody two in a row while another was unfinished |
| Slots.Room.TakeTurn | tests/test_semaphore.c:112-121 | The worker's turn over semaphore and counters in memory |
| WorkStealing.AnyInterleaving | examples/work_stealing.c:101-174 | Under any interleaving every task 1..T is in exactly one place (unpushed, queued, held, run), capacities hold, a worker's runs and holdings are its stolen blocks of consecutive ids each reversed, nobody exits before all T are complete |
| WorkStealing.NeverStuck | examples/work_stealing.c:101-174 | Somebody can always go on |
| WorkStealing.RunPool | examples/work_stealing.c:180-211 | The run over queue and workers in memory ends with nothing queued or held: each task 1..T was run exactly once and nothing else was, and processed = stolen = tasks run for every worker; with two or more workers each has run exactly its portion; nobody took two steps in a row while another was unfinished |
| WorkStealing.WhoRunsWhat | examples/work_stealing.c:180-211 | With two or more workers and any non-zero capacities: worker 0 runs the odd ids in order, worker 1 the even ids in order, the others none |
| WorkStealing.WaitsExactly | examples/work_stealing.c:101-174 | The dispatcher spins if and only if tasks are left and the queue is full, a worker if and only if it holds nothing, can steal nothing and tasks are incomplete |
| WorkStealing.GivesUpTheCpu | examples/work_stealing.c:101-174 | Every step ends in a yield or a return, also after a steal |
| WorkStealing.StepsExactly | examples/work_stealing.c:101-174 | Under any interleaving, the dispatcher took one step for each task pushed and one to return, a worker one for each block stolen, one for each task run and one to return; all others were waits |
| WorkStealing.AllRan | examples/work_stealing.c:108-149 | Once everybody has returned, the numbers of runs of each id over all workers add up to one for 1..T and to none otherwise |
| WorkStealing.Pool.Steal | examples/work_stealing.c:126-130 | The steal loop takes the oldest min(capacity, queued) tasks |
| WorkStealing.Pool.WorkerTurn | examples/work_stealing.c:101-149 | The worker's turn over its array and the queue in memory |
| WorkStealing.Pool.DispatcherTurn | examples/work_stealing.c:159-174 | The dispatcher's turn over the queue in memory |
| FiberPool.Pool.Pass | examples/fiber_pool.c:137-144 | One pass of the inner loop: the workers take the next task ids in rotation and the rest stay queued in order; all are idle exactly when nothing was left at its start |
| FiberPool.Pool.Drive | examples/fiber_pool.c:135-145 | The driver ends after exactly ceil(T/F) + 1 passes |
| FiberPool.SharesAddUp | examples/fiber_pool.c:149-154 | The workers' shares ceil((T−i)/F) add up to T |
| FiberPool.RunFibers | examples/fiber_pool.c:88-164 | Bad arguments are refused; otherwise the tasks were processed in the order of their ids, id j+1 by worker j mod F, worker i processed ceil((T−i)/F), and the exit code is 0 |
| TaskGraph.AnyRun | examples/task_graph.c:134-160 | In every run, whatever ids the lists hold, a task is spawned at most once and only after its dependencies finished; `deps_remaining` is the number of unfinished dependencies if and only if the list has no duplicate |
| TaskGraph.BlockedNeverRuns | examples/task_graph.c:147-159 | In every run of every plan, a task that lists a dependency twice or an id of no task is never spawned |
| TaskGraph.DuplicateExample | examples/task_graph.c:147-159 | The smallest plan with such a task: its dependency has finished, nothing can run, and it still waits |
| TaskGraph.QuiescentExactly | examples/task_graph.c:134-160 | When nothing can run, the finished tasks are exactly those from which neither a dependency cycle nor a duplicated or unknown dependency is reachable |
| TaskGraph.DagCompletes | examples/task_graph.c:134-160 | On an acyclic graph without duplicated or unknown dependencies every task finishes |
| TaskGraph.TurnDecreasesRank | examples/task_graph.c:134-160 | Every turn leaves less to do, in any order of turns |
| TaskGraph.WorkIsDone | examples/task_graph.c:134-145 | In every run, a task that has not been spawned took no turn, one with `left` yields to make took work − left, and a finished one took work + 1 |
| TaskGraph.SpawnOrder | examples/task_graph.c:142-159 | In every run, tasks are spawned in the order in which the last of their dependencies finished, and by index among those of one completion |
| TaskGraph.RunGraph | examples/task_graph.c:166-206 | Over the table in memory and the circular run-queue, for any lists: finalizing, seeding the roots and running ends, with exactly those tasks finished; in the log a finished task occurs work + 1 times and any other not at all, and the log is the first-in-first-out schedule of the plan |
| TaskGraph.Table.Register | examples/task_graph.c:57-67 | The next id is given out, with an empty list; the other lists are unchanged |
| TaskGraph.Table.AddDep | examples/task_graph.c:69-73 | The dependency is appended to the task's list and no other list changes |
| TaskGraph.Table.Finalize | examples/task_graph.c:76-81 | `deps_remaining` becomes the length of each list |
| TaskGraph.Table.Roots | examples/task_graph.c:195-199 | The seeding loop picks exactly the tasks without dependencies, in order |
| TaskGraph.FinalizedIsInitial | examples/task_graph.c:76-81 | A finalized table is the initial state of the plan that was built in it |
| TaskGraph.Table.Depends | examples/task_graph.c:149-157 | The inner loop finds whether the list names the finished task |
| TaskGraph.Table.NotifyOne | examples/task_graph.c:147-158 | One dependent: its counter drops by one if its list names the finished task, however often, and it is spawned exactly when that reaches zero; no other counter changes |
| TaskGraph.Table.Notify | examples/task_graph.c:142-159 | The nested loops update `deps_remaining` and spawn, in index order, as the completion step says |
| TimerWheel.AddMeetsDeadline | examples/timer_wheel.c:70-84 | Slot and laps of a new timer encode t + d, or t + d + 16 if d is a multiple of 16 |
| TimerWheel.ExpiredAreDue | examples/timer_wheel.c:90-121 | What a tick fires is exactly what is due at that tick |
| TimerWheel.AddKeepsInv | examples/timer_wheel.c:70-84 | An add keeps: every pending timer is in the slot of its deadline, once, with laps to match, and the log of firings is exactly what was due |
| TimerWheel.TickKeepsInv | examples/timer_wheel.c:90-121 | A tick keeps the same |
| TimerWheel.FiresExactlyOnce | examples/timer_wheel.c:70-121 | For any mix of adds and ticks every timer fires exactly once, at its deadline, and not before |
| TimerWheel.FiringOrder | examples/timer_wheel.c:70-121 | For any mix of adds and ticks, timers fire in the order of their ticks, and within one tick the one added last fires first |
| TimerWheel.DocumentedExactly | examples/timer_wheel.c:67-69 | In any run, a timer whose delay has passed has fired once after `delay` ticks if and only if the delay is no multiple of 16 |
| TimerWheel.DelayOfSixteen | examples/timer_wheel.c:70-84 | A timer with delay 16 has not fired after 16 ticks, and has fired once, at tick 32, after 32 |
| TimerWheel.SlotsHoldPending | examples/timer_wheel.c:70-121 | The slots hold exactly as many timers as have their deadline ahead |
| TimerPool.Unlink | examples/timer_wheel.c:105-107 | Redirecting the predecessor's link, or the slot head, removes exactly the one entry from the list |
| TimerPool.ActiveCount | examples/timer_wheel.c:56-65 | The number of entries in use is the sum of the lengths of the slot lists |
| TimerPool.Pool.Alloc | examples/timer_wheel.c:56-65 | The first free entry, or none exactly when all are in use |
| TimerPool.Pool.AddTimer | examples/timer_wheel.c:70-84 | Prepends the first free entry to its slot's list in memory; the lists stay disjoint, acyclic and complete; refused, with nothing changed, exactly when all entries were in use |
| TimerPool.Pool.WheelTick | examples/timer_wheel.c:90-121 | The traversal with in-place unlinking computes the wheel's tick and keeps every active entry in exactly one list, once |
| TimerPool.RunTimers | examples/timer_wheel.c:50-121 | For any requests on the pool in memory: the pool holds the wheel on which exactly the accepted timers were started and the requested ticks made; a timer is refused if and only if 64 are pending; every accepted timer fires once, at its deadline, and not before, those of one tick in the reverse order of their requests; as many entries are in use as timers are pending |
| TimerPool.FullExactly | examples/timer_wheel.c:56-65 | All entries are in use if and only if 64 timers are pending |
| ContextSwitch.Cpu.CoCtxSwitch | src/asm_ctx.S:41-66 | The instructions compute the switch function |
| ContextSwitch.Cpu.CoTrampoline | src/asm_ctx.S:79-81 | The instructions compute the trampoline function |
| ContextSwitch.RecordLayout | src/asm_ctx.S:43-58 | Saving and loading a record agree with its layout: rsp at offset 0, then rbp, rbx and r12 to r15 in words of 8 bytes |
| ContextSwitch.SeededRecord | src/coroutine.c:186-195 | A new context's record holds the seeded stack pointer at offset 0 and zeros in its other words |
| ContextSwitch.StepKeepsOk | src/asm_ctx.S:41-66 | A switch or a creation leaves every suspended context's record and whole stack intact |
| ContextSwitch.ResumedSeesItsOwn | src/coroutine.c:219-266 | Over any run among any number of contexts, a resumed context finds its own callee-saved registers, stack pointer, return address and stack |
| ContextSwitch.FreshReachesEntry | src/coroutine.c:183-195 | A new context reaches `co_entry` with rdi = co, rsp at the 16-byte boundary below its stack's end, and zero callee-saved registers |
| ContextSwitch.SeedFitsExactly | src/coroutine.c:186-192 | Both seeded words lie inside a stack at every address if and only if it has at least 31 bytes |

## Left out

- `co_free`: freed records stay in the registry that `wakeup_waiters` reads; the model has no frees.
- `co_run` called from inside a coroutine, which overwrites the saved main context.
- Allocation failure in `co_create`, the `ucontext` backend, floating-point state and signals.
- The stack alignment that section 3.2.2 of the System V AMD64 psABI asks for at function entry: the model proves
  the actual stack pointer and claims no more.
- Memory as bytes: an access is to one 8-byte word named by its address, so words that partly overlap are not modelled.
- Runtime.System.CoCreate: the function pointer, argument and stack size of the record are not part of it; the
  stack's seeding is in `ContextSwitch`.
- TimerPool.Pool.WheelTick: the callback's coroutine is not modelled. Each firing takes one of the 512 places of the
  registry, which never shrinks, so the 513th firing fails the assertion of `co_create` (`src/coroutine.c:166`).
- TimerPool.Pool.WheelTick: a callback is one entry in a log; callbacks that add timers during the traversal are not
  modelled (the callbacks of the source add none).
- TaskGraph.Table.Register: room in the table is a precondition; the source does not check it.
- TaskGraph.Table.AddDep: room in the task's list is a precondition; the source does not check it.
- Pipeline.RunPipeline: asks for ring capacity 1 or more, which the source fixes; with none the producer spins forever.
- Slots.RunSlots: asks for at least one unit, as the source's test has; with none every worker spins forever.
- WorkStealing.RunPool: asks for at least one worker and non-zero capacities, which the source fixes.
- Names and contents of tasks, their costs, and printed output.
- Machine-integer overflow of ticks, generations, sums and counters.
- Tests 1, 4 and 5 of `tests/test_semaphore.c`: coroutines that only post, and the order in which waiters get a unit.
- The barrier tests whose workers also yield outside `barrier_wait`: any such order of steps is among those of
  `Barriers.AnyInterleaving`, but `Barriers.RunBarrier` is about workers that yield only inside it.
- The other examples, tests and benchmarks: weaker variants of the modelled programs, I/O and timing demonstrations, or
  programs over calls whose code is not in the repository.
