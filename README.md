# DARTS streaming queues and top-level scheduling, in Dafny

This project models the streaming layer of the DARTS codelet runtime, and the decisions its top-level (TP) scheduler makes:

- `SoftFifo` is the lock-guarded bounded queue between a producing and a consuming codelet.
- `FifoMeta` and `Fifo` are the queue's metadata records.
- `StreamingCodelet` is a codelet with a producer-side queue handle, a consumer-side queue handle and a link to the downstream codelet it feeds.
- The TP scheduling policies (round robin, push full, static, dynamic and work push) each take one pass of their policy loop. The model covers:
  - how a queue is allocated and wired between two codelets;
  - the idle backoff;
  - how `TPStatic` routes a pushed codelet;
  - the scheduler factory.
- Two example pipelines fill an array with 0..N-1 and copy it into a second array. The first chains plain codelets; the second streams the values through a queue.

Files and modules:

- `fifo.dfy`, module `Fifos`, covers the metadata records and the queue.
  - The queue is specified by pure step functions over a `SoftState` value: `PushStep`, `PopStep`, `PeekStep` and `ClearStep`.
  - The lemmas are proved about those step functions.
  - The class `SoftFifo` updates head, tail, both flags, the buffer and the lock in place, and is proved to follow the step functions.
  - The `Ring*` functions are the wrap-around ring buffer the queue evidently means to be (see Findings).
- `codelet.dfy`, module `Codelets`, covers codelets, streaming codelets and the registration list of a threaded procedure.
  - A streaming codelet is a `Codelet` whose `streaming` tag is set.
- `sched.dfy`, module `SchedPolicy`, covers the scheduler.
  - The class `TPScheduler` holds the backoff, the round-robin index, the table of allocated queues (`fifos`) and an event log (`trace`).
  - Each pass method is proved to produce exactly the events of a pure function of its inputs. Lemmas about those functions state the dispatch rules.
- `cd.dfy`, module `CdApp`, is the plain pipeline of `apps/Streaming/cd.cpp`.
- `cd1.dfy`, module `Cd1App`, is the streaming pipeline of `apps/Streaming/cd1.cpp`.

## Model

| member | source | states |
|---|---|---|
| Fifos.NewFifo7Reports | include/abstractmachine/Fifo.h:83-114 | A Fifo built with the seven-argument constructor reports exactly the cluster, local memory, id, size, element size, producer and consumer it was given |
| Fifos.NewFifo5Reports | include/abstractmachine/Fifo.h:75-82 | A Fifo built with the five-argument constructor reports its five values and records no producer or consumer (`None`) |
| Fifos.FreshIsEmpty | include/abstractmachine/Fifo.h:142-153 | A fresh queue has head = tail = 0, is empty, is not full, holds nothing and its lock is free |
| Fifos.SoftFifo.constructor | include/abstractmachine/Fifo.h:142-157 | The six-argument constructor records the metadata, allocates `size` slots and leaves the fresh state: valid and empty |
| Fifos.PushSpec | include/abstractmachine/Fifo.h:180-198 | On a full queue, push returns -1 and changes nothing. In a reachable state it returns 0, stores x at the old tail, advances the tail by one, clears `empty` and appends x to the contents |
| Fifos.SoftFifo.Push | include/abstractmachine/Fifo.h:180-198 | The in-place push follows PushStep, gives the lock back on both paths, and on a valid queue returns 0 and appends the element |
| Fifos.PopSpec | include/abstractmachine/Fifo.h:201-220 | On an empty queue, pop returns -1 and changes nothing. Otherwise it returns 0, yields the element at the old head, which is the oldest, advances the head, clears `full`, raises `empty` exactly when head meets tail, and drops that element from the contents |
| Fifos.SoftFifo.Pop | include/abstractmachine/Fifo.h:201-220 | The in-place pop follows PopStep, gives the lock back, and leaves `*toPop` untouched on failure. On a valid queue it succeeds iff the queue is non-empty and yields the first element |
| Fifos.PeekMatchesPop | include/abstractmachine/Fifo.h:225-237 | peek returns the code and value a pop in its place would return, leaves the state unchanged, and fails exactly on an empty queue |
| Fifos.SoftFifo.Peek | include/abstractmachine/Fifo.h:225-237 | The in-place peek changes nothing but the lock, which it gives back, and reports the first element on success |
| Fifos.ClearSpec | include/abstractmachine/Fifo.h:239-246 | clear resets head and tail to 0, sets `empty`, clears `full`, keeps the buffer and leaves the lock held |
| Fifos.SoftFifo.Clear | include/abstractmachine/Fifo.h:239-246 | The in-place clear follows ClearStep, returns 0, and ends with the lock held |
| Fifos.ClearBlocksQueue | include/abstractmachine/Fifo.h:239-246 | After clear, no further operation on the queue can complete, because its lock is still held |
| Fifos.FullNeverRaised | include/abstractmachine/Fifo.h:186-188 | Along any run of push, pop, peek and clear from a reachable state, the invariant holds and `full` is never raised |
| Fifos.PushAll | include/abstractmachine/Fifo.h:186-187 | Pushing a sequence of elements into a queue with room for them appends the sequence to the contents and advances the tail by its length |
| Fifos.PopN | include/abstractmachine/Fifo.h:207-208 | Popping n elements yields the first n elements of the contents, in order, and leaves the rest |
| Fifos.FifoOrder | include/abstractmachine/Fifo.h:186-210 | Pushing xs into a fresh queue with room for them and then popping as many gives back xs in order and leaves the queue empty |
| Fifos.ExhaustedAfterSizePushes | include/abstractmachine/Fifo.h:186-208 | After `size` elements have passed through a fresh queue, it is empty and not full, yet its tail is at the end of the buffer and the next push cannot complete |
| Fifos.EleventhPushOverflows | include/abstractmachine/Fifo.h:186-188 | Ten pushes into a fresh 10-slot queue leave `full` down and the tail at 10, so an eleventh push would write past the buffer |
| Fifos.RingPushSpec | include/abstractmachine/Fifo.h:180-198 | The corrected, wrapping push fails iff the ring holds `size` elements, and then changes nothing; otherwise it appends the element |
| Fifos.RingPopSpec | include/abstractmachine/Fifo.h:201-220 | The corrected pop fails iff the ring is empty; otherwise it yields the oldest element and removes it |
| Fifos.RingClearReleases | include/abstractmachine/Fifo.h:239-246 | The corrected clear empties the ring and gives the lock back |
| Fifos.RingPushAll | include/abstractmachine/Fifo.h:186-188 | Corrected pushes into a ring with room append every element |
| Fifos.RingFillsToCapacity | include/abstractmachine/Fifo.h:186-190 | A fresh ring of c slots accepts exactly c pushes, raises `full` on the c-th, and refuses the next |
| Fifos.Lockstep | include/abstractmachine/Fifo.h:186-210 | A producer and a consumer taking turns through the corrected ring keep it valid and empty between rounds |
| Fifos.LockstepDelivers | include/abstractmachine/Fifo.h:186-210 | Taking turns through the corrected ring delivers every element, in order, however many pass through a ring of any size |
| Codelets.ThreadedProcedure.constructor | apps/Streaming/cd.cpp:107 | A threaded procedure starts with no registered codelets |
| Codelets.ThreadedProcedure.Add | apps/Streaming/cd.cpp:116-121 | add(&cd) appends the codelet to the procedure's registration list, keeping earlier registrations in order |
| Codelets.Codelet.constructor | apps/Streaming/cd.cpp:47-48 | Codelet(dep, res, myTP, stat) records the count, reset count, procedure and status, and the codelet is not streaming and has no queue handles or downstream codelet |
| Codelets.Codelet.Streaming | include/threading/StreamingCodelet.h:14-26 | The five-argument StreamingCodelet constructor records dep, reset, procedure and status, records `consumerCod` as the downstream link returned by getConsumerCod, and is streaming |
| Codelets.Codelet.DecDep | apps/Streaming/cd.cpp:54 | decDep() satisfies exactly one outstanding dependency: the count drops by one and nothing else changes |
| Codelets.Codelet.SetProducer | include/threading/StreamingCodelet.h:29 | setProducer changes only `producer_`, and getProducer then returns the value set |
| Codelets.Codelet.SetConsumer | include/threading/StreamingCodelet.h:30 | setConsumer changes only `consumer_`, and getConsumer then returns the value set |
| Codelets.Codelet.SetConsumerCod | include/threading/StreamingCodelet.h:32 | setConsumerCod changes only `consumerCod_`, and getConsumerCod then returns the value set |
| Codelets.Codelet.DecDepConsumerCod | include/threading/StreamingCodelet.h:33 | Decrements the downstream codelet's dependency count by exactly one and touches nothing else |
| Codelets.Codelet.GenerateFifo | include/threading/StreamingCodelet.h:34-37 | Ignores its arguments and returns a new, valid, empty queue with 10 slots, cluster, local memory and id 0, element size 4, this codelet as producer and `consumerCod_` as consumer |
| SchedPolicy.Create | src/scheduler/TPSchedPolicy.cpp:413-421 | create returns a scheduler whose policy is named by the given code, and returns nothing (NULL) exactly for the work-push code and for unknown codes |
| SchedPolicy.CreateRoundTrip | src/scheduler/TPSchedPolicy.cpp:413-421 | Every policy except work push is created from its own type code |
| SchedPolicy.BackoffBounded | src/scheduler/TPSchedPolicy.cpp:72-98 | From the initial value, the sleep time stays a power of two between 1 and 512, and is 1 right after a pass that found a closure |
| SchedPolicy.IdleAtCeiling | src/scheduler/TPSchedPolicy.cpp:94-98 | At 512, idle passes leave the sleep time at 512 |
| SchedPolicy.NeedsFifo | src/scheduler/TPSchedPolicy.cpp:103-104 | The streaming guard: a popped codelet gets a queue iff it is streaming and has a downstream codelet |
| SchedPolicy.TPScheduler.GetSubIndexInc | src/scheduler/TPSchedPolicy.cpp:114 | Returns the round-robin index modulo the number of sub-schedulers, which is a valid sub index, and advances the index by one |
| SchedPolicy.TPScheduler.OfferToSub | src/scheduler/TPSchedPolicy.cpp:116 | getSubScheduler(k)->pushCodelet(c) returns the sub-scheduler's answer and is logged as one offer of c to sub k with that answer |
| SchedPolicy.TPScheduler.Backoff | src/scheduler/TPSchedPolicy.cpp:83-98 | The sleep time is reset to 1 when a closure was found, and otherwise doubled only while below 500 |
| SchedPolicy.TPScheduler.ObtainClosure | src/scheduler/TPSchedPolicy.cpp:79-98 | popTP is asked first. steal is asked (`askedSteal`) iff popTP found nothing. A closure is obtained iff popTP found one or steal was asked and found one, and the backoff is reset iff a closure was obtained |
| SchedPolicy.TeardownGate | src/scheduler/TPSchedPolicy.cpp:169-187 | After a local fire, the procedure is deleted iff it exists, checkParent said yes before the fire and decRef said yes after it. The events are then exactly check, fire, decrement, delete |
| SchedPolicy.FireNeverAllocates | src/scheduler/TPSchedPolicy.cpp:334-352 | Firing a codelet locally neither allocates a queue nor offers a codelet to a sub-scheduler |
| SchedPolicy.TPScheduler.FireLocally | src/scheduler/TPSchedPolicy.cpp:169-187 | Firing locally appends exactly the events of FireEvents: checkParent before the fire, then decRef and delete only as the answers allow |
| SchedPolicy.FirstAccept | src/scheduler/TPSchedPolicy.cpp:116-118 | The position of the first accepted push attempt: that attempt was accepted and every earlier one was rejected |
| SchedPolicy.RetryPlacesOnce | src/scheduler/TPSchedPolicy.cpp:113-121 | A codelet is offered to successive sub-schedulers in round-robin order until one accepts it. There is exactly one accepted offer, the last, and every earlier offer was rejected |
| SchedPolicy.AttemptsAreOffers | src/scheduler/TPSchedPolicy.cpp:114-118 | A run of push attempts consists only of offers of that codelet |
| SchedPolicy.RetryOnlyOffers | src/scheduler/TPSchedPolicy.cpp:113-121 | Pushing popped codelets to sub-schedulers only ever offers popped codelets: it fires nothing and allocates nothing |
| SchedPolicy.RoundRobinWiresFirstOnly | src/scheduler/TPSchedPolicy.cpp:100-121 | A round-robin pass allocates a queue for codelet c iff c is the first codelet popped and the streaming guard held for it |
| SchedPolicy.RoundRobinAlternates | src/scheduler/TPSchedPolicy.cpp:113-121 | With two sub-schedulers that accept every first offer, codelets A, B, C and D go to subs 0, 1, 0 and 1 |
| SchedPolicy.Tries | src/scheduler/TPSchedPolicy.cpp:160-166 | The push-full loop makes at most getNumSub() attempts per codelet |
| SchedPolicy.PushFullFiresIffRejected | src/scheduler/TPSchedPolicy.cpp:157-188 | Push full makes at most numSub offers for a codelet and fires it locally iff every offer was rejected; otherwise its last offer was the accepted one |
| SchedPolicy.StepFiresOnlyItself | src/scheduler/TPSchedPolicy.cpp:157-188 | The only codelet one push-full step can fire is its own, and only when all subs refused it |
| SchedPolicy.PushFullFiresRefused | src/scheduler/TPSchedPolicy.cpp:156-190 | Over a whole push-full pass, exactly the popped codelets that every sub-scheduler refused are fired locally |
| SchedPolicy.StaticFiresAll | src/scheduler/TPSchedPolicy.cpp:225-247 | A static pass fires every popped codelet locally, and no other |
| SchedPolicy.DynamicWiresEveryProducer | src/scheduler/TPSchedPolicy.cpp:326-361 | A dynamic pass allocates a queue for exactly those popped codelets for which the streaming guard held. Every pop is checked, not only the first |
| SchedPolicy.StaticRoute | src/scheduler/TPSchedPolicy.cpp:253-264 | pushCodelet routes to the local queue iff the status is 0 or there are no sub-schedulers, and otherwise to a sub-scheduler index below numSub |
| SchedPolicy.StaticRouteCycles | src/scheduler/TPSchedPolicy.cpp:262 | Statuses 1..numSub pick subs 0..numSub-1, and statuses numSub apart pick the same sub |
| SchedPolicy.TPScheduler.PushCodelet | src/scheduler/TPSchedPolicy.cpp:253-264 | TPStatic::pushCodelet pushes to the local queue or to sub (status-1) % numSub, as StaticRoute says, and returns that push's answer |
| SchedPolicy.TPScheduler.AllocateFifo | src/scheduler/TPSchedPolicy.cpp:45-67 | After allocateFifo(p), p's consumer handle and p.consumerCod's producer handle are the same new, empty 10-slot queue. That queue is appended to fifos_, and the downstream count drops by exactly one |
| SchedPolicy.TPScheduler.PushUntilAccepted | src/scheduler/TPSchedPolicy.cpp:114-118 | Offers one codelet to successive sub-schedulers until one accepts it; the index moves on by the number of offers |
| SchedPolicy.TPScheduler.TryEachSub | src/scheduler/TPSchedPolicy.cpp:159-166 | The for loop offers the codelet to each sub at most once, stops at the first acceptance, and reports failure iff all refused |
| SchedPolicy.TPScheduler.PushAllUntilAccepted | src/scheduler/TPSchedPolicy.cpp:113-121 | Every popped codelet, in pop order, is offered until accepted; the events and index advance are those of RetryEvents |
| SchedPolicy.TPScheduler.RoundRobinPass | src/scheduler/TPSchedPolicy.cpp:77-121 | One round-robin pass updates the backoff and wires only the first popped codelet, and only if the guard holds. The new queue is valid, empty, has 10 slots, is appended to fifos_, and is both that codelet's consumer and its downstream codelet's producer, whose count drops by one. Only those two codelets' handles and that count may change. The pass then places every popped codelet on a sub-scheduler, and fires nothing |
| SchedPolicy.TPScheduler.WorkPushPass | src/scheduler/TPSchedPolicy.cpp:376-409 | One work-push pass consults popTP only (no steal), has no streaming check, and offers each popped codelet until accepted |
| SchedPolicy.TPScheduler.PushFullPass | src/scheduler/TPSchedPolicy.cpp:133-190 | One push-full pass updates the backoff and produces exactly the events of PushFullEvents over the popped codelets |
| SchedPolicy.TPScheduler.PushFullOne | src/scheduler/TPSchedPolicy.cpp:159-188 | For one codelet, offers it once to each sub and fires it locally if all refused |
| SchedPolicy.TPScheduler.StaticPass | src/scheduler/TPSchedPolicy.cpp:202-247 | One static pass updates the backoff and fires every popped codelet locally, in order |
| SchedPolicy.TPScheduler.WireAndFire | src/scheduler/TPSchedPolicy.cpp:327-361 | For one popped codelet: if the guard holds, a new queue is wired between it and its downstream codelet, appended to fifos_, and the downstream count drops by one. Otherwise nothing is wired. Then it is fired locally |
| SchedPolicy.TPScheduler.WireAndFireAll | src/scheduler/TPSchedPolicy.cpp:333-362 | The inner loop of the dynamic policy: each popped codelet is wired if the guard holds and then fired, producing exactly the events of DynamicEvents, with one queue appended to fifos_ per wired codelet. Each codelet that passed the guard ends the pass wired (WiredSince): its consumer handle is a queue appended during the pass, that queue is its downstream codelet's producer handle, and the downstream count is one below its value when the pass began. Every other consumer handle, producer handle and count is unchanged |
| SchedPolicy.TPScheduler.DynamicPass | src/scheduler/TPSchedPolicy.cpp:302-362 | One dynamic pass updates the backoff and produces exactly the events of DynamicEvents. fifos_ grows by one queue per popped codelet that passed the guard, and its old entries are kept. Every such codelet ends the pass wired to its downstream codelet through one of the new queues, whose count has dropped by one (WiredSince). A codelet that failed the guard keeps its consumer handle, and a codelet that is no guarded codelet's downstream keeps its producer handle and its count |
| CdApp.SignalCD.constructor | apps/Streaming/cd.cpp:47-49 | startCD/endCD build a plain codelet with the given count, reset count, procedure and status, and record the codelet to signal |
| CdApp.SignalCD.Fire | apps/Streaming/cd.cpp:51-55 | startCD/endCD fire only decrements its toSignal, exactly once |
| CdApp.LoadCD.constructor | apps/Streaming/cd.cpp:77-79 | loadCD builds a plain codelet with the given count, reset count, procedure and status, and records the codelet to signal |
| CdApp.LoadCD.Fire | apps/Streaming/cd.cpp:125-132 | After loadCD fires, x[i] = i for every i < ARRAY_LENGTH, and its successor's count has dropped by exactly one |
| CdApp.CopyCD.constructor | apps/Streaming/cd.cpp:88-90 | copyCD builds a plain codelet with the given count, reset count, procedure and status, and records the codelet to signal |
| CdApp.CopyCD.Fire | apps/Streaming/cd.cpp:134-142 | After copyCD fires, y equals x element by element, x is unchanged, and its successor's count has dropped by exactly one |
| CdApp.ATP.constructor | apps/Streaming/cd.cpp:106-122 | aTP builds the chain start(0) → load(1) → copy(1) → end(1) → toSig over four distinct codelets of this procedure, registered in that order |
| CdApp.ATP.RunChain | apps/Streaming/cd.cpp:106-142 | Firing start, load, copy and end in dependency order brings each successor's count to 0. It ends with x[i] = y[i] = i for all i and one decrement of toSig |
| Cd1App.LoadSCD.constructor | apps/Streaming/cd1.cpp:75-76 | loadSCD builds a streaming codelet with the given count, reset count, procedure, status and downstream codelet, with no queue handles yet |
| Cd1App.LoadSCD.Fire | apps/Streaming/cd1.cpp:124-139 | loadSCD sets x[i] = i and pushes 0..ARRAY_LENGTH-1 into its consumer queue in that order. It decrements no codelet's count |
| Cd1App.CopySCD.constructor | apps/Streaming/cd1.cpp:85-87 | copySCD builds a streaming codelet with the given count, reset count, procedure, status and downstream codelet, with no queue handles yet, and records the codelet to signal |
| Cd1App.CopySCD.Fire | apps/Streaming/cd1.cpp:141-154 | copySCD pops ARRAY_LENGTH values, in order, from its producer queue into y[0..N), then decrements endcd exactly once |
| Cd1App.ATP1.constructor | apps/Streaming/cd1.cpp:104-121 | The streaming aTP wires start(0) → loadscd(1). loadscd has consumerCod = copyscd, and copyscd(1), with no consumerCod, → endcd(1) → toSig. The codelets are registered in that order. Of the four, only loadscd passes the streaming guard, so it is the one the scheduler wires. All four are new codelets of this procedure (`myTP` is the aTP itself) |
| Cd1App.ATP1.Start | apps/Streaming/cd1.cpp:107-111 | Start's fire makes loadscd ready. copyscd's only dependency is met by the scheduler's allocateFifo, which leaves both handles on one new 10-slot queue |
| Cd1App.ATP1.RunStream | apps/Streaming/cd1.cpp:124-154 | Running load to completion and then copy through one queue with room for N values yields x[i] = y[i] = i for all i, leaves the queue empty and signals endcd once |
| Cd1App.Launch | apps/Streaming/cd1.cpp:104-121 | A freshly built streaming aTP can be started: after start fires and the scheduler allocates the queue, load and copy are both ready, end still waits on one dependency, and load's consumer handle and copy's producer handle are the same new, valid, empty queue, appended to fifos_ |

## Left out

- The `while (alive())` loops, `usleep`, `tpClosure::factory` and closure deletion are left out, because the model takes one pass of each policy loop.
  - The backoff is a counter.
- `popTP`, `steal`, `popCodelet`, `getSubScheduler` and `MScheduler::pushCodelet` become parameters.
  - Their code is not part of this model.
  - A pass receives whether a closure was found, the codelets popped before `popCodelet` returned null, and each sub-scheduler's answer.
- The body of `getSubIndexInc` is not part of this model. It is modelled (GetSubIndexInc) as "return the index modulo the number of sub-schedulers, then advance it by one".
- `checkParent` and `decRef` are not part of this model. Their answers are parameters (`Teardown`), and deleting the procedure is an event.
- The body of `fire()` for a codelet the scheduler fires is an event in the log.
  - The example pipelines' `fire` bodies are modelled on their own, in `CdApp` and `Cd1App`.
- `clearFifos` at the end of `TPDynamic::policy` is not part of this model.
- TRACE and COUNT instrumentation is left out.
- `main` in both example programs is left out, along with the runtime, thread affinity, timing and printing.
- The `std::cout` lines in the loadSCD and copySCD fire bodies (apps/Streaming/cd1.cpp:126, 133, 138, 143, 148, 153) are left out: they only print progress.
- The real `Lock` is a boolean.
  - push, pop, peek and clear require the lock to be free. In a sequential model, a held lock would block forever.
  - Producer/consumer interleaving is not modelled.
- Fifos.SoftFifo.constructor: the source never sizes `_queue` to `_size`: it stays an empty vector, so every push would write past its end. The model's buffer has `_size` slots.
- Fifos.SoftFifo.constructor: takes the element size explicitly, standing for `sizeof(T)`.
- Fifos.SoftFifo.Push: requires that a non-full queue's tail lies inside the buffer. The source does not check this bound (see Findings).
- Fifos.NewFifo5: the five-argument FifoMeta constructor leaves `_producer` and `_consumer` uninitialised (include/abstractmachine/Fifo.h:19-32). The model records them as `None` instead of an indeterminate pointer.
- Fifos.SoftState: `_head` and `_tail` are `uint32_t` in the source and unbounded naturals here. They never pass the buffer size, so for a buffer of fewer than 2^32 slots they never reach 2^32. `_size` is `uint64_t`, and the 32-bit wrap-around of the indices in a buffer of 2^32 slots or more is not modelled.
- These constructors are left out: the default constructors of FifoMeta, Fifo and SoftFifo, and the zero- and one-argument StreamingCodelet constructors.
  - They leave fields uninitialised, and nothing in this core calls them.
- Codelets.Codelet.Streaming: the source leaves `producer_` and `consumer_` uninitialised. The model starts them as null.
- Streaming queues carry `int` elements (`SoftFifo<int>`), the only element type the example programs stream.
- The destructor and all `delete`s are left out, because memory is not reclaimed in the model.
- `dynamic_cast` is left out. The handles have their concrete types.
- `Codelet` and `ThreadedProcedure` are modelled only as far as this core uses them: a dependency count, the owning procedure, the status and the registration list.
- SchedPolicy.TPScheduler.RoundRobinPass: requires that every popped codelet is eventually accepted by some sub-scheduler. Otherwise the source's retry loop spins forever.
- SchedPolicy.TPScheduler.WorkPushPass: requires that every popped codelet is eventually accepted, for the same reason.
- SchedPolicy.TPScheduler.RoundRobinPass: requires the downstream count of a wired codelet to be positive. Decrementing a zero count is not modelled (counts are naturals).
- SchedPolicy.TPScheduler.DynamicPass: requires positive downstream counts and no two wired codelets sharing a downstream codelet in one pass. A queue has one producer and one consumer, as the single `_producer` and `_consumer` of a Fifo show (include/abstractmachine/Fifo.h:19-20, 114), so the model does not cover a downstream codelet fed by two producers.
  - The source accepts such a pass: it allocates two queues, decrements the shared count twice, and the later setProducer wins. The model does not capture that case.
- SchedPolicy.TPScheduler.DynamicPass: the ghost `wired` parameter names the codelets whose handles and counts the pass may change. The contract does not say which of the new queues belongs to which codelet, only that each is one of them.
- Cd1App.LoadSCD.Fire: makes one push attempt per element instead of the busy retry loop, and requires room for all N pushes.
  - Sequentially, a retry succeeds only if the first attempt did.
- Cd1App.CopySCD.Fire: makes one pop attempt per element instead of the busy retry loop, and requires N elements in the queue.
- Cd1App.ATP1.RunStream: runs the producer to completion and then the consumer, through a queue with room for all N values.
  - The 10-slot queue that allocateFifo builds cannot hold N = 10000 values (EleventhPushOverflows).

## Findings

| source | as written | input that shows it | evidently intended | confidence | as-written member | corrected member |
|---|---|---|---|---|---|---|
| include/abstractmachine/Fifo.h:186-188 | `_tail++` never wraps, so `_tail == _head` right after a push never holds and `_full` is never raised | ten pushes into a fresh 10-slot queue, the size generateFifo uses, leave `full` down and the tail at 10; an eleventh push writes slot 10 of a 10-slot buffer | the tail wraps modulo `_size`; the push that fills the ring raises `full` and the next push returns -1 | not executed | Fifos.EleventhPushOverflows | Fifos.RingFillsToCapacity |
| include/abstractmachine/Fifo.h:207-208 | `_head++` never wraps either, so slots are never reused | push 10 and pop 10 on a fresh 10-slot queue: it is empty, yet the next push writes past the buffer | head and tail both wrap, so a producer and a consumer taking turns can stream any number of values | not executed | Fifos.ExhaustedAfterSizePushes | Fifos.LockstepDelivers |
| include/abstractmachine/Fifo.h:239-246 | `clear` takes the lock and never releases it | clear on any queue, then any push, pop, peek or clear: the lock is still held, so the call blocks | clear releases the lock, like the other three operations | not executed | Fifos.ClearBlocksQueue | Fifos.RingClearReleases |

The class `Fifos.SoftFifo` follows the code as written.
- The corrected ring functions carry the intended behaviour and the properties proved about it.
- The example pipelines use the class with a queue large enough for the whole stream, so that they do not depend on either reading.
