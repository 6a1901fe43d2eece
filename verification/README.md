# A model of the market data pipeline

The pipeline moves quotes and trades from one producer thread to one consumer thread through a lock-free ring,
puts them on the network, and filters them by symbol on the other side. These files model its moving parts and
prove what it keeps over whole runs.

- **The ring** (`Slots`, `SpscRing`, `AtomicFifo`, `Linearizability`, `EmptyCheck`, `ElementLifetime`, `Words`,
  `WordRing`, `CustomSpscQueue`). `push` and `pop` are taken apart into their loads, slot accesses and stores, which
  interleave freely. An acquire load may return any value between the one its thread last saw and the current one;
  where a result needs current values (linearizability, the wake-up protocol, `empty()` from a third thread) it says
  so with `Fresh`, `AllFresh` or `CurrentLoads`. The same steps are then taken with counters modulo 2^64.
  `CustomSpscQueue` is the object itself: an array of slots and two 64-bit counters.
- **The wrappers** (`StoppableFifo`, `SpinSpscQueue`, `WaitableSpscQueue`, `WakeUp`, `PushProgress`,
  `StopWakeUp`, `StaleWakeUp`, `SpinProgress`, `WrapperRefinement`). Producer, consumer and stop callback run around the
  step-by-step ring, the sleeping flag and the stop token.
- **The run** (`BaseGenerator`, `Upstream`, `Turns`, `LoopsOverQueue`, `LoopProgress`, `Disseminator`, `Pipeline`,
  `ReceiverTurns`, `ReceiverStop`, `LatencyMonitor`). Generator sessions, queue, disseminator, an arbitrary lossy,
  repeating and reordering network, filter, client and monitor under one steady clock whose readings fit 64 bits.
  `Upstream` has the queue as one atomic step; `LoopsOverQueue` puts the step-by-step wrappers in its place.
- **Symbols and bytes** (`MarketData`, `WireFormat`, `Symbols`, `FeedHandler`, `SubscriptionLog`).

## Where the code does less than one might expect

Each of these is a proved statement with its exact condition.

- The destructor compares counters with `<`: once the 64-bit counters have wrapped apart it destroys nothing
  (`CustomSpscQueue.Destructor`, `EachElementDestroyedOnce64`). Getting there takes 2^64 pushes (`ElementLeftBehind`).
- Called by one of the queue's own threads, `empty()` errs on one side only, and exactly when that thread's view is
  out of date (`EmptyFromConsumer`, `EmptyFromProducer`).
- A stop can be missed: if the callback stores its false between the consumer's stop check and its store of true,
  an empty queue leaves the consumer asleep until the next push (`StrandedIffWindow`, `TheOneTrace`).
  tests/test_waitable_queue.cpp:76-98 expects `pop` to return on every stop; it does outside that window
  (`StopOutsideWindowWakes`), and always with the busy loop (`SpinStopExits`).
- The wake-up protocol relies on sequential consistency. The second ring pop loads `write_` with acquire and the
  producer loads the flag relaxed, and between them a wake-up can be lost (`StaleWakeUp`).
- `empty()` from a third thread can be wrong when `write_` is loaded first (`EmptyWriteFirst`, `EmptyWriteFirstIsWrong`).
- Above 10^9 messages a second the interval is zero and nothing is paced (`UnpacedAboveBillion`).
- An eight-byte ticker is accepted, but its messages carry only seven bytes, so they never reach its own
  subscription (`ReachesOwnSubscriptionIff`).
- A subscription command is lost without notice when the client sees 128 outstanding ones, which it may do even on an
  empty queue (`AllAcceptedIff`, `RefusalPossibleIff`, `OneHundredAndTwentyNine`, `LostOnAnEmptyQueue`, `SubscribeAll`).
- The drain of the command queue does not look at the stop token, so a client that never stops calling can keep the
  receive loop from exiting (`DrainWithoutEnd`); otherwise it exits (`ReceiverStops`).
- The filter compares the topic's symbol and not the payload's (`DeliveredSymbolSubscribed`).

README.md of the repository calls the waitable strategy a condition variable; the code uses `std::atomic::wait`, and
that is what is modelled: the wait returns only after a load has seen something other than true, and may also wake
without reason and load again.

## Model

| member | source | states |
|---|---|---|
| SpscRing.StepInv | src/utils/CustomSpscQueue.h:35-61 | every single step of `push` and `pop`, with acquire loads that may return any value not older than the last one seen, keeps `seenRead <= read_ <= seenWrite <= write_ <= seenRead + Capacity` and, slot by slot, which elements are constructed |
| SpscRing.RunSafe | src/utils/CustomSpscQueue.h:35-61 | in every state of every interleaving: no construction over a live slot, no move from or destruction of a raw one, every slot access ordered after the observed store that published the other thread's last access to it, both views on the safe side (so testing with `==` suffices), popped a prefix of pushed and at most a capacity behind |
| SpscRing.ConstructInv | src/utils/CustomSpscQueue.h:43 | the slot built into is raw, its destruction has been observed, and no other slot is touched |
| SpscRing.MoveOutInv | src/utils/CustomSpscQueue.h:57 | the slot moved from holds the oldest element, whose construction has been observed |
| SpscRing.DestroyInv | src/utils/CustomSpscQueue.h:58 | the slot destroyed is live, and becomes the slot of the element one turn later |
| Linearizability.StepRefines | src/utils/CustomSpscQueue.h:35-61 | one sequentially consistent step of the ring is one step of the atomic FIFO: success at the counter store, "full" at the load of `read_`, "empty" at the load of `write_` |
| Linearizability.Linearizable | src/utils/CustomSpscQueue.h:35-61 | every sequentially consistent run is, state by state, a run of the atomic bounded FIFO with the same calls and returns |
| Linearizability.LinearizableWithStaleLoads | src/utils/CustomSpscQueue.h:35-61 | with stale loads the only difference is that an operation may fail although it need not have |
| Linearizability.FailureExactIffFresh | src/utils/CustomSpscQueue.h:37-41 | a "full" or "empty" answer is the FIFO's own answer exactly when the load behind it returned the current value |
| EmptyCheck.EmptyReadFirst | src/utils/CustomSpscQueue.h:63-65 | `empty()` from a third thread whose two loads return current values, `read_` first: the answer is the truth about some state between them |
| EmptyCheck.EmptyFromConsumer | src/utils/CustomSpscQueue.h:63-65 | from the consumer's thread, in either operand order, stale loads included: "not empty" is always true; the answer is exact unless a stale `write_` equals `read_`; a wrong answer is possible exactly when the queue is non-empty and the consumer's last view of it was empty |
| EmptyCheck.EmptyFromProducer | src/utils/CustomSpscQueue.h:63-65 | from the producer's thread likewise: "empty" is always true, and "not empty" can be wrong exactly when the queue is empty and the producer has not seen the latest `read_` |
| EmptyCheck.EmptyWriteFirst | src/utils/CustomSpscQueue.h:63-65 | from a third thread with current loads, `write_` first: "not empty" is always true of some state in between, and "empty" exactly when no push took effect meanwhile or the first to do so found the queue empty |
| EmptyCheck.EmptyWriteFirstIsWrong | src/utils/CustomSpscQueue.h:63-65 | from a third thread loading `write_` first it can say "empty" although no state in between was: a concrete run for every capacity from 2 |
| EmptyCheck.WholePush | src/utils/CustomSpscQueue.h:35-46 | a push that is not interrupted appends its item to a ring with room; such a run exists from every idle producer |
| EmptyCheck.WholePop | src/utils/CustomSpscQueue.h:48-61 | a pop that is not interrupted hands back the oldest item |
| ElementLifetime.EachElementDestroyedOnce | src/utils/CustomSpscQueue.h:25-33 | when a run leaves both threads idle, constructions = destructions + what the destructor destroys; it meets no raw slot and leaves none live |
| ElementLifetime.EachElementDestroyedOnce64 | src/utils/CustomSpscQueue.h:25-33 | the same with 64-bit counters, for every run: constructions = destructions + the word difference; the destructor leaves nothing live exactly when `read_ <= write_` as words, and otherwise destroys nothing |
| ElementLifetime.ElementLeftBehind | src/utils/CustomSpscQueue.h:25-33 | for every capacity in use, a run of 2^64 pushes reaches `write_ = 0 < read_`, where the destructor leaves a live element behind |
| Slots.DestroyRangeEmpties | src/utils/CustomSpscQueue.h:28-31 | the destructor's loop over the live range destroys exactly that range |
| WordRing.StepWraps | src/utils/CustomSpscQueue.h:35-61 | each step with unbounded counters is the same step with counters modulo 2^64 |
| WordRing.StepUnwraps | src/utils/CustomSpscQueue.h:35-61 | each step with 64-bit counters comes from a step with unbounded ones, stale loads included |
| WordRing.RunUnwraps | src/utils/CustomSpscQueue.h:35-61 | every run with 64-bit counters is an unbounded run seen modulo 2^64, across any number of wrap-arounds |
| WordRing.RunWraps | src/utils/CustomSpscQueue.h:35-61 | and every unbounded run is one with 64-bit counters |
| WordRing.RunSafe64 | src/utils/CustomSpscQueue.h:35-61 | so in every state the ring with 64-bit counters has touched no slot wrongly, both views are within a capacity as word differences, and what its steps popped is a prefix of what they pushed, at most a capacity behind; the unbounded run behind it is free of races |
| Words.IndexSurvivesWrapIff | src/utils/CustomSpscQueue.h:43-56 | `counter % Capacity` stays the right slot for every count exactly when the capacity divides 2^64 |
| Words.MinusWords | src/utils/CustomSpscQueue.h:39 | `w - r` on words is the number of elements, across the wrap |
| WordRing.CapacitiesInUseWrap | src/main.cpp:146-157 | exactly the six sizes are accepted, each as itself; they and the command queue's 128 divide 2^64 |
| CustomSpscQueues.CustomSpscQueue.constructor | src/utils/CustomSpscQueue.h:21-23 | an empty queue over raw memory, for any capacity of 64 bits |
| CustomSpscQueues.CustomSpscQueue.Push | src/utils/CustomSpscQueue.h:35-46 | succeeds exactly when fewer than `Capacity` elements are queued; then appends, building into the slot at `write_`, which was raw, and changing no other slot; otherwise changes nothing |
| CustomSpscQueues.CustomSpscQueue.Pop | src/utils/CustomSpscQueue.h:48-61 | fails exactly on an empty queue, changing nothing; otherwise hands back and removes the oldest element, which was live in the slot at `read_`, and leaves that slot raw and the others alone |
| CustomSpscQueues.CustomSpscQueue.IsEmpty | src/utils/CustomSpscQueue.h:63-65 | comparing the two words tells whether the queue is empty |
| CustomSpscQueues.CustomSpscQueue.Destructor | src/utils/CustomSpscQueue.h:25-33 | all slots end up raw exactly when `read_ <= write_` as words; when the counters have wrapped apart, nothing is destroyed and live elements remain |
| CustomSpscQueues.CustomSpscQueue.SameSlot | src/utils/CustomSpscQueue.h:43-56 | counting on from the wrapped counter leads to the same slots as from the true count: first the live ones, then the raw ones |
| CustomSpscQueues.CustomSpscQueue.LeftToDestroy | src/utils/CustomSpscQueue.h:26-28 | what the loop will find in either case |
| WaitableSpscQueue.StepInvariant | src/utils/WaitableSpscQueue.h:17-49 | every step of producer, consumer, callback and stop request keeps the protocol invariant |
| WaitableSpscQueue.RingPart | src/utils/WaitableSpscQueue.h:17-49 | the protocol's ring steps are steps of the ring, with its invariant |
| WakeUp.NoLostWakeUpInAnyRun | src/utils/WaitableSpscQueue.h:17-49 | flag set and ring non-empty after the second failed pop: the producer still has to look at the flag or to clear it; blocked behind a cleared flag: a notification is owed; the flag is true only between the consumer's two stores |
| WakeUp.NextIsTheOnlyStep | src/utils/WaitableSpscQueue.h:28-49 | left to itself the consumer always has exactly one next step |
| WakeUp.PopReturnsIff | src/utils/WaitableSpscQueue.h:28-49 | left to itself `pop` returns exactly when there is an element, or a stop was requested and the consumer is not past its stop check with the flag set or about to be; then within 17 of its own steps |
| StopWakeUp.StopExits | src/utils/WaitableSpscQueue.h:28-49 | in every run, producer steps interleaved at will: after a stop request and its callback, unless the flag is set or about to be in this iteration, the consumer takes at most Rank (up to 15) more steps before `pop` returns |
| StopWakeUp.LeavingNeverStuck | src/utils/WaitableSpscQueue.h:28-49 | and it always has a step to take; if blocked, a notification is pending |
| StopWakeUp.StopOutsideWindowWakes | src/utils/WaitableSpscQueue.h:28-49 | so a stop whose callback did not store its false inside the window always ends `pop` within 15 steps, however busy the producer |
| StopWakeUp.StrandedIffWindow | src/utils/WaitableSpscQueue.h:29-46 | in every reachable state after a stop request and its callback, with the producer anywhere: no continuation without a further successful push brings `pop` back exactly when the callback's store of false fell between this iteration's stop check and its store of true, the flag is set or about to be, the ring is empty, and no push has still to look at the flag |
| StopWakeUp.TheOneTrace | src/utils/WaitableSpscQueue.h:29-46 | the five-step run that reaches the window, after which only a further push can bring `pop` back |
| StopWakeUp.PopAfterStop | src/utils/WaitableSpscQueue.h:28-34 | a `pop` entered after a stop runs the callback itself and returns false at its first check, whatever the ring holds |
| PushProgress.PushIsWaitFree | src/utils/WaitableSpscQueue.h:17-26 | in every run, whatever consumer and stopper do, `push` takes at most seven steps after its entry |
| PushProgress.PushNeverStuck | src/utils/WaitableSpscQueue.h:17-26 | and always has exactly one next step |
| PushProgress.PushFinishes | src/utils/WaitableSpscQueue.h:17-26 | from any state a push under way, left to itself, ends with its element in the ring exactly if there was room, the flag down if it still had to look at it, and a consumer blocked on it awake |
| PushProgress.PushBringsPopBack | src/utils/WaitableSpscQueue.h:17-46 | however the consumer got to sleep, a missed stop included, one push into a queue with room brings `pop` back within 17 steps |
| SpinProgress.SpinPopReturnsIff | src/utils/SpinSpscQueue.h:17-24 | from any state of any run the busy loop, left to itself, comes to an answer exactly when there is an element, one has been taken, or a stop was requested; within eight steps; and the answer is the element taken, else the oldest in the ring unless a stop check comes first, else none |
| SpinProgress.SpinPopTakesOldest | src/utils/SpinSpscQueue.h:17-21 | without a stop, a `pop` at its check with the ring non-empty returns true with the oldest element |
| SpinProgress.SpinPushFinishes | src/utils/SpinSpscQueue.h:13-15 | a push under way, left to itself, ends within four steps with its element in the ring exactly if there was room |
| SpinProgress.SpinHandsOver | src/utils/SpinSpscQueue.h:13-24 | a push and then a `pop` hand over the element that has been in the queue longest |
| SpinProgress.SpinPopAfterStop | src/utils/SpinSpscQueue.h:17-24 | a stop request is recorded at once, and a `pop` entered afterwards returns false, whatever the ring holds |
| SpinProgress.SpinStopExits | src/utils/SpinSpscQueue.h:17-24 | after a stop request the busy loop takes at most seven more steps and then returns, whatever the producer does |
| SpinProgress.SpinNeverStuck | src/utils/SpinSpscQueue.h:17-24 | and always has a step to take |
| StaleWakeUp.StaleAnswerLosesWakeUpIff | src/utils/WaitableSpscQueue.h:17-46 | under release/acquire, an "empty" answer of the second ring pop loses a wake-up exactly when its load of `write_` was stale and the producer is past its look at the flag |
| StaleWakeUp.WakeUpCanBeLost | src/utils/WaitableSpscQueue.h:19-46 | that situation is reachable, for every capacity and item |
| StoppableFifo.PopOutcome | src/utils/WaitableSpscQueue.h:28-49 | of the specification: a pending pop that completes empty-handed does so after a stop request and takes nothing; otherwise it takes the oldest element |
| StoppableFifo.WholePopOutcome | src/utils/WaitableSpscQueue.h:28-49 | a whole pop, from call to return, on the specification: false only after a stop request with nothing taken; true with the item that one step in between took off the front |
| WrapperRefinement.WaitablePopOutcome | src/utils/WaitableSpscQueue.h:28-49 | the same for every call of the waitable `pop` in every run, in terms of its ring |
| WrapperRefinement.SpinPopOutcome | src/utils/SpinSpscQueue.h:17-24 | the same for every call of the spinning `pop` in every run |
| StoppableFifo.PendingPopKeepsItems | src/utils/SpinSpscQueue.h:17-24 | nothing leaves the queue while a pop is pending |
| WrapperRefinement.WaitableRefines | src/utils/WaitableSpscQueue.h:17-49 | every run of the waitable queue is a run of the stoppable blocking FIFO |
| WrapperRefinement.SpinRefines | src/utils/SpinSpscQueue.h:13-24 | every run of the spinning queue is a run of the same object |
| WrapperRefinement.WaitableStepRefines | src/utils/WaitableSpscQueue.h:17-49 | step by step: push takes effect in the ring and returns after its look at the flag, pop takes effect in the ring or gives up at its stop check |
| WrapperRefinement.SpinStepRefines | src/utils/SpinSpscQueue.h:13-24 | step by step for the busy loop |
| SpinSpscQueue.SpinKeepsInvariant | src/utils/SpinSpscQueue.h:13-24 | every step of the busy loop and of the delegated push keeps the ring's invariant |
| BaseGenerator.BaseGenerator.SetRate | src/generator/BaseGenerator.h:19-25 | rejects rate 0 leaving everything as it was; otherwise the interval is the whole number of nanoseconds with rate*interval <= 10^9 < rate*(interval+1) |
| BaseGenerator.BaseGenerator.Start | src/generator/BaseGenerator.h:27-35 | refused exactly without a rate, changing nothing; otherwise a session whose stop nobody has requested runs afterwards: the running one undisturbed, or else one new one; earlier sessions keep their stop requests |
| BaseGenerator.BaseGenerator.Stop | src/generator/BaseGenerator.h:37-42 | afterwards no session runs and each has had its stop requested; without a running session nothing changes |
| BaseGenerator.BaseGenerator.PushOrGiveUp | src/generator/BaseGenerator.h:64-65 | the retry loop on the real queue, the consumer taking any number of messages before each attempt: pushes exactly when some attempt finds room (there was some, or the consumer took something first; never if the stop is seen before the first attempt); what was taken followed by what is queued is what was queued before and the message if pushed |
| BaseGenerator.BaseGenerator.TakeTurn | src/generator/BaseGenerator.h:54-68 | one turn: exactly when due, its own message with the reading that stamps it as enqueue time is generated, and pushed exactly if an attempt finds room, else given up; the due time moves on by one interval |
| BaseGenerator.BaseGenerator.GenerationLoop | src/generator/BaseGenerator.h:50-75 | on the real queue: pushed and given-up messages together are, one for one, those of the turns due by the clock readings, each with its own stamp reading as enqueue time and otherwise as generated; at most one is given up, and that ends the loop; the next due time is start + messages*interval; taken ++ queued = queued before ++ pushed |
| BaseGenerator.NoDrift | src/generator/BaseGenerator.h:50-67 | a turn finds nothing due exactly when floor((now-start)/interval)+1 messages have been generated, whatever happened before; and there are never more |
| BaseGenerator.IdleIffCaughtUp | src/generator/BaseGenerator.h:54-56 | the arithmetic of that for one reading |
| BaseGenerator.RateBounds | src/generator/BaseGenerator.h:19-25 | an idle loop has kept up with the requested rate; the excess is below a factor (interval+1)/interval, plus one message |
| BaseGenerator.PaceOfRate | src/generator/BaseGenerator.h:19-67 | both bounds for every session of the loop at every rate from 1 to 10^9 |
| BaseGenerator.IntervalOfRate | src/generator/BaseGenerator.h:24 | truncating division gives that interval; it is 0 exactly above 10^9 |
| BaseGenerator.UnpacedAboveBillion | src/generator/BaseGenerator.h:24-67 | with interval 0 every turn of the loop generates |
| Upstream.StepKeepsInvariant | src/generator/BaseGenerator.h:50-75 | every step of generator, queue and disseminator keeps conservation, session, pacing and timestamp invariants |
| Upstream.Conservation | src/generator/BaseGenerator.h:53-67 | in every state of every run: kept messages = sent ++ at most one in the disseminator's hands ++ queued ++ at most one about to be pushed, ignoring the disseminator's timestamp; a session gives up at most its last message and only after its stop request |
| Upstream.AfterShutdown | src/main.cpp:63-76 | once generator and disseminator have stopped, the kept messages are exactly the sent ones followed by what was left in the queue |
| Upstream.ConservedByGenerator | src/generator/BaseGenerator.h:59-65 | generating adds a message on both sides, giving up takes the same one from both |
| Upstream.ConservedByTransport | src/disseminator/IDisseminator.h:39-57 | every other step only moves messages along |
| Upstream.PacingInRun | src/generator/BaseGenerator.h:50-67 | no drift in the concurrent run: in a session begun with any interval, a clock reading finds nothing due exactly when one message per full interval since the start, and one more, has been generated, however long pushes had to wait |
| Upstream.SessionCounts | src/generator/BaseGenerator.h:27-67 | a session keeps the clock reading and the interval it was started with and counts its messages |
| Upstream.StopTerminates | src/generator/BaseGenerator.h:37-67 | from the step that requests a session's stop on, its thread takes at most six more steps and is off when they are used up, even with the queue full and nobody consuming |
| Upstream.GeneratorNeverStuck | src/generator/BaseGenerator.h:53-67 | and it always has a step to take until then |
| Turns.GenTurn | src/generator/BaseGenerator.h:53-68 | with a message due, room and no stop, one turn generates a message, writes the time into it, appends it to the queue and moves the due time on by the interval |
| Turns.IdleTurn | src/generator/BaseGenerator.h:53-56 | with nothing due a turn changes nothing |
| Turns.RetryTurn | src/generator/BaseGenerator.h:64-65 | with a full queue and no stop the retry loop goes round and changes nothing |
| Turns.DisTurn | src/disseminator/IDisseminator.h:39-57 | a turn of the disseminator takes the oldest message, writes the time into it and sends it |
| Turns.EnqueueTime | src/generator/BaseGenerator.h:57-62 | in any interleaving, what a session adds to its messages is the message last generated, with the clock's reading as enqueue time and nothing else changed |
| Turns.DisseminateTime | src/disseminator/IDisseminator.h:39-43 | what the disseminator sends is the message it popped, with the clock's reading as dissemination time and nothing else changed |
| Turns.SentTimesWereRead | src/generator/BaseGenerator.h:59-62 | in every state of every run both times in each message sent are clock readings taken at a generator's and at a disseminator's timestamp step |
| Turns.AtMostOneMore | src/generator/BaseGenerator.h:53-64 | from the stop request on, a session generates at most the message of the turn it is in |
| Turns.StoppedAtOnce | src/generator/BaseGenerator.h:53 | a session stopped before its first check generates nothing |
| Turns.OffOnlyWhenStopped | src/generator/BaseGenerator.h:53 | a session ends only after a stop request |
| Turns.EmptySession | src/generator/BaseGenerator.h:27-42 | whenever no session runs one can be started and stopped at once; it generates nothing and moves no message |
| Turns.EmptyDissemination | src/disseminator/IDisseminator.h:13-24 | the same for the disseminator |
| Turns.GeneratorRunsUntilStopped | src/generator/BaseGenerator.h:53-68 | a generator session does not end without a stop request |
| Turns.DisseminatorRunsUntilStopped | src/disseminator/IDisseminator.h:39 | nor does a disseminator session |
| LoopsOverQueue.MoveSimulates | src/generator/BaseGenerator.h:50-75 | generator and disseminator calling the stoppable blocking FIFO, with calls, effects and returns as steps of their own: every step is a step of `Upstream` or none |
| LoopsOverQueue.WaitableLoopsKeep | src/utils/WaitableSpscQueue.h:17-49 | with the waitable queue itself between the loops, in every state of every run: its wake-up protocol and all invariants of `Upstream` hold, over any number of disseminator sessions |
| LoopsOverQueue.WaitableConservation | src/utils/WaitableSpscQueue.h:17-49 | conservation spelt out for the real queue: kept messages = sent ++ in the disseminator's hands ++ taken out for it ++ in the ring ++ still with the generator, in order |
| LoopsOverQueue.SpinLoopsKeep | src/utils/SpinSpscQueue.h:13-24 | the same invariants with the spinning queue between the loops |
| LoopProgress.WaitableStopTerminates | src/generator/BaseGenerator.h:37-67 | with the waitable queue: from its stop request on the generator makes at most eleven more moves until it has exited, steps inside `push` included, even with the queue full and nobody consuming |
| LoopProgress.GeneratorMoves | src/generator/BaseGenerator.h:53-67 | with the waitable queue the generator always has a move of its own until it has exited |
| LoopProgress.DisseminatorMoves | src/disseminator/IDisseminator.h:39-57 | so has the disseminator, unless it waits for the stop callback, which then has one |
| LoopProgress.StopAndRestart | src/disseminator/IDisseminator.h:13-24 | a running disseminator can be stopped, which is recorded at once, and an exited one started again with its stop not requested |
| LoopProgress.SpinGeneratorMoves | src/generator/BaseGenerator.h:53-67 | with the spinning queue the generator always has a move until it has exited |
| LoopProgress.SpinDisseminatorMoves | src/disseminator/IDisseminator.h:39-57 | and the disseminator, too |
| Pipeline.StepKeepsInvariant | src/feedhandler/UdpFeedHandler.h:115-149 | every step, receptions from a lossy, repeating, reordering network included, keeps the invariant of the whole run |
| Pipeline.UpstreamPart | src/main.cpp:42-76 | in every run of the whole, generator, queue and disseminator run as they would alone, with just their own steps |
| Pipeline.CommandPart | src/feedhandler/UdpFeedHandler.h:91-113 | and so does the command ring, so that what is proved of either holds here |
| Pipeline.ArrivalDecoded | src/feedhandler/UdpFeedHandler.h:115-149 | an arrival is delivered, exactly as it was sent, exactly when its symbol is subscribed |
| Pipeline.Causality | src/monitor/LatencyMonitor.h:33-47 | in every state of every run: each delivered message was sent, unaltered; its two times are clock readings taken at a generator's and at a disseminator's timestamp step; enqueue <= disseminate <= receive; a record that measures it holds true durations and queue + network = total; the monitor holds exactly the records of the delivered messages, in order |
| Pipeline.FilterRespected | src/feedhandler/UdpFeedHandler.h:99-151 | at every step of every run: the client is handed something exactly when a datagram arrives whose symbol is in the fold of all commands published since the receive loop was entered, up to the last the drain could see, and then the message that was sent |
| Pipeline.CommandKeepsSubscriptions | src/feedhandler/UdpFeedHandler.h:105-113 | every step of the command ring, client calls in mid-drain included, keeps the local set equal to the fold of the commands taken, and ends the drain only when none is left in sight |
| Pipeline.CurrentDrainObeysAll | src/feedhandler/UdpFeedHandler.h:107-116 | if the drain's last load was current, every command published before it is in force at the reception |
| Pipeline.SetInForce | src/feedhandler/UdpFeedHandler.h:107-131 | at every reception the set is the fold of those commands |
| ReceiverStop.ReceiverStops | src/feedhandler/UdpFeedHandler.h:104-117 | from its stop request on the receive loop takes at most 774 more steps until it has exited, and six more for each command the client still publishes: the drain does not look at the stop token |
| ReceiverStop.ReceiverNeverStuck | src/feedhandler/UdpFeedHandler.h:104-150 | and it always has a step to take until then |
| ReceiverStop.ReceiverRunsUntilStopped | src/feedhandler/UdpFeedHandler.h:104 | the loop does not end without a stop request |
| ReceiverTurns.EmptyLoop | src/feedhandler/UdpFeedHandler.h:99-104 | whenever the loop does not run it can be started, with nobody subscribed, and stopped at once |
| ReceiverTurns.EmptyDrain | src/feedhandler/UdpFeedHandler.h:105-113 | with no command waiting a drain finds that out in three steps and the loop goes on to receive |
| ReceiverTurns.DrainOne | src/feedhandler/UdpFeedHandler.h:105-113 | with commands waiting the drain takes the oldest, puts its symbol into the set or takes it out, and goes on |
| ReceiverTurns.Reception | src/feedhandler/UdpFeedHandler.h:115-150 | a datagram for a subscribed symbol goes to the client with the time of its reception, any other one nowhere, and the next turn starts |
| ReceiverTurns.DrainWithoutEnd | src/feedhandler/UdpFeedHandler.h:104-113 | with its stop requested the loop is still in the same drain after any number of commands, if the client makes a call for each one taken |
| LatencyMonitor.LatencyMonitor.OnQuote | src/monitor/LatencyMonitor.h:33-39 | appends one record, and it measures this quote: from the enqueue time its parts lead to dissemination and on to reception, and the total leads there directly, modulo 2^64 |
| LatencyMonitor.LatencyMonitor.OnTrade | src/monitor/LatencyMonitor.h:41-47 | the same for a trade |
| LatencyMonitor.LatencyMonitor.Replay | src/main.cpp:31-36 | the two callbacks over any deliveries: the vectors grow by exactly the records of their kind, in order of delivery |
| LatencyMonitor.MeasuresIff | src/monitor/LatencyMonitor.h:33-47 | there is exactly one record that measures a delivery, the one made of the three unsigned differences |
| LatencyMonitor.RecordsMeasure | src/monitor/LatencyMonitor.h:33-47 | the i-th record measures the i-th delivery of its kind, and there are no others |
| LatencyMonitor.RecordAddsUp | src/monitor/LatencyMonitor.h:33-47 | of a record that measures a delivery, the parts are the true durations exactly for causally ordered timestamps, and then add up as naturals; they add up modulo 2^64 in any case |
| LatencyMonitor.DifferenceExactIff | src/monitor/LatencyMonitor.h:35 | an unsigned difference wraps exactly when its timestamps are out of order |
| WireFormat.PayloadFields | src/utils/types.h:14-31 | where each field of Quote (48 bytes) and Trade (40 bytes, four of them padding) lies, and that they read back |
| WireFormat.WireRoundTrip | src/feedhandler/UdpFeedHandler.h:115-149 | encode, send, receive, decode: the same kind and fields exactly when the symbol is subscribed, nothing otherwise |
| WireFormat.DeliveredIsEncoding | src/feedhandler/UdpFeedHandler.h:123-149 | a datagram is delivered exactly for the two tag/length combinations and a subscribed topic, and its payload is the encoding of the delivered message |
| WireFormat.CutNeverMatters | src/feedhandler/UdpFeedHandler.h:100-117 | cutting a datagram to the receive buffer never changes what is delivered |
| WireFormat.DeliveredSymbolSubscribed | src/feedhandler/UdpFeedHandler.h:127-133 | the filter reads the topic; the delivered message's own symbol packs to the filtered id exactly when topic and payload carry the same symbol bytes |
| WireFormat.PackInjective | src/feedhandler/UdpFeedHandler.h:30-35 | two names pack to the same id exactly when they agree after padding to eight bytes |
| MarketData.NumberRoundTrip | src/utils/types.h:14-31 | little-endian numbers read back |
| MarketData.BytesRoundTrip | src/utils/types.h:14-31 | and every byte string is the encoding of its number |
| MarketData.ByteOf | src/utils/types.h:14-31 | byte i of a number is its digit i to base 256, the lowest being digit 0 |
| Disseminator.UdpDisseminator.BuildTopic | src/disseminator/IDisseminator.h:45-52 | kind, colon and symbol, whatever the buffer held before |
| Disseminator.MemCpy | src/disseminator/UdpDisseminator.h:65-66 | copies the bytes to their place and nothing else |
| Disseminator.UdpDisseminator.SendImpl | src/disseminator/UdpDisseminator.h:60-74 | what is sent is the topic followed by the payload, and only that |
| Disseminator.UdpDisseminator.RunLoop | src/disseminator/IDisseminator.h:33-58 | one datagram per popped message, in order, byte for byte: kind, colon, symbol, and the fields of that message with the clock reading of its own turn as dissemination time, although topic buffer and message are reused |
| Symbols.RemoveIf | src/generator/RandomWalkGenerator.h:88-91 | the in-place removal keeps the other bytes in order |
| Symbols.ReadLine | src/generator/RandomWalkGenerator.h:88-91 | the three removals leave the line without its white space |
| Symbols.ReadSymbolsFile | src/generator/RandomWalkGenerator.h:81-98 | the list of accepted names in file order |
| Symbols.TickersExactly | src/generator/RandomWalkGenerator.h:87-95 | a name is in the list exactly when it is one to eight bytes long and some line without its white space; it contains no white space |
| Symbols.StripKeepsTheRest | src/generator/RandomWalkGenerator.h:88-91 | exactly the six white-space bytes go; every other byte stays as often as it was |
| Symbols.StrNCpy | src/generator/RandomWalkGenerator.h:53 | copies up to the terminator, zero-fills to the count, leaves the rest |
| Symbols.SymbolField | src/generator/RandomWalkGenerator.h:52-53 | the published symbol is the first seven bytes of the name, zero-padded to eight |
| Symbols.FilterExact | src/feedhandler/UdpFeedHandler.h:127-133 | a message generated for s passes the filter of t exactly when the first seven bytes of s are the first eight of t, for NUL-free names of any length |
| Symbols.ReachesOwnSubscriptionIff | src/generator/RandomWalkGenerator.h:53-93 | up to seven bytes: passes exactly for t = s; an eight-byte ticker, which the reader accepts, passes exactly for its seven-byte prefix and so never reaches its own subscription |
| FeedHandler.UdpFeedHandler.Subscribe | src/feedhandler/UdpFeedHandler.h:91-93 | queues the command, or drops it silently when 128 are outstanding |
| FeedHandler.UdpFeedHandler.Unsubscribe | src/feedhandler/UdpFeedHandler.h:95-97 | the same for unsubscribing |
| FeedHandler.UdpFeedHandler.Drain | src/feedhandler/UdpFeedHandler.h:105-113 | empties the command queue; the set becomes the fold of the commands, in order |
| FeedHandler.UdpFeedHandler.ReceiveLoop | src/feedhandler/UdpFeedHandler.h:99-151 | over any turns, the client calling before each: delivers, in order, exactly the receptions that decode under the fold of all commands accepted up to their turn |
| FeedHandler.UdpFeedHandler.TakeTurn | src/feedhandler/UdpFeedHandler.h:104-149 | one turn: the set becomes the fold of the waiting commands and of as many of the new calls as fit, and the datagram is delivered exactly if it decodes under that |
| FeedHandler.SilentClient | src/feedhandler/UdpFeedHandler.h:104-113 | with no calls while the loop runs, just the commands queued before it decide |
| FeedHandler.LastCommandWins | src/feedhandler/UdpFeedHandler.h:107-113 | whether a symbol is in the set is decided by the last command about it |
| FeedHandler.UnmentionedKept | src/feedhandler/UdpFeedHandler.h:107-113 | and symbols not mentioned keep their status |
| FeedHandler.SubscribeAll | src/main.cpp:48-60 | counts every accepted ticker, but with no drain meanwhile only the first 128 commands get into the queue |
| FeedHandler.EndToEnd | src/feedhandler/UdpFeedHandler.h:127-149 | from ticker to client: a generated message is delivered whole exactly when the first seven bytes of its ticker are among the (eight-byte) subscribed names |
| SubscriptionLog.SetFollowsQueue | src/feedhandler/UdpFeedHandler.h:99-113 | client and receiver side by side on the command ring, stale loads included: in every state the local set is the fold, in order, of the commands popped since the loop was entered |
| SubscriptionLog.SetAfterDrain | src/feedhandler/UdpFeedHandler.h:105-113 | a drain ends with the set being the fold of all that was accepted up to the `write_` it saw; of all that was accepted by then, if that load was current |
| SubscriptionLog.AcceptedOfIssued | src/feedhandler/UdpFeedHandler.h:91-97 | accepted and pending commands are a subsequence of the issued ones, and the rest was refused |
| SubscriptionLog.AllAcceptedIff | src/feedhandler/UdpFeedHandler.h:91-97 | no issued command is lost exactly when no call loaded a `read_` a full 128 behind `write_` |
| SubscriptionLog.RefusalPossibleIff | src/feedhandler/UdpFeedHandler.h:91-97 | a call can be refused exactly when 128 commands are outstanding as far as the client has seen, and only by a load that shows nothing newer |
| SubscriptionLog.AllAcceptedIffFresh | src/feedhandler/UdpFeedHandler.h:91-97 | with current loads, no issued command is lost exactly when no call was made with 128 outstanding |
| SubscriptionLog.OneHundredAndTwentyNine | src/feedhandler/UdpFeedHandler.h:91-97 | the run of 129 calls whose last is lost, all loads current |
| SubscriptionLog.LostOnAnEmptyQueue | src/feedhandler/UdpFeedHandler.h:91-97 | the run in which a call made on an empty queue is lost to a stale load |

## Left out

- CustomSpscQueues.CustomSpscQueue.Push: for a capacity that does not divide 2^64 (none in use is one) only up to 2^64 pushes; after that `IndexSurvivesWrapIff` says that slots are confused. The step machines are for capacities from 1.
- BaseGenerator.BaseGenerator.GenerationLoop: takes one session's clock readings, and how many messages the consumer takes before each attempt to push, as arguments; the consumer's own steps inside an attempt are in `LoopsOverQueue`.
- FeedHandler.UdpFeedHandler.ReceiveLoop: takes what recvfrom returned as an argument, and the client's calls of a turn come before its drain; calls in mid-drain are in `SubscriptionLog` and `Pipeline`.
- EmptyCheck.EmptyReadFirst, EmptyCheck.EmptyWriteFirst: say nothing of a third thread's stale loads, which can be arbitrarily old.
- StopWakeUp.StrandedIffWindow: says which states have a way back, not that a fair scheduler takes it; the bound over all schedules is `StopExits`.
- The two wrappers are step machines and not classes: run by one thread alone, their loops would have nothing to wait for.
- The C++ memory model beyond release/acquire loads of the two ring counters and, for the wrappers, sequential consistency; moved-from elements count as live until destroyed.
- `Pipeline` and `StopTerminates` are over `Upstream`, whose queue is one atomic step; starts and stops may come in any order there, of which run_benchmark_pipeline uses one.
- A rate set while a session runs: it would race with the running thread.
- A client that has set no callback gets no deliveries and no receive timestamp; the model's client has both set.
- Prices and sizes are whatever the random walk yields; a price is the 64 bits of its double. Byte order and struct layout are those of x86-64.
- `isspace` is that of the C locale, on bytes.
- Sockets, errno, multicast options, command line, logging, CSV files and directories.
- ZmqDisseminator and ZmqFeedHandler: the library does the work.
- boost::lockfree::spsc_queue is not part of this model.
- MarketDataGenerator is commented out in the repository; the Python scripts only plot.
