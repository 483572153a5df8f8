# WellsL4 and its QP/C framework: verified model

A Dafny model of the parts of the WellsL4 repository in which a small mistake would be
hard to see: the event processor, timers, event memory, queues, schedulers and trace
protocol of the vendored QP/C framework (`libqp`), and the thread queues and time
conversion of the microkernel (`wellsl4`).

| files | what they model |
|---|---|
| HsmChart, Hsm | hierarchical state machines: what one run-to-completion step must do, and `qep_hsm.c` doing it |
| TimerSpec, TimeEvt | time events: two lists with lazy unlinking as a map of down-counters, and `qf_time.c` on pointers |
| EventQueue, MemPool | the native event queue (`qf_qeq.c`) and memory pool (`qf_mem.c`) |
| RefSpec, RefCount, Publish | reference counting over `qf_dyn.c`, `qf_actq.c`, `qf_defer.c` and `qf_ps.c`, on those queues and pools |
| PrioSet, QkSpec, Qk | the priority bit set and the preemptive QK kernel |
| MutexSpec, QxkMutex | the priority-ceiling mutex of QXK, on bit sets and the `QF_active_` table |
| QsFrame, QsTrace, QsRx | QS framing, the transmit ring, the receive channel |
| LinkSpec, ThreadSpec, ThreadQueues | ready queues, two-level bitmap and release queue of `thread.h` |
| TimeConv | `tmcvt` of `time.h` |
| Basics, Arith, ListSpec | shared notions, division facts, singly linked lists |

How the source is read:

- Where the source mutates an object there is a class with those fields; each method is
  proved to be a step of a specification on values (`...Spec`, `HsmChart`, `QsFrame`), and
  what every run keeps is proved of the specification.
- What the steps of a specification amount to is stated once more without them: from the
  answers of the state handlers, the list of calls, the bytes on the wire, the frequencies.
- A critical section is one atomic step. Runs are arbitrary lists of steps, so they
  include every interleaving of interrupts, threads and the tick scan.
- `Q_ASSERT` is an `assert` or a proved postcondition, `Q_REQUIRE` a `requires`.
- A pointer to a time event, event or thread is an identifier, and a map holds the
  structs; a state handler function is a state identifier, and what a handler answers
  during one step is a parameter. A machine word used as a set is a sequence of bits.
- State handlers are assumed well formed as the framework demands: the empty signal
  yields the one superstate, entry and exit never take a transition, an initial
  transition goes to a proper substate, nesting is at most six levels including top.

Properties that turned out false of the code are stated as such, with the exact
condition under which they hold:

- `QF_noTimeEvtsActiveX` is documented as "no time event armed" (`qf_time.c`), but the code
  answers "none linked". At any moment of any run the two are the same iff something is
  armed, or no event has been armed since the tick scan last passed it
  (TimerSpec.AnswerIsRightIff from start-up, TimerSpec.InterleavedAnswerIsRightIff after any
  tick from any state). Failing runs are TimerSpec.DisarmedStaysLinked, between ticks, and
  TimerSpec.DisarmedDuringTick, between two critical sections of a tick.
- The margins of the event queue and of the memory pool are truncated to the counter type
  before they are compared (EventQueue.AcceptsMeansMoreThanMargin,
  MemPool.GrantsMeansMoreThanMargin).
- The block size of a pool is rounded up in the type `QMPoolSize`: the loop ends iff the
  truncated size plus one link fits (MemPool.RoundingEnds), and gives the right size iff the
  requested one does (MemPool.RoundingIsExact). The block counter is exact iff the blocks
  can be counted in its type (MemPool.QMPool.constructor).
- The 8-bit reference counter wraps silently; counting stays exact iff it is below 255
  (RefSpec.EnqueueKeepsInv, RefSpec.WrappedCounterRecyclesTooEarly).
- A QS record identifier and the characters of a string are not escaped; a record is
  received as itself iff none of them is 0x7D or 0x7E, in a string `}` or `~`
  (QsFrame.RecordRoundTripIff, QsTrace.ElementsRoundTripIff, QsTrace.BraceIsMisread).
- The byte counter of the QS ring can wrap before the end of a record sees the overrun; the
  ring is in order afterwards iff it did not wrap, or still shows more than a full ring, or
  shows exactly a full ring when tail and head meet (QsTrace.Tx.EndRec,
  QsTrace.CounterWraps).
- The 32-bit form of an integer-ratio time conversion truncates before it divides. For a
  32-bit number it is exact iff adding the rounding offset stays within 32 bits
  (TimeConv.Exact32OfWord); otherwise a timeout can be short
  (TimeConv.EarlyTruncationIsShort).

## Model

| member | source | states |
|---|---|---|
| HsmChart.ClimbMeetsContainers | libqp/src/qf/qep_hsm.c:489-536 | the superstates met on the way to top are exactly the states that contain the start |
| HsmChart.LcaIsDeepest | libqp/src/qf/qep_hsm.c:447-579 | the state at which the transition search ends is the unique deepest common container of source and target |
| HsmChart.StepKeepsConfiguration | libqp/src/qf/qep_hsm.c:296-425 | the signals of one event turn the active configuration of the old state into that of the new state; no inactive state is exited and none entered before its superstate |
| HsmChart.StartEntersConfiguration | libqp/src/qf/qep_hsm.c:189-232 | the top-most initial transition enters the configuration of the state it ends in |
| HsmChart.SourceIsFirstToDecide | libqp/src/qf/qep_hsm.c:296-310 | the state that handles an event is the first one, going up, whose handler answers neither "super" nor "unhandled" |
| HsmChart.DrillFollowsInit | libqp/src/qf/qep_hsm.c:360-390 | below its target a transition follows the initial transitions to their end; exactly the states on that path get Init and exactly those between are entered |
| HsmChart.DomainIsKept | libqp/src/qf/qep_hsm.c:447-579 | a transition leaves alone exactly the states that contain both source and target, and not the state itself when it goes to itself |
| HsmChart.StepTouches | libqp/src/qf/qep_hsm.c:274-426 | the whole effect of one event from the answers alone: who is asked, where the machine ends, which states are exited and which are entered |
| HsmChart.RunKeepsConfiguration | libqp/src/qf/qep_hsm.c:161-425 | after any initialization and any events, the states entered and not yet exited are exactly the active state and its superstates below top |
| HsmChart.NothingSentTwice | libqp/src/qf/qep_hsm.c:161-426 | within one step, and within initialization, no handler is sent the same signal twice, so a table of answers stands for any handlers |
| Hsm.QHsm.constructor | libqp/src/qf/qep_hsm.c:133-144 | state is top and temp the initial pseudostate |
| Hsm.QHsm.FillPath | libqp/src/qf/qep_hsm.c:193-201 | the path array receives the states from the target up to, but excluding, the source, never outside its six slots (assertion 220), and temp is restored |
| Hsm.QHsm.EnterPath | libqp/src/qf/qep_hsm.c:352-354 | the recorded path is entered in reverse order |
| Hsm.QHsm.ExitToSuper | libqp/src/qf/qep_hsm.c:323-330 | after an exit signal temp is the superstate whether or not the handler had an exit action |
| Hsm.QHsm.ClimbTarget | libqp/src/qf/qep_hsm.c:489-512 | case (e): the source is found on the target's superstate chain iff it is there, and the path holds that chain; assertion 510 |
| Hsm.QHsm.ScanPath | libqp/src/qf/qep_hsm.c:525-536 | the downward scan finds a state iff it contains the target, and cuts the path to the part below it |
| Hsm.QHsm.ClimbSource | libqp/src/qf/qep_hsm.c:515-573 | cases (f) and (g): exits the source up to the least common ancestor and leaves exactly the entry path below it; assertion 520 |
| Hsm.QHsm.TranFar | libqp/src/qf/qep_hsm.c:486-574 | cases (e) to (g) together |
| Hsm.QHsm.Transit | libqp/src/qf/qep_hsm.c:447-579 | all seven cases equal one rule: exit from the source up to the transition domain, return the path from the target up to it |
| Hsm.QHsm.ExitToSource | libqp/src/qf/qep_hsm.c:322-331 | exits from the active state up to the transition source, innermost first |
| Hsm.QHsm.EnterBelow | libqp/src/qf/qep_hsm.c:368-387 | enters everything below a state down to the target of its initial transition; assertion 410 |
| Hsm.QHsm.DrillDown | libqp/src/qf/qep_hsm.c:360-390 | follows initial transitions to the leaf; terminates because each goes deeper |
| Hsm.QHsm.Bubble | libqp/src/qf/qep_hsm.c:296-310 | the event is offered up the hierarchy until a state does not pass it on |
| Hsm.QHsm.TakeTransition | libqp/src/qf/qep_hsm.c:313-399 | exits, entries and initial transitions of a taken transition are those of the specification, in order |
| Hsm.QHsm.Dispatch | libqp/src/qf/qep_hsm.c:274-426 | one run-to-completion step sends exactly the specified signals, ends in the specified state, and leaves temp equal to state |
| Hsm.QHsm.Start | libqp/src/qf/qep_hsm.c:161-233 | the same of the top-most initial transition |
| Hsm.QHsm.Run | libqp/src/qf/qep_hsm.c:161-426 | one start and any number of dispatches keep the active configuration |
| Hsm.QHsm.IsIn | libqp/src/qf/qep_hsm.c:602-623 | true iff the state is active or contains the active state; temp is restored |
| Hsm.QHsm.ChildState | libqp/src/qf/qep_hsm.c:648-677 | finds the direct substate that leads to the active state iff the given state contains it; temp is restored |
| Hsm.NearDomains | libqp/src/qf/qep_hsm.c:458-484 | what cases (a) to (d) exit and enter agrees with the general rule |
| TimerSpec.ApplyKeepsInv | libqp/src/qf/qf_time.c:95-174 | no interleaving of arm, disarm and rearm with the scan breaks the lists: disjoint, without repetition, every armed event linked |
| TimerSpec.ScanHandlesNext | libqp/src/qf/qf_time.c:95-172 | one pass of the loop handles exactly the next pending event: counter, posting, unlinking |
| TimerSpec.HandledAtMostOnce | libqp/src/qf/qf_time.c:83-175 | during a scan with arbitrary calls for other events in between, an event waits untouched, is handled once, and is then left alone |
| TimerSpec.InterleavedTick | libqp/src/qf/qf_time.c:83-175 | over a complete interleaved tick an untouched event is ticked exactly once and posted exactly when it expires |
| TimerSpec.TickIsPointwise | libqp/src/qf/qf_time.c:83-175 | an atomic tick is a pointwise update of the map of down-counters and posts each expiring event once |
| TimerSpec.TickLeavesExactlyArmed | libqp/src/qf/qf_time.c:115-172 | right after a tick without interleaving the lists hold exactly the armed events |
| TimerSpec.DisarmedStaysLinked | libqp/src/qf/qf_time.c:205-218 | an event armed and disarmed again stays linked, so "nothing linked" is stronger than "nothing armed" |
| TimerSpec.AnswerIsRightIff | libqp/src/qf/qf_time.c:190-218 | from start-up, at any moment of any run, in the middle of a scan or not, "nothing linked" equals "nothing armed" iff something is armed, or no event has been armed since the scan last passed it |
| TimerSpec.InterleavedAnswerIsRightIff | libqp/src/qf/qf_time.c:190-218 | the same after any tick, whatever calls came between its critical sections and after it, from any state |
| TimerSpec.AtomicAnswerIsRightIff | libqp/src/qf/qf_time.c:190-218 | after a tick without interleaving and any calls, the answer is right iff something is armed, or nothing was armed after the tick and only disarm was called |
| TimerSpec.DisarmedDuringTick | libqp/src/qf/qf_time.c:165-176 | an event disarmed between two critical sections of a tick, behind the scan, is still linked when the tick is complete and nothing is armed |
| TimerSpec.FiresOnSchedule | libqp/src/qf/qf_time.c:83-175 | an event left alone is posted at exactly the ticks its counter and interval say, whatever happens to others |
| TimerSpec.ArmedFiresOnSchedule | libqp/src/qf/qf_time.c:297-353 | armed with n it fires on exactly the n-th tick, then every interval ticks, or never again if one-shot, also when re-armed while still linked |
| TimerSpec.RearmedFiresOnSchedule | libqp/src/qf/qf_time.c:436-495 | rearmed with n, whatever its counter was, it fires on exactly the n-th tick from then and goes on at its interval |
| TimerSpec.DisarmedThenRearmed | libqp/src/qf/qf_time.c:374-495 | the interval survives a disarm |
| TimerSpec.DisarmedNeverFires | libqp/src/qf/qf_time.c:374-413 | a disarmed event is not posted any more |
| TimerSpec.InterleavedFiresOnSchedule | libqp/src/qf/qf_time.c:83-175 | the schedule holds with calls for other events between all critical sections of every tick |
| TimerSpec.ArmedDuringScan | libqp/src/qf/qf_time.c:297-353 | an event armed in the middle of a scan counts the current tick iff the scan has not passed it, and fires on the schedule that follows from it |
| TimerSpec.RearmedDuringScan | libqp/src/qf/qf_time.c:436-495 | the same of an event rearmed in the middle of a scan |
| TimeEvt.TickRate.constructor | libqp/src/qf/qf_time.c:80-95 | empty lists, scan pointer at the head |
| TimeEvt.TickRate.Arm | libqp/src/qf/qf_time.c:297-353 | links the event if it is not linked and sets counter and interval; represents the specified step |
| TimeEvt.TickRate.Disarm | libqp/src/qf/qf_time.c:374-413 | clears the counter, keeps the link, reports whether it was armed |
| TimeEvt.TickRate.Rearm | libqp/src/qf/qf_time.c:436-495 | reloads the counter whether or not it was running, linking if necessary, reports whether it was armed and keeps the disarm mark |
| TimeEvt.TickRate.NoTimeEvtsActive | libqp/src/qf/qf_time.c:205-218 | answers whether nothing is linked, which implies that nothing is armed |
| TimeEvt.TickRate.Advance | libqp/src/qf/qf_time.c:96-113 | at the end of the main list the freshly armed list is appended, otherwise the next node is found |
| TimeEvt.TickRate.UnlinkNext | libqp/src/qf/qf_time.c:116-119 | the node after prev is unlinked and marked |
| TimeEvt.TickRate.ScanStep | libqp/src/qf/qf_time.c:95-172 | one pass of the scan loop on pointers is the specified step; prev stays the head or a node of the main list |
| TimeEvt.TickRate.Tick | libqp/src/qf/qf_time.c:80-176 | the whole scan terminates and is the specified tick |
| TimeEvt.UnlinkRepresents | libqp/src/qf/qf_time.c:116-119 | taking a node out by prev->next keeps both pointer lists faithful |
| TimeEvt.SpliceRepresents | libqp/src/qf/qf_time.c:101-109 | appending the freshly armed list by one store keeps both pointer lists faithful |
| EventQueue.AcceptsMeansMoreThanMargin | libqp/src/qf/qf_qeq.c:130-133 | a post succeeds iff more than margin slots are free, exactly unless the margin exceeds the counter type and truncation lets the event in; without a margin iff any slot is free |
| EventQueue.TruncatedMarginAccepts | libqp/src/qf/qf_qeq.c:130-133 | a margin of 256 with 8-bit counters is accepted with two free slots |
| EventQueue.QEQueue.constructor | libqp/src/qf/qf_qeq.c:72-84 | an empty deque of capacity qLen + 1, also for qLen = 0 |
| EventQueue.QEQueue.Post | libqp/src/qf/qf_qeq.c:115-190 | appends iff accepted; the free count and low-water mark stay exact |
| EventQueue.QEQueue.PostLifo | libqp/src/qf/qf_qeq.c:215-263 | prepends |
| EventQueue.QEQueue.Get | libqp/src/qf/qf_qeq.c:284-331 | removes the front; assertion 410 holds |
| MemPool.BlocksApart | libqp/src/qf/qf_mem.c:117-134 | blocks do not overlap |
| MemPool.RoundUpIsLeast | libqp/src/qf/qf_mem.c:105-112 | the block size is the least multiple of the link size that is large enough |
| MemPool.RoundingEnds | libqp/src/qf/qf_mem.c:105-112 | the rounding loop ends iff the truncated size leaves room for one more link in QMPoolSize |
| MemPool.RoundingIsExact | libqp/src/qf/qf_mem.c:105-112 | it gives the least sufficient multiple iff the requested size leaves that room |
| MemPool.RoundingFails | libqp/src/qf/qf_mem.c:105-112 | with 16 bits and 4-byte links the loop never ends for 65534, and 65540 gives blocks of 4 bytes |
| MemPool.RoundBlock | libqp/src/qf/qf_mem.c:105-112 | when the loop ends, it has computed the least sufficient multiple of the truncated size, and the number of links in it |
| MemPool.ChainBlocks | libqp/src/qf/qf_mem.c:117-134 | the initialization loop chains exactly poolSize / blockSize blocks; the counter says so iff its type can |
| MemPool.GrantsMeansMoreThanMargin | libqp/src/qf/qf_mem.c:223-224 | a block is handed out iff more than margin are free, exactly unless the margin exceeds the counter type and truncation lets the request through |
| MemPool.QMPool.constructor | libqp/src/qf/qf_mem.c:89-135 | all blocks are free and linked in address order; the pool is in order iff the blocks can be counted |
| MemPool.QMPool.Get | libqp/src/qf/qf_mem.c:213-279 | hands out the first free block, not one already taken, iff more than the truncated margin are free; free and taken partition the pool; assertions 310, 320 and 330 hold |
| MemPool.QMPool.Put | libqp/src/qf/qf_mem.c:159-182 | returns a taken block to the front of the free list; the partition is kept |
| MemPool.QMPool.Write | libqp/src/qf/qf_mem.c:213-279 | whatever a client writes into a block it holds does not disturb the free list |
| PrioSet.Log2 | libqp/src/qf/qf_act.c:156-184 | the halving search with its 16-entry table returns the number of the highest bit set |
| PrioSet.QPSet.constructor | libqp/include/qpset.h:113-116 | the empty set |
| PrioSet.QPSet.IsEmpty | libqp/include/qpset.h:120-123 | both words are zero iff no element |
| PrioSet.QPSet.HasElement | libqp/include/qpset.h:133-136 | membership of 1..64 |
| PrioSet.QPSet.Insert | libqp/include/qpset.h:139-146 | adds exactly the element |
| PrioSet.QPSet.Remove | libqp/include/qpset.h:149-156 | removes exactly the element |
| PrioSet.FindMax | libqp/include/qpset.h:161-164 | the greatest element, or 0 |
| RefSpec.NewKeepsInv | libqp/src/qf/qf_dyn.c:164-217 | a new event comes from the free blocks with counter 0 |
| RefSpec.EnqueueKeepsInv | libqp/src/qf/qf_actq.c:131-212 | counting a post keeps every counter equal to queue occurrences plus holders iff the 8-bit counter does not wrap |
| RefSpec.HoldKeepsInv | libqp/src/qf/qf_dyn.c:306-329 | the same for an explicit reference |
| RefSpec.DequeueKeepsInv | libqp/src/qf/qf_actq.c:326-371 | the reference moves from the queue to the caller, no count changes |
| RefSpec.GcKeepsInv | libqp/src/qf/qf_dyn.c:243-289 | an event is recycled exactly with its last reference, into the pool it came from |
| RefSpec.QueuedIsNotFree | libqp/src/qf/qf_dyn.c:243-289 | a recycled block is never reachable from a queue |
| RefSpec.StepKeepsInv | libqp/src/qf/qf_dyn.c:164-353 | every critical section keeps the counters exact and other code's references |
| RefSpec.StepKeepsHeldLive | libqp/src/qf/qf_dyn.c:243-289 | no step recycles an event somebody else holds |
| RefSpec.RunConservesBlocks | libqp/src/qf/qf_dyn.c:164-289 | over every run the free and allocated blocks of a pool are the same set |
| RefSpec.RunKeepsQueued | libqp/src/qf/qf_actq.c:131-371 | what is in a queue stays there, alive, until its owner takes it |
| RefSpec.RunIsFifo | libqp/src/qf/qf_actq.c:131-371 | over every run that does not post to its front a queue is first in, first out |
| RefSpec.LifoIsNext | libqp/src/qf/qf_actq.c:235-302 | an event posted to the front is the next one taken, and then the queue is as before |
| RefSpec.RecallSeesTwoReferences | libqp/src/qf/qf_defer.c:127-145 | the "at least 2" assertion of recall holds whatever runs in between |
| RefSpec.RtcStepKeepsInv | libqp/src/qv/qv.c:153-167 | take, dispatch with arbitrary effects, collect: the event stays alive through the step and the counters stay exact |
| RefSpec.InterleavedPublish | libqp/src/qf/qf_ps.c:131-185 | a publication with any other steps between its deliveries: the event stays alive to the last delivery, the counters stay exact, and the collection recycles it iff no reference is left |
| RefSpec.FailedPostIsHarmless | libqp/src/qf/qf_actq.c:131-212 | a failed post recycles an event never posted before and leaves every other state unchanged |
| RefSpec.WrappedCounterRecyclesTooEarly | libqp/src/qf/qf_dyn.c:243-289 | at 255 references the next post and collection recycle an event that is still queued |
| RefSpec.RecallKeepsInv | libqp/src/qf/qf_defer.c:119-170 | recall keeps the counters exact |
| RefSpec.RecallMovesEvent | libqp/src/qf/qf_defer.c:119-170 | recall moves the event and ends with the counter where it was |
| RefCount.FindPool | libqp/src/qf/qf_dyn.c:171-178 | the search finds the smallest sufficient block size, or none |
| RefCount.EventSystem.constructor | libqp/src/qf/qf_dyn.c:113-135 | a system of empty queues and full pools is in order |
| RefCount.EventSystem.New | libqp/src/qf/qf_dyn.c:164-217 | succeeds iff the pool grants the margin, and then hands out one of its free blocks |
| RefCount.EventSystem.Gc | libqp/src/qf/qf_dyn.c:243-289 | is the specified collection of an event that is not free, on the pool the event came from; assertion 410 holds |
| RefCount.EventSystem.NewRef | libqp/src/qf/qf_dyn.c:306-329 | adds a counted reference |
| RefCount.EventSystem.DeleteRef | libqp/src/qf/qf_dyn.c:341-353 | gives it back |
| RefCount.EventSystem.Post | libqp/src/qf/qf_actq.c:95-215 | appends iff the ring of the queue accepts the margin, otherwise collects the event again |
| RefCount.EventSystem.PostLifo | libqp/src/qf/qf_actq.c:235-302 | prepends |
| RefCount.EventSystem.Get | libqp/src/qf/qf_actq.c:326-371 | takes the front event |
| RefCount.EventSystem.Defer | libqp/src/qf/qf_defer.c:78-95 | appends to the deferred queue iff it has room |
| RefCount.EventSystem.Recall | libqp/src/qf/qf_defer.c:119-170 | the oldest deferred event moves to the front of the object's queue, everything else stays; assertion 210 holds |
| RefCount.EventSystem.FlushDeferred | libqp/src/qf/qf_defer.c:188-201 | empties the deferred queue, returns how many there were, keeps all counters exact; of the deferred events exactly those with another reference may be left alive, and no other event is touched |
| Publish.Multicast | libqp/src/qf/qf_ps.c:152-179 | each subscriber's queue gets the event exactly once, highest priority first, and no other queue changes |
| Publish.Publish | libqp/src/qf/qf_ps.c:121-186 | the same with the protecting reference and the final collection: a dynamic event is left alive iff somebody had a reference or there is a subscriber |
| QkSpec.ActivePrioritiesIncrease | libqp/src/qk/qk.c:359-438 | nested activations run at strictly increasing priorities |
| QkSpec.SchedFindsRunnable | libqp/src/qk/qk.c:329-347 | what the scheduler finds is the maximum of the ready set, above the active priority and the lock ceiling, not mid-step, with an event to take |
| QkSpec.TopHasEvent | libqp/src/qk/qk.c:404-412 | the activated object finds an event, so QActive_get_ does not assert |
| QkSpec.FinishKeepsInv | libqp/src/qk/qk.c:417-438 | after a step the next eligible object runs, or the preempted priority is restored with nothing ready above it and the ceiling |
| QkSpec.UnlockKeepsInv | libqp/src/qk/qk.c:280-312 | unlocking brings back the outer status; precondition 700 holds |
| QkSpec.StepKeepsInv | libqp/src/qk/qk.c:230-438 | every section keeps stack, ready set, queues and lock brackets consistent, and leaves no ready object waiting that is above both what runs and the lock ceiling |
| QkSpec.StartedIsHighest | libqp/src/qk/qk.c:329-438 | whatever starts is the highest-priority ready object, above what it preempts and above every open ceiling |
| QkSpec.NothingStartsUnderLock | libqp/src/qk/qk.c:230-312 | while a scheduler lock is held, nothing at or below its ceiling starts, however interrupts and higher priorities come in between |
| QkSpec.NothingStartsInIsr | libqp/include/qk.h:179-186 | while a run stays inside interrupts, nested or not, nothing starts |
| QkSpec.PublishIsNotInterrupted | libqp/src/qf/qf_ps.c:156-179 | no subscriber's step starts between the first and the last delivery, whether an object publishes under the scheduler lock or an interrupt without it |
| QkSpec.BalancedLocksRestore | libqp/src/qk/qk.c:230-312 | a run that closes exactly the brackets it opened restores lock priority and lock holder, whatever else it did |
| QkSpec.UnlockUndoesLock | libqp/src/qk/qk.c:230-312 | locking changes the lock status only, to the caller and its ceiling iff that is higher, and unlocking right away brings back the very state before |
| QkSpec.CeilingIsHighestOpen | libqp/src/qk/qk.c:230-312 | over any run the lock ceiling is the highest ceiling asked for by the brackets the run has opened and not closed |
| QkSpec.HolderOpenedBracket | libqp/src/qk/qk.c:230-312 | over any run the lock holder is the object whose activation opened the bracket that sets the ceiling |
| QkSpec.PostRunsAtOnceIff | libqp/include/qk.h:179-186 | outside interrupts the object posted to runs at once iff it is above both what runs and the lock ceiling; otherwise what runs goes on |
| QkSpec.RunCounts | libqp/src/qk/qk.c:359-438 | over any run what waits in a queue is what was posted to it and not taken, and interrupts nest as they were entered and left |
| QkSpec.RunActivates | libqp/src/qk/qk.c:359-438 | over any run each start of an object takes exactly one event |
| QkSpec.InitialInv | libqp/src/qk/qk.c:115-151 | the state after start-up holds what was posted, unlocked, with nothing eligible waiting |
| QkSpec.PackIsFaithful | libqp/src/qk/qk.c:240-258 | the packed status never equals the "not locked" value 0xFF and unpacks exactly |
| QkSpec.StatusIsFaithful | libqp/src/qk/qk.c:280-312 | the status tells raised brackets from others and returns what was saved |
| Qk.Kernel.constructor | libqp/src/qk/qk.c:72-122 | nothing ready, scheduler unlocked |
| Qk.Kernel.Sched | libqp/src/qk/qk.c:329-347 | finds the highest ready object if it is above both what runs and the ceiling, and nothing only if no ready object is; assertion 410 holds |
| Qk.Kernel.Activate | libqp/src/qk/qk.c:359-382 | with the object the scheduler found on top of the activations nothing eligible is left waiting and all invariants hold again; precondition 500 holds |
| Qk.Kernel.Post | libqp/include/qk.h:179-186 | an empty queue becoming non-empty makes the object ready and, outside interrupts, run at once iff it is above both what runs and the ceiling |
| Qk.Kernel.IsrExit | libqp/ports/lint-plus/qk/qk_port.h:84-92 | a nested interrupt leaves scheduling to the outermost one, which then leaves nothing eligible waiting |
| Qk.Kernel.SchedLock | libqp/src/qk/qk.c:230-262 | raises the ceiling iff it is higher and returns the packed old status |
| Qk.Kernel.SchedUnlock | libqp/src/qk/qk.c:280-312 | restores from the packed status and reschedules |
| Qk.Kernel.Take | libqp/src/qk/qk.c:404-412 | the activated object takes one event |
| Qk.Kernel.Finish | libqp/src/qk/qk.c:417-438 | is the specified end of the loop body |
| MutexSpec.MutualExclusion | libqp/src/qxk/qxk_mutex.c:134-246 | no two threads are inside a mutex; the one inside is the holder, lockNest times |
| MutexSpec.DynPrioUnique | libqp/src/qxk/qxk_mutex.c:162-187 | dynamic priorities identify threads |
| MutexSpec.ReadyIsExact | libqp/src/qxk/qxk_mutex.c:134-472 | the ready set is exactly the dynamic priorities of the threads that are not blocked |
| MutexSpec.RunningIsUnblocked | libqp/src/qxk/qxk_mutex.c:149-157 | a thread the kernel lets run is not blocked on any object, the last part of precondition 200 |
| MutexSpec.AcquireKeepsInv | libqp/src/qxk/qxk_mutex.c:162-187 | locking a free mutex; assertion 210 holds |
| MutexSpec.NestKeepsInv | libqp/src/qxk/qxk_mutex.c:189-195 | nested locking by the holder |
| MutexSpec.BlockKeepsInv | libqp/src/qxk/qxk_mutex.c:196-223 | blocking; assertions 230 and 240 hold |
| MutexSpec.ResumeKeepsInv | libqp/src/qxk/qxk_mutex.c:225-242 | a suspended call goes on only because the thread is ready again; then it is off the waiting set, is the holder, and assertions 240 and 250 hold |
| MutexSpec.UnnestKeepsInv | libqp/src/qxk/qxk_mutex.c:468-470 | an inner unlock |
| MutexSpec.ReleaseKeepsCore | libqp/src/qxk/qxk_mutex.c:386-399 | the last unlock restores the caller's priority and frees the ceiling slot |
| MutexSpec.HandOverKeepsCore | libqp/src/qxk/qxk_mutex.c:408-446 | handing over to a waiter; assertion 410 holds |
| MutexSpec.UnlockKeepsInv | libqp/src/qxk/qxk_mutex.c:358-472 | the last unlock hands over to the highest-priority waiter, or frees the mutex |
| MutexSpec.LockCounts | libqp/src/qxk/qxk_mutex.c:134-223 | a lock returns at once, one level deeper, iff the mutex is free or the caller's; otherwise the caller is not inside and waits |
| MutexSpec.ResumeCounts | libqp/src/qxk/qxk_mutex.c:225-242 | a lock that blocked returns one level deeper |
| MutexSpec.UnlockCounts | libqp/src/qxk/qxk_mutex.c:358-472 | an unlock takes one level away, and the mutex changes hands only with the last |
| MutexSpec.StepKeepsInv | libqp/src/qxk/qxk_mutex.c:134-472 | every step keeps the whole invariant: holder iff lockNest > 0, holder not waiting, ceiling slot, ready set, no idle waiters |
| MutexSpec.RunCounts | libqp/src/qxk/qxk_mutex.c:134-472 | over any run a thread's claims on a mutex change by its lock calls minus its unlock calls, however it nested, blocked and was handed the mutex |
| MutexSpec.RunCountsNesting | libqp/src/qxk/qxk_mutex.c:134-472 | so a running thread is the holder iff it locked more often than it unlocked, nested by the difference |
| MutexSpec.RunKeepsMutualExclusion | libqp/src/qxk/qxk_mutex.c:134-472 | mutual exclusion after any run |
| QxkMutex.Kernel.Init | libqp/src/qxk/qxk_mutex.c:87-111 | a free mutex with the given ceiling, in the ceiling's slot of the table; the invariant is kept |
| QxkMutex.Kernel.Lock | libqp/src/qxk/qxk_mutex.c:134-246 | is the specified step on bit sets and tables, and returns at once iff the mutex is free or already held by the caller |
| QxkMutex.Kernel.Resume | libqp/src/qxk/qxk_mutex.c:225-242 | is the specified step; the second assertion 240 and assertion 250 hold |
| QxkMutex.Kernel.Unlock | libqp/src/qxk/qxk_mutex.c:358-472 | is the specified step on bit sets and tables |
| QsFrame.FeedEscapeAll | libqp/src/qs_pkg.h:221-230 | escaped bytes are received as themselves, complete no frame and contain no flag |
| QsFrame.ContentSumsToGood | libqp/src/qs/qs.c:403-420 | the bytes of a record with its check byte sum to 0xFF |
| QsFrame.SumIsTotal | libqp/src/qs_pkg.h:221-230 | the checksum is the sum of all bytes modulo 256 |
| QsFrame.ChangedByteIsNoticed | libqp/src/qs/qs_rx.c:391-433 | a record of which one data byte is changed on the way is received as a bad frame |
| QsFrame.WireIsEscapedContent | libqp/src/qs/qs.c:376-430 | the written record is its escaped content and a flag |
| QsFrame.RecordRoundTrip | libqp/src/qs/qs_rx.c:391-433 | a record is received as one good frame with exactly its sequence byte, identifier, payload and check byte, and no flag occurs inside it |
| QsFrame.RecordRoundTripIff | libqp/src/qs/qs.c:388-389 | a record is received as itself iff nothing the transmitter leaves unescaped, identifier or string character, is 0x7D or 0x7E |
| QsFrame.UncleanIsMisread | libqp/src/qs/qs_rx.c:391-433 | an unescaped 0x7D or 0x7E anywhere loses or changes a byte or splits the frame, whatever follows it |
| QsFrame.StreamRoundTrip | libqp/src/qs/qs_rx.c:391-433 | every list of records is received exactly |
| QsFrame.Resynchronises | libqp/src/qs/qs_rx.c:391-433 | a receiver in any state that joins anywhere gets one frame for the record it joined in and every later record intact; an escape left open that swallows the flag costs one record more |
| QsTrace.Tx.constructor | libqp/src/qs/qs.c:76-88 | an empty ring |
| QsTrace.Tx.InsertByte | libqp/src/qs_pkg.h:212-217 | the ring keeps the most recent bytes of the stream |
| QsTrace.Tx.InsertEscaped | libqp/src/qs_pkg.h:221-230 | one or two bytes, the second one counted |
| QsTrace.Tx.BeginRec | libqp/src/qs/qs.c:376-393 | next sequence number escaped, identifier not, checksum restarted |
| QsTrace.Tx.U8 | libqp/src/qs/qs.c:617-628 | one escaped byte added to stream and checksum, after whatever was written before |
| QsTrace.Tx.U16 | libqp/src/qs/qs.c:653-669 | two bytes, lowest first |
| QsTrace.Tx.U32 | libqp/src/qs/qs.c:674-690 | four bytes, lowest first |
| QsTrace.Tx.U64 | libqp/src/qs/qs_64bit.c:49-64 | eight bytes, lowest first |
| QsTrace.Tx.Formatted | libqp/src/qs/qs.c:547-607 | a format byte and a number of any width |
| QsTrace.Tx.MemBlock | libqp/src/qs/qs.c:893-915 | format byte unescaped, then size and bytes escaped |
| QsTrace.Tx.String | libqp/src/qs/qs.c:715-736 | characters and terminating zero unescaped, with or without a format byte |
| QsTrace.NumberIsValue | libqp/src/qs/qs.c:653-690 | the bytes of a number, weighted by powers of 256, give it modulo 256 to the number of bytes |
| QsTrace.ElementMeans | libqp/src/qs/qs.c:547-736 | what each element means on the wire: number, format byte and number, 9 and size and block, characters and zero after 8 or nothing |
| QsTrace.MemMeans | libqp/src/qs/qs.c:893-915 | a block is sent as 9, its size and its bytes |
| QsTrace.StrMeans | libqp/src/qs/qs.c:922-944 | a string is sent as its characters and a zero, after 8 or nothing |
| QsTrace.RecordMeans | libqp/src/qs/qs.c:376-430 | a receiver of a record sees sequence number, identifier, what each element means in order, and a byte that makes the sum 0xFF |
| QsTrace.ElementsRoundTripIff | libqp/src/qs/qs.c:715-736 | a record of any elements in any order is received as itself iff identifier and strings are free of 0x7D and 0x7E |
| QsTrace.BraceIsMisread | libqp/src/qs/qs.c:715-736 | a record with the one string } is not received as itself |
| QsTrace.Tx.EndRec | libqp/src/qs/qs.c:403-430 | check byte and flag; afterwards the ring holds exactly the last min(end, pending) bytes, also for records longer than the ring, iff the counter did not hide the overrun |
| QsTrace.CounterWraps | libqp/src/qs/qs.c:424-429 | a full ring of 65000 bytes and a record of 600 leave a 16-bit counter at 64 |
| QsTrace.Tx.GetByte | libqp/src/qs/qs.c:747-764 | the oldest pending byte, or the end-of-data value |
| QsTrace.Tx.GetBlock | libqp/src/qs/qs.c:789-820 | a block and what stays pending are together what was pending; none iff the ring is empty |
| QsTrace.Tx.WriteRecord | libqp/src/qs/qs.c:376-430 | a record of any data elements, mixed in any order, appends its wire form to the stream, with the same condition for the ring |
| QsTrace.Tx.PendingIsReceived | libqp/src/qs/qs.c:403-430 | whatever was overwritten, a receiver that has read what was handed out before gets from the pending bytes one frame for the first record and every later record intact, or one record fewer if an open escape swallows a flag |
| QsTrace.Tx.DrainedIsReceived | libqp/src/qs/qs.c:747-820 | if nothing was overwritten, what any mix of byte and block reads hands out is received as exactly the records |
| QsRx.Channel.constructor | libqp/src/qs/qs_rx.c:252-271 | an empty ring and an idle parser |
| QsRx.Channel.Put | libqp/src/qs/qs_rx.c:284-297 | accepted iff at least one slot beyond the reserved one is free |
| QsRx.Channel.GetNfree | libqp/src/qs/qs_rx.c:308-319 | the number of bytes that can still be put |
| QsRx.Channel.ParseStep | libqp/src/qs/qs_rx.c:391-433 | one byte is moved from the ring through the parser; puts may come between any two |
| QsRx.Channel.Parse | libqp/src/qs/qs_rx.c:391-433 | the ring is emptied and all its bytes parsed in order |
| QsRx.Channel.AcceptedIsReceived | libqp/src/qs/qs_rx.c:391-433 | the handlers get exactly the records whose bytes were accepted |
| LinkSpec.ListsDisjoint | wellsl4/inc/kernel/thread.h:165-355 | no thread is on two lists |
| LinkSpec.SpliceKeepsInv | wellsl4/inc/kernel/thread.h:165-310 | splicing a thread in anywhere keeps all lists well linked and disjoint |
| LinkSpec.BypassKeepsInv | wellsl4/inc/kernel/thread.h:241-355 | bypassing a thread anywhere keeps all lists well linked and disjoint, whatever its own links then hold |
| ThreadSpec.IndexCoordinates | wellsl4/inc/kernel/thread.h:50-78 | queue index, first-level index and bit of a domain and priority |
| ThreadSpec.CoordinatesUnique | wellsl4/inc/kernel/thread.h:50-78 | the coordinates name one queue |
| ThreadSpec.SetBitOnly | wellsl4/inc/kernel/thread.h:134-162 | setting or clearing one second-level bit changes no other queue's bit |
| ThreadSpec.ArrivalOrder | wellsl4/inc/kernel/thread.h:279-310 | among threads due at the same time the new one comes last, other times are unaffected |
| ThreadQueues.Kernel.constructor | wellsl4/inc/kernel/thread.h:134-162 | nothing queued, empty bitmaps |
| ThreadQueues.Kernel.AddToBitmap | wellsl4/inc/kernel/thread.h:134-148 | keeps: second-level bit iff queue non-empty, first-level bit iff the inverted-index word is non-zero |
| ThreadQueues.Kernel.RemoveFromBitmap | wellsl4/inc/kernel/thread.h:150-162 | keeps the same when a queue becomes empty |
| ThreadQueues.Kernel.Enqueue | wellsl4/inc/kernel/thread.h:165-200 | prepends to the queue of the thread's domain and priority; every other list is unchanged; bitmap exact |
| ThreadQueues.Kernel.Append | wellsl4/inc/kernel/thread.h:203-238 | appends, likewise |
| ThreadQueues.Kernel.Dequeue | wellsl4/inc/kernel/thread.h:241-276 | removes from any position, likewise |
| ThreadQueues.Kernel.FindPlace | wellsl4/inc/kernel/thread.h:281-290 | the walk stops behind all threads due no later |
| ThreadQueues.Kernel.ReleaseEnqueue | wellsl4/inc/kernel/thread.h:279-310 | keeps the release queue sorted, members conserved, reprogram set exactly when the head changes |
| ThreadQueues.Kernel.ReleaseDequeue | wellsl4/inc/kernel/thread.h:313-332 | takes the thread due first and sets reprogram |
| ThreadQueues.Kernel.ReleaseRemove | wellsl4/inc/kernel/thread.h:335-355 | removes from any position and sets reprogram exactly when the head changes |
| TimeConv.PathsAgree | wellsl4/inc/kernel/time.h:316-385 | the three ways to compute agree with one exact rounding of t * to / from, whether or not the frequencies are compile-time constants |
| TimeConv.Exact64 | wellsl4/inc/kernel/time.h:316-385 | the 64-bit result is exact iff the intermediate of the chosen path fits in 64 bits |
| TimeConv.FitsMeans | wellsl4/inc/kernel/time.h:316-385 | which number must fit in 64 bits, from the frequencies: number plus offset for a whole ratio down, number times ratio for one up, both only for compile-time constants, and otherwise the full product plus offset |
| TimeConv.ConstHzIrrelevant | wellsl4/inc/kernel/time.h:316-385 | const_hz does not change a result that fits |
| TimeConv.FlagsAreModes | wellsl4/inc/kernel/time.h:331-344 | round_up wins over round_off, and neither means truncation |
| TimeConv.Monotone | wellsl4/inc/kernel/time.h:316-385 | conversion is monotone |
| TimeConv.Galois | wellsl4/inc/kernel/time.h:316-385 | in 64 bits, rounding up one way and down the other way are adjoint, so a converted timeout is never short |
| TimeConv.Exact32Div | wellsl4/inc/kernel/time.h:351-357 | the 32-bit result of an integer-ratio division is exact modulo 2^32 iff the dividend modulo ratio * 2^32 is below 2^32 |
| TimeConv.Exact32 | wellsl4/inc/kernel/time.h:325-384 | the other 32-bit results are exact modulo 2^32 |
| TimeConv.Exact32OfWord | wellsl4/inc/kernel/time.h:316-385 | for a 32-bit number the 32-bit result is exact modulo 2^32 iff, on the division path, number plus rounding offset is below 2^32 |
| TimeConv.EarlyTruncationIsShort | wellsl4/inc/kernel/time.h:351-357 | 2^32 - 1 ms from 1000 Hz to 100 Hz rounded up in 32 bits gives 0, where the exact result fits |

## Left out

- TimeConv.Exact32: for the general path and a 64-bit number the 32-bit result is shown exact when the intermediate fits in 64 bits; which overflowing inputs happen to give the right low word depends on common factors of the frequency and 2^64 and is not characterised. For 32-bit numbers, all the wrappers pass, TimeConv.Exact32OfWord is complete.
- MemPool.RoundBlock: for a size at which the loop never ends (MemPool.RoundingEnds) there is no call to state anything about.
- Publish.Multicast: its deliveries run back to back; code that runs between them is covered by RefSpec.InterleavedPublish for the counters and by QkSpec.PublishIsNotInterrupted for the scheduler.
- Publish.Publish: the scheduler lock is in QkSpec.PublishIsNotInterrupted.
- MutexSpec.StepKeepsInv: threads wait without time-out and a thread holding a ceiling mutex locks no other, because the source restores the dynamic priority straight to the base priority.
- QkSpec.StepKeepsInv: how long an interrupt is deferred is not modelled.
- QxkMutex.Kernel.Lock: precondition 201 (no scheduler lock held) and the call of the scheduler are not modelled; which ready thread runs next is left open.
- QsRx.Channel.Parse: bytes are collected per frame; the command state machine behind the parser is not modelled.
- ThreadQueues.Kernel.Enqueue: the refill assertions for threads with a budget are not modelled; the budget code is not part of this model.
- ThreadQueues.Kernel.Append: the refill assertions likewise.
- Hsm.QHsm.Dispatch: trace output and the state-local storage of handlers; a handler's answers are data.
- QPSet in its 32-element form: one word of the 64-element form.
- The queue functions of `qf_actq.c` on their ring, subscribing and unsubscribing, `QTicker`: the same algorithms as modelled here, or easy members.
- `qep_msm.c`: its transitions run generated action tables that are not in the repository.
- `qxk_sema.c`, `QXMutex_tryLock`, context switching and interrupt entry code, among it the ARM ports, which leave the activation after an interrupt to PendSV.
- QS filters, dictionaries, floating-point output and target information; raw peek, poke and fill commands.
- The choice of the next thread from the WellsL4 bitmap, SMP, system calls, devices, linker and boot code.
