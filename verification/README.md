# Verified model of librf's synchronisation core

librf is a C++20 coroutine runtime. This project models its channel, its recursive mutex with timed waiters and the
batch locking built on it, its counting event, its stop tokens, its coroutine states, its scheduler and its timer,
and proves what they promise.

## How the model is built

Two kinds of module describe each part.

* **Objects** (`RingQueue`, `IntrusiveQueue`, `Channel`, `Mutex`, `Event`, `WaitState`, `BatchLock`, `StopState`,
  `RunQueue`, `FutureState`, `Timer`) are classes with the fields of the program. Their methods follow the
  program's control flow, and their contracts state the whole new state.
* **Protocols and specifications** (`ChannelSpec`, `MutexProtocol`, `EventProtocol`, `BatchDeadlock`, `StopWord`,
  `StopProtocol` with `StopRuns`, `FutureSpec`, `TimerSpec`, and the value part of `RunQueue`) are step machines on
  values. A run is any sequence of steps of any number of participants; a step that is not possible leaves the
  state alone. The theorems are about every run. `HandOff` says on values what a hand-off to a queue of waits does.

How the two kinds meet: the contracts of `Channel`, `Timer`, `FutureState` and `RunQueue` equate the new state with
a specification function of the old one. `Mutex` and `Event` carry a run of their protocol in a ghost field; every
method extends it, step by step, and `Valid` says that the object shows the state at its end, so the theorems about
runs hold of the objects whenever their lock is free. `BatchLock` runs against an environment that decides every
attempt; its outcomes are functions of the answers, and `log` records what was asked. `BatchLock` and
`BatchDeadlock`, and `StopState` and `StopProtocol`, describe the same code twice, once as an object and once as
interleaved steps, with no lemma between them.

A section under an object's lock is one step, with the exceptions that matter: timeouts and cancellations claim a
waiter without the mutex or event lock, so in `MutexProtocol` and `EventProtocol` they may fall between any two
instructions of the hand-off loops. In `Mutex` and `Event` they act inside those loops too: an argument `env` says
for each turn of the loop and each wait whether it times out then, is cancelled, or is left alone, and the
contracts say for every `env` who gets the hand-off. Stop callbacks run outside the lock, on thread stacks, and may
themselves request a stop, register and remove callbacks. Timer callbacks may add and stop timers, as an arbitrary
`script` says.

Atomics are sequentially consistent and the spin locks are correct. The ring queue is the configuration without a
separate element counter (`include/librf/src/config.h` leaves it off and `include/librf/librf.h` includes the ring
queue before anything defines the macro).

## Main results

* **Channel**: over every run and every capacity, 0 included, the i-th read gets the i-th written value, and the
  numbers of delivered reads and completed writes are functions of the numbers of reads and writes alone.
* **Mutex**: ownership, FIFO hand-off and exactly one claim per waiter, in every interleaving with timeouts. An
  unlock reaches the first live waiter, and a waiter expires only by its own timer or canceller.
* **Batch locking**: exact balance and exact outcome of every call against a free environment, and deadlock freedom
  for any number of actors on any batches, over mutexes with queues and direct hand-off; an actor in nobody's way
  finishes. One balance fails: when the awaited batch lock throws, its guard unlocks the batch all the same, and
  the owner keeps what it held before if and only if it held none of the batch's mutexes (`LockGuarded`;
  `FailedBatchLosesAHold` is an input).
* **Event**: conservation of signals, with live waiters and banked signals excluding each other; a signal reaches
  the first live waiter, a broadcast all of them.
* **Stop tokens**: one winner, whom nobody can keep from returning; each callback registered in time and not
  removed runs exactly once, a late one at its registration, none after its removal has returned; the packed word
  is exact. `RequestableRightIff` gives the exact limit: the answer "requestable" is wrong once the token count
  overflows its 31 bits into the source count.
* **Coroutines**: no lost and no double wake-up, and the awaiter reads what was given. The wake-up exists if and
  only if the awaiting coroutine has a scheduler, which is what the code tests (`NoLostOrDoubleWakeUp`). A
  coroutine may be launched by `go` and by one `co_await`; a second launch can wake the awaiter without a result if
  and only if the coroutine has no result yet at that moment (`LaunchIsPrematureIff`; `GoThenAwait` is an input).
  Without such a launch, all is done exactly once.
* **Intrusive queue**: both link directions show one sequence. The counter stays exact if and only if the erased
  node was a member (`EraseKeepsCountIff`); the destructor of the event's awaiter also erases popped nodes.
* **Timer**: no callback is called twice or lost, none before the time asked for, none uncancelled after a
  successful `stop`; one `update` calls exactly what is due, in order.

## Model

| member | source | states |
|---|---|---|
| ChannelSpec.ChannelMatching | include/librf/src/channel_v2.inl:146-326 | over every run and capacity (0 included): the i-th delivered read has the i-th written value, delivered = min(R, W), completed = min(W, R + capacity) in order, each suspended party notified exactly once, when it is done |
| ChannelSpec.ShapeInEveryRun | include/librf/src/channel_v2.inl:256-312 | waiting readers imply an empty ring and no writers, waiting writers a full ring and no readers; what the asserts of the wake paths rely on |
| ChannelSpec.AttemptSucceedsIff | include/librf/src/channel_v2.inl:139-209 | a try enters the numbering exactly when the counters of reads and writes leave something to read or room to write; a failed one changes nothing |
| ChannelSpec.CountersInTermsOfHistory | include/librf/src/channel_v2.inl:146-209 | the two minimum formulas follow from the shape and the lengths of ring and lists |
| ChannelSpec.StepKeepsInv | include/librf/src/channel_v2.inl:146-216 | ring and wait lists hold exactly the stretch of the history between the counters, after every locked section |
| Channel.Channel.TryReadNolock | include/librf/src/channel_v2.inl:146-170 | on the real ring and lists: value, new contents and the one woken writer are those of the specification; a failure changes nothing |
| Channel.Channel.TryWriteNolock | include/librf/src/channel_v2.inl:186-209 | same for a write; a woken reader has its due value stored through it and is enqueued once |
| Channel.Channel.AwakeOneReader | include/librf/src/channel_v2.inl:256-276 | the longest waiting reader, if any, gets the oldest ring value; the assert that the ring is not empty holds |
| Channel.Channel.AwakeOneReaderWith | include/librf/src/channel_v2.inl:278-290 | the longest waiting reader gets the written value itself; false and no change without a reader |
| Channel.Channel.AwakeOneWriter | include/librf/src/channel_v2.inl:292-312 | the longest waiting writer's value enters the ring; the assert that the push succeeds holds |
| Channel.Channel.AwakeOneWriterFor | include/librf/src/channel_v2.inl:314-326 | the longest waiting writer's value goes to the reader directly |
| Channel.Channel.AwaitSuspendRead | include/librf/src/channel_v2.inl:373-390 | reads at once, or leaves exactly one unserved state at the end of the read list |
| Channel.Channel.AwaitSuspendWrite | include/librf/src/channel_v2.inl:444-461 | writes at once, or leaves exactly one state with its value at the end of the write list |
| RingQueue.RingQueue.NextIndex | include/librf/src/ring_queue.h:60-64 | the 32-bit sum does not overflow and the result is the cyclic successor |
| RingQueue.RingQueue.Size | include/librf/src/ring_queue.h:66-77 | the exact number of elements, although the intermediate sum may wrap |
| RingQueue.RingQueue.Full | include/librf/src/ring_queue.h:95-103 | full exactly when the contents have the length of the capacity |
| RingQueue.RingQueue.TryPush | include/librf/src/ring_queue.h:105-122 | refines a bounded FIFO; fails exactly when full, and then changes nothing |
| RingQueue.RingQueue.TryPop | include/librf/src/ring_queue.h:124-148 | the oldest value; fails exactly when empty, and then changes nothing; the slot it reads is always filled |
| IntrusiveQueue.IntrusiveQueue.PushBack | include/librf/src/intrusive_link_queue.h:74-92 | both link directions show the old sequence with the node appended, and the count is kept exact |
| IntrusiveQueue.IntrusiveQueue.PushFront | include/librf/src/intrusive_link_queue.h:94-112 | the same with the node in front |
| IntrusiveQueue.IntrusiveQueue.Erase | include/librf/src/intrusive_link_queue.h:114-135 | erasing a member removes it and keeps the count exact; erasing a popped node keeps the sequence, while the counter goes down |
| IntrusiveQueue.IntrusiveQueue.TryPop | include/librf/src/intrusive_link_queue.h:137-162 | removes and returns the first node with its links cleared |
| IntrusiveQueue.MirrorImages | include/librf/src/intrusive_link_queue.h:74-162 | any walk from the header is the duplicate-free sequence, any walk from the tailer its mirror image, and nothing else is |
| IntrusiveQueue.SameElemsSameLinks | include/librf/src/intrusive_link_queue.h:114-135 | an operation that keeps the sequence changes no link at all |
| IntrusiveQueue.EraseKeepsCountIff | include/librf/src/intrusive_link_queue.h:129-134 | the counter is the length after an erase if and only if the node was a member |
| WaitState.WaitState.OnNotify | source/mutex_v2.cpp:41-58 | succeeds exactly when nobody claimed the wait before; then the awaiter reports success and is enqueued once |
| WaitState.WaitState.OnTimeout | source/mutex_v2.cpp:60-75 | succeeds exactly when nobody claimed the wait before; then the awaiter reports failure and is enqueued once |
| WaitState.WaitState.OnCancel | source/mutex_v2.cpp:29-39 | takes the claim and the handler, so that nobody is resumed, unless the wait was claimed before |
| WaitState.NotifyAmid | source/event_v2.cpp:190-199 | the notification of a waiter in its turn, while timers and cancellers do what `env` says: it succeeds if and only if nobody had claimed the waiter and `env` leaves it alone; then the waiter reports success and is resumed once, else it and all others look exactly as `env` left them |
| HandOff.HandedToFirstIsUnique | source/mutex_v2.cpp:154-169 | the loop can end at one place only: the first waiter that is unclaimed and spared until its turn |
| HandOff.UndisturbedHandOff | source/event_v2.cpp:190-202 | left alone, the first unclaimed waiter of the queue gets the hand-off, and no other waiter changes |
| HandOff.PassedOverWasClaimed | source/mutex_v2.cpp:41-75 | an unclaimed waiter that the loop passes over was claimed by a timer or a canceller, not later than in its own turn |
| MutexProtocol.MutexInvariant | source/mutex_v2.cpp:122-176 | whenever the lock is free: no owner iff counter 0, no owner implies no queue, and every root's locks minus unlocks is the counter for the owner and 0 for all others |
| MutexProtocol.FifoHandOff | source/mutex_v2.cpp:154-182 | while a waiter is unclaimed, no other root takes the mutex and nobody enqueued later is served |
| MutexProtocol.ClaimedExactlyOnce | source/mutex_v2.cpp:41-75 | exactly one of notification and expiry claims a waiter, and only the notified one is told that it has the lock |
| MutexProtocol.ClaimedByItsOwnStepsOnly | source/mutex_v2.cpp:29-75 | a waiter expires only by a timeout or a cancellation of its own and is notified only by the instruction that notifies it; an unclaimed waiter always is, a claimed one never |
| MutexProtocol.FirstClaimDecides | source/mutex_v2.cpp:29-75 | over every run a waiter's claim is the one made by the step that first found it unclaimed and was to claim it |
| MutexProtocol.UnlockOutcome | source/mutex_v2.cpp:141-176 | a draining unlock ends with owner = root of the notified first live waiter and counter 1, or with no owner, counter 0, an empty queue and every waiter claimed |
| MutexProtocol.OwnerHoldsItsLocks | source/mutex_v2.cpp:156-169 | an owner's locks minus unlocks are the counter and positive, and no hand-off on record is to an expired waiter: none leaves its root as owner |
| MutexProtocol.ExecKeepsInv | source/mutex_v2.cpp:122-182 | the invariant of queue, owner, claims and log at every instruction of the hand-off loop |
| Mutex.Mutex.Expire | source/mutex_v2.cpp:29-75 | a timer or canceller acts on a wait without the lock: its claim, its report, its handler and how often it is resumed are what the deed makes of them; a step of the protocol run |
| Mutex.Mutex.TryLockLockless | source/mutex_v2.cpp:122-139 | succeeds exactly for a free mutex or its owner, counting one more lock; the object's protocol run grows by this step |
| Mutex.Mutex.AwaitSuspend | include/librf/src/mutex_v2.inl:208-231 | locks at once, or joins the end of the queue with nothing else changed |
| Mutex.Mutex.Unlock | source/mutex_v2.cpp:141-176 | refused to non-owners without change; a nested unlock counts down; the last one, while timers and cancellers do `env`, hands over to the first waiter that was unclaimed and that `env` spares until its turn, counter 1, those before it looking as `env` left them, or ends with a free mutex if there is none |
| BatchLock.Assembly.UnlockLocks | include/librf/src/without_deadlock_assemble.inl:4-11 | gives back exactly the stretch, each lock being held when it is unlocked |
| BatchLock.Assembly.TryLockRange | include/librf/src/without_deadlock_assemble.inl:13-36 | asks for the stretch in order as long as it is granted; all of it is held, or else the holds are restored and the first answer that is not a grant decides: a refusal returns its position, a throw is an exception |
| BatchLock.Assembly.LockAttempt | include/librf/src/without_deadlock_assemble.inl:38-69 | the questions of an attempt and its end, from the answers alone: hard lock first, the others in order, up to the first answer that is not a grant; a refused try pauses and returns its position; the whole batch, or all holds restored |
| BatchLock.Assembly.LockNonmember3 | include/librf/src/without_deadlock_assemble.inl:71-79 | the retry loop throws if and only if some answer threw, returns only after a full round of grants and at once if all are granted, and after a refusal blocks in the very lock that was refused; balance |
| BatchLock.Assembly.LockAttemptSmall2 | include/librf/src/without_deadlock_assemble.inl:81-101 | the questions and the end of the two-lock attempt from the answers alone; both locks, or all holds restored |
| BatchLock.Assembly.LockNonmember2 | include/librf/src/without_deadlock_assemble.inl:103-114 | the same as for three and more locks, with the two attempts taking turns |
| BatchLock.Assembly.LockRange | include/librf/src/without_deadlock_assemble.inl:116-134 | for every batch length: thrown if and only if some answer threw, returned at once if all are granted, blocked or pausing otherwise; a return raises the hold on each lock by its number of occurrences, any other end leaves all holds as they were |
| BatchLock.Assembly.DestroyGuard | include/librf/src/mutex_v2.inl:503-520 | every lock of the batch is unlocked, unlocking one that is not held being ignored: per lock, what was held less its occurrences, or nothing |
| BatchLock.Assembly.LockGuarded | include/librf/src/mutex_v2.inl:531-537 | the guard exists before the locking: a return raises each hold by its occurrences; an exception, which comes if and only if some answer threw, restores all holds if and only if none of the batch was held before, and otherwise drops them |
| BatchLock.Assembly.LockGuardedThenDestroy | include/librf/src/mutex_v2.inl:503-537 | a returned guard gives back, at its end, exactly what the locking took |
| BatchLock.Assembly.LockThenDestroy | include/librf/src/mutex_v2.inl:555-566 | with the guard made after the locking, the holds end as they began in every case |
| BatchLock.DropKeepsIff | include/librf/src/mutex_v2.inl:503-510 | unlocking a whole batch changes nothing if and only if none of it was held |
| BatchLock.FailedBatchLosesAHold | include/librf/src/mutex_v2.inl:531-537 | an input: an owner of one mutex whose batch lock of it throws ends without it |
| BatchDeadlock.BlockedHoldsNothing | include/librf/src/without_deadlock_assemble.inl:39-134 | an actor that cannot move is suspended at a blocking lock owned by someone else and holds no mutex |
| BatchDeadlock.DeadlockFree | include/librf/src/without_deadlock_assemble.inl:39-134 | any number of actors, any batches, every reachable state, each unfinished actor: it can move, or it waits for a mutex of its batch whose owner can move or, being finished, release that mutex |
| BatchDeadlock.HandedOverInOrder | source/mutex_v2.cpp:154-169 | a suspended actor goes on only as the new owner, and only as the first of those waiting for that mutex |
| BatchDeadlock.SuspendsAtTheEnd | include/librf/src/mutex_v2.inl:208-231 | an actor suspends only at a blocking lock of a mutex it cannot have, behind all who wait already, and nobody is reordered |
| BatchDeadlock.FinishesWithItsBatch | include/librf/src/without_deadlock_assemble.inl:116-134 | an actor finishes, by its own step or by a hand-off, holding each mutex exactly as often as its batch lists it, and shares none |
| BatchDeadlock.RefusalIsRemembered | include/librf/src/without_deadlock_assemble.inl:22-31 | the position an actor backs out from is that of the try that was refused |
| BatchDeadlock.RetriesWhatWasRefused | include/librf/src/without_deadlock_assemble.inl:61-79 | over every run: after a refused try the actor goes on backing out until it comes to a blocking lock of the very mutex that was refused |
| BatchDeadlock.FinishesAlone | include/librf/src/without_deadlock_assemble.inl:38-134 | from every reachable state, an actor whose mutexes are free or its own and wanted by no waiter gets its batch by its own steps alone, within an explicit number of them |
| BatchDeadlock.ExecKeepsInv | include/librf/src/without_deadlock_assemble.inl:39-114 | at every point, what each actor holds is what its position in the algorithm says, and whoever is suspended waits for a mutex that somebody else owns |
| EventProtocol.SignalsAreConserved | source/event_v2.cpp:190-207 | initial signal + signal calls = waits satisfied + banked + dropped by reset |
| EventProtocol.LiveWaiterMeansNoSignal | include/librf/src/event_v2.inl:205-228 | an unclaimed waiter implies a counter of 0, and it is queued or about to be notified |
| EventProtocol.ClaimIsFinal | source/event_v2.cpp:20-55 | the first claim decides for good, and an expired waiter never consumes a signal |
| EventProtocol.ClaimedByItsOwnStepsOnly | source/event_v2.cpp:8-55 | a waiter expires only by a timeout or a cancellation of its own and is notified only by the instruction of a loop that notifies it; an unclaimed waiter always is, a claimed one never |
| EventProtocol.RemovalTakesOutOne | source/event_v2.cpp:215-221 | a claimed waiter that removes itself is out of the queue; all others stay in order, nothing else changes |
| EventProtocol.SignalGoesToFirstLiveWaiter | source/event_v2.cpp:190-202 | a signal goes to the first unclaimed waiter in order, or is banked when there is none |
| EventProtocol.ExecKeepsInv | source/event_v2.cpp:179-221 | the invariant of queue, counter and conservation at every instruction of the loops |
| Event.Event.TryWaitOne | include/librf/src/event_v2.inl:31-40 | takes one banked signal exactly when there is one; a step of the protocol run that the object shows |
| Event.Event.TryWaitOneAmidResets | include/librf/src/event_v2.inl:31-40 | the decrement and its undoing with a reset before either: the outcome of a reset and a whole wait, except that resets before both leave a signal that nobody gave |
| Event.Event.Expire | source/event_v2.cpp:8-55 | a timer or canceller acts on a wait without the lock: its claim, its report, its handler and how often it is resumed are what the deed makes of them; a step of the protocol run |
| Event.Event.Remove | source/event_v2.cpp:215-221 | exactly the node of the claimed wait leaves the queue |
| Event.Event.AwaitSuspend | include/librf/src/event_v2.inl:205-228 | takes a banked signal, or joins the end of the queue |
| Event.Event.Signal | source/event_v2.cpp:190-202 | while timers and cancellers do `env`: to the first waiter that was unclaimed and that `env` spares until its turn, those before and behind it looking as `env` left them; if there is none, the counter goes up by one |
| Event.Event.SignalAll | source/event_v2.cpp:179-188 | while timers and cancellers do `env`: every waiter that was unclaimed and that `env` spares until its turn is notified, nobody else is, and no signal is banked |
| StopWord.PackedWord | include/librf/src/stop_token.h:43-155 | over every run with both counts below 2^31 the word is stop + 2 lock + 4 tokens + 2^33 sources, and the flag tests read it rightly |
| StopWord.RawFollowsWord | include/librf/src/stop_token.h:114-159 | each wrapping operation, among them subtracting the wrapped 2 - 4 at unlock, is the exact operation on flags and counts |
| StopWord.CountsOfRun | include/librf/src/stop_token.h:128-159 | tokens and sources are the numbers of their additions less their removals in the run, beside the first source; the stop flag is set if and only if a stop was requested |
| StopWord.DecodeEncode | include/librf/src/stop_token.h:54-58 | packing and unpacking round trip |
| StopWord.RequestableRightIff | include/librf/src/stop_token.h:73-76 | without stop and sources, the answer is right if and only if the tokens fit 31 bits |
| StopState.StopState.TryAddCallback | include/librf/src/stop_token.h:208-251 | runs now iff a stop was requested; is linked in front iff not and there are sources; else nothing changes |
| StopState.StopState.RemoveIfLinked | include/librf/src/stop_token.h:253-266 | a linked callback leaves the list through its pointer-to-pointer link and gives its token back; any other changes nothing |
| StopState.StopState.BeginStop | include/librf/src/stop_token.h:78-98 | only the first request gets past it, with flag and lock set together |
| StopState.StopState.PopFront | include/librf/src/stop_token.h:169-179 | takes the first callback, clears its link, and says whether more are left |
| StopState.StopState.UnlinkNode | include/librf/src/stop_token.h:256-262 | removes exactly that node, whether first, last or in between |
| StopState.RequestableBySources | include/librf/src/stop_token.h:73-76 | "requestable" means stop requested or sources left |
| StopProtocol.OneRequestWins | include/librf/src/stop_token.h:161-196 | at most one request ever returns true, and exactly one once requests have returned and none is at work |
| StopProtocol.StartedAtMostOnce | include/librf/src/stop_token.h:180-182 | no callback is started twice, on request or on registration |
| StopProtocol.GoneForGood | include/librf/src/stop_token.h:253-286 | after its removal has returned a callback is never started and its object never written |
| StopProtocol.WinnerLeavesNothing | include/librf/src/stop_token.h:169-195 | when the winner has returned, the list is empty and every callback linked and not removed has run to its end |
| StopProtocol.RemovalWaits | include/librf/src/stop_token.h:267-285 | when a removal returns the callback is not running, except on the very thread that is executing it |
| StopProtocol.NextKeepsInv | include/librf/src/stop_token.h:161-286 | the protocol invariant, in every interleaving and for any nesting of calls in callbacks |
| StopRuns.RegistrationOutcome | include/librf/src/stop_token.h:208-251 | every registration in every reachable state: with a stop, the callback starts at once on the registering thread; without, it becomes the first of the list if a source is left; else it is turned away unstarted |
| StopRuns.LateRegistrationReturns | include/librf/src/stop_token.h:221-225 | when the registration of a late callback returns, that has started and ended, and is not linked |
| StopRuns.RequestOutcome | include/librf/src/stop_token.h:161-179 | the first request sets the stop and takes the newest callback in hand, or returns true at once if there is none; all others return false and change nothing |
| StopRuns.RemovalOutcome | include/librf/src/stop_token.h:253-266 | the removal of a linked callback returns at once; it was never started, and only it leaves the list |
| StopRuns.RemovalWaitsOnlyForItsCallback | include/librf/src/stop_token.h:267-285 | a removal past its locked section waits if and only if another thread's request has just this callback in hand |
| StopRuns.AddedInTimeRunsOnce | include/librf/src/stop_token.h:169-251 | over every continuation: a callback registered before the stop, with a source left, and never removed waits in the list until the stop, and has started and ended exactly once when the winning request has returned |
| StopRuns.AddedLateRunsOnce | include/librf/src/stop_token.h:221-225 | over every continuation: a callback registered after the stop has started, once, and has ended once its registration has returned |
| StopRuns.WinnerReturns | include/librf/src/stop_token.h:169-196 | from every reachable state the winning request returns by steps of its own thread alone, within an explicit number of them: no removal inside a callback makes it wait |
| StopRuns.NewestFirst | include/librf/src/stop_token.h:169-181 | over every continuation: of two linked callbacks that are not removed, the one behind is not started before the other |
| StopRuns.SourcesLeft | include/librf/src/stop_token.h:152-159 | the sources left are those at the start less those dropped, so registrations are turned away exactly after the last |
| FutureSpec.NoLostOrDoubleWakeUp | include/librf/src/state.inl:30-189 | every interleaving of one setter and one awaiter: not suspended with the result there, or woken at most once and with the result; exactly once if and only if there is a scheduler |
| FutureSpec.AwaiterReadsWhatWasGiven | include/librf/src/state.inl:105-189 | in every interleaving the awaiter reads exactly what the setter gave first, a value as that value, an exception as that exception, and goes on only once it is given |
| FutureSpec.AwaiterGetsThroughIff | include/librf/src/state.inl:30-50 | once the result is there, the awaiter gets past the co_await if and only if it has a scheduler or has not yet found the result missing |
| FutureSpec.CoroutineLifecycle | source/state.cpp:122-159 | launched properly (in particular once): body started once, awaiter resumed once and with the result, frame destroyed once and last |
| FutureSpec.LaunchedOnce | source/scheduler.cpp:95-114 | launched once: the run-queue entries are exactly the obligations still due, none is without effect, and a task entry exists exactly while a detached coroutine has no result |
| FutureSpec.LaunchedRunsToItsEnd | source/state.cpp:122-159 | from every point of a properly launched life, the entries in the queue suffice to start the body, wake the awaiter and destroy the frame |
| FutureSpec.AwaiterReadsWhatTheBodyGave | include/librf/src/state.inl:105-189 | what a running body finishes with stays the result for good, and a properly launched awaiter that goes on reads exactly that |
| FutureSpec.EndedIsNoTask | include/librf/src/state.inl:14-28 | a coroutine launched by go is off the task table for good once its body has ended |
| FutureSpec.LaunchIsPrematureIff | include/librf/src/state.inl:30-50 | a go or co_await at any point of any run: some continuation without a further launch wakes the awaiter without a result if and only if the coroutine was launched before and has no result |
| FutureSpec.GoThenAwait | include/librf/src/state.inl:45-49 | an input: awaited after go and before it has started, the awaiter wakes without a result |
| FutureSpec.GoAndRunThenAwait | include/librf/src/state.inl:45-49 | an input that goes well: the result comes before the entry that the await queued |
| FutureState.FutureState.GetRoot | include/librf/src/state.h:50-60 | the end of the parent chain |
| FutureState.FutureState.GetScheduler | include/librf/src/state.h:61-64 | the own scheduler, or else the root's |
| FutureState.FutureState.PromiseInitialSuspend | include/librf/src/state.inl:4-12 | the coroutine is set up to be started by its first run-queue entry |
| FutureState.FutureState.SetResult | include/librf/src/state.inl:121-189 | the result is the value or the exception that was given; the state is queued if it has a handler, and otherwise its task entry is dropped |
| FutureState.FutureState.FutureAwaitSuspend | include/librf/src/state.inl:30-50 | handler, parent and scheduler registered; queued exactly when ready |
| FutureState.FutureState.PromiseFinalSuspend | include/librf/src/state.inl:14-28 | marked final, queued once behind what was queued, task entry dropped |
| FutureState.FutureState.Resume | source/state.cpp:122-159 | exactly one of starting the body, waking the awaiter, destroying the frame, in this order of precedence, and only its own mark is cleared |
| FutureState.FutureState.SwitchScheduler | source/state.cpp:167-191 | the states up to the first one already on the new scheduler move, each with its task entry; all else stays |
| FutureState.FutureState.SwitchWholeChain | source/state.cpp:167-191 | a chain on one scheduler moves as a whole, and a task entry that was in the old table only is in the new table only |
| FutureState.FutureState.Via | include/librf/src/switch_scheduler.h:28-42 | for any chain: the switch, and the coroutine queued once on the new scheduler through a state that has its result |
| FutureState.FutureState.StartTask | source/scheduler.cpp:95-114 | the state is put on the scheduler and into its table, and queued exactly when there is something to run |
| RunQueue.FifoOverRuns | source/scheduler.cpp:160-179 | over any run, entries are resumed in the order of their addition, each once |
| RunQueue.BatchResumesWhatWasThere | source/scheduler.cpp:164-177 | a batch resumes exactly what was added before it; what it spawns waits |
| RunQueue.RunAppend | source/scheduler.cpp:160-179 | the records of additions and resumptions only grow |
| RunQueue.AddedInOrder | source/scheduler.cpp:160-179 | an addition goes behind everything added before; a batch adds what its entries enqueue, entry by entry in the order of their resumption |
| RunQueue.PerformedInOrder | source/scheduler.cpp:160-179 | all that the entries of a batch do to the timers is done, entry by entry |
| RunQueue.Scheduler.RunOneBatch | source/scheduler.cpp:160-179 | the timers are updated first; then the two swapped vectors do what the one FIFO does, woken entries included; false exactly when nothing is queued |
| RunQueue.BatchKeepsTimers | source/scheduler.cpp:160-177 | the timers stay valid over a batch, whatever callbacks and resumed coroutines do to them |
| RunQueue.Scheduler.AddGenerator | include/librf/src/scheduler.h:154-162 | one entry at the end |
| RunQueue.Scheduler.NewTask | source/scheduler.cpp:100-111 | the entry of the task, unless there is one, and a queue entry exactly when there is something to run |
| RunQueue.Scheduler.DelSwitch | source/scheduler.cpp:116-132 | removes and returns the entry, if any |
| RunQueue.Scheduler.AddSwitch | include/librf/src/scheduler.h:172-180 | inserts the entry unless there is one |
| TimerSpec.CalledOnceOrInOnePlace | source/timer.cpp:15-122 | over every run, each added timer is in exactly one container and uncalled, or was called exactly once and is in none |
| TimerSpec.TimersAreAsRequested | include/librf/src/timer.h:36-46 | over every run each timer waits for the time given to the operation, or to the callback's call, that added it; nothing else adds a timer |
| TimerSpec.FiredInTimeAndNotStopped | source/timer.cpp:63-118 | an uncancelled call never comes before the time that was asked for, and never for a timer that a stop returned true for; update cancels only stopped timers |
| TimerSpec.StopSucceedsIff | source/timer.cpp:63-73 | stop returns true exactly for a timer neither called nor stopped before |
| TimerSpec.StopTakesEffect | source/timer.cpp:63-73 | a timer stopped while it waits is never called uncancelled, in whatever run follows |
| TimerSpec.CallbackStopTakesEffect | source/timer.cpp:63-73 | the same for a stop made by a callback in the middle of an update or a clear |
| TimerSpec.UpdateCallsWhatIsDueInOrder | source/timer.cpp:75-122 | an update calls everything whose requested time has come and that was added before it, leaves nothing due among the running, and makes its uncancelled calls by requested time and then order of addition |
| TimerSpec.UpdateCallsIffDue | source/timer.cpp:106-118 | for an unstopped and uncalled timer: called by this update, uncancelled, if and only if its requested time has come |
| TimerSpec.ClearCallsAll | source/timer.cpp:26-42 | after a clear at any point of any run, only timers added by its callbacks are left, each timer known before has been called exactly once, and all calls of the clear itself are canceled ones |
| TimerSpec.RunIsLater | source/timer.cpp:15-122 | the record of calls and stops only grows |
| TimerSpec.InsertInOrder | source/timer.cpp:95 | a new timer goes behind those of its own time, the others keep their order |
| TimerSpec.RunKeepsInv | source/timer.cpp:15-122 | containers, order, phases and the record of calls agree after every run |
| Timer.TimerManager.Add | source/timer.cpp:44-61 | one new timer with the requested time, at the end of the added list; all others untouched |
| Timer.TimerManager.Stop | source/timer.cpp:63-73 | true exactly when the timer is still active; then its state becomes invalid, and nothing else changes |
| Timer.TimerManager.CallTarget | source/timer.cpp:15-24 | the callback is taken, then called, with whatever it does to the manager |
| Timer.TimerManager.Admit | source/timer.cpp:77-104 | the list is taken over before any callback runs; stopped timers are called off, the others join the running ones |
| Timer.TimerManager.Fire | source/timer.cpp:106-121 | the loop that erases at its end does what taking the due timers one by one does |
| Timer.TimerManager.Update | source/timer.cpp:75-122 | the specified update, invariant kept |
| Timer.TimerManager.Clear | source/timer.cpp:26-42 | every waiting timer is called with canceled, invariant kept |

## Left out

- Coroutine frames, handles and allocation: a handle is an opaque name and resuming it a recorded event.
- Memory orders and spin-lock back-off; the compare-and-swap of a claim word and the store of its result are one step.
- BatchLock.Assembly.LockNonmember3: `rounds` bounds how many attempts of the retry loop are observed; the loop's termination is not claimed, because it only avoids livelock.
- BatchLock.Assembly.LockNonmember2: the same bound.
- BatchLock.Assembly.LockRange: the same bound.
- BatchDeadlock.DeadlockFree: exceptions, and the variant for plain threads, whose blocking lock spins instead of queueing.
- EventProtocol.SignalsAreConserved: `try_wait_one` is one step of the protocol; what resets in its middle do is `TryWaitOneAmidResets`, where two of them, before the decrement and before its undoing, are shown to invent a signal.
- IntrusiveQueue.IntrusiveQueue.Erase: the count after the erase of a popped node, which the code leaves one too low; the exact condition is `EraseKeepsCountIff`.
- The channel's wait lists are sequences of awaiter objects in `Channel`; that the linked list behaves like a sequence is `IntrusiveQueue`. The reads and writes in the destructors of unawaited awaiters are ordinary try loops.
- `event_t::wait_any` and its timed forms, which the code itself marks as flawed, and `event_t::wait_all`.
- FutureState.FutureState.SetResult: `state_t<void>::set_exception`, which sets no result flag; values and exceptions are integers.
- FutureSpec.AwaiterReadsWhatWasGiven: a setter that answers the same state twice, which overwrites the first answer.
- The lifetime of the stop state and its delete thresholds: the object is assumed alive.
- `co_yield`, and a second `go` or a second `co_await` of the same coroutine.
- Timer.TimerManager.Clear: callbacks that call `clear` or `update` on their own manager, and stopping a timer from another thread.
- Timer targets are entries of a table named by order of creation; shared ownership and the expiry of handles are not modelled, and durations are integers.
- `run_until_notask` and its termination.
- `find_task`, `request_stop_all_if_possible`, `lock_until_succeed`, `try_lock_until`: easy members or plain retry loops.
- Generators, `when_all`, `when_any`, sleeping, asio adapters, reference counting, error texts.
