# Concurrent and pointer-based structures of a C++ tutorial, modelled in Dafny

The modules model hand-written locks, barriers, queues, hash tables, reference-counted handles and
two arithmetic kernels of the repository, and prove what they are for.

The concurrent structures are state machines.  A state holds the shared variables, the mutex and, for
every thread, the point of the program it has reached; `Step` says what one atomic step of a thread
does.  One step is one access to an atomic or to a node field, one acquisition of a mutex, or one
notification.  Blocking on a condition variable leaves the mutex and joins the wait set in one step,
and a thread may leave the wait set spuriously at any time, as section 30.5.1
[thread.condition.condvar] of ISO/IEC 14882:2011 allows.  Theorems are about every state of every run
of any number of threads (`Runs.IsRun`), proved by an inductive invariant.  Beside each machine stands
a class with the fields of the C++ class; a call of one of its methods is the next atomic step of the
calling thread, and its contract ties the new fields to the old ones by `Step` and keeps the invariant.
What a step must do is stated apart from `Step`: each concurrent module says, over every step and every
run, what a thread has done when it leaves a call, that nothing else changes the shared state, when a
thread may sleep, and that no call goes round in circles.

| module | what it models |
|---|---|
| `CvRwLock`, `CvRwLockWriteFirst` | readers-writer locks over a mutex and condition variables |
| `BlockQueue` | the bounded queue with a `notify_one` after each unlock |
| `CvBarrier`, `SpinBarrier`, `SpinBarrierThreads` | the barrier over a condition variable, and the spinning one with its client, also for any number of threads |
| `TicketLock`, `CasRwLock` | the ticket lock modulo 2 to the 32, and the compare-and-swap readers-writer lock with its client |
| `DummyQueue` | the queue with a head mutex, a tail mutex and a dummy node |
| `Primes`, `IntrusiveList`, `TableModel`, `LookupTable1`, `LookupTable2`, `TablesAgree` | the rehashing tables: prime search, linked list, value model, both tables as classes, and both driven together |
| `SharedPtr` | the reference-counted handles, used by several threads |
| `SignedEncoding` | signed encodings of W bits and the ripple-carry adder |
| `DurationPrinter` | the decimal printer of durations |
| `Runs`, `QueueHistory`, `Counting`, `Arithmetic`, `Wrappers` | runs of a state machine, histories of a queue, counting threads at a program point, integer arithmetic, optional values |

Where a promise of the code fails on some inputs, the exact condition is proved in both directions:
capacity zero of the bounded queue, a count of the condition-variable barrier that is not positive or
above the number of threads, a count of the spinning barrier that is not the number of threads, too many
threads on the ticket lock, too many threads for the counter of the compare-and-swap lock (which still
excludes writers, and never shows a torn value), copies and assignments of moved-from handles, objects
wrapped twice, ones' complement round trips, the negative zero, resolutions at which the printer divides
by zero, resolutions that are no powers of ten, and negative durations.

`ones_complement_to_word` (`common.cpp:165-172`) is registered as the decoder of ones' complements, but
it inverts only the codes of the negative numbers above the least one; the model follows the code.  The
asserts of `encode.cpp:32-35`, that both algorithms of each complement agree with each other and with the
machine bits, are the contracts of the encoders in `SignedEncoding`.

## Model

| member | source | states |
|---|---|---|
| `CvRwLock.RwLock.constructor` | more/new-features/cxx11/concurrency/condition_variable/cv_rwlock.cpp:57-57 | a new lock is free and no thread is in a call |
| `CvRwLock.RwLock.Lock` | more/new-features/cxx11/concurrency/condition_variable/cv_rwlock.cpp:59-64 | each call is the next atomic step of `lock`: acquire, look at `readers_`, block, look again, set -1 |
| `CvRwLock.RwLock.Unlock` | more/new-features/cxx11/concurrency/condition_variable/cv_rwlock.cpp:66-73 | each call is the next atomic step of `unlock`, with `notify_all` after the mutex is released |
| `CvRwLock.RwLock.LockShared` | more/new-features/cxx11/concurrency/condition_variable/cv_rwlock.cpp:75-80 | each call is the next atomic step of `lock_shared` |
| `CvRwLock.RwLock.UnlockShared` | more/new-features/cxx11/concurrency/condition_variable/cv_rwlock.cpp:82-95 | each call is the next atomic step of `unlock_shared`; its `notify_one`, only for the last reader and after the mutex is released, may pick any sleeper, reader or writer |
| `CvRwLock.StepKeepsInv` | more/new-features/cxx11/concurrency/condition_variable/cv_rwlock.cpp:59-95 | every step of every thread keeps: mutual exclusion of the mutex, `readers_` exact, and no lost wakeup (a sleeping reader implies -1 or a pending `notify_all`; a sleeping writer with `readers_` 0 implies a pending notify or a writer about to look again) |
| `CvRwLock.NotifyOneKeepsWriters` | more/new-features/cxx11/concurrency/condition_variable/cv_rwlock.cpp:91-94 | the `notify_one` loses no wakeup even when it wakes a reader instead of a writer |
| `CvRwLock.AlwaysInv` | more/new-features/cxx11/concurrency/condition_variable/cv_rwlock.cpp:53-101 | the invariant holds in every state of every run of any number of threads, with spurious wakeups |
| `CvRwLock.Exclusion` | more/new-features/cxx11/concurrency/condition_variable/cv_rwlock.cpp:59-80 | in every run a thread that holds the lock for writing is the only holder |
| `CvRwLock.SleepersWaitForHolders` | more/new-features/cxx11/concurrency/condition_variable/cv_rwlock.cpp:59-95 | no lost wakeup and no deadlock: if nothing can move by itself, every sleeper waits for a thread that really holds the lock |
| `CvRwLock.LockTakes` | more/new-features/cxx11/concurrency/condition_variable/cv_rwlock.cpp:59-64 | a thread leaves `lock` only by its own step, from `readers_` 0 to -1, with the lock |
| `CvRwLock.LockSharedTakes` | more/new-features/cxx11/concurrency/condition_variable/cv_rwlock.cpp:75-80 | a thread leaves `lock_shared` only by its own step, with the lock, when no writer has it, and counted by that step |
| `CvRwLock.UnlockGivesBack` | more/new-features/cxx11/concurrency/condition_variable/cv_rwlock.cpp:66-73 | a writer is rid of the lock only with `readers_` 0, and `unlock` is over only when it has woken every sleeper |
| `CvRwLock.UnlockSharedGivesBack` | more/new-features/cxx11/concurrency/condition_variable/cv_rwlock.cpp:82-90 | a reader is rid of the lock only when it has lowered `readers_` by one, and goes on to notify exactly when none is left |
| `CvRwLock.LastReaderWakes` | more/new-features/cxx11/concurrency/condition_variable/cv_rwlock.cpp:91-94 | that notification wakes a sleeper if there is one |
| `CvRwLock.AnySleeperMayBeChosen` | more/new-features/cxx11/concurrency/condition_variable/cv_rwlock.cpp:93-93 | and it may be any sleeper |
| `CvRwLock.NothingElse` | more/new-features/cxx11/concurrency/condition_variable/cv_rwlock.cpp:59-95 | nothing but these changes `readers_`, and a thread goes to sleep only on a lock that it cannot have |
| `CvRwLock.SpuriousWakeup` | more/new-features/cxx11/concurrency/condition_variable/cv_rwlock.cpp:62-78 | a sleeper may wake at any time, and then looks again under the mutex |
| `CvRwLock.CallsBegin` | more/new-features/cxx11/concurrency/condition_variable/cv_rwlock.cpp:59-95 | a thread outside a call may call either kind of lock; one with the lock goes on to the matching unlock |
| `CvRwLock.CallsAdvance` | more/new-features/cxx11/concurrency/condition_variable/cv_rwlock.cpp:59-95 | every step of a thread in a call that does not sleep brings it nearer to the end of the call or to sleep |
| `CvRwLock.LockHadTheLock` | more/new-features/cxx11/concurrency/condition_variable/cv_rwlock.cpp:59-64 | in every run, a thread that was in `lock` and no longer is had the lock in between |
| `CvRwLock.LockSharedHadTheLock` | more/new-features/cxx11/concurrency/condition_variable/cv_rwlock.cpp:75-80 | in every run, a thread that was in `lock_shared` and no longer is had the lock in between |
| `CvRwLock.WritersMayStarve` | more/new-features/cxx11/concurrency/condition_variable/cv_rwlock.cpp:55-95 | writers may starve, as the comment in the source says: for every n there is a run of a writer and one reader in which the writer stays in `lock` while the reader gets the lock and gives it back n times; the writer is notified each time, looks at `readers_` and finds the lock taken |
| `CvRwLockWriteFirst.RwLockWriteFirst.constructor` | more/new-features/cxx11/concurrency/condition_variable/cv_rwlock.cpp:138-138 | a new lock is free and no writer has entered |
| `CvRwLockWriteFirst.RwLockWriteFirst.Lock` | more/new-features/cxx11/concurrency/condition_variable/cv_rwlock.cpp:140-146 | each call is the next atomic step of `lock`, with its two waits |
| `CvRwLockWriteFirst.RwLockWriteFirst.Unlock` | more/new-features/cxx11/concurrency/condition_variable/cv_rwlock.cpp:148-155 | each call is the next atomic step of `unlock` |
| `CvRwLockWriteFirst.RwLockWriteFirst.LockShared` | more/new-features/cxx11/concurrency/condition_variable/cv_rwlock.cpp:157-162 | each call is the next atomic step of `lock_shared` |
| `CvRwLockWriteFirst.RwLockWriteFirst.UnlockShared` | more/new-features/cxx11/concurrency/condition_variable/cv_rwlock.cpp:164-179 | each call is the next atomic step of `unlock_shared`, which copies the flag under the mutex and notifies afterwards |
| `CvRwLockWriteFirst.StepKeepsInv` | more/new-features/cxx11/concurrency/condition_variable/cv_rwlock.cpp:140-179 | every step keeps: at most one writer has entered, `readers_` counts the readers, and no wakeup is lost on either queue |
| `CvRwLockWriteFirst.AlwaysInv` | more/new-features/cxx11/concurrency/condition_variable/cv_rwlock.cpp:135-187 | the invariant holds in every state of every run |
| `CvRwLockWriteFirst.Exclusion` | more/new-features/cxx11/concurrency/condition_variable/cv_rwlock.cpp:140-162 | writers exclude writers and readers, and at most one thread ever waits on `read_queue_` |
| `CvRwLockWriteFirst.SleepersWaitForHolders` | more/new-features/cxx11/concurrency/condition_variable/cv_rwlock.cpp:140-179 | no lost wakeup on either queue and no deadlock: where nothing can move by itself, every sleeper waits for a holder of the lock, or for the entered writer that itself waits for a reader |
| `CvRwLockWriteFirst.WriterPreference` | more/new-features/cxx11/concurrency/condition_variable/cv_rwlock.cpp:145-162 | while a writer has entered, the readers go down by exactly the number of `unlock_shared` decrements and never up, whatever the interleaving |
| `CvRwLockWriteFirst.WriterWaitsForItsReadersOnly` | more/new-features/cxx11/concurrency/condition_variable/cv_rwlock.cpp:144-145 | an entering writer gets the lock after exactly as many decrements as there were readers when it entered |
| `CvRwLockWriteFirst.LockTakes` | more/new-features/cxx11/concurrency/condition_variable/cv_rwlock.cpp:140-146 | a thread passes the first wait of `lock` only by entering where no writer had, and the second only with the lock and without readers |
| `CvRwLockWriteFirst.LockSharedTakes` | more/new-features/cxx11/concurrency/condition_variable/cv_rwlock.cpp:157-162 | a thread leaves `lock_shared` only by its own step, with the lock, while no writer has entered, and counted by that step |
| `CvRwLockWriteFirst.UnlockGivesBack` | more/new-features/cxx11/concurrency/condition_variable/cv_rwlock.cpp:148-155 | a writer is rid of the lock only when others may enter, and `unlock` is over only when it has woken everyone on `write_queue_` |
| `CvRwLockWriteFirst.UnlockSharedGivesBack` | more/new-features/cxx11/concurrency/condition_variable/cv_rwlock.cpp:164-173 | a reader is rid of the lock only when it has lowered `readers_` by one, and goes on to notify exactly when none is left and a writer has entered |
| `CvRwLockWriteFirst.LastReaderWakes` | more/new-features/cxx11/concurrency/condition_variable/cv_rwlock.cpp:174-178 | that notification wakes a writer on `read_queue_` if there is one |
| `CvRwLockWriteFirst.AnySleeperMayBeChosen` | more/new-features/cxx11/concurrency/condition_variable/cv_rwlock.cpp:177-177 | and it may be any sleeper of that queue |
| `CvRwLockWriteFirst.NothingElse` | more/new-features/cxx11/concurrency/condition_variable/cv_rwlock.cpp:140-179 | nothing but these changes `readers_` or `writer_entered_` |
| `CvRwLockWriteFirst.SleepsForAReason` | more/new-features/cxx11/concurrency/condition_variable/cv_rwlock.cpp:143-160 | a thread goes to sleep on `write_queue_` only while a writer has entered, and on `read_queue_` only while there are readers |
| `CvRwLockWriteFirst.SpuriousWakeup` | more/new-features/cxx11/concurrency/condition_variable/cv_rwlock.cpp:143-160 | a sleeper may wake at any time, and then looks again under the mutex |
| `CvRwLockWriteFirst.CallsBegin` | more/new-features/cxx11/concurrency/condition_variable/cv_rwlock.cpp:140-179 | a thread outside a call may call either kind of lock; one with the lock goes on to the matching unlock |
| `CvRwLockWriteFirst.CallsAdvance` | more/new-features/cxx11/concurrency/condition_variable/cv_rwlock.cpp:140-179 | every step of a thread in a call that does not sleep brings it nearer to the end of the call or to sleep |
| `CvRwLockWriteFirst.LockHadTheLock` | more/new-features/cxx11/concurrency/condition_variable/cv_rwlock.cpp:140-146 | in every run, a thread that was in `lock` and no longer is had the lock in between, without readers |
| `CvRwLockWriteFirst.LockSharedHadTheLock` | more/new-features/cxx11/concurrency/condition_variable/cv_rwlock.cpp:157-162 | in every run, a thread that was in `lock_shared` and no longer is had the lock in between, and came in while no writer had entered |
| `BlockQueue.Queue.constructor` | more/new-features/cxx11/concurrency/condition_variable/block_queue.cpp:22-22 | a new queue is empty |
| `BlockQueue.Queue.Enqueue` | more/new-features/cxx11/concurrency/condition_variable/block_queue.cpp:24-39 | each call is the next atomic step of `enqueue`, with `notify_one` after the unlock |
| `BlockQueue.Queue.Dequeue` | more/new-features/cxx11/concurrency/condition_variable/block_queue.cpp:41-57 | each call is the next atomic step of `dequeue`, with `notify_one` after the unlock |
| `BlockQueue.StepKeepsInv` | more/new-features/cxx11/concurrency/condition_variable/block_queue.cpp:24-57 | every step keeps the counting invariant: while a consumer sleeps un-notified, the size is at most the pending notifications plus the consumers about to look at the queue; symmetrically for producers and free places |
| `BlockQueue.AlwaysInv` | more/new-features/cxx11/concurrency/condition_variable/block_queue.cpp:24-57 | the counting invariant holds in every state of every run, with spurious wakeups and any number of threads |
| `BlockQueue.BoundedFifo` | more/new-features/cxx11/concurrency/condition_variable/block_queue.cpp:27-48 | dequeued values are a prefix of the enqueued ones, the queue is the rest, and it never exceeds a capacity that is not negative |
| `BlockQueue.SleepersWaitForTheQueue` | more/new-features/cxx11/concurrency/condition_variable/block_queue.cpp:24-57 | no lost wakeup, also for callers that do not loop: where no thread can go on without a new call, a sleeping consumer means an empty queue and a sleeping producer a full one |
| `BlockQueue.NoDeadlock` | more/new-features/cxx11/concurrency/condition_variable/block_queue.cpp:24-57 | with a producer and a consumer that loop, and a capacity other than zero, some thread can always step |
| `BlockQueue.CapacityZeroDeadlocks` | more/new-features/cxx11/concurrency/condition_variable/block_queue.cpp:27-27 | with capacity zero there is a run in which all threads sleep for good |
| `BlockQueue.DeadlockFreeIffCapacity` | more/new-features/cxx11/concurrency/condition_variable/block_queue.cpp:22-57 | freedom from deadlock in all runs holds if and only if the capacity is not zero; a negative capacity counts as a huge one after its conversion to `size_t` |
| `BlockQueue.EnqueueStores` | more/new-features/cxx11/concurrency/condition_variable/block_queue.cpp:24-31 | `enqueue` keeps its argument until it has put that, and nothing else, at the end of a queue that was not full |
| `BlockQueue.DequeueTakes` | more/new-features/cxx11/concurrency/condition_variable/block_queue.cpp:41-49 | `dequeue` goes on until it has taken the first value out of a queue that was not empty, and returns that value |
| `BlockQueue.EnqueueNotifies` | more/new-features/cxx11/concurrency/condition_variable/block_queue.cpp:32-33 | `enqueue` is over only when it has woken a consumer, if one sleeps |
| `BlockQueue.DequeueNotifies` | more/new-features/cxx11/concurrency/condition_variable/block_queue.cpp:50-51 | `dequeue` is over only when it has woken a producer, if one sleeps |
| `BlockQueue.AnySleeperMayBeChosen` | more/new-features/cxx11/concurrency/condition_variable/block_queue.cpp:32-50 | and it may be any of them |
| `BlockQueue.NothingElse` | more/new-features/cxx11/concurrency/condition_variable/block_queue.cpp:24-57 | nothing but these changes the queue; a producer goes to sleep only on a full one, a consumer only on an empty one |
| `BlockQueue.SpuriousWakeup` | more/new-features/cxx11/concurrency/condition_variable/block_queue.cpp:27-44 | a sleeper may wake at any time, and then looks again under the mutex |
| `BlockQueue.CallsAdvance` | more/new-features/cxx11/concurrency/condition_variable/block_queue.cpp:24-57 | every step of a thread in a call that does not sleep brings it nearer to the end of the call or to sleep |
| `BlockQueue.LimitOfCapacity` | more/new-features/cxx11/concurrency/condition_variable/block_queue.cpp:27-27 | the conversion of the capacity: the identity, or at least 2 to the 63 for a negative one |
| `BlockQueue.RunIsHistory` | more/new-features/cxx11/concurrency/condition_variable/block_queue.cpp:24-57 | linearizability: in the order in which the calls of any run take effect, their arguments and results are those of a queue that executes them one after the other |
| `BlockQueue.FifoOfCalls` | more/new-features/cxx11/concurrency/condition_variable/block_queue.cpp:24-57 | first in, first out over the calls themselves: the arguments of the `enqueue`s are the results of the `dequeue`s and then the queue |
| `QueueHistory.FirstInFirstOut` | more/new-features/cxx11/concurrency/condition_variable/block_queue.cpp:30-48 | what a sequence of operations takes out of a queue, and what it leaves, is what it has put in, in order |
| `CvBarrier.Barrier.constructor` | more/new-features/cxx11/concurrency/condition_variable/barrier.cpp:18-18 | a new barrier waits for `count` callers in generation 0 |
| `CvBarrier.Barrier.Wait` | more/new-features/cxx11/concurrency/condition_variable/barrier.cpp:20-33 | each call is the next atomic step of `wait` |
| `CvBarrier.StepKeepsInv` | more/new-features/cxx11/concurrency/condition_variable/barrier.cpp:20-33 | every step keeps the arrivals and returns of all generations exact, given a positive count |
| `CvBarrier.AlwaysInv` | more/new-features/cxx11/concurrency/condition_variable/barrier.cpp:15-47 | the invariant holds in every state of every run |
| `CvBarrier.CounterIsExact` | more/new-features/cxx11/concurrency/condition_variable/barrier.cpp:24-31 | whenever the mutex is free, arrivals are `generation_` times `count_` plus what is missing from `current_count_`, which lies between 1 and `count_`; an un-notified sleeper carries the current generation |
| `CvBarrier.NoEarlyReturn` | more/new-features/cxx11/concurrency/condition_variable/barrier.cpp:24-32 | nobody returns from a generation in which fewer than `count_` callers have arrived |
| `CvBarrier.EachGenerationReleasesCount` | more/new-features/cxx11/concurrency/condition_variable/barrier.cpp:25-32 | each finished generation releases exactly `count_` callers |
| `CvBarrier.SleepersAreTooFew` | more/new-features/cxx11/concurrency/condition_variable/barrier.cpp:28-31 | no lost wakeup: where nothing can move by itself, the waiters are sleepers of the current generation and fewer than `count_` |
| `CvBarrier.NotPositiveNeverReleases` | more/new-features/cxx11/concurrency/condition_variable/barrier.cpp:18-24 | with a count of zero or less nobody ever returns |
| `CvBarrier.TooFewNeverRelease` | more/new-features/cxx11/concurrency/condition_variable/barrier.cpp:24-32 | with fewer threads than the count nobody ever returns |
| `CvBarrier.ReturnsIffEnoughThreads` | more/new-features/cxx11/concurrency/condition_variable/barrier.cpp:18-32 | some run returns from `wait` if and only if the count is positive and there are as many threads |
| `CvBarrier.WaitArrives` | more/new-features/cxx11/concurrency/condition_variable/barrier.cpp:20-24 | a caller of `wait` goes on until it is counted in the generation that is under way |
| `CvBarrier.WaitReturns` | more/new-features/cxx11/concurrency/condition_variable/barrier.cpp:25-32 | once counted it stays until that generation is over, and only then returns |
| `CvBarrier.LeavingReturns` | more/new-features/cxx11/concurrency/condition_variable/barrier.cpp:20-33 | no step leaves `wait` in another way, whatever the count |
| `CvBarrier.NothingElse` | more/new-features/cxx11/concurrency/condition_variable/barrier.cpp:24-28 | nothing else changes the counter or the generation |
| `CvBarrier.LastWakesAll` | more/new-features/cxx11/concurrency/condition_variable/barrier.cpp:28-28 | the last to arrive returns only when it has woken every sleeper |
| `CvBarrier.SleepsForAReason` | more/new-features/cxx11/concurrency/condition_variable/barrier.cpp:31-31 | a caller goes to sleep only in the generation that is under way, and may wake at any time |
| `CvBarrier.CallsAdvance` | more/new-features/cxx11/concurrency/condition_variable/barrier.cpp:20-33 | every step of a caller that does not sleep brings it nearer to its return or to sleep |
| `CvBarrier.NoEarlyLeave` | more/new-features/cxx11/concurrency/condition_variable/barrier.cpp:20-33 | over leaving the call itself: a thread that called `wait` and is out of it has arrived in a generation not older than its call, and when it returned exactly `count_` callers had arrived in that |
| `CvBarrier.NobodyLeaves` | more/new-features/cxx11/concurrency/condition_variable/barrier.cpp:24-31 | with a count that is not positive or above the number of threads, no call of `wait` ever ends |
| `SpinBarrier.Barrier.constructor` | more/new-features/cxx11/concurrency/atomic/barrier.cpp:18-22 | a new barrier, with as many client threads as it counts |
| `SpinBarrier.Barrier.Log` | more/new-features/cxx11/concurrency/atomic/barrier.cpp:60-66 | the client logs the stage it is in |
| `SpinBarrier.Barrier.Wait` | more/new-features/cxx11/concurrency/atomic/barrier.cpp:24-39 | each call is one atomic access of `wait` |
| `SpinBarrier.StepKeepsInv` | more/new-features/cxx11/concurrency/atomic/barrier.cpp:24-39 | every atomic access keeps the generations, the counter and the log consistent |
| `SpinBarrier.AlwaysInv` | more/new-features/cxx11/concurrency/atomic/barrier.cpp:24-70 | the invariant holds in every state of every run |
| `SpinBarrier.Lockstep` | more/new-features/cxx11/concurrency/atomic/barrier.cpp:26-37 | two threads are at most one phase apart, and nobody leaves a phase before all have arrived in it |
| `SpinBarrier.LoadedGenerationIsCurrent` | more/new-features/cxx11/concurrency/atomic/barrier.cpp:26-31 | the generation loaded before the decrement is still current when the last arriver stores its successor, and all others spin |
| `SpinBarrier.LogIsSorted` | more/new-features/cxx11/concurrency/atomic/barrier.cpp:60-69 | the client's log is sorted by stage at every point of every run |
| `SpinBarrier.FinalLogIsExpected` | more/new-features/cxx11/concurrency/atomic/barrier.cpp:53-70 | when all threads are done the log holds each stage once per thread, in order |
| `SpinBarrier.Progress` | more/new-features/cxx11/concurrency/atomic/barrier.cpp:24-39 | until all are done, some thread has a step that changes the state |
| `SpinBarrier.WaitEndsGeneration` | more/new-features/cxx11/concurrency/atomic/barrier.cpp:24-69 | a thread leaves its work only by logging its stage, and `wait` only for the next stage, when the generation of its stage is over |
| `SpinBarrier.StepLowersMeasure` | more/new-features/cxx11/concurrency/atomic/barrier.cpp:24-70 | every step that changes the state lowers a measure over the stages and program points of all threads |
| `SpinBarrier.ChangesRunOut` | more/new-features/cxx11/concurrency/atomic/barrier.cpp:53-70 | no run has more steps that change the state than the number of threads times six per stage and five |
| `SpinBarrier.RunCanEnd` | more/new-features/cxx11/concurrency/atomic/barrier.cpp:53-70 | every run can be continued until all threads are done with all stages |
| `SpinBarrierThreads.Round` | more/new-features/cxx11/concurrency/atomic/barrier.cpp:24-39 | any set of at least `count_` threads, in any stages, can pass one generation together: the late arrivals are overwritten by the store of the count, and everyone else stays where it was |
| `SpinBarrierThreads.TooFewNeverEnd` | more/new-features/cxx11/concurrency/atomic/barrier.cpp:27-38 | with fewer threads than the count, or a count that is not positive, no run ends |
| `SpinBarrierThreads.OneLeftBehind` | more/new-features/cxx11/concurrency/atomic/barrier.cpp:29-29 | with more threads than a count of at least two, overwritten arrivals leave a thread behind that spins for ever |
| `SpinBarrierThreads.StaleStore` | more/new-features/cxx11/concurrency/atomic/barrier.cpp:26-30 | with a count of one and more threads, a thread may store a generation that is already current, and another spins on it for ever |
| `SpinBarrierThreads.AlwaysEndsIff` | more/new-features/cxx11/concurrency/atomic/barrier.cpp:18-70 | for any count, threads and stages: every run can be continued until all threads are done if and only if the count is the number of threads, or there is no thread or no stage, or two threads pass a barrier of one a single time |
| `TicketLock.Ticketlock.constructor` | more/new-features/cxx11/concurrency/lockfree/ticketlock.h:8-11 | a new lock is free with both counters zero |
| `TicketLock.Ticketlock.Lock` | more/new-features/cxx11/concurrency/lockfree/ticketlock.h:13-19 | each call is one atomic access of `lock`, on counters modulo 2 to the 32 |
| `TicketLock.Ticketlock.Unlock` | more/new-features/cxx11/concurrency/lockfree/ticketlock.h:21-25 | each call is one atomic access of `unlock`: a load and, separately, a store |
| `TicketLock.StepKeepsInv` | more/new-features/cxx11/concurrency/lockfree/ticketlock.h:13-25 | with at most 2 to the 32 threads every step keeps: the outstanding tickets are the residues from turn to ticket, distinct and in order, and only the first may hold |
| `TicketLock.AlwaysInv` | more/new-features/cxx11/concurrency/lockfree/ticketlock.h:5-30 | the invariant holds in every state of every run with at most 2 to the 32 threads |
| `TicketLock.Exclusion` | more/new-features/cxx11/concurrency/lockfree/ticketlock.h:13-25 | at most one thread holds the lock, also in the middle of its `unlock` |
| `TicketLock.GrantsFollowTickets` | more/new-features/cxx11/concurrency/lockfree/ticketlock.h:15-18 | the lock is granted in the order of the `fetch_add`s |
| `TicketLock.RunRefinesFifo` | more/new-features/cxx11/concurrency/lockfree/ticketlock.h:5-30 | every run refines a run of the first-in-first-out lock, from its empty state |
| `TicketLock.LockTakes` | more/new-features/cxx11/concurrency/lockfree/ticketlock.h:13-19 | `lock` begins with a ticket, keeps it, and is left only with the lock, when that ticket is the one called |
| `TicketLock.UnlockCallsNext` | more/new-features/cxx11/concurrency/lockfree/ticketlock.h:21-25 | a thread keeps the lock until it has called exactly the next ticket |
| `TicketLock.NothingElse` | more/new-features/cxx11/concurrency/lockfree/ticketlock.h:13-25 | nothing else changes the two counters |
| `TicketLock.Progress` | more/new-features/cxx11/concurrency/lockfree/ticketlock.h:13-25 | while some thread is in a call or holds the lock, the first of the queue has a step that changes the state |
| `TicketLock.EveryTicketIsServed` | more/new-features/cxx11/concurrency/lockfree/ticketlock.h:13-25 | a waiting thread at place i of the queue gets the lock after at most 3i+1 steps of those in front of it and its own |
| `TicketLock.TooManyThreads` | more/new-features/cxx11/concurrency/lockfree/ticketlock.h:15-16 | with one thread more than 2 to the 32 there is a run in which two threads hold the lock |
| `TicketLock.ExclusionIffEnoughTickets` | more/new-features/cxx11/concurrency/lockfree/ticketlock.h:5-30 | mutual exclusion in all runs holds if and only if there are at most 2 to the 32 threads |
| `CasRwLock.RwLock.constructor` | more/new-features/cxx11/concurrency/lockfree/rwlock.h:8-8 | a new lock is free, with the client's data |
| `CasRwLock.RwLock.Lock` | more/new-features/cxx11/concurrency/lockfree/rwlock.h:10-28 | each call is one atomic access of `lock`; the weak exchange may fail for no reason |
| `CasRwLock.RwLock.WriteAndUnlock` | more/new-features/cxx11/concurrency/lockfree/test_rwlock.cpp:76-80 | the client writes one element at a time under the lock, then unlocks |
| `CasRwLock.RwLock.LockShared` | more/new-features/cxx11/concurrency/lockfree/rwlock.h:35-53 | each call is one atomic access of `lock_shared` |
| `CasRwLock.RwLock.CopyAndUnlockShared` | more/new-features/cxx11/concurrency/lockfree/test_rwlock.cpp:60-64 | the client copies one element at a time under the lock, then unlocks |
| `CasRwLock.StepKeepsInv` | more/new-features/cxx11/concurrency/lockfree/rwlock.h:10-58 | every step of any number of threads keeps the atomic at -1 for one writer and otherwise at the number of readers as a 32-bit integer, and the data that a reader sees stable |
| `CasRwLock.AlwaysInv` | more/new-features/cxx11/concurrency/lockfree/rwlock.h:10-58 | the invariant holds in every state of every run of any number of threads |
| `CasRwLock.Exclusion` | more/new-features/cxx11/concurrency/lockfree/rwlock.h:17-57 | a writer that has the lock shares it with no one, however many threads there are |
| `CasRwLock.CounterIsExact` | more/new-features/cxx11/concurrency/lockfree/rwlock.h:10-58 | with fewer than 2 to the 31 threads the atomic is -1 exactly when one writer and no reader holds the lock, and otherwise the number of readers |
| `CasRwLock.NoTornRead` | more/new-features/cxx11/concurrency/lockfree/test_rwlock.cpp:58-69 | however many threads there are, every completed copy is one of the written values, whole |
| `CasRwLock.LockTakes` | more/new-features/cxx11/concurrency/lockfree/rwlock.h:10-28 | `lock` is left only with the lock, by the step from 0 to -1, and the client still has its value |
| `CasRwLock.WriterWrites` | more/new-features/cxx11/concurrency/lockfree/test_rwlock.cpp:73-81 | the client goes on writing until the data are its value, whole, and only then stores 0 |
| `CasRwLock.LockSharedTakes` | more/new-features/cxx11/concurrency/lockfree/rwlock.h:35-53 | `lock_shared` is left only with the lock, when no writer has it, by the step that counts the thread |
| `CasRwLock.ReaderReads` | more/new-features/cxx11/concurrency/lockfree/test_rwlock.cpp:55-70 | the client goes on copying until its copy is the data, and only then subtracts one |
| `CasRwLock.NothingElse` | more/new-features/cxx11/concurrency/lockfree/rwlock.h:10-58 | nothing else changes the atomic, and nobody but a writer with the lock the data |
| `CasRwLock.CallsBegin` | more/new-features/cxx11/concurrency/lockfree/rwlock.h:10-58 | a thread outside a call may call, and any weak compare-and-swap may fail for no reason |
| `CasRwLock.FreeLockIsTaken` | more/new-features/cxx11/concurrency/lockfree/rwlock.h:15-27 | two steps that do not fail for no reason take a free lock for writing |
| `CasRwLock.SharedLockIsTaken` | more/new-features/cxx11/concurrency/lockfree/rwlock.h:40-52 | and a lock without writer for reading |
| `CasRwLock.WriteIsDone` | more/new-features/cxx11/concurrency/lockfree/test_rwlock.cpp:73-81 | in every run, a client that has called `lock` with a value and is past its critical section has written that value, whole |
| `CasRwLock.NoOverflowIffFewThreads` | more/new-features/cxx11/concurrency/lockfree/rwlock.h:47-51 | no run computes `expected + 1` at the greatest 32-bit integer if and only if there are fewer than 2 to the 31 threads |
| `CasRwLock.ExactIffFewThreads` | more/new-features/cxx11/concurrency/lockfree/rwlock.h:47-57 | if that addition wraps around, the counter is exact in all runs if and only if there are fewer than 2 to the 31 threads |
| `DummyQueue.Queue.constructor` | more/new-features/cxx11/concurrency/data_struct/threadsafe_queue_with_dummy_node.h:55-60 | a new queue is one dummy node |
| `DummyQueue.Queue.Push` | more/new-features/cxx11/concurrency/data_struct/threadsafe_queue_with_dummy_node.h:79-90 | each call is one assignment or lock acquisition of `push` |
| `DummyQueue.Queue.TryPop` | more/new-features/cxx11/concurrency/data_struct/threadsafe_queue_with_dummy_node.h:62-77 | each call is one assignment or lock acquisition of `try_pop`, which drops the tail mutex after the comparison |
| `DummyQueue.StepKeepsInv` | more/new-features/cxx11/concurrency/data_struct/threadsafe_queue_with_dummy_node.h:62-90 | every step keeps the list from head to tail in shape while a push and a pop are both under way |
| `DummyQueue.AlwaysInv` | more/new-features/cxx11/concurrency/data_struct/threadsafe_queue_with_dummy_node.h:62-90 | the invariant holds in every state of every run |
| `DummyQueue.Fifo` | more/new-features/cxx11/concurrency/data_struct/threadsafe_queue_with_dummy_node.h:73-89 | the values popped are the first values pushed, in order, none of them null |
| `DummyQueue.ListHoldsContents` | more/new-features/cxx11/concurrency/data_struct/threadsafe_queue_with_dummy_node.h:63-89 | with no pop under way, the contents are the data of the nodes from head up to but excluding tail, each linked to the next |
| `DummyQueue.NullIffEmpty` | more/new-features/cxx11/concurrency/data_struct/threadsafe_queue_with_dummy_node.h:68-71 | a pop returns null if and only if the queue is empty at the comparison |
| `DummyQueue.NoFreedNodeIsUsed` | more/new-features/cxx11/concurrency/data_struct/threadsafe_queue_with_dummy_node.h:73-89 | no step of any run touches a node that has been freed |
| `DummyQueue.EndsAreApart` | more/new-features/cxx11/concurrency/data_struct/threadsafe_queue_with_dummy_node.h:73-89 | the node a pop dismantles without the tail mutex is never the node a push writes |
| `DummyQueue.RunRefinesQueue` | more/new-features/cxx11/concurrency/data_struct/threadsafe_queue_with_dummy_node.h:62-90 | linearizability: every run refines a run of an atomic first-in-first-out sequence |
| `DummyQueue.PushAppends` | more/new-features/cxx11/concurrency/data_struct/threadsafe_queue_with_dummy_node.h:80-90 | `push` keeps its argument and its node until it has put that argument, and nothing else, at the end, with that node as the new dummy |
| `DummyQueue.PopTakes` | more/new-features/cxx11/concurrency/data_struct/threadsafe_queue_with_dummy_node.h:63-77 | `try_pop` is left only with null from an empty queue, or with the first value, which is then out |
| `DummyQueue.NothingElse` | more/new-features/cxx11/concurrency/data_struct/threadsafe_queue_with_dummy_node.h:62-90 | nothing else changes what is in the queue |
| `DummyQueue.CallsAdvance` | more/new-features/cxx11/concurrency/data_struct/threadsafe_queue_with_dummy_node.h:62-90 | a thread outside a call may call, and every step of a call brings it nearer to its end |
| `DummyQueue.NothingLeaks` | more/new-features/cxx11/concurrency/data_struct/threadsafe_queue_with_dummy_node.h:73-76 | between calls the allocated nodes are exactly those of the list: popped nodes have been freed |
| `DummyQueue.RunIsHistory` | more/new-features/cxx11/concurrency/data_struct/threadsafe_queue_with_dummy_node.h:62-90 | linearizability over the calls: in the order in which they end, their arguments and results, null included, are those of a queue that executes them one after the other |
| `DummyQueue.FifoOfCalls` | more/new-features/cxx11/concurrency/data_struct/threadsafe_queue_with_dummy_node.h:62-90 | first in, first out over the calls: the arguments of the pushes are the results of the pops and then the contents |
| `DummyQueue.NoDeadlock` | more/new-features/cxx11/concurrency/data_struct/threadsafe_queue_with_dummy_node.h:65-86 | while a call is under way, some call can step |
| `Primes.IsPrime` | more/new-features/cxx11/concurrency/data_struct/threadsafe_lookup_table2.h:15-43 | true exactly for the primes, by trial division with 6k-1 and 6k+1 up to the root rounded up |
| `Primes.GetDoublePrimeNumber` | more/new-features/cxx11/concurrency/data_struct/threadsafe_lookup_table2.h:45-61 | fails for n not positive, otherwise terminates with the least prime that is at least 2n+1 |
| `Primes.Euclid` | more/new-features/cxx11/concurrency/data_struct/threadsafe_lookup_table2.h:55-60 | there is a prime above every number, which bounds the search loop |
| `Primes.CeilSqrt` | more/new-features/cxx11/concurrency/data_struct/threadsafe_lookup_table2.h:33-33 | the least integer whose square reaches the argument |
| `IntrusiveList.Node.constructor` | more/new-features/cxx11/concurrency/data_struct/list.h:14-19 | a new node is linked to nothing |
| `IntrusiveList.List.constructor` | more/new-features/cxx11/concurrency/data_struct/list.h:26-28 | a new list is empty |
| `IntrusiveList.List.Find` | more/new-features/cxx11/concurrency/data_struct/list.h:52-62 | the first node with the value, or null exactly when no node has it |
| `IntrusiveList.List.PushBackNode` | more/new-features/cxx11/concurrency/data_struct/list.h:70-83 | the given node itself becomes the last one of a well-formed doubly linked list |
| `IntrusiveList.List.PushBack` | more/new-features/cxx11/concurrency/data_struct/list.h:64-68 | a new node with the value becomes the last one |
| `IntrusiveList.List.PopFront` | more/new-features/cxx11/concurrency/data_struct/list.h:85-107 | takes the first node off and clears its links, or returns null for an empty list |
| `IntrusiveList.List.PopBack` | more/new-features/cxx11/concurrency/data_struct/list.h:109-129 | takes the last node off and clears its links, or returns null for an empty list |
| `IntrusiveList.List.Erase` | more/new-features/cxx11/concurrency/data_struct/list.h:131-153 | takes the given node out of the chain, whether first, last or in between, and keeps the order of the others |
| `IntrusiveList.List.Empty` | more/new-features/cxx11/concurrency/data_struct/list.h:155-158 | true exactly for the list without nodes |
| `TableModel.FindIsMembership` | more/new-features/cxx11/concurrency/data_struct/threadsafe_lookup_table2.h:121-125 | looking in one bucket decides membership in the set of all values |
| `TableModel.InsertRefinesSet` | more/new-features/cxx11/concurrency/data_struct/threadsafe_lookup_table2.h:127-138 | `insert` adds the value to the set and keeps: each value in the bucket of its hash, no duplicates, `size_` equal to the total length and at most the bucket count |
| `TableModel.EraseRefinesSet` | more/new-features/cxx11/concurrency/data_struct/threadsafe_lookup_table2.h:140-147 | `erase` removes the value from the set and keeps the invariant |
| `TableModel.ReserveRefinesSet` | more/new-features/cxx11/concurrency/data_struct/threadsafe_lookup_table2.h:189-198 | `reserve` leaves the set alone, keeps the invariant, and leaves at least as many buckets as asked for |
| `TableModel.RehashKeepsElements` | more/new-features/cxx11/concurrency/data_struct/threadsafe_lookup_table2.h:208-224 | rehashing keeps every value, once, and puts it in the bucket of its new hash |
| `TableModel.SizeIsCardinality` | more/new-features/cxx11/concurrency/data_struct/threadsafe_lookup_table2.h:155-159 | `size_` is the number of different values |
| `TableModel.RunRefinesSet` | more/new-features/cxx11/concurrency/data_struct/threadsafe_lookup_table2.h:121-231 | any run of operations refines the same run on a mathematical set |
| `TableModel.AmortizedCost` | more/new-features/cxx11/concurrency/data_struct/threadsafe_lookup_table2.h:127-138 | over any run of inserts and erases, rehashing moves at most twice as many nodes as there were successful inserts |
| `TableModel.ReserveAvoidsRehash` | more/new-features/cxx11/concurrency/data_struct/threadsafe_lookup_table2.h:189-198 | after `reserve(count)` nothing is moved while the size stays at most `count` |
| `TableModel.BucketOfHash` | more/new-features/cxx11/concurrency/data_struct/threadsafe_lookup_table2.h:202-206 | a value is found in the bucket of its hash modulo the bucket count, and is in no other |
| `TableModel.InsertPutsLast` | more/new-features/cxx11/concurrency/data_struct/threadsafe_lookup_table2.h:127-138 | `insert` puts a new value at the end of that bucket, and changes the buckets only above the load, to the next prime count |
| `TableModel.EraseTakesOut` | more/new-features/cxx11/concurrency/data_struct/threadsafe_lookup_table2.h:140-147 | `erase` takes the value out of that bucket and leaves the others in their places |
| `TableModel.ReserveTakesNextPrime` | more/new-features/cxx11/concurrency/data_struct/threadsafe_lookup_table2.h:189-198 | `reserve` above the bucket count takes the least prime from twice its argument and one on |
| `TableModel.RehashInOrder` | more/new-features/cxx11/concurrency/data_struct/threadsafe_lookup_table2.h:208-224 | after a rehash each bucket holds the values whose hash says so, in the order in which they were moved |
| `LookupTable1.Table.constructor` | more/new-features/cxx11/concurrency/data_struct/threadsafe_lookup_table1.h:129-135 | a new table with empty buckets |
| `LookupTable1.Table.Find` | more/new-features/cxx11/concurrency/data_struct/threadsafe_lookup_table1.h:137-141 | whether the value is in the bucket of its hash modulo the bucket count |
| `LookupTable1.Table.Insert` | more/new-features/cxx11/concurrency/data_struct/threadsafe_lookup_table1.h:143-154 | what the table does is `insert` of the model: without a rehash a new value goes to the end of the bucket of its hash; it moves as many values as the model says |
| `LookupTable1.Table.Erase` | more/new-features/cxx11/concurrency/data_struct/threadsafe_lookup_table1.h:156-163 | what the table does is `erase` of the model |
| `LookupTable1.Table.Reserve` | more/new-features/cxx11/concurrency/data_struct/threadsafe_lookup_table1.h:205-214 | what the table does is `reserve` of the model |
| `LookupTable1.Table.DoRehash` | more/new-features/cxx11/concurrency/data_struct/threadsafe_lookup_table1.h:224-239 | the nested loops build exactly the rehashed buckets, in order |
| `LookupTable2.Table.constructor` | more/new-features/cxx11/concurrency/data_struct/threadsafe_lookup_table2.h:113-119 | a new table with empty, separate lists |
| `LookupTable2.Table.Find` | more/new-features/cxx11/concurrency/data_struct/threadsafe_lookup_table2.h:121-125 | whether the value is in the bucket of its hash modulo the bucket count |
| `LookupTable2.Table.Insert` | more/new-features/cxx11/concurrency/data_struct/threadsafe_lookup_table2.h:127-138 | what the table of linked lists does is `insert` of the model; without a rehash a new value goes to the end of the list of its hash; its lists stay well-formed and share no node |
| `LookupTable2.Table.Erase` | more/new-features/cxx11/concurrency/data_struct/threadsafe_lookup_table2.h:140-147 | what the table does is `erase` of the model, and no node is allocated |
| `LookupTable2.Table.Reserve` | more/new-features/cxx11/concurrency/data_struct/threadsafe_lookup_table2.h:189-198 | what the table does is `reserve` of the model |
| `LookupTable2.Table.Grow` | more/new-features/cxx11/concurrency/data_struct/threadsafe_lookup_table2.h:133-136 | rehashes exactly when there are more values than buckets, to the least prime that is at least twice the bucket count plus one |
| `LookupTable2.Table.DoRehash` | more/new-features/cxx11/concurrency/data_struct/threadsafe_lookup_table2.h:208-224 | the very same node objects end up in the new lists, none allocated, lost or shared, in the order of the model |
| `LookupTable2.DrainFrom` | more/new-features/cxx11/concurrency/data_struct/threadsafe_lookup_table2.h:216-220 | popping a list empty node by node appends its nodes in order to the lists of their new hashes |
| `LookupTable2.RelinkIsRehash` | more/new-features/cxx11/concurrency/data_struct/threadsafe_lookup_table2.h:208-224 | relinking nodes gives the same bucket contents as rebuilding value lists |
| `TablesAgree.ApplyBoth` | more/new-features/cxx11/concurrency/data_struct/threadsafe_lookup_table2.h:127-198 | one operation on both tables keeps their bucket counts, sizes and ordered contents identical |
| `TablesAgree.RunBoth` | more/new-features/cxx11/concurrency/data_struct/threadsafe_lookup_table1.h:143-246 | after any sequence of operations from the same start the two tables have identical bucket counts, sizes and ordered bucket contents, have moved equally much, and hold the set that the operations make |
| `SharedPtr.Memory.constructor` | Chapter 4. Smart Pointers/Item 19 Use shared_ptr for shared-ownership resource management/item19.cpp:47-47 | no handle, counter or object yet |
| `SharedPtr.Memory.Construct` | Chapter 4. Smart Pointers/Item 19 Use shared_ptr for shared-ownership resource management/item19.cpp:47-50 | a new handle with a new counter of one, for any raw pointer |
| `SharedPtr.Memory.CopyConstruct` | Chapter 4. Smart Pointers/Item 19 Use shared_ptr for shared-ownership resource management/item19.cpp:53-58 | first step of the copy constructor, from any handle: the fields are copied, the increment is still to come |
| `SharedPtr.Memory.MoveConstruct` | Chapter 4. Smart Pointers/Item 19 Use shared_ptr for shared-ownership resource management/item19.cpp:60-66 | the fields change hands and the source is left null |
| `SharedPtr.Memory.CopyAssign` | Chapter 4. Smart Pointers/Item 19 Use shared_ptr for shared-ownership resource management/item19.cpp:68-78 | start of the copy assignment, from any handle; nothing happens on self-assignment |
| `SharedPtr.Memory.Destroy` | Chapter 4. Smart Pointers/Item 19 Use shared_ptr for shared-ownership resource management/item19.cpp:51-51 | start of the destructor |
| `SharedPtr.Memory.DropCount` | Chapter 4. Smart Pointers/Item 19 Use shared_ptr for shared-ownership resource management/item19.cpp:39-39 | first step of `release`: the null test and the atomic decrement, which decides whether this handle was the last |
| `SharedPtr.Memory.FreeObject` | Chapter 4. Smart Pointers/Item 19 Use shared_ptr for shared-ownership resource management/item19.cpp:42-42 | second step of the last `release`: the object is deleted |
| `SharedPtr.Memory.FreeCounter` | Chapter 4. Smart Pointers/Item 19 Use shared_ptr for shared-ownership resource management/item19.cpp:43-43 | third step of the last `release`: the counter is deleted |
| `SharedPtr.Memory.Finish` | Chapter 4. Smart Pointers/Item 19 Use shared_ptr for shared-ownership resource management/item19.cpp:73-75 | each call is one step after `release`: copying the fields, the atomic increment, the end of a destructor |
| `SharedPtr.StepKeepsInv` | Chapter 4. Smart Pointers/Item 19 Use shared_ptr for shared-ownership resource management/item19.cpp:37-78 | every step of every thread keeps each counter equal to its live handles, at zero exactly while one thread deletes it |
| `SharedPtr.AlwaysInv` | Chapter 4. Smart Pointers/Item 19 Use shared_ptr for shared-ownership resource management/item19.cpp:31-143 | the invariant holds in every state of every run of threads that own distinct handles, as long as no object has been wrapped twice and no moved-from handle copied or assigned (`clean`; so in the rows below) |
| `SharedPtr.CountIsExact` | Chapter 4. Smart Pointers/Item 19 Use shared_ptr for shared-ownership resource management/item19.cpp:39-75 | conservation: each counter equals the number of live handles on it, and no counter in use has been freed |
| `SharedPtr.LiveHandleIsUsable` | Chapter 4. Smart Pointers/Item 19 Use shared_ptr for shared-ownership resource management/item19.cpp:80-88 | what a live handle refers to has been neither freed nor deleted |
| `SharedPtr.NoUseAfterFree` | Chapter 4. Smart Pointers/Item 19 Use shared_ptr for shared-ownership resource management/item19.cpp:37-78 | no step of any thread in any run reads or writes freed memory |
| `SharedPtr.NothingIsDeletedTwice` | Chapter 4. Smart Pointers/Item 19 Use shared_ptr for shared-ownership resource management/item19.cpp:39-44 | no object and no counter is deleted twice |
| `SharedPtr.CounterFreedWithLastHandle` | Chapter 4. Smart Pointers/Item 19 Use shared_ptr for shared-ownership resource management/item19.cpp:39-43 | between operations a counter is allocated exactly while some handle refers to it |
| `SharedPtr.ObjectDeletedWithLastHandle` | Chapter 4. Smart Pointers/Item 19 Use shared_ptr for shared-ownership resource management/item19.cpp:39-42 | between operations an object is allocated exactly while some handle owns it |
| `SharedPtr.DeletedIffNoOwner` | Chapter 4. Smart Pointers/Item 19 Use shared_ptr for shared-ownership resource management/item19.cpp:39-42 | an object wrapped earlier in the run has been deleted exactly if no handle owns it any more |
| `SharedPtr.OperationsFinish` | Chapter 4. Smart Pointers/Item 19 Use shared_ptr for shared-ownership resource management/item19.cpp:37-78 | no operation waits: every busy thread has a step that brings it nearer to the end of its operation |
| `SharedPtr.NeverNullWithoutMoves` | Chapter 4. Smart Pointers/Item 19 Use shared_ptr for shared-ownership resource management/item19.cpp:97-104 | without move construction, as in the array version, no counter field is ever null, so its `release` needs no null test |
| `SharedPtr.CopyBegins` | Chapter 4. Smart Pointers/Item 19 Use shared_ptr for shared-ownership resource management/item19.cpp:53-70 | a copy construction or assignment begins to copy unless it is an assignment to itself, and touches no other handle |
| `SharedPtr.CopyingMakesCopy` | Chapter 4. Smart Pointers/Item 19 Use shared_ptr for shared-ownership resource management/item19.cpp:53-78 | it goes on until the target refers to the counter and object of the source and both are counted |
| `SharedPtr.CopyIsMade` | Chapter 4. Smart Pointers/Item 19 Use shared_ptr for shared-ownership resource management/item19.cpp:53-78 | in every run, when a copy construction or assignment is over the target has been made a counted copy of the source |
| `SharedPtr.DestroyingRemoves` | Chapter 4. Smart Pointers/Item 19 Use shared_ptr for shared-ownership resource management/item19.cpp:51-51 | a destruction goes on until the handle is gone, and changes no other handle |
| `SharedPtr.DestructionIsDone` | Chapter 4. Smart Pointers/Item 19 Use shared_ptr for shared-ownership resource management/item19.cpp:37-51 | in every run, when a destruction is over the handle has gone |
| `SharedPtr.OtherHandlesStay` | Chapter 4. Smart Pointers/Item 19 Use shared_ptr for shared-ownership resource management/item19.cpp:37-78 | a thread at work changes no handle but the one it is working on |
| `SharedPtr.CopyIsSafeIff` | Chapter 4. Smart Pointers/Item 19 Use shared_ptr for shared-ownership resource management/item19.cpp:53-58 | the increment of a copy is safe if and only if the source is not null |
| `SharedPtr.NullIffMovedFrom` | Chapter 4. Smart Pointers/Item 19 Use shared_ptr for shared-ownership resource management/item19.cpp:60-66 | a handle is null if and only if it has been moved from, or constructed by a move from a null handle, and not been set since |
| `SharedPtr.CopyIsSafeIffNotMovedFrom` | Chapter 4. Smart Pointers/Item 19 Use shared_ptr for shared-ownership resource management/item19.cpp:53-66 | so a copy is safe if and only if its source has not been moved from since it was set |
| `SharedPtr.MovedCopyIsUnsafe` | Chapter 4. Smart Pointers/Item 19 Use shared_ptr for shared-ownership resource management/item19.cpp:53-66 | the run construct, move, copy of the moved-from handle, at which the increment would dereference null |
| `SharedPtr.AssignIsSafeIff` | Chapter 4. Smart Pointers/Item 19 Use shared_ptr for shared-ownership resource management/item19.cpp:68-78 | a copy assignment runs to its end without touching freed or null memory if and only if it is to itself or the source is not null |
| `SharedPtr.AssignIsSafeIffNotMovedFrom` | Chapter 4. Smart Pointers/Item 19 Use shared_ptr for shared-ownership resource management/item19.cpp:60-78 | so it does if and only if it is to itself or its source has not been moved from since it was set |
| `SharedPtr.NullAssignNeverEnds` | Chapter 4. Smart Pointers/Item 19 Use shared_ptr for shared-ownership resource management/item19.cpp:68-78 | whatever the other threads do, the assignment of a null handle to another one never comes to its end: the thread stops before an increment through null |
| `SharedPtr.MovedAssignIsUnsafe` | Chapter 4. Smart Pointers/Item 19 Use shared_ptr for shared-ownership resource management/item19.cpp:60-78 | the run construct, move, assign the moved-from handle, whose increment would dereference null |
| `SharedPtr.WrapIsSoundIff` | Chapter 4. Smart Pointers/Item 19 Use shared_ptr for shared-ownership resource management/item19.cpp:37-51 | a raw pointer, possibly null, may be wrapped if and only if its object has not been wrapped before: otherwise destroying the new handle again leaves an object deleted twice, a live handle without its object, or a thread about to delete what is gone |
| `SharedPtr.DoubleWrapIsUnsafe` | Chapter 4. Smart Pointers/Item 19 Use shared_ptr for shared-ownership resource management/item19.cpp:39-50 | the run that wraps one object in two handles and destroys both, at which the object would be deleted twice |
| `SignedEncoding.FakeAddBits` | cppreference/General-utilities-library/bitset/apps/representing-signed-integers/common.cpp:20-43 | sum and carry of three bits |
| `SignedEncoding.FakeAdd` | cppreference/General-utilities-library/bitset/apps/representing-signed-integers/common.cpp:45-56 | for every width, sum plus 2 to the W times carry is the sum of the unsigned operands |
| `SignedEncoding.OverflowIffUnrepresentable` | cppreference/General-utilities-library/bitset/apps/representing-signed-integers/common.h:53-57 | `detect_overflow` is true exactly when the signed sum is not representable, and otherwise the sum is right |
| `SignedEncoding.AdditionOfMachineWords` | cppreference/General-utilities-library/bitset/apps/representing-signed-integers/common.cpp:45-65 | adding two encoded numbers gives the encoding of their sum whenever that is in range |
| `SignedEncoding.WordToMachine` | cppreference/General-utilities-library/bitset/apps/representing-signed-integers/common.cpp:58-65 | the bits of the word are its two's complement |
| `SignedEncoding.MachineRoundTrip` | cppreference/General-utilities-library/bitset/apps/representing-signed-integers/common.cpp:58-154 | decoding the machine bits gives back every number of the range |
| `SignedEncoding.MachineIsOnto` | cppreference/General-utilities-library/bitset/apps/representing-signed-integers/common.cpp:58-154 | every word is the encoding of the number it decodes to |
| `SignedEncoding.WordToOriginalCode` | cppreference/General-utilities-library/bitset/apps/representing-signed-integers/common.cpp:68-87 | sign and magnitude by short division; throws exactly for the least number, whose absolute value wraps |
| `SignedEncoding.WordToOnesComplement` | cppreference/General-utilities-library/bitset/apps/representing-signed-integers/common.cpp:90-104 | flipping the magnitude gives the ones' complement; throws exactly for the least number |
| `SignedEncoding.WordToOnesComplement1` | cppreference/General-utilities-library/bitset/apps/representing-signed-integers/common.cpp:107-111 | flipping the absolute value gives the same ones' complement, on the whole range |
| `SignedEncoding.NegationIsFlip` | cppreference/General-utilities-library/bitset/apps/representing-signed-integers/common.cpp:107-111 | in ones' complement negation flips every bit |
| `SignedEncoding.SignBitIffNotMinimum` | cppreference/General-utilities-library/bitset/apps/representing-signed-integers/common.cpp:107-111 | the top bit of the second algorithm is the sign exactly for all numbers but the least |
| `SignedEncoding.WordToTwosComplement` | cppreference/General-utilities-library/bitset/apps/representing-signed-integers/common.cpp:114-127 | ones' complement plus one equals the machine bits; throws exactly for the least number |
| `SignedEncoding.WordToTwosComplement1` | cppreference/General-utilities-library/bitset/apps/representing-signed-integers/common.cpp:130-139 | 2 to the W-1 less the absolute value, with the sign set, equals the machine bits on the whole range |
| `SignedEncoding.TwosComplementToWord` | cppreference/General-utilities-library/bitset/apps/representing-signed-integers/common.cpp:142-154 | the weights add up to the signed value, without wrapping on the way |
| `SignedEncoding.OrigCodeToWord` | cppreference/General-utilities-library/bitset/apps/representing-signed-integers/common.cpp:156-163 | the number of a sign-and-magnitude word |
| `SignedEncoding.OriginalRoundTrip` | cppreference/General-utilities-library/bitset/apps/representing-signed-integers/common.cpp:68-163 | decoding inverts encoding wherever encoding succeeds |
| `SignedEncoding.OriginalIsOntoButNegativeZero` | cppreference/General-utilities-library/bitset/apps/representing-signed-integers/common.cpp:68-163 | encoding inverts decoding on every word if and only if it is not the negative zero |
| `SignedEncoding.OnesComplementToWord` | cppreference/General-utilities-library/bitset/apps/representing-signed-integers/common.cpp:165-172 | what the decoder computes: the inverted magnitude, for both signs |
| `SignedEncoding.OnesRoundTripIff` | cppreference/General-utilities-library/bitset/apps/representing-signed-integers/common.cpp:107-172 | over the whole range, the ones' complement round trip holds if and only if the number is negative and not the least one |
| `SignedEncoding.OnesRoundTripFailures` | cppreference/General-utilities-library/bitset/apps/representing-signed-integers/common.cpp:165-172 | concrete failures: eight-bit zero is decoded as 127, and -128 as zero |
| `SignedEncoding.DecodedOnesIsFlippedOriginal` | cppreference/General-utilities-library/bitset/apps/representing-signed-integers/common.cpp:165-172 | on every word the decoder yields the original code with the same sign bit and the flipped magnitude |
| `SignedEncoding.OnesIsOntoIff` | cppreference/General-utilities-library/bitset/apps/representing-signed-integers/common.cpp:107-172 | encoding inverts this decoding on a word if and only if its sign bit is set and it is not all ones |
| `DurationPrinter.Print` | Chapter 6. Lambda Expressions/Item 34 Prefer lambdas to bind/item34.cpp:18-37 | the loop terminates and prints what the recursive specification says, or divides by zero where that does, which never happens for a resolution that begins with the digit one |
| `DurationPrinter.NeverDividesByZeroIff` | Chapter 6. Lambda Expressions/Item 34 Prefer lambdas to bind/item34.cpp:30-35 | no count of ticks makes the loop divide by zero if and only if the first decimal digit of the resolution is one; if it is another, one tick does |
| `DurationPrinter.SixtyAndFifteen` | Chapter 6. Lambda Expressions/Item 34 Prefer lambdas to bind/item34.cpp:30-35 | concrete resolutions: at 60 one tick divides by zero, at 15 nothing does but one tick is printed as a wrong number |
| `DurationPrinter.PrintedAddsUp` | Chapter 6. Lambda Expressions/Item 34 Prefer lambdas to bind/item34.cpp:26-36 | for any resolution and ticks, if the text is printed it is the whole seconds, a point and quotients that, weighted by their divisors, make up the ticks exactly, each as great as can be |
| `DurationPrinter.NoLeadingZero` | Chapter 6. Lambda Expressions/Item 34 Prefer lambdas to bind/item34.cpp:27-34 | an integer is printed without leading zeros |
| `DurationPrinter.FractionOfPower` | Chapter 6. Lambda Expressions/Item 34 Prefer lambdas to bind/item34.cpp:28-35 | for a power of ten every quotient is a single digit, there are at most as many as the exponent, they make up the remainder exactly, and the last is not zero |
| `DurationPrinter.PrintIsExact` | Chapter 6. Lambda Expressions/Item 34 Prefer lambdas to bind/item34.cpp:26-36 | for ticks not negative and any power of ten the text is a decimal equal to ticks over resolution, without trailing zero |
| `DurationPrinter.AlikeIffEqual` | Chapter 6. Lambda Expressions/Item 34 Prefer lambdas to bind/item34.cpp:26-36 | two durations, even of different resolutions, are printed alike if and only if they are equally long; so printing is injective |
| `DurationPrinter.ExactIffPowerOfTen` | Chapter 6. Lambda Expressions/Item 34 Prefer lambdas to bind/item34.cpp:28-35 | all counts of ticks are printed exactly if and only if the resolution is a power of ten |
| `DurationPrinter.WellFormedIff` | Chapter 6. Lambda Expressions/Item 34 Prefer lambdas to bind/item34.cpp:26-35 | for a power of ten the text is a well-formed numeral if and only if the ticks are not negative or make whole seconds |
| `DurationPrinter.ExactIffWellFormed` | Chapter 6. Lambda Expressions/Item 34 Prefer lambdas to bind/item34.cpp:26-35 | exactly in these cases the text, with its sign, denotes ticks over resolution |

## Left out

- Weak memory orders: the atomics are modelled sequentially consistent, whatever order the code names.
- The release of a mutex is taken together with the last access of its critical section; acquisitions and all other accesses are separate steps.
- `++readers_`, `--current_count_` and the like of the mutex-protected classes are single steps, and their `int` counters and generations are unbounded, as are `not_arrived_` and `generation_` of the spinning barrier: more than 2 to the 31 threads or generations are outside the model.
- SharedPtr.CountIsExact: the counter is unbounded, so more than 2 to the 31 handles on one object are outside the model; addresses are not used again after they have been freed.
- SharedPtr.AlwaysInv: of a run in which an object has been wrapped a second time, or a moved-from handle copied or assigned, only `WrapIsSoundIff`, `CopyIsSafeIff` and `AssignIsSafeIff` speak; the language leaves it undefined from the second deletion or the increment on. `AssignIsSafeIff` follows the assigning thread alone to the end of its operation, `NullAssignNeverEnds` among any steps of the others.
- CasRwLock.ExactIffFewThreads: assumes that `expected + 1` wraps around at the greatest `int`, as `fetch_sub` does, where the language leaves it undefined; `NoOverflowIffFewThreads` says without that assumption when it is reached, and `CasRwLock.Exclusion` and `NoTornRead` hold with it for any number of threads.
- SharedPtr.Memory.Construct: handles, counters and objects are entries of maps named by numbers, and so are the nodes of `DummyQueue`, because the steps of the threads are stated over whole states; the nodes and lists of the hash table are Dafny objects.
- `operator*`, `operator[]` and `count` of the handles, and what the destructor of the wrapped object does.
- LookupTable2.Table.Insert: bucket counts and sizes are unbounded, so the overflow of 2n+1 in `int` above 2 to the 30 buckets is outside the model; the same holds for `Reserve`, `LookupTable1` and `GetDoublePrimeNumber`.
- Primes.CeilSqrt: stands for the floating-point `ceil(sqrt(num))`, taken as exact.
- The mutex of the two tables: each operation runs under it from beginning to end, so the tables are modelled as sequential classes; their bucket count at construction is positive, because `hash % 0` is undefined.
- `Hash` is any fixed function to the natural numbers; `load_factor`, `dump`, `empty`, iteration and the memory of erased nodes, which the code never frees.
- The destructor and the initializer-list constructor of `list`; the `data` of a node is constant.
- The `else` branches of `block_queue::enqueue` and `dequeue`, which a lock that is held after `wait` never reaches.
- SignedEncoding.WordToOriginalCode: `int` is taken to be wider than the word, as it is for the program's `int8_t`.
- The parsing and printing of words on the command line, and the table of decoders by name.
- DurationPrinter.ExactIffPowerOfTen: the width of `intmax_t` is not modelled; no intermediate value of the loop exceeds the count of ticks or the resolution.
- `atomic_rwlock`, whose `lock_shared` does not test for a writer, so no exclusion is claimed; `pthread_rwlock`, `rte_rwlock` and the other locks, which are system calls or near copies of the locks modelled here.
- `threadsafe_lookup_table.h`, whose buckets report their size as a `bool`; `ring.h`, the other queues, latches and spinlocks, which would only add easier members.
- The clients other than the stage log of the spinning barrier and the torn-read check of the compare-and-swap lock; sleeping, random delays and printing.
