# Shared A/B lock — a Dafny model

`SharedLocksBenchmark.java` benchmarks two implementations of a *shared lock* with two
sides, A and B. Any number of callers may hold the same side together, but the two sides are
never held at once. Both implementations keep the whole lock in one signed counter:

- a positive counter is the number of A holders;
- a negative counter is minus the number of B holders;
- zero means nothing is held.

`SpinLock` keeps the counter in an `AtomicInteger`. It acquires a side with a compare-and-set
retry loop and releases it with one atomic decrement or increment. `SynchronizedLock` keeps a
plain `int` behind the object's monitor. It waits with `wait()` while the guard fails. An unlock
calls `notifyAll()` when the counter comes back to 0.

The model has four modules, one file each:

- `SharedLockState` (`shared_lock_state.dfy`) is the state machine both classes share. A
  `Config` is the counter plus ghost counts of the A and B holders. `Consistent` is the lock
  invariant: the sides are exclusive, and the counter equals A holders minus B holders.
  `Admits` is the guard of an acquisition. `Acquire` and `Release` are the committing steps.
  `Interfere` and `Run` are the atomic moves of other threads.
  `Linearizes` says that an acquisition racing with other threads acts as one atomic guarded
  step placed somewhere among their moves.
- `Spin` (`spin_lock.dfy`) holds the class `SpinLock`, a specification function `SpinAcquire` for its
  retry loop, and the lemmas about that function.
- `Synchronized` (`synchronized_lock.dfy`) holds the class `SynchronizedLock`, a specification function
  `MonitorAcquire` for its wait loop, and the lemmas about that function.
- `Benchmarks` (`benchmarks.dfy`) holds the eight benchmarked call sequences, each run on an
  idle lock, and a lemma that the two implementations agree when no other thread is about.

Other threads are code this model cannot see, so they are a parameter. Each acquisition
method takes `others: seq<seq<Move>>`, one *burst* per pass of its loop. A burst is any finite
run of atomic steps of other threads, each a `Move` (`Idle`, `Lock(side)` or `Unlock(side)`).

- In `SpinLock`, the i-th burst runs between the loop's read of the counter (line 100) and its
  compare-and-set (line 102). The compare-and-set fails exactly when the counter no longer
  holds the value read, so a burst that changes the counter and changes it back (A-B-A) lets
  it succeed.
- In `SynchronizedLock`, the i-th burst runs during the i-th `wait()` (line 132 / 146), while
  the monitor is released. A waiter woken by `notifyAll()` can therefore lose the monitor to a
  rival locker and find its guard failing again.

`Flatten(others)` is the whole schedule as one run of moves; the linearization lemmas are
stated over it. The Java `while (true)` loops run once per burst. If the schedule runs out,
the caller is still waiting, and the method returns `acquired == false`.

The ghost holder counts are the mutual-exclusion rule in the class doc comment
(`SharedLocksBenchmark.java:44-47`). Line 45 there has a typo: it repeats "hold B lock" where it
means that no thread can hold A while B is held. The model follows lines 46-47 and the code.

## Model

| member | source | states |
|---|---|---|
| `SharedLockState.HoldersOf` | src/main/java/me/klyudt/benchmarks/locks/SharedLocksBenchmark.java:90-92 | every counter value stands for a consistent set of holders: `c` A holders if `c > 0`, `-c` B holders if `c < 0`, none if `c == 0` |
| `SharedLockState.CounterDeterminesHolders` | src/main/java/me/klyudt/benchmarks/locks/SharedLocksBenchmark.java:90-92 | in a consistent state the counter alone determines the holders, so one integer is the whole lock |
| `SharedLockState.NeutralAdmitsBoth` | src/main/java/me/klyudt/benchmarks/locks/SharedLocksBenchmark.java:93 | the initial state (counter 0) is consistent and admits both sides |
| `SharedLockState.Admits` | src/main/java/me/klyudt/benchmarks/locks/SharedLocksBenchmark.java:98-116 | the guard of an acquisition: A passes at counter >= 0 (lines 98 and 101), B at counter <= 0 (lines 113 and 116); the same guards end the wait loops at lines 131 and 145. Its meaning is stated by `GuardMeansOppositeFree` |
| `SharedLockState.GuardMeansOppositeFree` | src/main/java/me/klyudt/benchmarks/locks/SharedLocksBenchmark.java:98-116 | in a consistent state the guard admits a side exactly when nobody holds the opposite side (both directions) |
| `SharedLockState.Acquire` | src/main/java/me/klyudt/benchmarks/locks/SharedLocksBenchmark.java:102-117 | the committing step of lockA/lockB (the compare-and-sets at lines 102 and 117, `cntr++`/`cntr--` at lines 134 and 148): one more holder of the side, the other side unchanged, the counter one step on the side's sign |
| `SharedLockState.Release` | src/main/java/me/klyudt/benchmarks/locks/SharedLocksBenchmark.java:106-123 | the unlock arithmetic (lines 107 and 122, `cntr--`/`cntr++` at lines 138 and 152): one holder of the side fewer, the other side unchanged, the counter one step back |
| `SharedLockState.AcquireKeepsConsistent` | src/main/java/me/klyudt/benchmarks/locks/SharedLocksBenchmark.java:44-47 | an acquisition whose guard holds (A: counter >= 0, B: counter <= 0) keeps the invariant; nobody holds the other side, and the counter moves by +1 for A and -1 for B |
| `SharedLockState.GuardIsNecessary` | src/main/java/me/klyudt/benchmarks/locks/SharedLocksBenchmark.java:46-47 | an acquisition whose guard fails would break mutual exclusion, because the other side is held |
| `SharedLockState.ReleaseKeepsConsistent` | src/main/java/me/klyudt/benchmarks/locks/SharedLocksBenchmark.java:137-142 | releasing a held side keeps the invariant and moves the counter one step back toward 0; it reaches 0 exactly when the last holder of that side leaves |
| `SharedLockState.ReleaseUndoesAcquire` | src/main/java/me/klyudt/benchmarks/locks/SharedLocksBenchmark.java:95-108 | an unlock is the inverse of the lock of the same side |
| `SharedLockState.InterfereKeepsConsistent` | src/main/java/me/klyudt/benchmarks/locks/SharedLocksBenchmark.java:90-92 | another thread's move keeps the invariant, and the counter never changes sign without passing through 0 |
| `SharedLockState.RunKeepsConsistent` | src/main/java/me/klyudt/benchmarks/locks/SharedLocksBenchmark.java:44-47 | every interleaving of other threads' moves keeps the invariant (induction over the schedule) |
| `SharedLockState.ComeAndGo` | src/main/java/me/klyudt/benchmarks/locks/SharedLocksBenchmark.java:90-92 | another thread that locks an admitted side and unlocks it again leaves the lock exactly as it was |
| `SharedLockState.LeaveAndReturn` | src/main/java/me/klyudt/benchmarks/locks/SharedLocksBenchmark.java:90-92 | a holder that leaves while a new holder of the same side arrives leaves the lock exactly as it was |
| `SharedLockState.RunAppend` | src/main/java/me/klyudt/benchmarks/locks/SharedLocksBenchmark.java:44-47 | running two schedules one after the other is running their concatenation |
| `SharedLockState.LinearizesAfterPrefix` | src/main/java/me/klyudt/benchmarks/locks/SharedLocksBenchmark.java:44-47 | a burst of other threads' moves followed by a linearized acquisition over the rest is a linearized acquisition over the whole schedule |
| `SharedLockState.LinearizedKeepsExclusion` | src/main/java/me/klyudt/benchmarks/locks/SharedLocksBenchmark.java:44-47 | an acquisition that acts as one atomic step keeps the invariant; a caller that acquired side s is one of at least one holder of s, nobody holds the other side, and the counter has the sign of s |
| `SharedLockState.UncheckedUnlockCorrupts` | src/main/java/me/klyudt/benchmarks/locks/SharedLocksBenchmark.java:106-108 | an unlockA that releases nobody, which the code does not check, always breaks the invariant; with no A holder the counter stands for a phantom extra B holder, and with one A holder still inside the counter reaches 0 and admits lockB while A is held |
| `Spin.SpinAcquire` | src/main/java/me/klyudt/benchmarks/locks/SharedLocksBenchmark.java:97-118 | the retry loop of lockA/lockB over a schedule of bursts; a success commits one step from a counter value that passes the guard, and leaves the caller among at least one holder of its side |
| `Spin.SpinAcquireLinearizes` | src/main/java/me/klyudt/benchmarks/locks/SharedLocksBenchmark.java:95-119 | the compare-and-set retry loop acts as one atomic step: it commits from some point in the other threads' moves where the guard holds, or it leaves exactly what the other threads did |
| `Spin.SpinAcquireKeepsExclusion` | src/main/java/me/klyudt/benchmarks/locks/SharedLocksBenchmark.java:95-119 | mutual exclusion for lockA and lockB of the spin lock: the invariant is kept, and a successful acquisition leaves the other side unheld and the counter at least one step past 0 on its side |
| `Spin.SpinRetryMutatesNothing` | src/main/java/me/klyudt/benchmarks/locks/SharedLocksBenchmark.java:101-102 | a caller whose reads are stale or fail the guard changes nothing itself: the lock ends as the other threads left it |
| `Spin.SpinCommitsAfterABA` | src/main/java/me/klyudt/benchmarks/locks/SharedLocksBenchmark.java:100-102 | a B holder that comes and goes between the read of 0 and the compare-and-set does not stop lockA: the compare-and-set succeeds, and the commit is still admitted |
| `Spin.SpinLock.constructor` | src/main/java/me/klyudt/benchmarks/locks/SharedLocksBenchmark.java:93 | a new spin lock has counter 0 and no holders |
| `Spin.SpinLock.Get` | src/main/java/me/klyudt/benchmarks/locks/SharedLocksBenchmark.java:100 | the atomic read returns the current counter |
| `Spin.SpinLock.CompareAndSet` | src/main/java/me/klyudt/benchmarks/locks/SharedLocksBenchmark.java:102 | succeeds exactly when the counter still equals the expected value, and then stores the new value; a failure leaves the counter unchanged |
| `Spin.SpinLock.IncrementAndGet` | src/main/java/me/klyudt/benchmarks/locks/SharedLocksBenchmark.java:122 | adds exactly 1 to the counter and returns the new value |
| `Spin.SpinLock.DecrementAndGet` | src/main/java/me/klyudt/benchmarks/locks/SharedLocksBenchmark.java:107 | subtracts exactly 1 from the counter and returns the new value |
| `Spin.SpinLock.LockA` | src/main/java/me/klyudt/benchmarks/locks/SharedLocksBenchmark.java:95-104 | keeps the invariant; the outcome (new state, acquired or not) is that of the retry loop `SpinAcquire` for side A |
| `Spin.SpinLock.UnlockA` | src/main/java/me/klyudt/benchmarks/locks/SharedLocksBenchmark.java:106-108 | subtracts exactly 1 from the counter, with no check, and removes one A holder; the invariant is kept |
| `Spin.SpinLock.LockB` | src/main/java/me/klyudt/benchmarks/locks/SharedLocksBenchmark.java:110-119 | keeps the invariant; the outcome is that of the retry loop `SpinAcquire` for side B |
| `Spin.SpinLock.UnlockB` | src/main/java/me/klyudt/benchmarks/locks/SharedLocksBenchmark.java:121-123 | adds exactly 1 to the counter, with no check, and removes one B holder; the invariant is kept |
| `Synchronized.MonitorAcquire` | src/main/java/me/klyudt/benchmarks/locks/SharedLocksBenchmark.java:130-149 | the wait loop of lockA/lockB over a schedule of bursts; a success commits one step from a counter value that passes the guard, and leaves the caller among at least one holder of its side |
| `Synchronized.MonitorAcquireLinearizes` | src/main/java/me/klyudt/benchmarks/locks/SharedLocksBenchmark.java:130-149 | the wait-then-commit loop acts as one atomic step among the other threads' moves |
| `Synchronized.MonitorAcquireKeepsExclusion` | src/main/java/me/klyudt/benchmarks/locks/SharedLocksBenchmark.java:130-149 | mutual exclusion for lockA and lockB of the monitor lock: the invariant is kept, and a successful acquisition leaves the other side unheld and the counter on its side |
| `Synchronized.MonitorWaitMutatesNothing` | src/main/java/me/klyudt/benchmarks/locks/SharedLocksBenchmark.java:131-133 | a waiter that never passes its guard changes nothing itself, and when the schedule ends its guard still fails |
| `Synchronized.WokenWaiterCanLose` | src/main/java/me/klyudt/benchmarks/locks/SharedLocksBenchmark.java:131-133 | the last B holder leaves (the counter reaches 0 and waiters are woken), yet a rival B locker takes the monitor first; the A waiter finds its guard failing and keeps waiting |
| `Synchronized.SynchronizedLock.constructor` | src/main/java/me/klyudt/benchmarks/locks/SharedLocksBenchmark.java:128 | a new monitor lock has counter 0 (Java's default for an `int` field) and no holders |
| `Synchronized.SynchronizedLock.Wait` | src/main/java/me/klyudt/benchmarks/locks/SharedLocksBenchmark.java:132 | while the caller waits, any finite burst of other threads' moves happens, one atomic move at a time; the invariant is kept |
| `Synchronized.SynchronizedLock.LockA` | src/main/java/me/klyudt/benchmarks/locks/SharedLocksBenchmark.java:130-135 | keeps the invariant; the outcome is that of the wait loop `MonitorAcquire` for side A (wait while counter < 0, then increment) |
| `Synchronized.SynchronizedLock.UnlockA` | src/main/java/me/klyudt/benchmarks/locks/SharedLocksBenchmark.java:137-142 | subtracts exactly 1 and removes one A holder; it wakes all waiters exactly when the counter becomes 0, that is, when the last A holder leaves |
| `Synchronized.SynchronizedLock.LockB` | src/main/java/me/klyudt/benchmarks/locks/SharedLocksBenchmark.java:144-149 | keeps the invariant; the outcome is that of the wait loop `MonitorAcquire` for side B (wait while counter > 0, then decrement) |
| `Synchronized.SynchronizedLock.UnlockB` | src/main/java/me/klyudt/benchmarks/locks/SharedLocksBenchmark.java:151-156 | adds exactly 1 and removes one B holder; it wakes all waiters exactly when the counter becomes 0, that is, when the last B holder leaves |
| `Benchmarks.QuietAcquisitionsAgree` | src/main/java/me/klyudt/benchmarks/locks/SharedLocksBenchmark.java:50-54 | with no other thread about, both implementations give the same outcome: they acquire exactly when the guard holds, and otherwise leave the lock untouched |
| `Benchmarks.AloneAcquires` | src/main/java/me/klyudt/benchmarks/locks/SharedLocksBenchmark.java:168 | a caller alone on a lock that admits its side acquires at the first attempt, on either implementation |
| `Benchmarks.SpinLockLockUnlockA` | src/main/java/me/klyudt/benchmarks/locks/SharedLocksBenchmark.java:166-172 | on an idle spin lock, lockA then unlockA succeeds and brings the counter back to 0 |
| `Benchmarks.SpinLockLockUnlockB` | src/main/java/me/klyudt/benchmarks/locks/SharedLocksBenchmark.java:174-180 | on an idle spin lock, lockB then unlockB succeeds and brings the counter back to 0 |
| `Benchmarks.SpinLockLockUnlockALockUnlockB` | src/main/java/me/klyudt/benchmarks/locks/SharedLocksBenchmark.java:182-191 | lockA, unlockA, lockB, unlockB on an idle spin lock all succeed and end at counter 0 |
| `Benchmarks.SpinLockLockUnlockBLockUnlockA` | src/main/java/me/klyudt/benchmarks/locks/SharedLocksBenchmark.java:193-202 | lockB, unlockB, lockA, unlockA on an idle spin lock all succeed and end at counter 0 |
| `Benchmarks.SyncLockLockUnlockA` | src/main/java/me/klyudt/benchmarks/locks/SharedLocksBenchmark.java:204-210 | on an idle monitor lock, lockA then unlockA succeeds and brings the counter back to 0 |
| `Benchmarks.SyncLockLockUnlockB` | src/main/java/me/klyudt/benchmarks/locks/SharedLocksBenchmark.java:212-218 | on an idle monitor lock, lockB then unlockB succeeds and brings the counter back to 0 |
| `Benchmarks.SyncLockLockUnlockALockUnlockB` | src/main/java/me/klyudt/benchmarks/locks/SharedLocksBenchmark.java:220-229 | lockA, unlockA, lockB, unlockB on an idle monitor lock all succeed and end at counter 0 |
| `Benchmarks.SyncLockLockUnlockBLockUnlockA` | src/main/java/me/klyudt/benchmarks/locks/SharedLocksBenchmark.java:231-240 | lockB, unlockB, lockA, unlockA on an idle monitor lock all succeed and end at counter 0 |

## Left out

- The JMH harness is left out because it is measurement plumbing and a foreign library. This covers the annotations, the `dummy` field and its updates, `initDummy`, `main` and the `Runner`. The benchmark methods appear only as call sequences. The `dummy` arithmetic has no effect on the lock. (Line 237 decrements where its spin twin, line 199, increments.)
- The timing tables in the class comment (lines 56-76) are measurements, not behaviour.
- Liveness, fairness and starvation are not modelled. The unbounded `while (true)` and `while (cntr < 0)` loops run once per burst of the `others` schedule. When the schedule runs out, the caller is still waiting (`acquired == false`).
- The inner busy-spin at lines 98 and 113 is folded into the retry loop. A pass whose read fails the guard retries without a compare-and-set, exactly like the `continue` at lines 101 and 116.
- Thread suspension and wake-up by `wait()`/`notifyAll()` are not modelled. `notifyAll()` is the `wake` result of the monitor unlocks.
- The `InterruptedException` path of `wait()` (lines 130 and 144) is left out. It abandons the acquisition before the counter changes.
- Java memory-model visibility is not modelled. Each `AtomicInteger` operation, and each monitor-protected body, is one atomic step.
- Spin.SpinLock.IncrementAndGet: does not model 32-bit wrap-around at `Integer.MAX_VALUE`, because the source does not address overflow; the counter is an unbounded `int`.
- Spin.SpinLock.DecrementAndGet: does not model 32-bit wrap-around at `Integer.MIN_VALUE`, for the same reason.
- Synchronized.SynchronizedLock.LockA: `cntr++` is unbounded here, with no 32-bit wrap-around; the same holds for `cntr--` in `LockB` and in both unlocks.
- Spin.SpinLock.UnlockA: requires a ghost A holder to release. The code performs no check; an unmatched unlock corrupts the counter and can admit lockB while an A holder is still inside, as `UncheckedUnlockCorrupts` shows.
- Spin.SpinLock.UnlockB: requires a ghost B holder to release, for the same reason.
- Synchronized.SynchronizedLock.UnlockA: requires a ghost A holder to release, for the same reason.
- Synchronized.SynchronizedLock.UnlockB: requires a ghost B holder to release, for the same reason.
- Benchmarks.SpinLockLockUnlockA and the other seven benchmark methods: model one caller on an idle lock. The JMH runs share the lock between threads; that sharing is covered by the `others` schedules of the lock methods.
