/**
 * The benchmarked call sequences, each run by a single caller on an idle lock,
 * and the agreement of the two implementations when nobody else uses the lock.
 */
module Benchmarks {
  import opened SharedLockState
  import opened Spin
  import opened Synchronized

  /** A burst in which no other thread touches the lock. */
  predicate QuietBurst(burst: seq<Move>)
  {
    forall m :: m in burst ==> m == Idle
  }

  /** A schedule in which no other thread touches the lock. */
  predicate Quiet(others: seq<seq<Move>>)
  {
    forall burst :: burst in others ==> QuietBurst(burst)
  }

  /** Moves that touch nothing leave the lock as it was. */
  lemma {:induction false} QuietRunKeepsState(st: Config, burst: seq<Move>)
    requires QuietBurst(burst)
    ensures Run(st, burst) == st
    decreases |burst|
  {
    if burst != [] {
      assert burst[0] in burst;
      assert QuietBurst(burst[1..]) by {
        forall m | m in burst[1..] ensures m == Idle {
          assert m in burst;
        }
      }
      QuietRunKeepsState(st, burst[1..]);
    }
  }

  /**
   * With no other thread about, both implementations take the same decision and leave
   * the same state: they acquire exactly when the guard holds, and then commit one step.
   */
  lemma {:induction false} QuietAcquisitionsAgree(st: Config, s: Side, others: seq<seq<Move>>)
    requires others != [] && Quiet(others)
    ensures SpinAcquire(st, s, others) == MonitorAcquire(st, s, others)
    ensures SpinAcquire(st, s, others).acquired <==> Admits(st.counter, s)
    ensures SpinAcquire(st, s, others).after == if Admits(st.counter, s) then Acquire(st, s) else st
    decreases |others|
  {
    assert others[0] in others;
    QuietRunKeepsState(st, others[0]);
    if !Admits(st.counter, s) && |others| > 1 {
      assert Quiet(others[1..]) by {
        forall burst | burst in others[1..] ensures QuietBurst(burst) {
          assert burst in others;
        }
      }
      QuietAcquisitionsAgree(st, s, others[1..]);
    }
  }

  /** A caller alone on a lock that admits it acquires at its first attempt, on either implementation. */
  lemma AloneAcquires(st: Config, s: Side)
    requires Admits(st.counter, s)
    ensures SpinAcquire(st, s, [[]]) == Outcome(Acquire(st, s), true)
    ensures MonitorAcquire(st, s, [[]]) == Outcome(Acquire(st, s), true)
  {
    QuietAcquisitionsAgree(st, s, [[]]);
  }

  method SpinLockLockUnlockA(lock: SpinLock) returns (tookA: bool)
    requires lock.Valid() && lock.lockCounter == 0
    modifies lock
    ensures tookA && lock.Valid() && lock.lockCounter == 0
  {
    ghost var beforeA := lock.State();
    AloneAcquires(beforeA, A);
    ReleaseUndoesAcquire(beforeA, A);
    tookA := lock.LockA([[]]);
    lock.UnlockA();
  }

  method SpinLockLockUnlockB(lock: SpinLock) returns (tookB: bool)
    requires lock.Valid() && lock.lockCounter == 0
    modifies lock
    ensures tookB && lock.Valid() && lock.lockCounter == 0
  {
    ghost var beforeB := lock.State();
    AloneAcquires(beforeB, B);
    ReleaseUndoesAcquire(beforeB, B);
    tookB := lock.LockB([[]]);
    lock.UnlockB();
  }

  method SpinLockLockUnlockALockUnlockB(lock: SpinLock) returns (tookA: bool, tookB: bool)
    requires lock.Valid() && lock.lockCounter == 0
    modifies lock
    ensures tookA && tookB && lock.Valid() && lock.lockCounter == 0
  {
    tookA := SpinLockLockUnlockA(lock);
    tookB := SpinLockLockUnlockB(lock);
  }

  method SpinLockLockUnlockBLockUnlockA(lock: SpinLock) returns (tookB: bool, tookA: bool)
    requires lock.Valid() && lock.lockCounter == 0
    modifies lock
    ensures tookB && tookA && lock.Valid() && lock.lockCounter == 0
  {
    tookB := SpinLockLockUnlockB(lock);
    tookA := SpinLockLockUnlockA(lock);
  }

  method SyncLockLockUnlockA(lock: SynchronizedLock) returns (tookA: bool)
    requires lock.Valid() && lock.cntr == 0
    modifies lock
    ensures tookA && lock.Valid() && lock.cntr == 0
  {
    ghost var beforeA := lock.State();
    AloneAcquires(beforeA, A);
    ReleaseUndoesAcquire(beforeA, A);
    tookA := lock.LockA([[]]);
    var _ := lock.UnlockA();
  }

  method SyncLockLockUnlockB(lock: SynchronizedLock) returns (tookB: bool)
    requires lock.Valid() && lock.cntr == 0
    modifies lock
    ensures tookB && lock.Valid() && lock.cntr == 0
  {
    ghost var beforeB := lock.State();
    AloneAcquires(beforeB, B);
    ReleaseUndoesAcquire(beforeB, B);
    tookB := lock.LockB([[]]);
    var _ := lock.UnlockB();
  }

  method SyncLockLockUnlockALockUnlockB(lock: SynchronizedLock) returns (tookA: bool, tookB: bool)
    requires lock.Valid() && lock.cntr == 0
    modifies lock
    ensures tookA && tookB && lock.Valid() && lock.cntr == 0
  {
    tookA := SyncLockLockUnlockA(lock);
    tookB := SyncLockLockUnlockB(lock);
  }

  method SyncLockLockUnlockBLockUnlockA(lock: SynchronizedLock) returns (tookB: bool, tookA: bool)
    requires lock.Valid() && lock.cntr == 0
    modifies lock
    ensures tookB && tookA && lock.Valid() && lock.cntr == 0
  {
    tookB := SyncLockLockUnlockB(lock);
    tookA := SyncLockLockUnlockA(lock);
  }
}
