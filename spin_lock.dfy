/**
 * The lock-free shared lock: one atomic integer, acquisitions by a
 * compare-and-set retry loop, unlocks by an atomic decrement or increment.
 *
 * Other threads are a parameter: `others[i]` is the burst of atomic moves other
 * threads make between this thread's read of the counter and its compare-and-set
 * in the i-th pass of the retry loop.
 */
module Spin {
  import opened SharedLockState

  /**
   * The retry loop of lockA/lockB: read the counter, let other threads move, and
   * if the value read passes the guard, compare-and-set it one step further; a
   * counter that no longer equals the value read makes the compare-and-set fail and
   * the loop tries again. A success commits one step from a value that passes the
   * guard, and the caller is then among the holders of its side.
   * Running out of schedule means the caller is still spinning.
   */
  function SpinAcquire(st: Config, s: Side, others: seq<seq<Move>>): (r: Outcome)
    ensures r.acquired ==> Admits(r.after.counter - Sign(s), s) && Holders(r.after, s) >= 1
    decreases |others|
  {
    if others == [] then Outcome(st, false)
    else
      var observed := st.counter;
      var current := Run(st, others[0]);
      if Admits(observed, s) && current.counter == observed then Outcome(Acquire(current, s), true)
      else SpinAcquire(current, s, others[1..])
  }

  /** The retry loop behaves as one atomic guarded step among the other threads' moves. */
  lemma {:induction false} SpinAcquireLinearizes(st: Config, s: Side, others: seq<seq<Move>>)
    ensures Linearizes(st, s, Flatten(others), SpinAcquire(st, s, others))
    decreases |others|
  {
    if others != [] {
      var current := Run(st, others[0]);
      var rest := Flatten(others[1..]);
      assert Flatten(others) == others[0] + rest;
      if Admits(st.counter, s) && current.counter == st.counter {
        assert Flatten(others)[..|others[0]|] == others[0];
      } else {
        SpinAcquireLinearizes(current, s, others[1..]);
        LinearizesAfterPrefix(st, s, others[0], rest, SpinAcquire(current, s, others[1..]));
      }
    }
  }

  /** Mutual exclusion for the spin lock: every acquisition keeps the invariant and commits only when admitted. */
  lemma SpinAcquireKeepsExclusion(st: Config, s: Side, others: seq<seq<Move>>)
    requires Consistent(st)
    ensures Consistent(SpinAcquire(st, s, others).after)
    ensures SpinAcquire(st, s, others).acquired ==>
              Holders(SpinAcquire(st, s, others).after, Opposite(s)) == 0
              && SpinAcquire(st, s, others).after.counter * Sign(s) >= 1
  {
    SpinAcquireLinearizes(st, s, others);
    LinearizedKeepsExclusion(st, s, Flatten(others), SpinAcquire(st, s, others));
  }

  /**
   * A caller whose compare-and-set never succeeds changes nothing itself: the lock
   * ends as the other threads' moves left it.
   */
  lemma {:induction false} SpinRetryMutatesNothing(st: Config, s: Side, others: seq<seq<Move>>)
    requires !SpinAcquire(st, s, others).acquired
    ensures SpinAcquire(st, s, others).after == Run(st, Flatten(others))
    decreases |others|
  {
    if others != [] {
      SpinRetryMutatesNothing(Run(st, others[0]), s, others[1..]);
      RunAppend(st, others[0], Flatten(others[1..]));
    }
  }

  /**
   * The A-B-A case: a B holder comes and goes between the read of 0 and the
   * compare-and-set. The compare-and-set cannot tell, and succeeds; that is still
   * correct, because the guard holds again at the moment of the commit.
   */
  lemma SpinCommitsAfterABA(st: Config)
    requires Consistent(st) && st.counter == 0
    ensures SpinAcquire(st, A, [[Lock(B), Unlock(B)]]) == Outcome(Acquire(st, A), true)
  {
    var rival := [Lock(B), Unlock(B)];
    assert [rival][0] == rival;
    assert Run(st, rival) == st by {
      ComeAndGo(st, B);
    }
  }

  /** One pass of the retry loop: the i-th burst runs between the read and the compare-and-set. */
  lemma SpinAcquireAttempt(st: Config, s: Side, others: seq<seq<Move>>, i: nat)
    requires i < |others|
    ensures SpinAcquire(st, s, others[i..])
            == var current := Run(st, others[i]);
               if Admits(st.counter, s) && current.counter == st.counter then Outcome(Acquire(current, s), true)
               else SpinAcquire(current, s, others[i + 1..])
  {
    assert others[i..][0] == others[i] && others[i..][1..] == others[i + 1..];
  }

  class SpinLock {
    var lockCounter: int
    ghost var holdersA: nat
    ghost var holdersB: nat

    ghost function State(): Config
      reads this
    {
      Config(lockCounter, holdersA, holdersB)
    }

    ghost predicate Valid()
      reads this
    {
      Consistent(State())
    }

    /** The counter starts at 0. */
    constructor ()
      ensures Valid() && State() == Neutral
    {
      lockCounter := 0;
      holdersA, holdersB := 0, 0;
    }

    /** Atomic read of the counter. */
    method Get() returns (v: int)
      ensures v == lockCounter
    {
      v := lockCounter;
    }

    /** Atomic compare-and-set: succeeds exactly when the counter still holds `expected`; a failure changes nothing. */
    method CompareAndSet(expected: int, update: int) returns (ok: bool)
      modifies this`lockCounter
      ensures ok <==> old(lockCounter) == expected
      ensures lockCounter == if ok then update else old(lockCounter)
    {
      ok := lockCounter == expected;
      if ok {
        lockCounter := update;
      }
    }

    /** Atomic increment; returns the new value. */
    method IncrementAndGet() returns (v: int)
      modifies this`lockCounter
      ensures lockCounter == old(lockCounter) + 1 && v == lockCounter
    {
      lockCounter := lockCounter + 1;
      v := lockCounter;
    }

    /** Atomic decrement; returns the new value. */
    method DecrementAndGet() returns (v: int)
      modifies this`lockCounter
      ensures lockCounter == old(lockCounter) - 1 && v == lockCounter
    {
      lockCounter := lockCounter - 1;
      v := lockCounter;
    }

    /** Some other thread's atomic move on this lock, through the same atomic operations. */
    method OtherThreadStep(m: Move)
      requires Valid()
      modifies this
      ensures Valid() && State() == Interfere(old(State()), m)
    {
      match m
      case Idle =>
      case Lock(s) => OtherThreadLock(s);
      case Unlock(s) => OtherThreadUnlock(s);
    }

    /** A burst of other threads' atomic moves, one after another. */
    method OtherThreadsMove(burst: seq<Move>)
      requires Valid()
      modifies this
      ensures Valid() && State() == Run(old(State()), burst)
      decreases |burst|
    {
      if burst != [] {
        OtherThreadStep(burst[0]);
        OtherThreadsMove(burst[1..]);
      }
    }

    /** Another thread's lock commit: a compare-and-set from a value that passes the guard. */
    method OtherThreadLock(s: Side)
      requires Valid()
      modifies this
      ensures Valid() && State() == Interfere(old(State()), Lock(s))
    {
      ghost var before := State();
      var cur := Get();
      if Admits(cur, s) {
        AcquireKeepsConsistent(before, s);
        var ok := CompareAndSet(cur, cur + Sign(s));
        assert ok;
        if s == A { holdersA := holdersA + 1; } else { holdersB := holdersB + 1; }
        assert State() == Acquire(before, s);
      }
    }

    /** Another thread's unlock of a side somebody holds. */
    method OtherThreadUnlock(s: Side)
      requires Valid()
      modifies this
      ensures Valid() && State() == Interfere(old(State()), Unlock(s))
    {
      var cur := Get();
      if s == A && cur > 0 {
        ReleaseKeepsConsistent(State(), A);
        var _ := DecrementAndGet();
        holdersA := holdersA - 1;
      } else if s == B && cur < 0 {
        ReleaseKeepsConsistent(State(), B);
        var _ := IncrementAndGet();
        holdersB := holdersB - 1;
      }
    }

    /** lockA: retry until a compare-and-set moves a non-negative counter up by one. */
    method LockA(others: seq<seq<Move>>) returns (acquired: bool)
      requires Valid()
      modifies this
      ensures Valid()
      ensures Outcome(State(), acquired) == SpinAcquire(old(State()), A, others)
    {
      ghost var start := State();
      acquired := false;
      var i := 0;
      while !acquired && i < |others|
        invariant 0 <= i <= |others|
        invariant Valid()
        invariant acquired ==> SpinAcquire(start, A, others) == Outcome(State(), true)
        invariant !acquired ==> SpinAcquire(start, A, others) == SpinAcquire(State(), A, others[i..])
      {
        ghost var before := State();
        SpinAcquireAttempt(before, A, others, i);
        var curLockCnt := Get();
        OtherThreadsMove(others[i]);
        ghost var current := State();
        if curLockCnt >= 0 {
          acquired := CompareAndSet(curLockCnt, curLockCnt + 1);
          if acquired {
            assert current.counter == curLockCnt == before.counter;
            AcquireKeepsConsistent(current, A);
            holdersA := holdersA + 1;
            assert State() == Acquire(current, A);
          }
        }
        if !acquired {
          assert State() == current;
          assert SpinAcquire(before, A, others[i..]) == SpinAcquire(current, A, others[i + 1..]);
        }
        i := i + 1;
      }
      assert !acquired ==> |others[i..]| == 0;
    }

    /** unlockA: one atomic decrement, no check. */
    method UnlockA()
      requires Valid() && holdersA > 0
      modifies this
      ensures Valid() && State() == Release(old(State()), A)
      ensures lockCounter == old(lockCounter) - 1
    {
      ReleaseKeepsConsistent(State(), A);
      var _ := DecrementAndGet();
      holdersA := holdersA - 1;
    }

    /** lockB: retry until a compare-and-set moves a non-positive counter down by one. */
    method LockB(others: seq<seq<Move>>) returns (acquired: bool)
      requires Valid()
      modifies this
      ensures Valid()
      ensures Outcome(State(), acquired) == SpinAcquire(old(State()), B, others)
    {
      ghost var start := State();
      acquired := false;
      var i := 0;
      while !acquired && i < |others|
        invariant 0 <= i <= |others|
        invariant Valid()
        invariant acquired ==> SpinAcquire(start, B, others) == Outcome(State(), true)
        invariant !acquired ==> SpinAcquire(start, B, others) == SpinAcquire(State(), B, others[i..])
      {
        ghost var before := State();
        SpinAcquireAttempt(before, B, others, i);
        var curLockCnt := Get();
        OtherThreadsMove(others[i]);
        ghost var current := State();
        if curLockCnt <= 0 {
          acquired := CompareAndSet(curLockCnt, curLockCnt - 1);
          if acquired {
            assert current.counter == curLockCnt == before.counter;
            AcquireKeepsConsistent(current, B);
            holdersB := holdersB + 1;
            assert State() == Acquire(current, B);
          }
        }
        if !acquired {
          assert State() == current;
          assert SpinAcquire(before, B, others[i..]) == SpinAcquire(current, B, others[i + 1..]);
        }
        i := i + 1;
      }
      assert !acquired ==> |others[i..]| == 0;
    }

    /** unlockB: one atomic increment, no check. */
    method UnlockB()
      requires Valid() && holdersB > 0
      modifies this
      ensures Valid() && State() == Release(old(State()), B)
      ensures lockCounter == old(lockCounter) + 1
    {
      ReleaseKeepsConsistent(State(), B);
      var _ := IncrementAndGet();
      holdersB := holdersB - 1;
    }
  }
}
