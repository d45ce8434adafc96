/**
 * The blocking shared lock: a plain integer guarded by the object's monitor.
 * An acquisition waits while the guard fails and then commits in the same
 * critical section; an unlock wakes every waiter when the counter returns to 0.
 *
 * Other threads are a parameter: `others[i]` is the burst of atomic moves other
 * threads make while this thread sits in its i-th `wait()`, with the monitor
 * released.
 */
module Synchronized {
  import opened SharedLockState

  /**
   * The wait loop of lockA/lockB: if the guard holds the caller commits at once,
   * inside the monitor; otherwise it waits, other threads move, and it checks
   * again. A success commits one step from a value that passes the guard, and the
   * caller is then among the holders of its side.
   * Running out of schedule means the caller is still waiting.
   */
  function MonitorAcquire(st: Config, s: Side, others: seq<seq<Move>>): (r: Outcome)
    ensures r.acquired ==> Admits(r.after.counter - Sign(s), s) && Holders(r.after, s) >= 1
    decreases |others|
  {
    if Admits(st.counter, s) then Outcome(Acquire(st, s), true)
    else if others == [] then Outcome(st, false)
    else MonitorAcquire(Run(st, others[0]), s, others[1..])
  }

  /** The wait loop behaves as one atomic guarded step among the other threads' moves. */
  lemma {:induction false} MonitorAcquireLinearizes(st: Config, s: Side, others: seq<seq<Move>>)
    ensures Linearizes(st, s, Flatten(others), MonitorAcquire(st, s, others))
    decreases |others|
  {
    if Admits(st.counter, s) {
      assert Flatten(others)[..0] == [];
    } else if others != [] {
      var rest := Flatten(others[1..]);
      assert Flatten(others) == others[0] + rest;
      MonitorAcquireLinearizes(Run(st, others[0]), s, others[1..]);
      LinearizesAfterPrefix(st, s, others[0], rest, MonitorAcquire(Run(st, others[0]), s, others[1..]));
    }
  }

  /** Mutual exclusion for the monitor lock: every acquisition keeps the invariant and commits only when admitted. */
  lemma MonitorAcquireKeepsExclusion(st: Config, s: Side, others: seq<seq<Move>>)
    requires Consistent(st)
    ensures Consistent(MonitorAcquire(st, s, others).after)
    ensures MonitorAcquire(st, s, others).acquired ==>
              Holders(MonitorAcquire(st, s, others).after, Opposite(s)) == 0
              && MonitorAcquire(st, s, others).after.counter * Sign(s) >= 1
  {
    MonitorAcquireLinearizes(st, s, others);
    LinearizedKeepsExclusion(st, s, Flatten(others), MonitorAcquire(st, s, others));
  }

  /**
   * A waiter that is never admitted changes nothing itself: whatever happened to the
   * lock while it waited is the other threads' doing.
   */
  lemma {:induction false} MonitorWaitMutatesNothing(st: Config, s: Side, others: seq<seq<Move>>)
    requires !MonitorAcquire(st, s, others).acquired
    ensures MonitorAcquire(st, s, others).after == Run(st, Flatten(others))
    ensures !Admits(MonitorAcquire(st, s, others).after.counter, s)
    decreases |others|
  {
    if others != [] {
      MonitorWaitMutatesNothing(Run(st, others[0]), s, others[1..]);
      RunAppend(st, others[0], Flatten(others[1..]));
    }
  }

  /**
   * Why the code re-checks its guard in a loop: the last B holder leaves and wakes the
   * A waiter, but another B locker takes the monitor first, so the waiter finds the
   * counter negative again and waits once more.
   */
  lemma WokenWaiterCanLose(st: Config)
    requires Consistent(st) && st.counter == -1
    ensures Interfere(st, Unlock(B)).counter == 0
    ensures MonitorAcquire(st, A, [[Unlock(B), Lock(B)]]) == Outcome(st, false)
  {
    var rival := [Unlock(B), Lock(B)];
    assert Interfere(st, Unlock(B)).counter == 0 by {
      ReleaseKeepsConsistent(st, B);
      assert Interfere(st, Unlock(B)) == Release(st, B);
    }
    var rest := [rival][1..];
    assert |rest| == 0;
    assert Run(st, rival) == st by {
      LeaveAndReturn(st, B);
    }
    assert MonitorAcquire(st, A, [rival]) == MonitorAcquire(st, A, rest);
  }

  /** One wait: a caller that is not admitted hands the i-th burst to other threads and checks again. */
  lemma MonitorAcquireWaits(st: Config, s: Side, others: seq<seq<Move>>, i: nat)
    requires i < |others| && !Admits(st.counter, s)
    ensures MonitorAcquire(st, s, others[i..]) == MonitorAcquire(Run(st, others[i]), s, others[i + 1..])
  {
    assert others[i..][0] == others[i] && others[i..][1..] == others[i + 1..];
  }

  class SynchronizedLock {
    var cntr: int
    ghost var holdersA: nat
    ghost var holdersB: nat

    ghost function State(): Config
      reads this
    {
      Config(cntr, holdersA, holdersB)
    }

    ghost predicate Valid()
      reads this
    {
      Consistent(State())
    }

    /** The counter starts at 0. */
    constructor ()
      ensures Valid() && State() == Neutral
    {
      cntr := 0;
      holdersA, holdersB := 0, 0;
    }

    /** `wait()`: the monitor is released, other threads make a burst of moves, the monitor is taken back. */
    method Wait(others: seq<Move>)
      requires Valid()
      modifies this
      ensures Valid() && State() == Run(old(State()), others)
      decreases |others|
    {
      if others != [] {
        OtherThreadStep(others[0]);
        Wait(others[1..]);
      }
    }

    /** One atomic move of another thread, made while this thread waits. */
    method OtherThreadStep(other: Move)
      requires Valid()
      modifies this
      ensures Valid() && State() == Interfere(old(State()), other)
    {
      match other
      case Idle =>
      case Lock(s) => OtherThreadLock(s);
      case Unlock(s) => OtherThreadUnlock(s);
    }

    /** Another thread's lock commit, inside the monitor, when its guard holds. */
    method OtherThreadLock(s: Side)
      requires Valid()
      modifies this
      ensures Valid() && State() == Interfere(old(State()), Lock(s))
    {
      ghost var before := State();
      if Admits(cntr, s) {
        AcquireKeepsConsistent(before, s);
        cntr := cntr + Sign(s);
        if s == A { holdersA := holdersA + 1; } else { holdersB := holdersB + 1; }
        assert State() == Acquire(before, s);
      }
    }

    /** Another thread's unlock of a side somebody holds. */
    method OtherThreadUnlock(s: Side)
      requires Valid()
      modifies this
      ensures Valid() && State() == Interfere(old(State()), Unlock(s))
    {
      ghost var before := State();
      if s == A && cntr > 0 {
        ReleaseKeepsConsistent(before, A);
        cntr, holdersA := cntr - 1, holdersA - 1;
        assert State() == Release(before, A);
      } else if s == B && cntr < 0 {
        ReleaseKeepsConsistent(before, B);
        cntr, holdersB := cntr + 1, holdersB - 1;
        assert State() == Release(before, B);
      }
    }

    /** lockA: wait while the counter is negative, then increment it. */
    method LockA(others: seq<seq<Move>>) returns (acquired: bool)
      requires Valid()
      modifies this
      ensures Valid()
      ensures Outcome(State(), acquired) == MonitorAcquire(old(State()), A, others)
    {
      ghost var start := State();
      var i := 0;
      while cntr < 0 && i < |others|
        invariant 0 <= i <= |others|
        invariant Valid()
        invariant MonitorAcquire(start, A, others) == MonitorAcquire(State(), A, others[i..])
        decreases |others| - i
      {
        MonitorAcquireWaits(State(), A, others, i);
        Wait(others[i]);
        i := i + 1;
      }
      acquired := cntr >= 0;
      ghost var waited := State();
      if acquired {
        AcquireKeepsConsistent(waited, A);
        cntr, holdersA := cntr + 1, holdersA + 1;
      } else {
        assert |others[i..]| == 0;
      }
    }

    /** unlockA: decrement, and wake every waiter when the counter reaches 0. */
    method UnlockA() returns (wake: bool)
      requires Valid() && holdersA > 0
      modifies this
      ensures Valid() && State() == Release(old(State()), A)
      ensures cntr == old(cntr) - 1
      ensures wake <==> cntr == 0
      ensures wake <==> old(holdersA) == 1
    {
      ReleaseKeepsConsistent(State(), A);
      cntr, holdersA := cntr - 1, holdersA - 1;
      wake := cntr == 0;
    }

    /** lockB: wait while the counter is positive, then decrement it. */
    method LockB(others: seq<seq<Move>>) returns (acquired: bool)
      requires Valid()
      modifies this
      ensures Valid()
      ensures Outcome(State(), acquired) == MonitorAcquire(old(State()), B, others)
    {
      ghost var start := State();
      var i := 0;
      while cntr > 0 && i < |others|
        invariant 0 <= i <= |others|
        invariant Valid()
        invariant MonitorAcquire(start, B, others) == MonitorAcquire(State(), B, others[i..])
        decreases |others| - i
      {
        MonitorAcquireWaits(State(), B, others, i);
        Wait(others[i]);
        i := i + 1;
      }
      acquired := cntr <= 0;
      ghost var waited := State();
      if acquired {
        AcquireKeepsConsistent(waited, B);
        cntr, holdersB := cntr - 1, holdersB + 1;
      } else {
        assert |others[i..]| == 0;
      }
    }

    /** unlockB: increment, and wake every waiter when the counter reaches 0. */
    method UnlockB() returns (wake: bool)
      requires Valid() && holdersB > 0
      modifies this
      ensures Valid() && State() == Release(old(State()), B)
      ensures cntr == old(cntr) + 1
      ensures wake <==> cntr == 0
      ensures wake <==> old(holdersB) == 1
    {
      ReleaseKeepsConsistent(State(), B);
      cntr, holdersB := cntr + 1, holdersB - 1;
      wake := cntr == 0;
    }
  }
}
