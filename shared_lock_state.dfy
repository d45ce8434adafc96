/**
 * The state machine shared by both implementations of the A/B shared lock.
 *
 * The whole lock is one signed counter: positive for the number of A holders,
 * negative for minus the number of B holders, zero when nothing is held.
 * A `Config` pairs that counter with ghost counts of the holders of each side,
 * so that the mutual-exclusion rule can be stated and kept.
 */
module SharedLockState {

  /** The two sides of the lock. */
  datatype Side = A | B

  /** One atomic step that some other thread takes on the same lock. */
  datatype Move = Idle | Lock(side: Side) | Unlock(side: Side)

  /** The counter together with how many callers hold each side. */
  datatype Config = Config(counter: int, holdersA: nat, holdersB: nat)

  /** What one acquisition leaves behind: the state, and whether the caller now holds the side. */
  datatype Outcome = Outcome(after: Config, acquired: bool)

  /** A freshly built lock: counter 0, nobody holds anything. */
  const Neutral := Config(0, 0, 0)

  function Holders(st: Config, s: Side): nat
  {
    match s
    case A => st.holdersA
    case B => st.holdersB
  }

  function Opposite(s: Side): Side
  {
    match s
    case A => B
    case B => A
  }

  /** +1 for A, -1 for B: the direction in which an acquisition of that side moves the counter. */
  function Sign(s: Side): int
  {
    match s
    case A => 1
    case B => -1
  }

  /** Mutual exclusion: the two sides are never held at the same time. */
  predicate Exclusive(st: Config)
  {
    st.holdersA == 0 || st.holdersB == 0
  }

  /** The lock invariant: sides exclusive, and the counter is A holders minus B holders. */
  predicate Consistent(st: Config)
  {
    Exclusive(st) && st.counter == st.holdersA - st.holdersB
  }

  /**
   * The guard an acquisition must observe before it commits: A needs counter >= 0, B needs
   * counter <= 0. `GuardMeansOppositeFree` says what that means for the holders.
   */
  predicate Admits(counter: int, s: Side)
  {
    match s
    case A => counter >= 0
    case B => counter <= 0
  }

  /** The committing step of an acquisition: one more holder of `s`, one step on the sign of `s`, nothing else. */
  function Acquire(st: Config, s: Side): (after: Config)
    ensures Holders(after, s) == Holders(st, s) + 1
    ensures Holders(after, Opposite(s)) == Holders(st, Opposite(s))
    ensures after.counter == st.counter + Sign(s)
  {
    match s
    case A => Config(st.counter + 1, st.holdersA + 1, st.holdersB)
    case B => Config(st.counter - 1, st.holdersA, st.holdersB + 1)
  }

  /** An unlock: one holder of `s` fewer, one step back against the sign of `s`, nothing else. */
  function Release(st: Config, s: Side): (after: Config)
    requires Holders(st, s) > 0
    ensures Holders(after, s) == Holders(st, s) - 1
    ensures Holders(after, Opposite(s)) == Holders(st, Opposite(s))
    ensures after.counter == st.counter - Sign(s)
  {
    match s
    case A => Config(st.counter - 1, st.holdersA - 1, st.holdersB)
    case B => Config(st.counter + 1, st.holdersA, st.holdersB - 1)
  }

  /**
   * Another thread's move: a lock commits only when its guard holds (otherwise that
   * thread is still waiting), an unlock only when somebody holds that side.
   */
  function Interfere(st: Config, m: Move): Config
  {
    match m
    case Idle => st
    case Lock(s) => if Admits(st.counter, s) then Acquire(st, s) else st
    case Unlock(s) => if Holders(st, s) > 0 then Release(st, s) else st
  }

  /** The moves of other threads, one after another. */
  function Run(st: Config, others: seq<Move>): Config
    decreases |others|
  {
    if others == [] then st else Run(Interfere(st, others[0]), others[1..])
  }

  /**
   * An acquisition attempt racing with `others` behaves as one atomic step: either it
   * never committed and only the other threads changed the lock, or some prefix of the
   * other threads' moves ran, the guard held, and the attempt committed at that point.
   */
  ghost predicate Linearizes(st: Config, s: Side, others: seq<Move>, r: Outcome)
  {
    if r.acquired then
      exists k :: 0 <= k <= |others| && Admits(Run(st, others[..k]).counter, s)
                  && r.after == Acquire(Run(st, others[..k]), s)
    else
      r.after == Run(st, others)
  }

  /** The holders that a counter value stands for. */
  function HoldersOf(counter: int): (st: Config)
    ensures Consistent(st) && st.counter == counter
    ensures counter > 0 ==> st.holdersA == counter && st.holdersB == 0
    ensures counter < 0 ==> st.holdersB == -counter && st.holdersA == 0
    ensures counter == 0 ==> st == Neutral
  {
    if counter >= 0 then Config(counter, counter, 0) else Config(counter, 0, -counter)
  }

  /** The counter alone determines the holders: one atomic word is the whole lock. */
  lemma CounterDeterminesHolders(st: Config)
    requires Consistent(st)
    ensures st == HoldersOf(st.counter)
  {
  }

  /** A new lock is consistent and lets either side in. */
  lemma NeutralAdmitsBoth()
    ensures Consistent(Neutral) && Admits(Neutral.counter, A) && Admits(Neutral.counter, B)
  {
  }

  /** An admitted acquisition keeps the invariant: nobody holds the other side, and the counter moves one step on the side's sign. */
  lemma AcquireKeepsConsistent(st: Config, s: Side)
    requires Consistent(st) && Admits(st.counter, s)
    ensures Consistent(Acquire(st, s)) && Holders(st, Opposite(s)) == 0
    ensures Acquire(st, s).counter == st.counter + Sign(s)
    ensures st.counter > 0 ==> Acquire(st, s).counter > 0
    ensures st.counter < 0 ==> Acquire(st, s).counter < 0
  {
    match s
    case A => assert st.holdersB == 0;
    case B => assert st.holdersA == 0;
  }

  /** What the guard means: in a consistent state it admits `s` exactly when nobody holds the opposite side. */
  lemma GuardMeansOppositeFree(st: Config, s: Side)
    requires Consistent(st)
    ensures Admits(st.counter, s) <==> Holders(st, Opposite(s)) == 0
  {
    match s
    case A => assert Admits(st.counter, A) <==> st.holdersB == 0;
    case B => assert Admits(st.counter, B) <==> st.holdersA == 0;
  }

  /** The guard is also necessary: an acquisition it rejects would break mutual exclusion. */
  lemma GuardIsNecessary(st: Config, s: Side)
    requires Consistent(st) && !Admits(st.counter, s)
    ensures Holders(st, Opposite(s)) > 0
    ensures !Exclusive(Acquire(st, s))
  {
    match s
    case A => assert st.holdersB > 0;
    case B => assert st.holdersA > 0;
  }

  /**
   * An unlock of a held side keeps the invariant, moves the counter by exactly one towards
   * zero, and reaches zero exactly when the last holder of that side leaves.
   */
  lemma ReleaseKeepsConsistent(st: Config, s: Side)
    requires Consistent(st) && Holders(st, s) > 0
    ensures Consistent(Release(st, s))
    ensures Release(st, s).counter == st.counter - Sign(s)
    ensures Release(st, s).counter == 0 <==> Holders(st, s) == 1
    ensures st.counter > 0 ==> Release(st, s).counter >= 0
    ensures st.counter < 0 ==> Release(st, s).counter <= 0
  {
    match s
    case A => assert Release(st, s) == Config(st.counter - 1, st.holdersA - 1, st.holdersB);
    case B => assert Release(st, s) == Config(st.counter + 1, st.holdersA, st.holdersB - 1);
  }

  /** An unlock undoes the acquisition of the same side. */
  lemma ReleaseUndoesAcquire(st: Config, s: Side)
    ensures Holders(Acquire(st, s), s) == Holders(st, s) + 1
    ensures Release(Acquire(st, s), s) == st
  {
  }

  /** The counter never changes sign without passing through zero. */
  lemma InterfereKeepsConsistent(st: Config, m: Move)
    requires Consistent(st)
    ensures Consistent(Interfere(st, m))
    ensures st.counter > 0 ==> Interfere(st, m).counter >= 0
    ensures st.counter < 0 ==> Interfere(st, m).counter <= 0
  {
    match m
    case Idle =>
    case Lock(s) => OtherLockKeepsConsistent(st, s);
    case Unlock(s) => OtherUnlockKeepsConsistent(st, s);
  }

  /** Another thread's lock keeps the invariant and the sign of the counter. */
  lemma OtherLockKeepsConsistent(st: Config, s: Side)
    requires Consistent(st)
    ensures Consistent(Interfere(st, Lock(s)))
    ensures st.counter > 0 ==> Interfere(st, Lock(s)).counter >= 0
    ensures st.counter < 0 ==> Interfere(st, Lock(s)).counter <= 0
  {
    if Admits(st.counter, s) {
      AcquireKeepsConsistent(st, s);
    }
  }

  /** Another thread's unlock keeps the invariant and the sign of the counter. */
  lemma OtherUnlockKeepsConsistent(st: Config, s: Side)
    requires Consistent(st)
    ensures Consistent(Interfere(st, Unlock(s)))
    ensures st.counter > 0 ==> Interfere(st, Unlock(s)).counter >= 0
    ensures st.counter < 0 ==> Interfere(st, Unlock(s)).counter <= 0
  {
    if Holders(st, s) > 0 {
      ReleaseKeepsConsistent(st, s);
    }
  }

  /** Any interleaving of other threads' moves keeps the invariant. */
  lemma {:induction false} RunKeepsConsistent(st: Config, others: seq<Move>)
    requires Consistent(st)
    ensures Consistent(Run(st, others))
    decreases |others|
  {
    if others != [] {
      InterfereKeepsConsistent(st, others[0]);
      RunKeepsConsistent(Interfere(st, others[0]), others[1..]);
    }
  }

  /**
   * A schedule cut into bursts, one burst per pass of a loop, read as one run of moves:
   * `bursts[i]` is everything other threads do while the caller sits in its i-th pass.
   */
  function Flatten(bursts: seq<seq<Move>>): seq<Move>
    decreases |bursts|
  {
    if bursts == [] then [] else bursts[0] + Flatten(bursts[1..])
  }

  /** Running two schedules one after the other is running their concatenation. */
  lemma {:induction false} RunAppend(st: Config, first: seq<Move>, second: seq<Move>)
    ensures Run(st, first + second) == Run(Run(st, first), second)
    decreases |first|
  {
    if first == [] {
      assert first + second == second;
    } else {
      assert (first + second)[0] == first[0];
      assert (first + second)[1..] == first[1..] + second;
      RunAppend(Interfere(st, first[0]), first[1..], second);
    }
  }

  /** Another thread that locks a side and unlocks it again leaves the lock as it was. */
  lemma ComeAndGo(st: Config, s: Side)
    requires Admits(st.counter, s)
    ensures Run(st, [Lock(s), Unlock(s)]) == st
  {
    var burst := [Lock(s), Unlock(s)];
    var held := Acquire(st, s);
    ReleaseUndoesAcquire(st, s);
    assert burst[1..] == [Unlock(s)] && burst[1..][1..] == [];
    calc {
      Run(st, burst);
      Run(Interfere(st, Lock(s)), [Unlock(s)]);
      { assert Interfere(st, Lock(s)) == held; }
      Run(held, [Unlock(s)]);
      Run(Interfere(held, Unlock(s)), []);
      { assert Interfere(held, Unlock(s)) == Release(held, s); }
      st;
    }
  }

  /** A holder that unlocks and is replaced at once by a new holder of the same side leaves the lock as it was. */
  lemma LeaveAndReturn(st: Config, s: Side)
    requires Consistent(st) && Holders(st, s) > 0
    ensures Run(st, [Unlock(s), Lock(s)]) == st
  {
    var burst := [Unlock(s), Lock(s)];
    var left := Release(st, s);
    ReleaseKeepsConsistent(st, s);
    assert Admits(left.counter, s) && Acquire(left, s) == st by {
      match s
      case A =>
        assert st.holdersB == 0 && left == Config(st.counter - 1, st.holdersA - 1, st.holdersB);
      case B =>
        assert st.holdersA == 0 && left == Config(st.counter + 1, st.holdersA, st.holdersB - 1);
    }
    assert burst[1..] == [Lock(s)] && burst[1..][1..] == [];
    calc {
      Run(st, burst);
      Run(Interfere(st, Unlock(s)), [Lock(s)]);
      { assert Interfere(st, Unlock(s)) == left; }
      Run(left, [Lock(s)]);
      Run(Interfere(left, Lock(s)), []);
      { assert Interfere(left, Lock(s)) == Acquire(left, s); }
      st;
    }
  }

  /**
   * If a burst of moves is taken on its own, a linearization of the rest of the schedule
   * from the resulting state is a linearization of the whole schedule.
   */
  lemma LinearizesAfterPrefix(st: Config, s: Side, burst: seq<Move>, rest: seq<Move>, r: Outcome)
    requires Linearizes(Run(st, burst), s, rest, r)
    ensures Linearizes(st, s, burst + rest, r)
  {
    var next := Run(st, burst);
    if r.acquired {
      var k :| 0 <= k <= |rest| && Admits(Run(next, rest[..k]).counter, s)
               && r.after == Acquire(Run(next, rest[..k]), s);
      var whole, j := burst + rest, |burst| + k;
      assert whole[..j] == burst + rest[..k];
      RunAppend(st, burst, rest[..k]);
      assert Run(st, whole[..j]) == Run(next, rest[..k]);
      assert 0 <= j <= |whole| && Admits(Run(st, whole[..j]).counter, s)
             && r.after == Acquire(Run(st, whole[..j]), s);
    } else {
      RunAppend(st, burst, rest);
    }
  }

  /**
   * Mutual exclusion for any acquisition that linearizes: the invariant survives, and a
   * caller that acquired side `s` finds itself among at least one holder of `s`, with
   * nobody holding the opposite side, and the counter on the sign of `s`.
   */
  lemma LinearizedKeepsExclusion(st: Config, s: Side, others: seq<Move>, r: Outcome)
    requires Consistent(st) && Linearizes(st, s, others, r)
    ensures Consistent(r.after)
    ensures r.acquired ==> Holders(r.after, s) >= 1 && Holders(r.after, Opposite(s)) == 0
    ensures r.acquired ==> r.after.counter * Sign(s) >= 1
  {
    if r.acquired {
      var k :| 0 <= k <= |others| && Admits(Run(st, others[..k]).counter, s)
               && r.after == Acquire(Run(st, others[..k]), s);
      RunKeepsConsistent(st, others[..k]);
      AcquireKeepsConsistent(Run(st, others[..k]), s);
    } else {
      RunKeepsConsistent(st, others);
    }
  }

  /** With no A holder, a counter one below a consistent one stands for a phantom extra B holder. */
  lemma PhantomHolder(st: Config)
    requires Consistent(st) && st.holdersA == 0
    ensures HoldersOf(st.counter - 1).holdersB == st.holdersB + 1
  {
    assert st.counter - 1 < 0;
  }

  /** With one A holder, a counter one below a consistent one is 0, and a B acquisition then breaks exclusion. */
  lemma PrematureNeutral(st: Config)
    requires Consistent(st) && st.holdersA == 1
    ensures Admits(st.counter - 1, B) && !Exclusive(Acquire(st, B))
  {
  }

  /**
   * An unlockA that the code performs without a matching lockA releases nobody, and the
   * counter no longer matches the holders. With no A holder, the counter now stands for
   * a phantom extra B holder. With one A holder still inside, the counter drops to 0, so
   * lockB is admitted while A is held: mutual exclusion is lost.
   */
  lemma UncheckedUnlockCorrupts(st: Config)
    requires Consistent(st)
    ensures !Consistent(Config(st.counter - 1, st.holdersA, st.holdersB))
    ensures st.holdersA == 0 ==> HoldersOf(st.counter - 1).holdersB == st.holdersB + 1
    ensures st.holdersA == 1 ==> Admits(st.counter - 1, B) && !Exclusive(Acquire(st, B))
  {
    if st.holdersA == 0 {
      PhantomHolder(st);
    } else if st.holdersA == 1 {
      PrematureNeutral(st);
    }
  }
}
