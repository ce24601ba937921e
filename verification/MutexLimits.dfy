/** Where exact inheritance stops: concrete runs that leave a thread boosted by nobody. */
module MutexLimits {
  import opened Basics
  import opened WaitList
  import opened MutexModel
  import opened MutexWalk
  import opened MutexSteps
  import opened MutexKeeps
  import opened MutexRuns
  import opened MutexChains
  import opened MutexLeftovers

  lemma RunOne(s: Sys, a: Step, r: Sys, rest: seq<Step>)
    requires Safe(s) && Enabled(s, a) && Next(s, a) == r
    ensures Safe(r) && Run(s, [a] + rest) == Run(r, rest)
  {
    NextKeeps(s, a);
    assert ([a] + rest)[1..] == rest;
  }

  function Idle(taken: seq<nat>): Thread { Thread(false, None, taken, None, false) }
  function WaitingOn(m: nat, taken: seq<nat>): Thread { Thread(true, Some(m), taken, Some(m), false) }
  function GivingUp(m: nat, taken: seq<nat>): Thread { Thread(false, Some(m), taken, Some(m), true) }

  // Thread 1 times out on mutex 0; before it cleans up, thread 2 blocks on mutex 1 and boosts it.
  // The clean-up then no longer recognises the priority it lent to thread 0, which keeps it even
  // after it has released its only mutex.
  const SPLIT_TIMEOUT: seq<Step> := [DoTake(0, 0, true)] + SPLIT_TAIL1
  const SPLIT_TAIL1: seq<Step> := [DoTake(1, 1, true)] + SPLIT_TAIL2
  const SPLIT_TAIL2: seq<Step> := [DoTake(1, 0, true)] + SPLIT_TAIL3
  const SPLIT_TAIL3: seq<Step> := [DoTimer(1)] + SPLIT_TAIL4
  const SPLIT_TAIL4: seq<Step> := [DoTake(2, 1, true)] + SPLIT_TAIL5
  const SPLIT_TAIL5: seq<Step> := [DoResume(1)] + SPLIT_TAIL6
  const SPLIT_TAIL6: seq<Step> := [DoRelease(0, 0)] + []

  const T0 := Start([10, 5, 1], 2)
  const T1 := Sys([10, 5, 1], [10, 5, 1], [Idle([0]), Idle([]), Idle([])],
                  [Mutex(Some(0), 1), Mutex(None, 0)], [255, 255], [[], []])
  const T2 := Sys([10, 5, 1], [10, 5, 1], [Idle([0]), Idle([1]), Idle([])],
                  [Mutex(Some(0), 1), Mutex(Some(1), 1)], [255, 255], [[], []])
  const T3 := Sys([10, 5, 1], [5, 5, 1], [Idle([0]), WaitingOn(0, [1]), Idle([])],
                  [Mutex(Some(0), 1), Mutex(Some(1), 1)], [5, 255], [[1], []])
  const T4 := Sys([10, 5, 1], [5, 5, 1], [Idle([0]), GivingUp(0, [1]), Idle([])],
                  [Mutex(Some(0), 1), Mutex(Some(1), 1)], [5, 255], [[], []])
  const T5 := Sys([10, 5, 1], [5, 1, 1], [Idle([0]), GivingUp(0, [1]), WaitingOn(1, [])],
                  [Mutex(Some(0), 1), Mutex(Some(1), 1)], [5, 1], [[], [2]])
  const T6 := Sys([10, 5, 1], [5, 1, 1], [Idle([0]), Thread(false, None, [1], None, true), WaitingOn(1, [])],
                  [Mutex(Some(0), 1), Mutex(Some(1), 1)], [255, 1], [[], [2]])
  const T7 := Sys([10, 5, 1], [5, 1, 1], [Idle([]), Thread(false, None, [1], None, true), WaitingOn(1, [])],
                  [Mutex(None, 0), Mutex(Some(1), 1)], [255, 1], [[], [2]])

  lemma Split1(rest: seq<Step>)
    requires Safe(T0)
    ensures Safe(T1) && Run(T0, [DoTake(0, 0, true)] + rest) == Run(T1, rest)
  {
    assert [0] + T0.thread[0].taken == [0];
    var r := Next(T0, DoTake(0, 0, true));
    assert forall t :: 0 <= t < 3 ==> r.thread[t] == T1.thread[t];
    assert r.thread == T1.thread && r.mutex == T1.mutex;
    assert r.curr == T1.curr && r.mprio == T1.mprio && r.waiters == T1.waiters;
    RunOne(T0, DoTake(0, 0, true), T1, rest);
  }

  lemma Split2(rest: seq<Step>)
    requires Safe(T1)
    ensures Safe(T2) && Run(T1, [DoTake(1, 1, true)] + rest) == Run(T2, rest)
  {
    assert [1] + T1.thread[1].taken == [1];
    var r := Next(T1, DoTake(1, 1, true));
    assert forall t :: 0 <= t < 3 ==> r.thread[t] == T2.thread[t];
    assert r.thread == T2.thread && r.mutex == T2.mutex;
    assert r.curr == T2.curr && r.mprio == T2.mprio && r.waiters == T2.waiters;
    RunOne(T1, DoTake(1, 1, true), T2, rest);
  }

  lemma Split3(rest: seq<Step>)
    requires Safe(T2)
    ensures Safe(T3) && Run(T2, [DoTake(1, 0, true)] + rest) == Run(T3, rest)
  {
    RunOne(T2, DoTake(1, 0, true), T3, rest);
  }

  lemma Split4(rest: seq<Step>)
    requires Safe(T3)
    ensures Safe(T4) && Run(T3, [DoTimer(1)] + rest) == Run(T4, rest)
  {
    RunOne(T3, DoTimer(1), T4, rest);
  }

  lemma Split5(rest: seq<Step>)
    requires Safe(T4)
    ensures Safe(T5) && Run(T4, [DoTake(2, 1, true)] + rest) == Run(T5, rest)
  {
    RunOne(T4, DoTake(2, 1, true), T5, rest);
  }

  lemma Split6(rest: seq<Step>)
    requires Safe(T5)
    ensures Safe(T6) && Run(T5, [DoResume(1)] + rest) == Run(T6, rest)
  {
    var r := Next(T5, DoResume(1));
    assert forall t :: 0 <= t < 3 ==> r.thread[t] == T6.thread[t];
    assert r.thread == T6.thread && r.mutex == T6.mutex;
    assert r.curr == T6.curr && r.mprio == T6.mprio && r.waiters == T6.waiters;
    RunOne(T5, DoResume(1), T6, rest);
  }

  lemma Split7(rest: seq<Step>)
    requires Safe(T6)
    ensures Safe(T7) && Run(T6, [DoRelease(0, 0)] + rest) == Run(T7, rest)
  {
    var r := Next(T6, DoRelease(0, 0));
    assert forall t :: 0 <= t < 3 ==> r.thread[t] == T7.thread[t];
    assert r.thread == T7.thread && r.mutex == T7.mutex;
    assert r.curr == T7.curr && r.mprio == T7.mprio && r.waiters == T7.waiters;
    RunOne(T6, DoRelease(0, 0), T7, rest);
  }

  lemma SplitTimeoutRun()
    ensures Safe(T0) && Safe(T7) && Run(T0, SPLIT_TIMEOUT) == T7
  {
    StartExact([10, 5, 1], 2);
    Split1(SPLIT_TAIL1);
    Split2(SPLIT_TAIL2);
    Split3(SPLIT_TAIL3);
    Split4(SPLIT_TAIL4);
    Split5(SPLIT_TAIL5);
    Split6(SPLIT_TAIL6);
    Split7([]);
  }

  /** Nobody is between timeout and clean-up any more, thread 0 owns no mutex, and yet it runs at
    * priority 5 where it was created with 10: it stays there in every continuation until it owns a
    * mutex again. */
  lemma SplitTimeoutLeavesBoost(more: seq<Step>)
    ensures Safe(T0) && Exact(T0) && Safe(T7) && Run(T0, SPLIT_TIMEOUT) == T7
    ensures NoneFailed(T7) && T7.thread[0].taken == [] && T7.init[0] == 10 && T7.curr[0] == 5
    ensures !AllMeet(T0, SPLIT_TIMEOUT) && !ExactThroughout(T0, SPLIT_TIMEOUT)
    ensures Sized(T6) && LastRelease(T6, DoRelease(0, 0)) && !Guarded(T6, DoRelease(0, 0))
    ensures !AllGuarded(T0, SPLIT_TIMEOUT)
    ensures OwnsNothingThroughout(T7, more, 0) ==> |Run(T7, more).curr| > 0 && Run(T7, more).curr[0] == 5
  {
    hide Safe, ExactUpTo, Run, AllMeet, ExactThroughout, AllGuarded, OwnsNothingThroughout, Guarded, LastRelease;
    SplitTimeoutRun();
    StartExact([10, 5, 1], 2);
    SplitMissed();
    UnguardedRelease();
    if OwnsNothingThroughout(T7, more, 0) {
      LeftoverStays(T7, more, 0);
    }
  }

  lemma SplitMissed()
    requires Safe(T0) && Exact(T0) && Safe(T7) && Run(T0, SPLIT_TIMEOUT) == T7
    ensures !AllMeet(T0, SPLIT_TIMEOUT) && !ExactThroughout(T0, SPLIT_TIMEOUT) && !AllGuarded(T0, SPLIT_TIMEOUT)
  {
    hide Safe, ExactUpTo, AllMeet, ExactThroughout, AllGuarded, Run;
    NoClaims(T0);
    EveryRunExactIff(T0, SPLIT_TIMEOUT);
    ExactGuards(T0, DoSleep(0), {});
    EveryRunAtInitIff(T0, SPLIT_TIMEOUT);
    assert T7.thread[0].taken == [] && T7.curr[0] != T7.init[0];
    if AllMeet(T0, SPLIT_TIMEOUT) {
      MeetingRunsAreGuarded(T0, SPLIT_TIMEOUT);
    }
  }

  // The guard reads 5 == 10 or 5 == 255.
  lemma UnguardedRelease()
    ensures Sized(T6) && LastRelease(T6, DoRelease(0, 0)) && !Guarded(T6, DoRelease(0, 0))
  {
  }

  // Threads 0 and 1 deadlock; thread 2 joins them and gives up.  The two keep each other at the
  // priority it lent them.
  const DEADLOCK: seq<Step> := [DoTake(0, 0, true)] + DEADLOCK_TAIL1
  const DEADLOCK_TAIL1: seq<Step> := [DoTake(1, 1, true)] + DEADLOCK_TAIL2
  const DEADLOCK_TAIL2: seq<Step> := [DoTake(0, 1, true)] + DEADLOCK_TAIL3
  const DEADLOCK_TAIL3: seq<Step> := [DoTake(1, 0, true)] + DEADLOCK_TAIL4
  const DEADLOCK_TAIL4: seq<Step> := [DoTake(2, 0, true)] + DEADLOCK_TAIL5
  const DEADLOCK_TAIL5: seq<Step> := [DoGiveUp(2)] + []

  const D0 := Start([10, 10, 1], 2)
  const D1 := Sys([10, 10, 1], [10, 10, 1], [Idle([0]), Idle([]), Idle([])],
                  [Mutex(Some(0), 1), Mutex(None, 0)], [255, 255], [[], []])
  const D2 := Sys([10, 10, 1], [10, 10, 1], [Idle([0]), Idle([1]), Idle([])],
                  [Mutex(Some(0), 1), Mutex(Some(1), 1)], [255, 255], [[], []])
  const D3 := Sys([10, 10, 1], [10, 10, 1], [WaitingOn(1, [0]), Idle([1]), Idle([])],
                  [Mutex(Some(0), 1), Mutex(Some(1), 1)], [255, 10], [[], [0]])
  const D4 := Sys([10, 10, 1], [10, 10, 1], [WaitingOn(1, [0]), WaitingOn(0, [1]), Idle([])],
                  [Mutex(Some(0), 1), Mutex(Some(1), 1)], [10, 10], [[1], [0]])
  const D5 := Sys([10, 10, 1], [1, 1, 1], [WaitingOn(1, [0]), WaitingOn(0, [1]), WaitingOn(0, [])],
                  [Mutex(Some(0), 1), Mutex(Some(1), 1)], [1, 1], [[2, 1], [0]])
  const D6 := Sys([10, 10, 1], [1, 1, 1], [WaitingOn(1, [0]), WaitingOn(0, [1]), Thread(false, None, [], None, true)],
                  [Mutex(Some(0), 1), Mutex(Some(1), 1)], [1, 1], [[1], [0]])

  lemma Deadlock1(rest: seq<Step>)
    requires Safe(D0)
    ensures Safe(D1) && Run(D0, [DoTake(0, 0, true)] + rest) == Run(D1, rest)
  {
    assert [0] + D0.thread[0].taken == [0];
    var r := Next(D0, DoTake(0, 0, true));
    assert forall t :: 0 <= t < 3 ==> r.thread[t] == D1.thread[t];
    assert r.thread == D1.thread && r.mutex == D1.mutex;
    assert r.curr == D1.curr && r.mprio == D1.mprio && r.waiters == D1.waiters;
    RunOne(D0, DoTake(0, 0, true), D1, rest);
  }

  lemma Deadlock2(rest: seq<Step>)
    requires Safe(D1)
    ensures Safe(D2) && Run(D1, [DoTake(1, 1, true)] + rest) == Run(D2, rest)
  {
    assert [1] + D1.thread[1].taken == [1];
    var r := Next(D1, DoTake(1, 1, true));
    assert forall t :: 0 <= t < 3 ==> r.thread[t] == D2.thread[t];
    assert r.thread == D2.thread && r.mutex == D2.mutex;
    assert r.curr == D2.curr && r.mprio == D2.mprio && r.waiters == D2.waiters;
    RunOne(D1, DoTake(1, 1, true), D2, rest);
  }

  lemma Deadlock3(rest: seq<Step>)
    requires Safe(D2)
    ensures Safe(D3) && Run(D2, [DoTake(0, 1, true)] + rest) == Run(D3, rest)
  {
    var r := Next(D2, DoTake(0, 1, true));
    assert forall t :: 0 <= t < 3 ==> r.thread[t] == D3.thread[t];
    assert r.thread == D3.thread && r.mutex == D3.mutex;
    assert r.curr == D3.curr && r.mprio == D3.mprio && r.waiters == D3.waiters;
    RunOne(D2, DoTake(0, 1, true), D3, rest);
  }

  lemma Deadlock4(rest: seq<Step>)
    requires Safe(D3)
    ensures Safe(D4) && Run(D3, [DoTake(1, 0, true)] + rest) == Run(D4, rest)
  {
    var r := Next(D3, DoTake(1, 0, true));
    assert forall t :: 0 <= t < 3 ==> r.thread[t] == D4.thread[t];
    assert r.thread == D4.thread && r.mutex == D4.mutex;
    assert r.curr == D4.curr && r.mprio == D4.mprio && r.waiters == D4.waiters;
    RunOne(D3, DoTake(1, 0, true), D4, rest);
  }

  // Thread 2 is linked and thread 0 boosted; then thread 1 is.
  const D4A := D5.(curr := [1, 10, 1], mprio := [1, 10])
  const D4B := D5.(mprio := [1, 1])

  lemma DeadlockWalk()
    requires AlmostSafe(D4A, 0, 10)
    ensures AlmostSafe(D4B, 1, 10) && Walk(D4A, 0, 10) == Walk(D4B, 1, 10)
  {
    TurnSafe(D4A, 0, 10, 1);
    var r := Requeue(D4A, 0, 1);
    assert r.waiters == D4A.waiters && r.mprio == [1, 1];
    assert r.curr[1 := 1] == D4B.curr;
    assert SetPriority(r, 1, 1) == D4B;
  }

  lemma DeadlockQueue()
    ensures Remove([2, 1], 1) == [2] && Enqueue([1, 1, 1], [2], 1) == [2, 1] && Enqueue([10, 10, 1], [1], 2) == [2, 1]
  {
    assert [2, 1][1..] == [1];
    assert Enqueue([1, 1, 1], [2], 1) == [2] + Enqueue([1, 1, 1], [], 1);
  }

  lemma DeadlockWalkEnd()
    requires AlmostSafe(D4B, 1, 10)
    ensures Walk(D4B, 1, 10) == D5
  {
    TurnSafe(D4B, 1, 10, 0);
    DeadlockQueue();
    var r := Requeue(D4B, 1, 0);
    assert D4B.waiters[0] == [2, 1] && D4B.curr == [1, 1, 1];
    assert r.waiters[0] == [2, 1];
    assert r.waiters == D5.waiters && r.mprio == D5.mprio;
  }

  lemma DeadlockLink()
    requires Safe(D4)
    ensures Sized(D4) && Link(D4, 2, 0) == D4A.(curr := D4.curr)
  {
    DeadlockQueue();
    var r := Link(D4, 2, 0);
    assert r.waiters[0] == [2, 1];
    assert r.waiters == D5.waiters && r.mprio == [1, 10];
    assert forall t :: 0 <= t < 3 ==> r.thread[t] == D5.thread[t];
  }

  lemma DeadlockBlock()
    requires CanBlock(D4, 2, 0) && Link(D4, 2, 0) == D4A.(curr := D4.curr)
    ensures AlmostSafe(D4A, 0, 10) && Block(D4, 2, 0) == Walk(D4A, 0, 10)
  {
    LinkSettles(D4, 2, 0);
    assert SetPriority(Link(D4, 2, 0), 0, 1) == D4A;
  }

  lemma Deadlock5Step()
    requires Safe(D4)
    ensures Next(D4, DoTake(2, 0, true)) == D5
  {
    hide Walk, Link, Block, AlmostSafe, Safe;
    DeadlockLink();
    DeadlockBlock();
    DeadlockWalk();
    DeadlockWalkEnd();
  }

  lemma Deadlock5(rest: seq<Step>)
    requires Safe(D4)
    ensures Safe(D5) && Run(D4, [DoTake(2, 0, true)] + rest) == Run(D5, rest)
  {
    Deadlock5Step();
    RunOne(D4, DoTake(2, 0, true), D5, rest);
  }

  lemma Deadlock6(rest: seq<Step>)
    requires Safe(D5)
    ensures Safe(D6) && Run(D5, [DoGiveUp(2)] + rest) == Run(D6, rest)
  {
    var r := Next(D5, DoGiveUp(2));
    assert forall t :: 0 <= t < 3 ==> r.thread[t] == D6.thread[t];
    assert r.thread == D6.thread && r.mutex == D6.mutex;
    assert r.curr == D6.curr && r.mprio == D6.mprio && r.waiters == D6.waiters;
    RunOne(D5, DoGiveUp(2), D6, rest);
  }

  lemma DeadlockRun()
    ensures Safe(D0) && Safe(D6) && Run(D0, DEADLOCK) == D6
  {
    StartExact([10, 10, 1], 2);
    Deadlock1(DEADLOCK_TAIL1);
    Deadlock2(DEADLOCK_TAIL2);
    Deadlock3(DEADLOCK_TAIL3);
    Deadlock4(DEADLOCK_TAIL4);
    Deadlock5(DEADLOCK_TAIL5);
    Deadlock6([]);
  }

  lemma BehindBoth(x: nat, w: nat)
    requires BlockedBehind(D6, w, x)
    ensures w == 0 || w == 1
  {
    var m :| 0 <= m < |D6.mutex| && WaitsFor(D6, w, m) && Owns(D6, x, m);
  }

  lemma DeadlockBoosted()
    ensures SelfBoosted(D6, {0, 1}, 1)
  {
    hide Safe, BlockedBehind;
    forall x, w | x in {0, 1} && 0 <= w < |D6.curr| && BlockedBehind(D6, w, x) ensures w in {0, 1} {
      BehindBoth(x, w);
    }
  }

  lemma DeadlockSet()
    requires Safe(D6)
    ensures SelfBoosted(D6, {0, 1}, 1) && !HasSource(D6, 0)
  {
    hide Safe, SelfBoosted, HasSource;
    DeadlockBoosted();
    BoostHasASourceIff(D6, 0);
  }

  /** All equations hold, and thread 0 runs at a priority nobody behind it was created with: the two
    * deadlocked threads are the set that boosts itself. */
  lemma DeadlockKeepsBoost()
    ensures Safe(D0) && Safe(D6) && Run(D0, DEADLOCK) == D6 && Exact(D6)
    ensures D6.curr[0] == 1 && D6.init[0] == 10
    ensures SelfBoosted(D6, {0, 1}, 1) && !HasSource(D6, 0)
  {
    DeadlockRun();
    StartExact([10, 10, 1], 2);
    EveryPromptRunExact(D0, DEADLOCK);
    DeadlockSet();
  }
}
