/** What holds after every run of takes, releases, timeouts and resumptions of any number of threads
    on any number of mutexes, nested and chained as they like. */
module MutexRuns {
  import opened Basics
  import opened WaitList
  import opened MutexModel
  import opened MutexWalk
  import opened MutexSteps
  import opened MutexKeeps

  datatype Step =
    | DoTake(t: nat, m: nat, wait: bool)
    | DoRelease(t: nat, m: nat)
    | DoTimer(t: nat)        // the timer wakes a waiter
    | DoResume(t: nat)       // a woken waiter runs the rest of its take
    | DoGiveUp(t: nat)       // both at once
    | DoSleep(t: nat)        // suspension on anything but a mutex
    | DoWake(t: nat)

  predicate Enabled(s: Sys, a: Step) {
    match a
    case DoTake(t, m, _) => CanRun(s, t) && m < |s.mutex|
    case DoRelease(t, m) => CanRun(s, t) && m < |s.mutex|
    case DoTimer(t) => CanTimeOut(s, t)
    case DoResume(t) => CanResume(s, t)
    case DoGiveUp(t) => CanTimeOut(s, t)
    case DoSleep(t) => CanRun(s, t)
    case DoWake(t) => t < |s.thread| && s.thread[t].suspended && s.thread[t].waitingIn == None
  }

  function Next(s: Sys, a: Step): Sys
    requires Safe(s) && Enabled(s, a)
  {
    match a
    case DoTake(t, m, wait) => Take(s, t, m, wait).0
    case DoRelease(t, m) => Release(s, t, m).0
    case DoTimer(t) => TimerFires(s, t)
    case DoResume(t) => Resume(s, t).0
    case DoGiveUp(t) => TimerKeeps(s, t); Resume(TimerFires(s, t), t).0
    case DoSleep(t) => Sleep(s, t)
    case DoWake(t) => Wake(s, t)
  }

  // A step that is not enabled does nothing.
  function Run(s: Sys, steps: seq<Step>): Sys
    requires Safe(s)
    decreases |steps|
  {
    if steps == [] then s
    else if Enabled(s, steps[0]) then NextKeeps(s, steps[0]); Run(Next(s, steps[0]), steps[1..])
    else Run(s, steps[1..])
  }

  function Start(init: seq<nat>, mutexes: nat): Sys {
    Sys(init, init,
        seq(|init|, _ => Thread(false, None, [], None, false)),
        seq(mutexes, _ => Mutex(None, 0)),
        seq(mutexes, _ => NO_PRIORITY),
        seq(mutexes, _ => []))
  }

  lemma StartExact(init: seq<nat>, mutexes: nat)
    requires forall t :: 0 <= t < |init| ==> init[t] < PRIORITY_MAX
    ensures Exact(Start(init, mutexes)) && Safe(Start(init, mutexes))
  {
    var s := Start(init, mutexes);
    assert Sized(s);
    forall m | 0 <= m < |s.mutex| ensures MutexShape(s, m) {
      forall t ensures t in s.waiters[m] <==> WaitsFor(s, t, m) {}
    }
    forall t | 0 <= t < |s.thread| ensures ThreadShape(s, t) {
      forall m ensures m in s.thread[t].taken <==> Owns(s, t, m) {}
    }
    forall t | 0 <= t < |s.thread| ensures Inherits(s, t) {}
    ExactIsSafe(s);
  }

  lemma NextKeeps(s: Sys, a: Step)
    requires Safe(s) && Enabled(s, a)
    ensures Safe(Next(s, a))
  {
    match a
    case DoTake(t, m, wait) => TakeKeeps(s, t, m, wait);
    case DoRelease(t, m) => ReleaseKeeps(s, t, m);
    case DoTimer(t) => TimerKeeps(s, t);
    case DoResume(t) => ResumeKeeps(s, t);
    case DoGiveUp(t) =>
      TimerKeeps(s, t);
      ResumeKeeps(TimerFires(s, t), t);
    case DoSleep(t) =>
      assert ThreadShape(s, t);
      ThreadEdit(s, t, s.thread[t].(suspended := true));
    case DoWake(t) =>
      assert ThreadShape(s, t);
      ThreadEdit(s, t, s.thread[t].(suspended := false));
  }

  // With timeouts and clean-ups split and interleaved with everything else, no thread is ever less
  // urgent than a mutex it owns demands, and the links are sound.
  lemma {:induction false} EveryRunSafe(s: Sys, steps: seq<Step>)
    requires Safe(s)
    ensures Safe(Run(s, steps))
    decreases |steps|
  {
    if steps != [] {
      if Enabled(s, steps[0]) {
        NextKeeps(s, steps[0]);
        EveryRunSafe(Next(s, steps[0]), steps[1..]);
      } else {
        EveryRunSafe(s, steps[1..]);
      }
    }
  }

  /* ---------- outstanding clean-ups ---------- */

  // A thread between its timeout and its clean-up.
  predicate GaveUp(s: Sys, t: nat) {
    CanResume(s, t) && s.thread[t].failed
  }

  // The mutexes that may still carry the priority of a thread that gave up.
  ghost function Claims(s: Sys): set<nat> {
    set t | 0 <= t < |s.thread| && GaveUp(s, t) :: s.thread[t].waitingIn.value
  }

  // What a step does to a thread between timeout and clean-up.
  ghost predicate ClaimNext(s: Sys, a: Step, r: Sys, t: nat)
    requires t < |s.thread| == |r.thread|
  {
    && (GaveUp(r, t) <==> (GaveUp(s, t) && a != DoResume(t)) || a == DoTimer(t))
    && (GaveUp(s, t) && GaveUp(r, t) ==> r.thread[t].waitingIn == s.thread[t].waitingIn)
    && (a == DoTimer(t) ==> r.thread[t].waitingIn == s.thread[t].pending)
  }

  lemma TakeClaims(s: Sys, u: nat, m: nat, wait: bool, t: nat)
    requires Safe(s) && Enabled(s, DoTake(u, m, wait)) && t < |s.thread|
    ensures |Next(s, DoTake(u, m, wait)).thread| == |s.thread|
    ensures ClaimNext(s, DoTake(u, m, wait), Next(s, DoTake(u, m, wait)), t)
  {
    hide Bounded, Inherits, Queued;
    assert MutexShape(s, m);
    if s.mutex[m].owner.Some? && !Owns(s, u, m) && wait { BlockKeeps(s, u, m); }
  }

  lemma ReleaseClaims(s: Sys, u: nat, m: nat, t: nat)
    requires Safe(s) && Enabled(s, DoRelease(u, m)) && t < |s.thread|
    ensures |Next(s, DoRelease(u, m)).thread| == |s.thread|
    ensures ClaimNext(s, DoRelease(u, m), Next(s, DoRelease(u, m)), t)
  {
    hide Bounded, Inherits, Queued;
    assert MutexShape(s, m) && ThreadShape(s, u);
    if Owns(s, u, m) && s.mutex[m].hold <= 1 && s.waiters[m] != [] {
      var n := s.waiters[m][0];
      assert n in s.waiters[m] && WaitsFor(s, n, m) && ThreadShape(s, n);
    }
  }

  lemma ResumeClaims(s: Sys, u: nat, t: nat)
    requires Safe(s) && Enabled(s, DoResume(u)) && t < |s.thread|
    ensures |Next(s, DoResume(u)).thread| == |s.thread|
    ensures ClaimNext(s, DoResume(u), Next(s, DoResume(u)), t)
  {
    hide Bounded, Inherits, Queued;
    assert ThreadShape(s, u);
    if s.thread[u].failed { CleanUpSafe(s, u, s.thread[u].waitingIn.value); }
  }

  lemma TimerClaims(s: Sys, u: nat, t: nat)
    requires Safe(s) && Enabled(s, DoTimer(u)) && t < |s.thread|
    ensures |Next(s, DoTimer(u)).thread| == |s.thread|
    ensures ClaimNext(s, DoTimer(u), Next(s, DoTimer(u)), t)
  {
    assert ThreadShape(s, u);
  }

  lemma GiveUpClaims(s: Sys, u: nat, t: nat)
    requires Safe(s) && Enabled(s, DoGiveUp(u)) && t < |s.thread|
    ensures |Next(s, DoGiveUp(u)).thread| == |s.thread|
    ensures ClaimNext(s, DoGiveUp(u), Next(s, DoGiveUp(u)), t)
  {
    TimerKeeps(s, u);
    TimerClaims(s, u, t);
    ResumeClaims(TimerFires(s, u), u, t);
    assert ThreadShape(s, u);
  }

  // Only a timer opens a claim, and only the clean-up of the same thread closes it.
  lemma NextClaims(s: Sys, a: Step, t: nat)
    requires Safe(s) && Enabled(s, a) && t < |s.thread|
    ensures |Next(s, a).thread| == |s.thread| && ClaimNext(s, a, Next(s, a), t)
  {
    hide Safe, Take, Release, TimerFires, CleanUp, Walk, Link;
    match a
    case DoTake(u, m, wait) => TakeClaims(s, u, m, wait, t);
    case DoRelease(u, m) => ReleaseClaims(s, u, m, t);
    case DoTimer(u) => TimerClaims(s, u, t);
    case DoResume(u) => ResumeClaims(s, u, t);
    case DoGiveUp(u) => GiveUpClaims(s, u, t);
    case DoSleep(u) =>
    case DoWake(u) =>
  }

  lemma ClaimsNext(s: Sys, a: Step)
    requires Safe(s) && Enabled(s, a)
    ensures a.DoTimer? ==> s.thread[a.t].pending.Some? && Claims(s) + {s.thread[a.t].pending.value} <= Claims(Next(s, a))
    ensures a.DoResume? && s.thread[a.t].failed ==>
      s.thread[a.t].waitingIn.Some? && Claims(s) - {s.thread[a.t].waitingIn.value} <= Claims(Next(s, a))
    ensures !(a.DoResume? && s.thread[a.t].failed) ==> Claims(s) <= Claims(Next(s, a))
  {
    hide Safe, Next;
    var r := Next(s, a);
    NextClaims(s, a, a.t);
    if a.DoTimer? { assert a == DoTimer(a.t) && GaveUp(r, a.t); }
    forall m | m in Claims(s) ensures m in Claims(r) || (a.DoResume? && GaveUp(s, a.t) && s.thread[a.t].waitingIn == Some(m)) {
      var t :| 0 <= t < |s.thread| && GaveUp(s, t) && s.thread[t].waitingIn.value == m;
      NextClaims(s, a, t);
      assert ClaimNext(s, a, r, t);
    }
  }

  /* ---------- exact inheritance, up to outstanding clean-ups ---------- */

  // If the step is the clean-up of a failed take, it recognises the boost it lent.
  ghost predicate Meets(s: Sys, a: Step)
    requires Safe(s) && Enabled(s, a)
  {
    match a
    case DoResume(t) =>
      assert ThreadShape(s, t);
      s.thread[t].failed ==> Recognised(s, t, s.thread[t].waitingIn.value)
    case DoGiveUp(t) =>
      TimerKeeps(s, t);
      Recognised(TimerFires(s, t), t, s.thread[t].pending.value)
    case _ => true
  }

  /** A step out of a state that is exact up to outstanding clean-ups leads to another one exactly when
    * it is no clean-up that fails to recognise its boost. */
  lemma NextExactIff(s: Sys, a: Step)
    requires Safe(s) && Enabled(s, a) && ExactUpTo(s, Claims(s))
    ensures ExactUpTo(Next(s, a), Claims(Next(s, a))) <==> Meets(s, a)
  {
    hide Safe, ExactUpTo, Claims, Recognised, Take, Release, TimerFires, Resume, CleanUp;
    ClaimsNext(s, a);
    var stale, left := Claims(s), Claims(Next(s, a));
    match a
    case DoTake(t, m, wait) =>
      TakeKeeps(s, t, m, wait, stale);
      MoreStale(Next(s, a), stale, left);
    case DoRelease(t, m) =>
      ReleaseKeeps(s, t, m, stale);
      MoreStale(Next(s, a), stale, left);
    case DoTimer(t) =>
      TimerKeeps(s, t, stale);
      MoreStale(Next(s, a), stale + {s.thread[t].pending.value}, left);
    case DoResume(t) =>
      if s.thread[t].failed {
        ResumeFailedIff(s, t, stale, left);
      } else {
        ResumeOkKeepsExact(s, t, stale);
        MoreStale(Next(s, a), stale, left);
      }
    case DoGiveUp(t) => GiveUpExactIff(s, t, stale, left);
    case DoSleep(t) => SleepWakeExact(s, t, stale, left);
    case DoWake(t) => SleepWakeExact(s, t, stale, left);
  }

  lemma GiveUpExactIff(s: Sys, t: nat, stale: set<nat>, left: set<nat>)
    requires Safe(s) && CanTimeOut(s, t) && ExactUpTo(s, stale) && stale <= left
    ensures ExactUpTo(Next(s, DoGiveUp(t)), left) <==> Meets(s, DoGiveUp(t))
  {
    TimerKeeps(s, t, stale);
    assert ThreadShape(s, t);
    var m := s.thread[t].pending.value;
    assert TimerFires(s, t).thread[t].waitingIn == Some(m);
    ResumeFailedIff(TimerFires(s, t), t, stale + {m}, left);
  }

  lemma SleepWakeExact(s: Sys, t: nat, stale: set<nat>, left: set<nat>)
    requires Safe(s) && t < |s.thread| && s.thread[t].waitingIn == None && ExactUpTo(s, stale) && stale <= left
    ensures ExactUpTo(Sleep(s, t), left) && ExactUpTo(Wake(s, t), left)
  {
    assert ThreadShape(s, t);
    ThreadEdit(s, t, s.thread[t].(suspended := true), stale);
    ThreadEdit(s, t, s.thread[t].(suspended := false), stale);
    MoreStale(Sleep(s, t), stale, left);
    MoreStale(Wake(s, t), stale, left);
  }

  // Every clean-up of the run recognises its boost.
  ghost predicate AllMeet(s: Sys, steps: seq<Step>)
    requires Safe(s)
    decreases |steps|
  {
    if steps == [] then true
    else if Enabled(s, steps[0]) then NextKeeps(s, steps[0]); Meets(s, steps[0]) && AllMeet(Next(s, steps[0]), steps[1..])
    else AllMeet(s, steps[1..])
  }

  // Every state of the run is exact up to outstanding clean-ups.
  ghost predicate ExactThroughout(s: Sys, steps: seq<Step>)
    requires Safe(s)
    decreases |steps|
  {
    && ExactUpTo(s, Claims(s))
    && (steps != [] ==>
          if Enabled(s, steps[0]) then NextKeeps(s, steps[0]); ExactThroughout(Next(s, steps[0]), steps[1..])
          else ExactThroughout(s, steps[1..]))
  }

  /** Over any interleaving of takes, releases, timeouts and late clean-ups: every state is exact up to
    * outstanding clean-ups if and only if every clean-up recognised the boost it had lent. */
  lemma {:induction false} EveryRunExactIff(s: Sys, steps: seq<Step>)
    requires Safe(s) && ExactUpTo(s, Claims(s))
    ensures ExactThroughout(s, steps) <==> AllMeet(s, steps)
    ensures AllMeet(s, steps) ==> ExactUpTo(Run(s, steps), Claims(Run(s, steps)))
    decreases |steps|
  {
    hide Safe, ExactUpTo, Claims, Meets, Next, Enabled;
    if steps != [] {
      if Enabled(s, steps[0]) {
        NextKeeps(s, steps[0]);
        NextExactIff(s, steps[0]);
        if Meets(s, steps[0]) {
          EveryRunExactIff(Next(s, steps[0]), steps[1..]);
        } else {
          NotThroughout(Next(s, steps[0]), steps[1..]);
        }
      } else {
        EveryRunExactIff(s, steps[1..]);
      }
    }
  }

  lemma NotThroughout(s: Sys, steps: seq<Step>)
    requires Safe(s) && !ExactUpTo(s, Claims(s))
    ensures !ExactThroughout(s, steps)
  {
  }

  // Nobody is between a timeout and its clean-up.
  ghost predicate NoneFailed(s: Sys) {
    forall t :: 0 <= t < |s.thread| ==> !GaveUp(s, t)
  }

  lemma NoClaims(s: Sys)
    requires NoneFailed(s)
    ensures Claims(s) == {}
  {
  }

  predicate NoTimer(steps: seq<Step>) {
    forall i :: 0 <= i < |steps| ==> !steps[i].DoTimer?
  }

  // If every timeout cleans up at once, every reachable state obeys the inheritance equations.
  lemma {:induction false} EveryPromptRunExact(s: Sys, steps: seq<Step>)
    requires Exact(s) && Safe(s) && NoneFailed(s) && NoTimer(steps)
    ensures Exact(Run(s, steps)) && NoneFailed(Run(s, steps))
    ensures AllMeet(s, steps)
    decreases |steps|
  {
    hide Safe, ExactUpTo, Next, Claims, Meets;
    if steps != [] {
      var a := steps[0];
      assert NoTimer(steps[1..]);
      if Enabled(s, a) {
        NextKeeps(s, a);
        PromptMeets(s, a);
        NextExactIff(s, a);
        forall t | 0 <= t < |Next(s, a).thread| ensures !GaveUp(Next(s, a), t) {
          NextClaims(s, a, a.t);
          NextClaims(s, a, t);
        }
        NoClaims(s);
        NoClaims(Next(s, a));
        EveryPromptRunExact(Next(s, a), steps[1..]);
      } else {
        EveryPromptRunExact(s, steps[1..]);
      }
    }
  }

  lemma PromptMeets(s: Sys, a: Step)
    requires Safe(s) && Enabled(s, a) && Exact(s) && NoneFailed(s) && !a.DoTimer?
    ensures Meets(s, a) && ExactUpTo(s, Claims(s))
  {
    hide ExactUpTo, Recognised;
    NoClaims(s);
    match a
    case DoResume(t) => assert !GaveUp(s, t);
    case DoGiveUp(t) => PromptIsRecognised(s, t, {});
    case _ =>
  }

  /* ---------- what the invariants mean ---------- */

  // The two assertions after the reschedule of a blocked take hold in every reachable state: a
  // thread resumed without error owns the mutex, a thread resumed with an error does not.
  lemma ResumedAssertionsHold(s: Sys, steps: seq<Step>, t: nat)
    requires Safe(s) && CanResume(Run(s, steps), t)
    ensures var r := Run(s, steps); Owns(r, t, r.thread[t].waitingIn.value) <==> !r.thread[t].failed
  {
    EveryRunSafe(s, steps);
    assert ThreadShape(Run(s, steps), t);
  }

  // Ownership in every reachable state: a mutex is held iff it has an owner, a taken list is the set
  // of mutexes owned, each once, and no waiter owns what it waits for.
  lemma OwnershipSound(s: Sys, steps: seq<Step>)
    requires Safe(s)
    ensures var r := Run(s, steps);
      && (forall m :: 0 <= m < |r.mutex| ==> (r.mutex[m].hold == 0 <==> r.mutex[m].owner == None))
      && (forall t, m :: 0 <= t < |r.thread| ==> (m in r.thread[t].taken <==> Owns(r, t, m)))
      && (forall t :: 0 <= t < |r.thread| ==> NoDup(r.thread[t].taken))
      && (forall t: nat, m: nat :: WaitsFor(r, t, m) ==> m < |r.mutex| && r.mutex[m].owner.Some? && !Owns(r, t, m))
  {
    EveryRunSafe(s, steps);
    var r := Run(s, steps);
    forall t | 0 <= t < |r.thread| ensures NoDup(r.thread[t].taken) && forall m :: m in r.thread[t].taken <==> Owns(r, t, m) {
      assert ThreadShape(r, t);
    }
    forall t: nat, m: nat | WaitsFor(r, t, m) ensures m < |r.mutex| && r.mutex[m].owner.Some? && !Owns(r, t, m) {
      assert ThreadShape(r, t) && MutexShape(r, m);
      assert t in r.waiters[m];
    }
    forall m | 0 <= m < |r.mutex| ensures r.mutex[m].hold == 0 <==> r.mutex[m].owner == None {
      assert MutexShape(r, m);
    }
  }

  // A release hands the mutex to a waiter no other waiter is more urgent than, and leaves the rest
  // queued in order.
  lemma ReleaseHandsToMostUrgent(s: Sys, t: nat, m: nat)
    requires Safe(s) && CanRun(s, t) && Owns(s, t, m) && s.mutex[m].hold == 1 && s.waiters[m] != []
    ensures var r := Release(s, t, m).0; var n := s.waiters[m][0];
      && r.mutex[m] == Mutex(Some(n), 1) && !r.thread[n].suspended && r.waiters[m] == s.waiters[m][1..]
      && forall w: nat :: WaitsFor(s, w, m) ==> s.curr[n] <= s.curr[w]
  {
    assert MutexShape(s, m) && Queued(s, m);
    forall w: nat | WaitsFor(s, w, m) ensures s.curr[s.waiters[m][0]] <= s.curr[w] {
      assert w in s.waiters[m];
    }
  }
}
