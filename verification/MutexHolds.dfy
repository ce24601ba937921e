/** Nested takes are counted: what each call answers, and what `hold` is after any run, in terms of the calls
    that returned. */
module MutexHolds {
  import opened Basics
  import opened WaitList
  import opened MutexModel
  import opened MutexWalk
  import opened MutexSteps
  import opened MutexKeeps
  import opened MutexRuns

  // How often a thread holds a mutex.
  function HoldOf(s: Sys, t: nat, m: nat): nat {
    if Owns(s, t, m) then s.mutex[m].hold else 0
  }

  // A release has handed the mutex to a thread whose take has not returned yet.
  predicate HandedOver(s: Sys, t: nat, m: nat) {
    CanResume(s, t) && !s.thread[t].failed && s.thread[t].waitingIn == Some(m)
  }

  /* ---------- the answers ---------- */

  // Only the error code of a thread differs.
  predicate SameButCode(s: Sys, r: Sys, t: nat, failed: bool)
    requires t < |s.thread|
  {
    r == s.(thread := s.thread[t := s.thread[t].(failed := failed)])
  }

  // Who owns the other mutexes, how often, and what the other threads do is left alone.
  ghost predicate OthersAlone(s: Sys, r: Sys, t: nat, m: nat) {
    && |r.mutex| == |s.mutex| && |r.thread| == |s.thread| && |r.curr| == |s.curr| && r.init == s.init
    && (forall k :: 0 <= k < |s.mutex| && k != m ==> r.mutex[k] == s.mutex[k])
    && (forall u :: 0 <= u < |s.thread| && u != t ==> r.thread[u] == s.thread[u])
  }

  /** A take returns Done exactly when the thread owns the mutex fewer than 255 times or nobody owns it, and
    * then holds it once more than before; it is full exactly when the thread holds it 255 times, times out at once
    * exactly when another thread owns it and it may not wait, and blocks exactly when it may. A refused take
    * changes nothing but the thread's error code. */
  lemma TakeAnswers(s: Sys, t: nat, m: nat, wait: bool)
    requires Safe(s) && CanRun(s, t) && m < |s.mutex|
    ensures var (r, o) := Take(s, t, m, wait); var owner := s.mutex[m].owner;
      && (o == Done <==> owner == None || (owner == Some(t) && s.mutex[m].hold < HOLD_MAX))
      && (o == Full <==> owner == Some(t) && s.mutex[m].hold == HOLD_MAX)
      && (o == TimedOut <==> owner != None && owner != Some(t) && !wait)
      && (o == Blocked <==> owner != None && owner != Some(t) && wait)
      && (o == Done <==> Owns(r, t, m) && HoldOf(r, t, m) == HoldOf(s, t, m) + 1)
      && (o != Done ==> r.mutex == s.mutex)
      && (o == Full ==> SameButCode(s, r, t, false)) && (o == TimedOut ==> SameButCode(s, r, t, true))
      && (o == Blocked ==> WaitsFor(r, t, m) && r.thread[t].waitingIn == Some(m))
      && OthersAlone(s, r, t, m)
  {
    hide Bounded, Queued, Block;
    assert MutexShape(s, m);
    if s.mutex[m].owner != None && s.mutex[m].owner != Some(t) && wait {
      BlockKeeps(s, t, m);
    }
  }

  /** A take that does not block moves no priority and no waiter. */
  lemma TakeMovesNothing(s: Sys, t: nat, m: nat, wait: bool)
    requires Safe(s) && CanRun(s, t) && m < |s.mutex| && Take(s, t, m, wait).1 != Blocked
    ensures var r := Take(s, t, m, wait).0;
      && r.curr == s.curr && r.waiters == s.waiters
      && r.mprio == (if s.mutex[m].owner == None then s.mprio[m := NO_PRIORITY] else s.mprio)
  {
  }

  /** A release returns Done exactly when the thread owns the mutex, and then holds it once less. It gives the
    * mutex up exactly when it held it once; the first waiter then holds it once, and nobody does if nobody waits.
    * A refused release changes nothing but the thread's error code, a nested one nothing but the count. */
  lemma ReleaseAnswers(s: Sys, t: nat, m: nat)
    requires Safe(s) && CanRun(s, t) && m < |s.mutex|
    ensures var (r, o) := Release(s, t, m);
      && (o == Done <==> Owns(s, t, m)) && (o == NotOwner <==> !Owns(s, t, m))
      && (o == NotOwner ==> SameButCode(s, r, t, true))
      && (o == Done ==> HoldOf(r, t, m) == HoldOf(s, t, m) - 1)
      && (o == Done && HoldOf(s, t, m) > 1 ==> r == s.(mutex := r.mutex) && Owns(r, t, m))
      && |r.mutex| == |s.mutex| && (forall k :: 0 <= k < |s.mutex| && k != m ==> r.mutex[k] == s.mutex[k])
      && (o == Done && HoldOf(s, t, m) == 1 ==>
            r.mutex[m] == if s.waiters[m] == [] then Mutex(None, 0) else Mutex(Some(s.waiters[m][0]), 1))
  {
    hide Bounded, Queued;
    assert MutexShape(s, m);
    if s.waiters[m] != [] {
      assert s.waiters[m][0] in s.waiters[m];
    }
  }

  /** Besides the releaser, only the thread that gets the mutex is touched by a release: it is resumed without an
    * error, and its priority and that of everybody else but the releaser stays. */
  lemma ReleaseTouches(s: Sys, t: nat, m: nat, u: nat)
    requires Safe(s) && CanRun(s, t) && m < |s.mutex| && u < |s.thread| && u != t
    ensures var r := Release(s, t, m).0;
      && |r.thread| == |s.thread| && |r.curr| == |s.curr| && r.curr[u] == s.curr[u]
      && if Owns(s, t, m) && s.mutex[m].hold == 1 && WaitsFor(s, u, m) && s.waiters[m] != [] && s.waiters[m][0] == u
         then HandedOver(r, u, m) && r.thread[u].pending == None
         else r.thread[u] == s.thread[u]
  {
    hide Bounded, Queued;
    assert MutexShape(s, m) && ThreadShape(s, u) && ThreadShape(s, t);
    if s.waiters[m] != [] {
      assert s.waiters[m][0] in s.waiters[m];
    }
  }

  /** The second half of a blocked take returns Done exactly when the thread was given the mutex, and times out
    * otherwise; either way no mutex changes hands and the thread waits for nothing any more. */
  lemma ResumeAnswers(s: Sys, t: nat)
    requires Safe(s) && CanResume(s, t)
    ensures var (r, o) := Resume(s, t); var m := s.thread[t].waitingIn.value;
      && (o == Done <==> Owns(s, t, m)) && (o == TimedOut <==> !Owns(s, t, m))
      && r.mutex == s.mutex && |r.thread| == |s.thread|
      && CanRun(r, t) && r.thread[t].pending == None && r.thread[t].failed == s.thread[t].failed
      && (o == Done ==> r == s.(thread := r.thread))
      && forall u :: 0 <= u < |s.thread| && u != t ==> r.thread[u] == s.thread[u]
  {
    hide Bounded, Queued;
    assert ThreadShape(s, t);
    if s.thread[t].failed {
      CleanUpSafe(s, t, s.thread[t].waitingIn.value);
    }
  }

  /** A timeout takes exactly that thread off the list it waits in, with an error; owners, counts, priorities and
    * all other threads stay as they are. */
  lemma TimerTouches(s: Sys, t: nat, u: nat)
    requires Safe(s) && CanTimeOut(s, t)
    ensures var r := TimerFires(s, t);
      && r.mutex == s.mutex && r.curr == s.curr && r.mprio == s.mprio && r.init == s.init && |r.waiters| == |s.waiters|
      && !r.thread[t].suspended && r.thread[t].failed && r.thread[t].waitingIn == s.thread[t].pending
      && (u < |s.thread| && u != t ==> r.thread[u] == s.thread[u])
      && forall m: nat, x: nat :: WaitsFor(r, x, m) <==> WaitsFor(s, x, m) && x != t
  {
    assert ThreadShape(s, t);
  }

  /* ---------- the count ---------- */

  // What a step answers its thread.
  datatype Reply = Silent | Says(outcome: Outcome)

  function ReplyOf(s: Sys, a: Step): Reply
    requires Safe(s) && Enabled(s, a)
  {
    match a
    case DoTake(t, m, wait) => Says(Take(s, t, m, wait).1)
    case DoRelease(t, m) => Says(Release(s, t, m).1)
    case DoResume(t) => Says(Resume(s, t).1)
    case DoGiveUp(t) => TimerKeeps(s, t); Says(Resume(TimerFires(s, t), t).1)
    case _ => Silent
  }

  // A take of the mutex by the thread returns Done; a release does.
  function TakeDone(s: Sys, a: Step, t: nat, m: nat): nat
    requires Safe(s) && Enabled(s, a)
  {
    if a.t == t && ReplyOf(s, a) == Says(Done)
       && ((a.DoTake? && a.m == m) || ((a.DoResume? || a.DoGiveUp?) && s.thread[t].waitingIn == Some(m)))
    then 1 else 0
  }

  function ReleaseDone(s: Sys, a: Step, t: nat, m: nat): nat
    requires Safe(s) && Enabled(s, a)
  {
    if a == DoRelease(t, m) && ReplyOf(s, a) == Says(Done) then 1 else 0
  }

  // The holds a thread knows of: one just handed over does not count before its take returns.
  function Known(s: Sys, t: nat, m: nat): int {
    HoldOf(s, t, m) - if HandedOver(s, t, m) then 1 else 0
  }

  lemma TakeCounts(s: Sys, u: nat, m: nat, wait: bool, t: nat, k: nat)
    requires Safe(s) && Enabled(s, DoTake(u, m, wait)) && t < |s.thread| && k < |s.mutex|
    ensures var a := DoTake(u, m, wait); Known(Next(s, a), t, k) == Known(s, t, k) + TakeDone(s, a, t, k)
  {
    hide Safe, Take;
    TakeAnswers(s, u, m, wait);
    if Take(s, u, m, wait).1 != Blocked { TakeStaysRunning(s, u, m, wait); }
    OwnerHolds(s, m);
  }

  lemma OwnerHolds(s: Sys, m: nat)
    requires Safe(s) && m < |s.mutex|
    ensures s.mutex[m].owner.Some? ==> s.mutex[m].hold > 0
  {
    assert MutexShape(s, m);
  }

  lemma TakeStaysRunning(s: Sys, u: nat, m: nat, wait: bool)
    requires Safe(s) && CanRun(s, u) && m < |s.mutex| && Take(s, u, m, wait).1 != Blocked
    ensures CanRun(Take(s, u, m, wait).0, u)
  {
  }

  lemma ReleaseCounts(s: Sys, u: nat, m: nat, t: nat, k: nat)
    requires Safe(s) && Enabled(s, DoRelease(u, m)) && t < |s.thread| && k < |s.mutex|
    ensures var a := DoRelease(u, m); Known(Next(s, a), t, k) == Known(s, t, k) - ReleaseDone(s, a, t, k)
  {
    hide Safe, Release;
    ReleaseAnswers(s, u, m);
    OwnerHolds(s, m);
    ReleaserRuns(s, u, m);
    if t != u {
      ReleaseTouches(s, u, m, t);
      WaiterOwnsNot(s, m, t);
    }
  }

  lemma ReleaserRuns(s: Sys, u: nat, m: nat)
    requires Safe(s) && CanRun(s, u) && m < |s.mutex|
    ensures CanRun(Release(s, u, m).0, u)
  {
    assert MutexShape(s, m);
    if s.waiters[m] != [] {
      assert s.waiters[m][0] in s.waiters[m];
    }
  }

  // A waiter does not own the mutex, and is in the first half of its take.
  lemma WaiterOwnsNot(s: Sys, m: nat, t: nat)
    requires Safe(s) && m < |s.mutex| && t < |s.thread|
    ensures WaitsFor(s, t, m) ==> !Owns(s, t, m) && s.thread[t].suspended
    ensures t in s.waiters[m] <==> WaitsFor(s, t, m)
    ensures s.waiters[m] != [] ==> WaitsFor(s, s.waiters[m][0], m)
  {
    assert MutexShape(s, m);
    if s.waiters[m] != [] {
      assert s.waiters[m][0] in s.waiters[m];
    }
  }

  lemma ResumeCounts(s: Sys, u: nat, t: nat, k: nat)
    requires Safe(s) && Enabled(s, DoResume(u)) && t < |s.thread| && k < |s.mutex|
    ensures var a := DoResume(u); Known(Next(s, a), t, k) == Known(s, t, k) + TakeDone(s, a, t, k)
  {
    hide Safe, Resume;
    ResumeAnswers(s, u);
    HandedOwns(s, u);
  }

  lemma HandedOwns(s: Sys, u: nat)
    requires Safe(s) && CanResume(s, u)
    ensures var m := s.thread[u].waitingIn.value; m < |s.mutex| && (Owns(s, u, m) <==> !s.thread[u].failed)
  {
    assert ThreadShape(s, u);
  }

  lemma TimerCounts(s: Sys, u: nat, t: nat, k: nat)
    requires Safe(s) && Enabled(s, DoTimer(u)) && t < |s.thread| && k < |s.mutex|
    ensures Known(TimerFires(s, u), t, k) == Known(s, t, k)
  {
  }

  lemma GiveUpCounts(s: Sys, u: nat, t: nat, k: nat)
    requires Safe(s) && Enabled(s, DoGiveUp(u)) && t < |s.thread| && k < |s.mutex|
    ensures var a := DoGiveUp(u);
      Known(Next(s, a), t, k) == Known(s, t, k) + TakeDone(s, a, t, k) && ReplyOf(s, a) == Says(TimedOut)
  {
    hide Bounded, Queued, Resume;
    TimerKeeps(s, u);
    TimerCounts(s, u, t, k);
    ResumeAnswers(TimerFires(s, u), u);
    HandedOwns(TimerFires(s, u), u);
    ResumeCounts(TimerFires(s, u), u, t, k);
  }

  /** Every step changes what a thread knows to hold by the take or the release it answers with Done, and by
    * nothing else. */
  lemma NextCounts(s: Sys, a: Step, t: nat, m: nat)
    requires Safe(s) && Enabled(s, a) && t < |s.thread| && m < |s.mutex|
    ensures var n := Next(s, a);
      && |n.thread| == |s.thread| && |n.mutex| == |s.mutex|
      && Known(n, t, m) == Known(s, t, m) + TakeDone(s, a, t, m) - ReleaseDone(s, a, t, m)
  {
    hide Safe, Take, Release, Resume, TimerFires, Known, ReplyOf;
    SameCounts(s, a);
    match a
    case DoTake(u, k, wait) => TakeCounts(s, u, k, wait, t, m);
    case DoRelease(u, k) => ReleaseCounts(s, u, k, t, m);
    case DoResume(u) => ResumeCounts(s, u, t, m);
    case DoTimer(u) => TimerCounts(s, u, t, m);
    case DoGiveUp(u) => GiveUpCounts(s, u, t, m);
    case DoSleep(u) => SleepCounts(s, u, t, m);
    case DoWake(u) => SleepCounts(s, u, t, m);
  }

  lemma SleepCounts(s: Sys, u: nat, t: nat, m: nat)
    requires t < |s.thread| && u < |s.thread| && s.thread[u].waitingIn == None
    ensures Known(Sleep(s, u), t, m) == Known(s, t, m) && Known(Wake(s, u), t, m) == Known(s, t, m)
  {
  }

  lemma SameCounts(s: Sys, a: Step)
    requires Safe(s) && Enabled(s, a)
    ensures |Next(s, a).thread| == |s.thread| && |Next(s, a).mutex| == |s.mutex|
  {
    hide Bounded, Queued, Block;
    match a
    case DoTake(t, m, wait) => TakeAnswers(s, t, m, wait);
    case DoRelease(t, m) => ReleaseAnswers(s, t, m); NextClaims(s, a, t);
    case DoResume(t) => ResumeAnswers(s, t);
    case DoGiveUp(t) => TimerKeeps(s, t); ResumeAnswers(TimerFires(s, t), t);
    case _ =>
  }

  // The takes and releases of the mutex by the thread that return Done in a run.
  function TakesDone(s: Sys, steps: seq<Step>, t: nat, m: nat): nat
    requires Safe(s)
    decreases |steps|
  {
    if steps == [] then 0
    else if Enabled(s, steps[0]) then
      NextKeeps(s, steps[0]);
      TakeDone(s, steps[0], t, m) + TakesDone(Next(s, steps[0]), steps[1..], t, m)
    else TakesDone(s, steps[1..], t, m)
  }

  function ReleasesDone(s: Sys, steps: seq<Step>, t: nat, m: nat): nat
    requires Safe(s)
    decreases |steps|
  {
    if steps == [] then 0
    else if Enabled(s, steps[0]) then
      NextKeeps(s, steps[0]);
      ReleaseDone(s, steps[0], t, m) + ReleasesDone(Next(s, steps[0]), steps[1..], t, m)
    else ReleasesDone(s, steps[1..], t, m)
  }

  lemma {:induction false} RunCounts(s: Sys, steps: seq<Step>, t: nat, m: nat)
    requires Safe(s) && t < |s.thread| && m < |s.mutex|
    ensures Known(Run(s, steps), t, m) == Known(s, t, m) + TakesDone(s, steps, t, m) - ReleasesDone(s, steps, t, m)
    decreases |steps|
  {
    hide Safe, Next, Enabled, Known, TakeDone, ReleaseDone;
    if steps == [] {
    } else if Enabled(s, steps[0]) {
      NextKeeps(s, steps[0]);
      NextCounts(s, steps[0], t, m);
      RunCounts(Next(s, steps[0]), steps[1..], t, m);
    } else {
      RunCounts(s, steps[1..], t, m);
    }
  }

  /** In every run of any threads on any mutexes: a thread holds a mutex as often as its takes of it returned
    * Done, less its releases that did, and once more while a mutex handed to it waits for its take to return.
    * So it owns the mutex exactly while this is positive. */
  lemma HoldsAreCounted(init: seq<nat>, mutexes: nat, steps: seq<Step>, t: nat, m: nat)
    requires forall i :: 0 <= i < |init| ==> init[i] < PRIORITY_MAX
    requires t < |init| && m < mutexes
    ensures var s := Start(init, mutexes);
      && Safe(s)
      && var r := Run(s, steps);
         var count := TakesDone(s, steps, t, m) - ReleasesDone(s, steps, t, m) + (if HandedOver(r, t, m) then 1 else 0);
         HoldOf(r, t, m) == count && (Owns(r, t, m) <==> count > 0)
  {
    hide Safe, TakesDone, ReleasesDone, Run;
    StartExact(init, mutexes);
    var s := Start(init, mutexes);
    RunCounts(s, steps, t, m);
    EveryRunSafe(s, steps);
    if Owns(Run(s, steps), t, m) {
      OwnerHolds(Run(s, steps), m);
    }
  }
}
