/** Threads that own no mutex: when they run at their initial priority, and what happens when not. */
module MutexLeftovers {
  import opened Basics
  import opened WaitList
  import opened MutexModel
  import opened MutexWalk
  import opened MutexSteps
  import opened MutexKeeps
  import opened MutexRuns

  /* ---------- a boost that outlives its reason ---------- */

  // The walk moves owners only.
  lemma {:induction false} WalkLeaves(s: Sys, t: nat, p0: nat, x: nat)
    requires AlmostSafe(s, t, p0) && x < |s.thread| && s.thread[x].taken == []
    ensures |Walk(s, t, p0).curr| == |s.curr| && Walk(s, t, p0).curr[x] == s.curr[x]
    decreases s.curr[t] < p0, Room(s, t, p0)
  {
    if s.thread[t].suspended && s.thread[t].pending.Some? {
      var m := s.thread[t].pending.value;
      assert ThreadShape(s, t) && ThreadShape(s, x);
      TurnSafe(s, t, p0, m);
      var s1 := Requeue(s, t, m);
      var o := s.mutex[m].owner.value;
      assert Owns(s, o, m) && !Owns(s, x, m) by { assert m !in s.thread[x].taken; }
      if Need(s1, o) != s1.curr[o] {
        TurnUsesRoom(s, t, p0, m);
        WalkLeaves(SetPriority(s1, o, Need(s1, o)), o, s1.curr[o], x);
      }
    }
  }

  lemma OwnsNone(s: Sys, x: nat, m: nat)
    requires Shape(s) && x < |s.thread| && s.thread[x].taken == [] && m < |s.mutex|
    ensures s.mutex[m].owner != Some(x)
  {
    assert ThreadShape(s, x);
    assert m !in s.thread[x].taken;
    assert !Owns(s, x, m);
  }

  lemma BlockLeaves(s: Sys, t: nat, m: nat, x: nat)
    requires CanBlock(s, t, m) && x < |s.thread| && s.thread[x].taken == []
    ensures |Block(s, t, m).curr| == |s.curr| && Block(s, t, m).curr[x] == s.curr[x]
  {
    LinkSettles(s, t, m);
    OwnsNone(s, x, m);
    var r := Link(s, t, m);
    var o := s.mutex[m].owner.value;
    if s.curr[t] < s.mprio[m] && s.curr[t] < s.curr[o] {
      WalkLeaves(SetPriority(r, o, s.curr[t]), o, r.curr[o], x);
    }
  }

  lemma CleanUpLeaves(s: Sys, t: nat, m: nat, x: nat)
    requires Safe(s) && t < |s.thread| && m < |s.mutex| && x < |s.thread| && s.thread[x].taken == []
    ensures |CleanUp(s, t, m).curr| == |s.curr| && CleanUp(s, t, m).curr[x] == s.curr[x]
  {
    RefreshSafe(s, m);
    var r := Refresh(s, m);
    OwnsNone(s, x, m);
    assert MutexShape(s, m);
    if s.mutex[m].owner.Some? {
      var o := s.mutex[m].owner.value;
      if s.curr[o] == s.curr[t] && Need(r, o) != r.curr[o] {
        FallBackSettles(r, o);
        WalkLeaves(SetPriority(r, o, Need(r, o)), o, r.curr[o], x);
      }
    }
  }

  /** No step changes the priority of a thread that owns no mutex. */
  lemma UnowningFrozen(s: Sys, a: Step, x: nat)
    requires Safe(s) && Enabled(s, a) && x < |s.thread| && s.thread[x].taken == []
    ensures x < |Next(s, a).curr| && Next(s, a).curr[x] == s.curr[x]
  {
    hide Walk, Link, Block, CleanUp, Bounded, Queued;
    match a
    case DoTake(t, m, wait) =>
      if s.mutex[m].owner.Some? && !Owns(s, t, m) && wait { BlockLeaves(s, t, m, x); }
    case DoRelease(t, m) => OwnsNone(s, x, m);
    case DoTimer(t) =>
    case DoResume(t) =>
      assert ThreadShape(s, t);
      if s.thread[t].failed { CleanUpLeaves(s, t, s.thread[t].waitingIn.value, x); }
    case DoGiveUp(t) =>
      TimerKeeps(s, t);
      var f := TimerFires(s, t);
      assert ThreadShape(s, t) && ThreadShape(f, t);
      CleanUpLeaves(f, t, f.thread[t].waitingIn.value, x);
    case DoSleep(t) =>
    case DoWake(t) =>
  }

  // The thread owns no mutex in any state of the run.
  ghost predicate OwnsNothingThroughout(s: Sys, steps: seq<Step>, x: nat)
    requires Safe(s)
    decreases |steps|
  {
    && x < |s.thread| && s.thread[x].taken == []
    && (steps != [] ==>
          if Enabled(s, steps[0]) then NextKeeps(s, steps[0]); OwnsNothingThroughout(Next(s, steps[0]), steps[1..], x)
          else OwnsNothingThroughout(s, steps[1..], x))
  }

  /** A priority left over on a thread that owns no mutex stays until it owns one again. */
  lemma {:induction false} LeftoverStays(s: Sys, steps: seq<Step>, x: nat)
    requires Safe(s) && OwnsNothingThroughout(s, steps, x)
    ensures x < |s.curr| && x < |Run(s, steps).curr| && Run(s, steps).curr[x] == s.curr[x]
    decreases |steps|
  {
    hide Next, Enabled;
    if steps != [] {
      if Enabled(s, steps[0]) {
        NextKeeps(s, steps[0]);
        UnowningFrozen(s, steps[0], x);
        LeftoverStays(Next(s, steps[0]), steps[1..], x);
      } else {
        LeftoverStays(s, steps[1..], x);
      }
    }
  }

  /* ---------- the last release ---------- */

  // A thread that owns no mutex runs at its initial priority.
  ghost predicate AtInit(s: Sys)
    requires |s.curr| == |s.init| == |s.thread|
  {
    forall t :: 0 <= t < |s.thread| && s.thread[t].taken == [] ==> s.curr[t] == s.init[t]
  }

  // The release of the only mutex a thread owns.
  ghost predicate LastRelease(s: Sys, a: Step) {
    a.DoRelease? && a.t < |s.thread| && Owns(s, a.t, a.m) && s.mutex[a.m].hold == 1 && s.thread[a.t].taken == [a.m]
  }

  // Such a release re-evaluates the releaser, or there is nothing to re-evaluate.
  ghost predicate Guarded(s: Sys, a: Step)
    requires Sized(s)
  {
    LastRelease(s, a) ==> s.curr[a.t] == s.init[a.t] || s.curr[a.t] == s.mprio[a.m]
  }

  lemma TakeTaken(s: Sys, u: nat, m: nat, wait: bool, x: nat)
    requires Safe(s) && Enabled(s, DoTake(u, m, wait)) && x < |s.thread|
    ensures var r := Next(s, DoTake(u, m, wait));
      && |r.thread| == |s.thread|
      && (r.thread[x].taken == [] ==> s.thread[x].taken == [])
  {
    hide Bounded, Inherits, Queued, Walk;
    assert MutexShape(s, m);
    if s.mutex[m].owner.Some? && !Owns(s, u, m) && wait { BlockKeeps(s, u, m); }
  }

  lemma ReleaseTaken(s: Sys, u: nat, m: nat, x: nat)
    requires Safe(s) && Enabled(s, DoRelease(u, m)) && x < |s.thread|
    ensures var r := Next(s, DoRelease(u, m));
      && |r.thread| == |s.thread|
      && (r.thread[x].taken == [] && s.thread[x].taken != [] ==> LastRelease(s, DoRelease(u, m)) && x == u)
    ensures LastRelease(s, DoRelease(u, m)) ==> Next(s, DoRelease(u, m)).thread[u].taken == []
  {
    hide Bounded, Inherits, Queued;
    assert MutexShape(s, m) && ThreadShape(s, u);
    if Owns(s, u, m) && s.mutex[m].hold <= 1 {
      assert m in s.thread[u].taken;
      OnlyOneLeft(s.thread[u].taken, m);
      if s.waiters[m] != [] {
        var n := s.waiters[m][0];
        assert n in s.waiters[m];
      }
    }
  }

  lemma OnlyOneLeft(taken: seq<nat>, m: nat)
    requires m in taken
    ensures Remove(taken, m) == [] <==> taken == [m]
  {
    if |taken| == 1 {
      assert taken[0] == m;
      assert taken == [m];
    }
  }

  lemma ResumeTaken(s: Sys, u: nat, x: nat)
    requires Safe(s) && Enabled(s, DoResume(u)) && x < |s.thread|
    ensures var r := Next(s, DoResume(u)); |r.thread| == |s.thread| && r.thread[x].taken == s.thread[x].taken
  {
    hide Bounded, Inherits, Queued, Walk;
    assert ThreadShape(s, u);
    if s.thread[u].failed { CleanUpSafe(s, u, s.thread[u].waitingIn.value); }
  }

  lemma GiveUpTaken(s: Sys, u: nat, x: nat)
    requires Safe(s) && Enabled(s, DoGiveUp(u)) && x < |s.thread|
    ensures var r := Next(s, DoGiveUp(u)); |r.thread| == |s.thread| && r.thread[x].taken == s.thread[x].taken
  {
    TimerKeeps(s, u);
    assert ThreadShape(s, u);
    ResumeTaken(TimerFires(s, u), u, x);
  }

  // Only its last release leaves a thread without mutexes.
  lemma NextTaken(s: Sys, a: Step, x: nat)
    requires Safe(s) && Enabled(s, a) && x < |s.thread|
    ensures var r := Next(s, a);
      && |r.thread| == |s.thread|
      && (r.thread[x].taken == [] && s.thread[x].taken != [] ==> LastRelease(s, a) && x == a.t)
    ensures LastRelease(s, a) ==> Next(s, a).thread[a.t].taken == []
  {
    hide Safe, Take, Release, CleanUp, Walk, Link, Resume;
    match a
    case DoTake(u, m, wait) => TakeTaken(s, u, m, wait, x);
    case DoRelease(u, m) => ReleaseTaken(s, u, m, x);
    case DoTimer(u) =>
    case DoResume(u) => ResumeTaken(s, u, x);
    case DoGiveUp(u) => GiveUpTaken(s, u, x);
    case DoSleep(u) =>
    case DoWake(u) =>
  }

  // What the last release makes of the priority.
  lemma LastReleasePriority(s: Sys, a: Step)
    requires Safe(s) && Enabled(s, a) && LastRelease(s, a)
    ensures a.t < |Next(s, a).curr|
    ensures Next(s, a).curr[a.t] == if s.curr[a.t] == s.mprio[a.m] then s.init[a.t] else s.curr[a.t]
  {
    hide Bounded, Inherits, Queued;
    OnlyOneLeft([a.m], a.m);
  }

  lemma NextInit(s: Sys, a: Step)
    requires Safe(s) && Enabled(s, a)
    ensures Next(s, a).init == s.init && Sized(Next(s, a)) && |Next(s, a).thread| == |s.thread|
  {
    hide Bounded, Inherits, Queued, Walk, Refresh;
    NextKeeps(s, a);
    NextTaken(s, a, a.t);
    match a
    case DoTake(t, m, wait) =>
      if s.mutex[m].owner.Some? && !Owns(s, t, m) && wait { BlockKeeps(s, t, m); }
    case DoResume(t) =>
      assert ThreadShape(s, t);
      if s.thread[t].failed { CleanUpSafe(s, t, s.thread[t].waitingIn.value); }
    case DoGiveUp(t) =>
      TimerKeeps(s, t);
      assert ThreadShape(s, t);
      CleanUpSafe(TimerFires(s, t), t, s.thread[t].pending.value);
    case _ =>
  }

  /** A step keeps unowning threads at their initial priority if and only if it is no last release by a
    * thread that runs at neither its initial priority nor that of the mutex. */
  lemma NextAtInitIff(s: Sys, a: Step)
    requires Safe(s) && Enabled(s, a) && AtInit(s)
    ensures Sized(Next(s, a)) && (AtInit(Next(s, a)) <==> Guarded(s, a))
  {
    hide Safe, Next, LastRelease;
    NextInit(s, a);
    var r := Next(s, a);
    if LastRelease(s, a) {
      NextTaken(s, a, a.t);
      LastReleasePriority(s, a);
    }
    forall x | 0 <= x < |r.thread| && r.thread[x].taken == []
      ensures (if LastRelease(s, a) && x == a.t then true else r.curr[x] == r.init[x])
    {
      NextTaken(s, a, x);
      if s.thread[x].taken == [] { UnowningFrozen(s, a, x); }
    }
  }

  // Every last release of the run meets the guard.
  ghost predicate AllGuarded(s: Sys, steps: seq<Step>)
    requires Safe(s)
    decreases |steps|
  {
    if steps == [] then true
    else if Enabled(s, steps[0]) then
      NextKeeps(s, steps[0]);
      Guarded(s, steps[0]) && AllGuarded(Next(s, steps[0]), steps[1..])
    else AllGuarded(s, steps[1..])
  }

  ghost predicate AtInitThroughout(s: Sys, steps: seq<Step>)
    requires Safe(s)
    decreases |steps|
  {
    && AtInit(s)
    && (steps != [] ==>
          if Enabled(s, steps[0]) then NextKeeps(s, steps[0]); AtInitThroughout(Next(s, steps[0]), steps[1..])
          else AtInitThroughout(s, steps[1..]))
  }

  lemma NotAtInitThroughout(s: Sys, steps: seq<Step>)
    requires Safe(s) && !AtInit(s)
    ensures !AtInitThroughout(s, steps)
  {
  }

  /** In any run: unowning threads run at their initial priority in every state if and only if every last
    * release meets the guard. */
  lemma {:induction false} EveryRunAtInitIff(s: Sys, steps: seq<Step>)
    requires Safe(s) && AtInit(s)
    ensures AtInitThroughout(s, steps) <==> AllGuarded(s, steps)
    ensures Safe(Run(s, steps)) && Sized(Run(s, steps))
    ensures AllGuarded(s, steps) ==> AtInit(Run(s, steps))
    decreases |steps|
  {
    hide Safe, AtInit, Guarded, Next, Enabled;
    SafeSized(s);
    EveryRunSafe(s, steps);
    SafeSized(Run(s, steps));
    if steps != [] {
      if Enabled(s, steps[0]) {
        NextKeeps(s, steps[0]);
        NextAtInitIff(s, steps[0]);
        if Guarded(s, steps[0]) {
          EveryRunAtInitIff(Next(s, steps[0]), steps[1..]);
        } else {
          NotAtInitThroughout(Next(s, steps[0]), steps[1..]);
        }
      } else {
        EveryRunAtInitIff(s, steps[1..]);
      }
    }
  }

  // Where the equations hold, the guard does.
  lemma ExactGuards(s: Sys, a: Step, stale: set<nat>)
    requires ExactUpTo(s, stale)
    ensures Guarded(s, a) && AtInit(s)
  {
    forall t | 0 <= t < |s.thread| && s.thread[t].taken == [] ensures s.curr[t] == s.init[t] {
      assert Inherits(s, t) && ThreadShape(s, t);
      forall m ensures !Owns(s, t, m) {
        assert m in s.thread[t].taken <==> Owns(s, t, m);
      }
    }
    if LastRelease(s, a) {
      assert Inherits(s, a.t) && ThreadShape(s, a.t);
      forall m | Owns(s, a.t, m) ensures m == a.m {
        assert m in s.thread[a.t].taken;
      }
    }
  }

  lemma {:induction false} MeetingRunsAreGuarded(s: Sys, steps: seq<Step>)
    requires Safe(s) && ExactUpTo(s, Claims(s)) && AllMeet(s, steps)
    ensures AllGuarded(s, steps)
    decreases |steps|
  {
    hide Safe, ExactUpTo, Claims, Meets, Next, Enabled, Guarded;
    if steps != [] {
      if Enabled(s, steps[0]) {
        NextKeeps(s, steps[0]);
        ExactGuards(s, steps[0], Claims(s));
        NextExactIff(s, steps[0]);
        MeetingRunsAreGuarded(Next(s, steps[0]), steps[1..]);
      } else {
        MeetingRunsAreGuarded(s, steps[1..]);
      }
    }
  }

  /** So if every clean-up recognises the boost it lent, a thread that owns no mutex runs at its initial
    * priority in every state of the run. */
  lemma NoMutexNoBoost(s: Sys, steps: seq<Step>, t: nat)
    requires Safe(s) && ExactUpTo(s, Claims(s)) && AllMeet(s, steps)
    ensures AtInitThroughout(s, steps)
    ensures var r := Run(s, steps);
      t < |r.thread| && r.thread[t].taken == [] ==> t < |r.curr| == |r.init| && r.curr[t] == r.init[t]
  {
    hide ExactUpTo, Claims, AllMeet, Run;
    ExactGuards(s, DoSleep(0), Claims(s));
    MeetingRunsAreGuarded(s, steps);
    EveryRunAtInitIff(s, steps);
  }
}
