/** Take, release, timeout and clean-up of a mutex, one function per lock/unlock region, and what
    each of them keeps. */
module MutexSteps {
  import opened Basics
  import opened WaitList
  import opened MutexModel
  import opened MutexWalk

  // A thread that is executing code of its own, outside a blocked take.
  predicate CanRun(s: Sys, t: nat) {
    t < |s.thread| && !s.thread[t].suspended && s.thread[t].waitingIn == None
  }

  function SetThread(s: Sys, t: nat, th: Thread): Sys
    requires t < |s.thread|
  {
    s.(thread := s.thread[t := th])
  }

  // Change of priority followed by the walk.
  function UpdatePriority(s: Sys, t: nat, p: nat): Sys
    requires t < |s.curr| && AlmostSafe(SetPriority(s, t, p), t, s.curr[t])
  {
    Walk(SetPriority(s, t, p), t, s.curr[t])
  }

  /* ---------- take ---------- */

  // The thread is suspended on the mutex; nothing has been inherited yet.
  function Link(s: Sys, t: nat, m: nat): Sys
    requires Sized(s) && t < |s.thread| && m < |s.mutex|
  {
    s.(waiters := s.waiters[m := Enqueue(s.curr, s.waiters[m], t)],
       thread := s.thread[t := s.thread[t].(suspended := true, pending := Some(m), waitingIn := Some(m), failed := false)],
       mprio := s.mprio[m := Min(s.curr[t], s.mprio[m])])
  }

  lemma LinkShape(s: Sys, t: nat, m: nat)
    requires Shape(s) && CanRun(s, t) && m < |s.mutex| && s.mutex[m].owner.Some? && !Owns(s, t, m)
    ensures Shape(Link(s, t, m))
  {
    var r := Link(s, t, m);
    assert MutexShape(s, m);
    assert t !in s.waiters[m];
    EnqueueNoDup(s.curr, s.waiters[m], t);
    forall k | 0 <= k < |r.mutex| ensures MutexShape(r, k) {
      assert MutexShape(s, k);
      forall x ensures x in r.waiters[k] <==> WaitsFor(r, x, k) {
        assert x in s.waiters[k] <==> WaitsFor(s, x, k);
      }
    }
    forall x | 0 <= x < |r.thread| ensures ThreadShape(r, x) {
      assert ThreadShape(s, x);
      forall k ensures Owns(r, x, k) == Owns(s, x, k) {}
    }
  }

  lemma LinkLists(s: Sys, t: nat, m: nat, stale: set<nat> := {})
    requires Safe(s) && CanRun(s, t) && m < |s.mutex| && s.mutex[m].owner.Some? && !Owns(s, t, m)
    ensures var r := Link(s, t, m);
      && Shape(r)
      && (forall k :: 0 <= k < |r.mutex| ==> Queued(r, k) && r.mprio[k] <= Head(r.curr, r.waiters[k]))
      && (ExactUpTo(s, stale) ==> forall k :: 0 <= k < |r.mutex| ==> Current(r, k, stale))
      && (forall x :: 0 <= x < |r.curr| && !Owns(s, x, m) ==> Bounded(r, x))
  {
    LinkShape(s, t, m);
    EnqueueSorted(s.curr, s.waiters[m], t);
    var r := Link(s, t, m);
    forall k | 0 <= k < |r.mutex|
      ensures Queued(r, k) && r.mprio[k] <= Head(r.curr, r.waiters[k])
      ensures ExactUpTo(s, stale) ==> Current(r, k, stale)
    {
      assert Queued(s, k);
      if ExactUpTo(s, stale) { assert Current(s, k, stale); }
    }
    forall x | 0 <= x < |r.curr| && !Owns(s, x, m) ensures Bounded(r, x) {
      assert Bounded(s, x);
      forall k | 0 <= k < |r.mutex| && Owns(r, x, k) ensures r.curr[x] <= r.mprio[k] {
        assert Owns(s, x, k);
      }
    }
  }

  lemma LinkSettles(s: Sys, t: nat, m: nat)
    requires Safe(s) && CanRun(s, t) && m < |s.mutex| && s.mutex[m].owner.Some? && !Owns(s, t, m)
    ensures var r := Link(s, t, m); var o := s.mutex[m].owner.value;
      && o < |s.curr|
      && (s.curr[t] < s.curr[o] ==> AlmostSafe(SetPriority(r, o, s.curr[t]), o, r.curr[o]))
      && (s.curr[o] <= s.curr[t] ==> Safe(r))
  {
    LinkLists(s, t, m);
    var r := Link(s, t, m);
    assert MutexShape(s, m);
    var o := s.mutex[m].owner.value;
    assert Bounded(s, o);
    assert Owns(s, o, m);
    if s.curr[t] < s.curr[o] {
      forall k | 0 <= k < |r.mutex| && Owns(r, o, k) ensures s.curr[t] <= r.mprio[k] {
        assert Owns(s, o, k);
      }
      SettleSafe(r, o, s.curr[t]);
    } else {
      forall k | 0 <= k < |r.mutex| && Owns(r, o, k) ensures r.curr[o] <= r.mprio[k] {
        assert Owns(s, o, k);
      }
      assert Bounded(r, o);
    }
  }

  ghost predicate CanBlock(s: Sys, t: nat, m: nat) {
    Safe(s) && CanRun(s, t) && m < |s.mutex| && s.mutex[m].owner.Some? && !Owns(s, t, m)
  }

  // The blocking branch of a take, up to the reschedule.
  function Block(s: Sys, t: nat, m: nat): Sys
    requires CanBlock(s, t, m)
  {
    var r := Link(s, t, m);
    var o := s.mutex[m].owner.value;
    LinkSettles(s, t, m);
    if s.curr[t] < s.mprio[m] && s.curr[t] < s.curr[o]
    then UpdatePriority(r, o, s.curr[t])
    else r
  }

  function Acquire(s: Sys, t: nat, m: nat): Sys
    requires Sized(s) && t < |s.thread| && m < |s.mutex|
  {
    s.(mutex := s.mutex[m := Mutex(Some(t), 1)],
       mprio := s.mprio[m := NO_PRIORITY],
       thread := s.thread[t := s.thread[t].(taken := [m] + s.thread[t].taken, failed := false)])
  }

  function Take(s: Sys, t: nat, m: nat, wait: bool): (Sys, Outcome)
    requires Safe(s) && CanRun(s, t) && m < |s.mutex|
  {
    var ok := SetThread(s, t, s.thread[t].(failed := false));
    if s.mutex[m].owner == Some(t) then
      if s.mutex[m].hold < HOLD_MAX
      then (ok.(mutex := s.mutex[m := s.mutex[m].(hold := s.mutex[m].hold + 1)]), Done)
      else (ok, Full)
    else if s.mutex[m].owner == None then (Acquire(s, t, m), Done)
    else if !wait then (SetThread(s, t, s.thread[t].(failed := true)), TimedOut)
    else (Block(s, t, m), Blocked)
  }

  /* ---------- release ---------- */

  // The mutex leaves the taken list; the releaser falls back if this mutex may have boosted it.
  function DropTaken(s: Sys, t: nat, m: nat): (r: Sys)
    requires Sized(s) && t < |s.thread| && m < |s.mutex|
    ensures Sized(r) && |r.mutex| == |s.mutex|
  {
    var taken := Remove(s.thread[t].taken, m);
    RemoveInRange(s.thread[t].taken, m, |s.mutex|);
    var p := if s.curr[t] == s.mprio[m] then TakenMin(s.init[t], taken, s.mprio) else s.curr[t];
    s.(thread := s.thread[t := s.thread[t].(taken := taken)], curr := s.curr[t := p])
  }

  // The first waiter becomes the owner, or nobody does.
  function HandOff(s: Sys, m: nat): Sys
    requires Sized(s) && m < |s.mutex|
  {
    if s.waiters[m] == [] then
      s.(mutex := s.mutex[m := Mutex(None, 0)], mprio := s.mprio[m := NO_PRIORITY])
    else
      var n := s.waiters[m][0];
      var rest := s.waiters[m][1..];
      assert InRange(rest, |s.curr|) by { assert forall i :: 0 <= i < |rest| ==> rest[i] == s.waiters[m][i + 1]; }
      s.(mutex := s.mutex[m := Mutex(Some(n), 1)],
         mprio := s.mprio[m := Head(s.curr, rest)],
         waiters := s.waiters[m := rest],
         thread := s.thread[n := s.thread[n].(suspended := false, pending := None, taken := [m] + s.thread[n].taken)])
  }

  function Release(s: Sys, t: nat, m: nat): (Sys, Outcome)
    requires Safe(s) && CanRun(s, t) && m < |s.mutex|
  {
    if s.mutex[m].owner != Some(t) then (SetThread(s, t, s.thread[t].(failed := true)), NotOwner)
    else if s.mutex[m].hold > 1 then (s.(mutex := s.mutex[m := s.mutex[m].(hold := s.mutex[m].hold - 1)]), Done)
    else (HandOff(DropTaken(s, t, m), m), Done)
  }

  /* ---------- timeout and resumption ---------- */

  // The timer takes a waiter off its list.
  predicate CanTimeOut(s: Sys, t: nat) {
    t < |s.thread| && s.thread[t].suspended && s.thread[t].pending.Some?
  }

  function TimerFires(s: Sys, t: nat): Sys
    requires Shape(s) && CanTimeOut(s, t)
  {
    assert ThreadShape(s, t);
    var m := s.thread[t].pending.value;
    s.(waiters := s.waiters[m := Remove(s.waiters[m], t)],
       thread := s.thread[t := s.thread[t].(suspended := false, failed := true)])
  }

  function Refresh(s: Sys, m: nat): Sys
    requires Sized(s) && m < |s.mutex|
  {
    s.(mprio := s.mprio[m := Head(s.curr, s.waiters[m])])
  }

  lemma RefreshSafe(s: Sys, m: nat)
    requires Safe(s) && m < |s.mutex|
    ensures Safe(Refresh(s, m))
  {
    var r := Refresh(s, m);
    assert Queued(s, m);
    assert Sized(r) by {
      if s.waiters[m] != [] { assert s.waiters[m][0] < |s.curr|; }
    }
    ShapeKept(s, r);
    forall x | 0 <= x < |r.curr| ensures Bounded(r, x) {
      assert Bounded(s, x);
      forall k | 0 <= k < |r.mutex| && Owns(r, x, k) ensures r.curr[x] <= r.mprio[k] {
        assert Owns(s, x, k);
      }
    }
    forall k | 0 <= k < |r.mutex| ensures Queued(r, k) && r.mprio[k] <= Head(r.curr, r.waiters[k]) {
      assert Queued(s, k);
    }
  }

  // What the owner needs once the mutex's priority is fresh.
  lemma FallBackSettles(s: Sys, o: nat)
    requires Safe(s) && o < |s.curr| && Need(s, o) != s.curr[o]
    ensures AlmostSafe(SetPriority(s, o, Need(s, o)), o, s.curr[o])
  {
    assert ThreadShape(s, o);
    NeedInherits(s, o);
    SettleSafe(s, o, Need(s, o));
  }

  // A failed take drops its claim: the mutex's priority is refreshed, and its owner falls back if
  // it runs at the priority of the thread that gave up.
  function CleanUp(s: Sys, t: nat, m: nat): Sys
    requires Safe(s) && t < |s.thread| && m < |s.mutex|
  {
    RefreshSafe(s, m);
    var r := Refresh(s, m);
    match s.mutex[m].owner
    case None => r
    case Some(o) =>
      assert MutexShape(s, m);
      if s.curr[o] == s.curr[t] && Need(r, o) != r.curr[o]
      then FallBackSettles(r, o); UpdatePriority(r, o, Need(r, o))
      else r
  }

  predicate CanResume(s: Sys, t: nat) {
    t < |s.thread| && !s.thread[t].suspended && s.thread[t].waitingIn.Some?
  }

  // The second half of a blocked take.
  function Resume(s: Sys, t: nat): (Sys, Outcome)
    requires Safe(s) && CanResume(s, t)
  {
    assert ThreadShape(s, t);
    if !s.thread[t].failed then (SetThread(s, t, s.thread[t].(waitingIn := None)), Done)
    else
      var r := CleanUp(s, t, s.thread[t].waitingIn.value);
      assert |r.thread| == |s.thread| by { CleanUpSafe(s, t, s.thread[t].waitingIn.value); }
      (SetThread(r, t, r.thread[t].(pending := None, waitingIn := None)), TimedOut)
  }

  /* ---------- suspension for other reasons ---------- */

  function Sleep(s: Sys, t: nat): Sys
    requires t < |s.thread|
  {
    SetThread(s, t, s.thread[t].(suspended := true))
  }

  function Wake(s: Sys, t: nat): Sys
    requires t < |s.thread|
  {
    SetThread(s, t, s.thread[t].(suspended := false))
  }

  /* ---------- every step keeps the bounds ---------- */

  lemma CleanUpSafe(s: Sys, t: nat, m: nat)
    requires Safe(s) && t < |s.thread| && m < |s.mutex|
    ensures Safe(CleanUp(s, t, m)) && SameLinks(s, CleanUp(s, t, m))
  {
    RefreshSafe(s, m);
    var r := Refresh(s, m);
    assert MutexShape(s, m);
    if s.mutex[m].owner.Some? {
      var o := s.mutex[m].owner.value;
      if s.curr[o] == s.curr[t] && Need(r, o) != r.curr[o] {
        FallBackSettles(r, o);
        WalkSafe(SetPriority(r, o, Need(r, o)), o, r.curr[o]);
      }
    }
  }

  // Only control fields of `t` change, none of them a link.
  lemma ThreadEdit(s: Sys, t: nat, th: Thread, stale: set<nat> := {})
    requires Shape(s) && t < |s.thread|
    requires th.taken == s.thread[t].taken
    requires (th.suspended && th.pending.Some?) == (s.thread[t].suspended && s.thread[t].pending.Some?)
    requires th.suspended ==> th.pending == s.thread[t].pending
    requires th.pending.Some? ==> th.pending.value < |s.mutex|
    requires match th.waitingIn
             case None => th.pending == None
             case Some(m) =>
               && m < |s.mutex| && (th.suspended ==> th.pending == Some(m) && !th.failed)
               && (!th.suspended && !th.failed ==> th.pending == None && Owns(s, t, m))
               && (!th.suspended && th.failed ==> th.pending == Some(m) && !Owns(s, t, m))
    ensures Shape(SetThread(s, t, th))
    ensures Safe(s) ==> Safe(SetThread(s, t, th))
    ensures ExactUpTo(s, stale) ==> ExactUpTo(SetThread(s, t, th), stale)
  {
    var r := SetThread(s, t, th);
    assert Sized(r) by { assert ThreadShape(s, t); }
    forall k | 0 <= k < |r.mutex| ensures MutexShape(r, k) {
      assert MutexShape(s, k);
      forall x ensures x in r.waiters[k] <==> WaitsFor(r, x, k) {
        assert x in s.waiters[k] <==> WaitsFor(s, x, k);
      }
    }
    forall x | 0 <= x < |r.thread| ensures ThreadShape(r, x) {
      assert ThreadShape(s, x);
      forall k ensures Owns(r, x, k) == Owns(s, x, k) {}
    }
    if Safe(s) {
      forall x | 0 <= x < |r.curr| ensures Bounded(r, x) {
        assert Bounded(s, x);
        forall k ensures Owns(r, x, k) == Owns(s, x, k) {}
      }
      forall k | 0 <= k < |r.mutex| ensures Queued(r, k) && r.mprio[k] <= Head(r.curr, r.waiters[k]) {
        assert Queued(s, k);
      }
    }
    if ExactUpTo(s, stale) {
      forall x | 0 <= x < |r.curr| ensures Inherits(r, x) {
        assert Inherits(s, x);
        forall k ensures Owns(r, x, k) == Owns(s, x, k) {}
      }
      forall k | 0 <= k < |r.mutex| ensures Queued(r, k) && Current(r, k, stale) {
        assert Queued(s, k) && Current(s, k, stale);
      }
    }
  }
}
