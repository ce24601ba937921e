/** Every step of the mutex protocol keeps the shape and the bounds; the steps other than a split
    timeout keep the inheritance equations. */
module MutexKeeps {
  import opened Basics
  import opened WaitList
  import opened MutexModel
  import opened MutexWalk
  import opened MutexSteps

  /* ---------- take ---------- */

  lemma AcquireShape(s: Sys, t: nat, m: nat)
    requires Shape(s) && CanRun(s, t) && m < |s.mutex| && s.mutex[m].owner == None
    ensures Shape(Acquire(s, t, m))
  {
    var r := Acquire(s, t, m);
    assert MutexShape(s, m) && ThreadShape(s, t);
    assert m !in s.thread[t].taken by { assert !Owns(s, t, m); }
    forall k | 0 <= k < |r.mutex| ensures MutexShape(r, k) {
      assert MutexShape(s, k);
      forall x ensures x in r.waiters[k] <==> WaitsFor(r, x, k) {
        assert x in s.waiters[k] <==> WaitsFor(s, x, k);
      }
    }
    forall x | 0 <= x < |r.thread| ensures ThreadShape(r, x) {
      assert ThreadShape(s, x);
      forall k ensures k in r.thread[x].taken <==> Owns(r, x, k) {
        assert Owns(r, x, k) <==> Owns(s, x, k) || (x == t && k == m);
      }
    }
  }

  lemma AcquireKeeps(s: Sys, t: nat, m: nat, stale: set<nat> := {})
    requires Safe(s) && CanRun(s, t) && m < |s.mutex| && s.mutex[m].owner == None
    ensures Safe(Acquire(s, t, m))
    ensures ExactUpTo(s, stale) ==> ExactUpTo(Acquire(s, t, m), stale)
  {
    AcquireShape(s, t, m);
    var r := Acquire(s, t, m);
    assert MutexShape(s, m);
    forall x | 0 <= x < |r.curr| ensures Bounded(r, x) && (ExactUpTo(s, stale) ==> Inherits(r, x)) {
      assert Bounded(s, x);
      forall k | 0 <= k < |r.mutex| && Owns(r, x, k) ensures r.curr[x] <= r.mprio[k] {
        if k != m { assert Owns(s, x, k); }
      }
      if ExactUpTo(s, stale) {
        assert Inherits(s, x);
        if s.curr[x] != s.init[x] {
          var k :| 0 <= k < |s.mutex| && Owns(s, x, k) && s.curr[x] == s.mprio[k];
          assert Owns(r, x, k);
        }
      }
    }
    forall k | 0 <= k < |r.mutex|
      ensures Queued(r, k) && r.mprio[k] <= Head(r.curr, r.waiters[k])
      ensures ExactUpTo(s, stale) ==> Current(r, k, stale)
    {
      assert Queued(s, k);
      if ExactUpTo(s, stale) { assert Current(s, k, stale); }
    }
  }

  lemma HoldEdit(s: Sys, m: nat, hold: nat, stale: set<nat> := {})
    requires Shape(s) && m < |s.mutex| && s.mutex[m].owner.Some? && 0 < hold <= HOLD_MAX
    ensures var r := s.(mutex := s.mutex[m := s.mutex[m].(hold := hold)]);
      Shape(r) && (Safe(s) ==> Safe(r)) && (ExactUpTo(s, stale) ==> ExactUpTo(r, stale))
  {
    var r := s.(mutex := s.mutex[m := s.mutex[m].(hold := hold)]);
    forall k | 0 <= k < |r.mutex| ensures MutexShape(r, k) {
      assert MutexShape(s, k);
      forall x ensures x in r.waiters[k] <==> WaitsFor(r, x, k) {
        assert x in s.waiters[k] <==> WaitsFor(s, x, k);
      }
    }
    forall x, k ensures Owns(r, x, k) == Owns(s, x, k) {}
    forall x | 0 <= x < |r.thread| ensures ThreadShape(r, x) {
      assert ThreadShape(s, x);
    }
    if Safe(s) {
      forall x | 0 <= x < |r.curr| ensures Bounded(r, x) { assert Bounded(s, x); }
      forall k | 0 <= k < |r.mutex| ensures Queued(r, k) && r.mprio[k] <= Head(r.curr, r.waiters[k]) {
        assert Queued(s, k);
      }
    }
    if ExactUpTo(s, stale) {
      forall x | 0 <= x < |r.curr| ensures Inherits(r, x) { assert Inherits(s, x); }
      forall k | 0 <= k < |r.mutex| ensures Queued(r, k) && Current(r, k, stale) {
        assert Queued(s, k) && Current(s, k, stale);
      }
    }
  }

  lemma LinkSettlesExact(s: Sys, t: nat, m: nat, stale: set<nat>)
    requires ExactUpTo(s, stale) && Safe(s) && CanRun(s, t) && m < |s.mutex| && s.mutex[m].owner.Some? && !Owns(s, t, m)
    ensures var r := Link(s, t, m); var o := s.mutex[m].owner.value;
      && o < |s.curr|
      && (s.curr[t] < s.curr[o] ==> AlmostExact(SetPriority(r, o, s.curr[t]), o, r.curr[o], stale))
      && (s.curr[o] <= s.curr[t] ==> ExactUpTo(r, stale))
  {
    LinkLists(s, t, m, stale);
    LinkSettles(s, t, m);
    var r := Link(s, t, m);
    assert MutexShape(s, m);
    var o := s.mutex[m].owner.value;
    assert Owns(s, o, m) && Owns(r, o, m);
    forall x | 0 <= x < |s.curr| && (x != o || s.curr[o] <= s.curr[t]) ensures Inherits(r, x) {
      assert Inherits(s, x);
      if x != o { assert !Owns(s, x, m); assert Bounded(r, x); } else { assert Bounded(r, o); }
      if s.curr[x] != s.init[x] {
        var k :| 0 <= k < |s.mutex| && Owns(s, x, k) && s.curr[x] == s.mprio[k];
        assert Owns(r, x, k) && r.mprio[k] == s.curr[x];
      }
    }
    if s.curr[t] < s.curr[o] {
      assert Inherits(s, o);
      forall k | 0 <= k < |r.mutex| && Owns(r, o, k) ensures s.curr[t] <= r.mprio[k] {
        assert Owns(s, o, k);
      }
      assert r.mprio[m] == s.curr[t];
      SettleExact(r, o, s.curr[t], stale);
    }
  }

  lemma BlockKeeps(s: Sys, t: nat, m: nat, stale: set<nat> := {})
    requires Safe(s) && CanRun(s, t) && m < |s.mutex| && s.mutex[m].owner.Some? && !Owns(s, t, m)
    ensures Safe(Block(s, t, m)) && SameLinks(Link(s, t, m), Block(s, t, m))
    ensures ExactUpTo(s, stale) ==> ExactUpTo(Block(s, t, m), stale)
  {
    var r := Link(s, t, m);
    var o := s.mutex[m].owner.value;
    LinkSettles(s, t, m);
    LinkShape(s, t, m);
    assert MutexShape(s, m);
    assert Bounded(s, o) && Owns(s, o, m);
    if ExactUpTo(s, stale) { LinkSettlesExact(s, t, m, stale); }
    if s.curr[t] < s.curr[o] {
      WalkSafe(SetPriority(r, o, s.curr[t]), o, r.curr[o]);
      if ExactUpTo(s, stale) { WalkExact(SetPriority(r, o, s.curr[t]), o, r.curr[o], stale); }
    }
  }

  lemma TakeKeeps(s: Sys, t: nat, m: nat, wait: bool, stale: set<nat> := {})
    requires Safe(s) && CanRun(s, t) && m < |s.mutex|
    ensures Safe(Take(s, t, m, wait).0)
    ensures ExactUpTo(s, stale) ==> ExactUpTo(Take(s, t, m, wait).0, stale)
  {
    hide Bounded, Inherits, Queued, Current, Walk, Link, Block, Acquire;
    assert ThreadShape(s, t) && MutexShape(s, m);
    var ok := SetThread(s, t, s.thread[t].(failed := false));
    ThreadEdit(s, t, s.thread[t].(failed := false), stale);
    ThreadEdit(s, t, s.thread[t].(failed := true), stale);
    if s.mutex[m].owner == Some(t) {
      if s.mutex[m].hold < HOLD_MAX { HoldEdit(ok, m, s.mutex[m].hold + 1, stale); }
    } else if s.mutex[m].owner == None {
      AcquireKeeps(s, t, m, stale);
    } else if wait {
      BlockKeeps(s, t, m, stale);
    }
  }

  /* ---------- release ---------- */

  lemma DropTakenLinks(s: Sys, t: nat, m: nat)
    requires Shape(s) && t < |s.thread| && Owns(s, t, m)
    ensures var taken := Remove(s.thread[t].taken, m);
      && InRange(taken, |s.mutex|) && NoDup(taken)
      && (forall k :: k in taken <==> Owns(s, t, k) && k != m)
  {
    assert ThreadShape(s, t);
    var taken := s.thread[t].taken;
    RemoveKeepsOrder(s.mprio, taken, m);
    forall k ensures k in Remove(taken, m) <==> Owns(s, t, k) && k != m {
      assert k in taken <==> Owns(s, t, k);
    }
  }

  lemma DropTakenNeed(s: Sys, t: nat, m: nat)
    requires Safe(s) && CanRun(s, t) && Owns(s, t, m)
    ensures var r := DropTaken(s, t, m);
      && r.curr[t] <= s.init[t] && r.curr[t] < PRIORITY_MAX
      && r.thread[t].taken == Remove(s.thread[t].taken, m)
      && (forall k :: k in r.thread[t].taken <==> Owns(s, t, k) && k != m)
      && NoDup(r.thread[t].taken)
      && (forall k :: 0 <= k < |s.mutex| && Owns(s, t, k) && k != m ==> r.curr[t] <= s.mprio[k])
  {
    assert Bounded(s, t);
    DropTakenLinks(s, t, m);
    var r := DropTaken(s, t, m);
    forall k | 0 <= k < |s.mutex| && Owns(s, t, k) && k != m ensures r.curr[t] <= s.mprio[k] {
      assert k in r.thread[t].taken;
    }
  }

  // In the exact setting the releaser falls back to what the rest of its mutexes demands.
  lemma DropTakenExact(s: Sys, t: nat, m: nat)
    requires Shape(s) && t < |s.curr| && Inherits(s, t) && CanRun(s, t) && Owns(s, t, m)
    ensures var r := DropTaken(s, t, m);
      r.curr[t] != s.init[t] ==>
        exists k :: 0 <= k < |s.mutex| && Owns(s, t, k) && k != m && r.curr[t] == s.mprio[k]
  {
    DropTakenLinks(s, t, m);
    assert Inherits(s, t);
    var r := DropTaken(s, t, m);
    var taken := r.thread[t].taken;
    if s.curr[t] == s.mprio[m] && r.curr[t] != s.init[t] {
      var j :| 0 <= j < |taken| && r.curr[t] == s.mprio[taken[j]];
      assert taken[j] in taken;
    }
  }

  // Who owns and who waits after the hand-off.
  lemma HandOffLinks(s: Sys, t: nat, m: nat)
    requires Safe(s) && CanRun(s, t) && Owns(s, t, m)
    ensures var r := HandOff(DropTaken(s, t, m), m); var ws := s.waiters[m];
      && Sized(r) && |r.thread| == |s.thread| && |r.mutex| == |s.mutex|
      && (forall x, k {:trigger Owns(r, x, k)} :: Owns(r, x, k) <==> if k == m then ws != [] && x == ws[0] else Owns(s, x, k))
      && (forall x, k {:trigger WaitsFor(r, x, k)} :: WaitsFor(r, x, k) <==> WaitsFor(s, x, k) && !(ws != [] && k == m && x == ws[0]))
      && (ws != [] ==> ws[0] != t && WaitsFor(s, ws[0], m))
  {
    DropTakenNeed(s, t, m);
    var r := HandOff(DropTaken(s, t, m), m);
    assert MutexShape(s, m) && ThreadShape(s, t);
    var ws := s.waiters[m];
    if ws != [] {
      assert ws[0] in ws && WaitsFor(s, ws[0], m);
      assert ThreadShape(s, ws[0]);
    }
    forall x, k ensures WaitsFor(r, x, k) <==> WaitsFor(s, x, k) && !(ws != [] && k == m && x == ws[0]) {
      if k == m && ws == [] { assert !(x in ws); }
    }
  }

  lemma HandOffMutexes(s: Sys, t: nat, m: nat, k: nat)
    requires Safe(s) && CanRun(s, t) && Owns(s, t, m) && k < |s.mutex|
    ensures var r := HandOff(DropTaken(s, t, m), m); Sized(r) && |r.mutex| == |s.mutex| && MutexShape(r, k)
  {
    HandOffLinks(s, t, m);
    var r := HandOff(DropTaken(s, t, m), m);
    assert MutexShape(s, m) && MutexShape(s, k);
    var ws := s.waiters[m];
    if ws != [] {
      assert ws == [ws[0]] + ws[1..];
      assert NoDup(ws[1..]) && ws[0] !in ws[1..];
    }
    forall x ensures x in r.waiters[k] <==> WaitsFor(r, x, k) {
      assert x in s.waiters[k] <==> WaitsFor(s, x, k);
      if k == m && ws != [] { assert x in ws[1..] <==> x in ws && x != ws[0]; }
    }
  }

  lemma HandOffThreads(s: Sys, t: nat, m: nat, x: nat)
    requires Safe(s) && CanRun(s, t) && Owns(s, t, m) && x < |s.thread|
    ensures var r := HandOff(DropTaken(s, t, m), m); Sized(r) && |r.thread| == |s.thread| && ThreadShape(r, x)
  {
    HandOffLinks(s, t, m);
    DropTakenNeed(s, t, m);
    var r := HandOff(DropTaken(s, t, m), m);
    assert ThreadShape(s, x);
    var ws := s.waiters[m];
    if ws != [] && x == ws[0] {
      assert !Owns(s, x, m);
      assert m !in s.thread[x].taken;
    }
    forall k ensures k in r.thread[x].taken <==> Owns(r, x, k) {
      assert k in s.thread[x].taken <==> Owns(s, x, k);
    }
  }

  lemma HandOffShape(s: Sys, t: nat, m: nat)
    requires Safe(s) && CanRun(s, t) && Owns(s, t, m)
    ensures Shape(HandOff(DropTaken(s, t, m), m))
  {
    HandOffLinks(s, t, m);
    var r := HandOff(DropTaken(s, t, m), m);
    forall k | 0 <= k < |r.mutex| ensures MutexShape(r, k) { HandOffMutexes(s, t, m, k); }
    forall x | 0 <= x < |r.thread| ensures ThreadShape(r, x) { HandOffThreads(s, t, m, x); }
  }

  lemma HandOffLists(s: Sys, t: nat, m: nat, k: nat, stale: set<nat> := {})
    requires Safe(s) && CanRun(s, t) && Owns(s, t, m) && k < |s.mutex|
    ensures var r := HandOff(DropTaken(s, t, m), m);
      && Sized(r) && |r.mutex| == |s.mutex|
      && Queued(r, k) && r.mprio[k] <= Head(r.curr, r.waiters[k])
      && (ExactUpTo(s, stale) ==> Current(r, k, stale - {m}))
  {
    HandOffLinks(s, t, m);
    var d := DropTaken(s, t, m);
    var ws := s.waiters[k];
    assert Queued(s, k) && MutexShape(s, k);
    if ExactUpTo(s, stale) { assert Current(s, k, stale); }
    assert !WaitsFor(s, t, k);
    SortedAgree(s.curr, d.curr, ws);
    if k == m && ws != [] {
      assert forall i :: 0 <= i < |ws| - 1 ==> ws[1..][i] == ws[i + 1];
    }
  }

  // The new owner is no less urgent than those left in the list.
  lemma HandOffBounds(s: Sys, t: nat, m: nat, x: nat)
    requires Safe(s) && CanRun(s, t) && Owns(s, t, m) && x < |s.curr|
    ensures var r := HandOff(DropTaken(s, t, m), m); Sized(r) && |r.curr| == |s.curr| && Bounded(r, x)
  {
    HandOffLinks(s, t, m);
    DropTakenNeed(s, t, m);
    var r := HandOff(DropTaken(s, t, m), m);
    var ws := s.waiters[m];
    assert MutexShape(s, m) && Queued(s, m) && Bounded(s, x);
    forall k | 0 <= k < |r.mutex| && Owns(r, x, k) ensures r.curr[x] <= r.mprio[k] {
      if k == m {
        HandOffLists(s, t, m, m);
        assert !WaitsFor(s, t, m) && ws[0] in ws;
        if |ws| > 1 { assert ws[1] in ws; }
      }
    }
  }

  lemma HandOffInherits(s: Sys, t: nat, m: nat, x: nat)
    requires Safe(s) && CanRun(s, t) && Owns(s, t, m) && x < |s.curr| && Inherits(s, t) && Inherits(s, x)
    ensures var r := HandOff(DropTaken(s, t, m), m); Sized(r) && |r.curr| == |s.curr| && Inherits(r, x)
  {
    hide Queued, MutexShape, ThreadShape, NoDup;
    HandOffBounds(s, t, m, x);
    HandOffLinks(s, t, m);
    DropTakenNeed(s, t, m);
    var r := HandOff(DropTaken(s, t, m), m);
    assert Inherits(s, x);
    if r.curr[x] != s.init[x] {
      if x == t {
        DropTakenExact(s, t, m);
        var k :| 0 <= k < |s.mutex| && Owns(s, t, k) && k != m && r.curr[t] == s.mprio[k];
        assert Owns(r, t, k);
      } else {
        var k :| 0 <= k < |s.mutex| && Owns(s, x, k) && s.curr[x] == s.mprio[k];
        assert k != m && Owns(r, x, k);
      }
    }
  }

  lemma HandOffKeeps(s: Sys, t: nat, m: nat, stale: set<nat> := {})
    requires Safe(s) && CanRun(s, t) && Owns(s, t, m)
    ensures Safe(HandOff(DropTaken(s, t, m), m))
    ensures ExactUpTo(s, stale) ==> ExactUpTo(HandOff(DropTaken(s, t, m), m), stale - {m})
  {
    HandOffShape(s, t, m);
    var r := HandOff(DropTaken(s, t, m), m);
    forall k | 0 <= k < |r.mutex|
      ensures Queued(r, k) && r.mprio[k] <= Head(r.curr, r.waiters[k])
      ensures ExactUpTo(s, stale) ==> Current(r, k, stale - {m})
    {
      HandOffLists(s, t, m, k, stale);
    }
    forall x | 0 <= x < |r.curr| ensures Bounded(r, x) && (ExactUpTo(s, stale) ==> Inherits(r, x)) {
      HandOffBounds(s, t, m, x);
      if ExactUpTo(s, stale) { HandOffInherits(s, t, m, x); }
    }
  }

  lemma ReleaseKeeps(s: Sys, t: nat, m: nat, stale: set<nat> := {})
    requires Safe(s) && CanRun(s, t) && m < |s.mutex|
    ensures Safe(Release(s, t, m).0)
    ensures ExactUpTo(s, stale) ==> ExactUpTo(Release(s, t, m).0, stale)
  {
    assert ThreadShape(s, t) && MutexShape(s, m);
    ThreadEdit(s, t, s.thread[t].(failed := true), stale);
    if s.mutex[m].owner == Some(t) {
      if s.mutex[m].hold > 1 {
        HoldEdit(s, m, s.mutex[m].hold - 1, stale);
      } else {
        HandOffKeeps(s, t, m, stale);
        if ExactUpTo(s, stale) { MoreStale(Release(s, t, m).0, stale - {m}, stale); }
      }
    }
  }

  /* ---------- timeout ---------- */

  // The timer makes one mutex stale.
  lemma TimerKeeps(s: Sys, t: nat, stale: set<nat> := {})
    requires Safe(s) && CanTimeOut(s, t)
    ensures s.thread[t].pending.value < |s.mutex|
    ensures Safe(TimerFires(s, t)) && CanResume(TimerFires(s, t), t)
    ensures ExactUpTo(s, stale) ==> ExactUpTo(TimerFires(s, t), stale + {s.thread[t].pending.value})
  {
    assert ThreadShape(s, t);
    var m := s.thread[t].pending.value;
    var r := TimerFires(s, t);
    assert MutexShape(s, m) && WaitsFor(s, t, m) && Queued(s, m);
    RemoveKeepsOrder(s.curr, s.waiters[m], t);
    HeadSplit(s.curr, s.waiters[m], t);
    assert Sized(r);
    forall k | 0 <= k < |r.mutex| ensures MutexShape(r, k) {
      assert MutexShape(s, k);
      forall x ensures x in r.waiters[k] <==> WaitsFor(r, x, k) {
        assert x in s.waiters[k] <==> WaitsFor(s, x, k);
      }
    }
    forall x, k ensures Owns(r, x, k) == Owns(s, x, k) {}
    forall x | 0 <= x < |r.thread| ensures ThreadShape(r, x) {
      assert ThreadShape(s, x);
    }
    forall x | 0 <= x < |r.curr| ensures Bounded(r, x) && (ExactUpTo(s, stale) ==> Inherits(r, x)) {
      assert Bounded(s, x);
      if ExactUpTo(s, stale) { assert Inherits(s, x); }
    }
    forall k | 0 <= k < |r.mutex|
      ensures Queued(r, k) && r.mprio[k] <= Head(r.curr, r.waiters[k])
      ensures ExactUpTo(s, stale) ==> Current(r, k, stale + {m})
    {
      assert Queued(s, k);
      if ExactUpTo(s, stale) { assert Current(s, k, stale); }
    }
  }

  // What a waiter that gave up finds: nobody owns the mutex any more, or the owner still runs at the
  // priority of this waiter, or the owner's priority is its own anyway: as created, as the first
  // waiter left demands, or as another mutex it owns demands.
  ghost predicate Recognised(s: Sys, t: nat, m: nat)
    requires Sized(s) && t < |s.curr| && m < |s.mutex|
  {
    match s.mutex[m].owner
    case None => true
    case Some(o) =>
      o < |s.curr| ==>
        || s.curr[o] == s.curr[t]
        || s.curr[o] == s.init[o]
        || s.curr[o] == Head(s.curr, s.waiters[m])
        || exists k :: 0 <= k < |s.mutex| && k != m && Owns(s, o, k) && s.curr[o] == s.mprio[k]
  }

  // Refreshing a mutex can break the equation of its owner only.
  lemma RefreshExact(s: Sys, m: nat, stale: set<nat>)
    requires ExactUpTo(s, stale) && m < |s.mutex|
    ensures Sized(Refresh(s, m)) && Shape(Refresh(s, m))
    ensures forall k :: 0 <= k < |s.mutex| ==> Queued(Refresh(s, m), k) && Current(Refresh(s, m), k, stale - {m})
    ensures forall x :: 0 <= x < |s.curr| && s.mutex[m].owner != Some(x) ==> Inherits(Refresh(s, m), x)
  {
    ExactIsSafe(s, stale);
    RefreshSafe(s, m);
    var r := Refresh(s, m);
    forall k | 0 <= k < |r.mutex| ensures Queued(r, k) && Current(r, k, stale - {m}) {
      assert Queued(s, k) && Current(s, k, stale);
    }
    forall x | 0 <= x < |r.curr| && s.mutex[m].owner != Some(x) ensures Inherits(r, x) {
      assert Inherits(s, x) && Bounded(r, x);
      if s.curr[x] != s.init[x] {
        var k :| 0 <= k < |s.mutex| && Owns(s, x, k) && s.curr[x] == s.mprio[k];
        assert Owns(r, x, k) && k != m;
      }
    }
  }

  // The owner's equation on the refreshed mutex, in terms of the state before.
  lemma RefreshedOwner(s: Sys, m: nat, o: nat)
    requires Safe(s) && m < |s.mutex| && s.mutex[m].owner == Some(o)
    ensures o < |s.curr| && Sized(Refresh(s, m))
    ensures Inherits(Refresh(s, m), o) <==>
      || s.curr[o] == s.init[o]
      || s.curr[o] == Head(s.curr, s.waiters[m])
      || exists k :: 0 <= k < |s.mutex| && k != m && Owns(s, o, k) && s.curr[o] == s.mprio[k]
  {
    RefreshSafe(s, m);
    var r := Refresh(s, m);
    assert MutexShape(s, m) && Bounded(r, o);
    assert Owns(r, o, m);
    forall k ensures Owns(r, o, k) == Owns(s, o, k) {}
  }

  /** A late clean-up restores the equations if and only if it recognises the boost it lent. Any number
    * of other clean-ups may be outstanding, on this mutex and on others. */
  lemma CleanUpExactIff(s: Sys, t: nat, m: nat, stale: set<nat>, left: set<nat>)
    requires ExactUpTo(s, stale) && Safe(s) && t < |s.thread| && m < |s.mutex| && stale - {m} <= left
    ensures ExactUpTo(CleanUp(s, t, m), left) <==> Recognised(s, t, m)
  {
    RefreshSafe(s, m);
    RefreshExact(s, m, stale);
    var r := Refresh(s, m);
    assert MutexShape(s, m);
    if s.mutex[m].owner.Some? {
      var o := s.mutex[m].owner.value;
      RefreshedOwner(s, m, o);
      InheritsIffNeed(r, o);
      if s.curr[o] == s.curr[t] && Need(r, o) != r.curr[o] {
        CleanUpWalks(s, t, m, stale);
        MoreStale(CleanUp(s, t, m), stale - {m}, left);
      } else if Inherits(r, o) {
        MoreStale(r, stale - {m}, left);
      }
    } else {
      MoreStale(r, stale - {m}, left);
    }
  }

  lemma CleanUpWalks(s: Sys, t: nat, m: nat, stale: set<nat>)
    requires ExactUpTo(s, stale) && Safe(s) && t < |s.thread| && m < |s.mutex| && s.mutex[m].owner.Some?
    requires var o := s.mutex[m].owner.value;
      && o < |s.curr| && s.curr[o] == s.curr[t]
      && Sized(Refresh(s, m)) && Need(Refresh(s, m), o) != s.curr[o]
    ensures ExactUpTo(CleanUp(s, t, m), stale - {m})
  {
    hide Walk, ExactUpTo, AlmostExact, AlmostSafe, Bounded, Queued, Current, TakenMin;
    RefreshSafe(s, m);
    RefreshExact(s, m, stale);
    var r := Refresh(s, m);
    var o := s.mutex[m].owner.value;
    assert ThreadShape(r, o);
    NeedInherits(r, o);
    FallBackSettles(r, o);
    SettleExact(r, o, Need(r, o), stale - {m});
    WalkExact(SetPriority(r, o, Need(r, o)), o, r.curr[o], stale - {m});
  }

  // The equation of a thread has one solution, the one the loop over its taken list computes.
  lemma InheritsIffNeed(s: Sys, t: nat)
    requires Shape(s) && t < |s.curr|
    ensures Inherits(s, t) <==> s.curr[t] == Need(s, t)
  {
    assert ThreadShape(s, t);
    NeedInherits(s, t);
    if s.curr[t] == Need(s, t) {
      if s.curr[t] != s.init[t] {
        var m :| 0 <= m < |s.mutex| && Owns(s, t, m) && Need(s, t) == s.mprio[m];
      }
    }
  }

  lemma ResumeKeeps(s: Sys, t: nat)
    requires Safe(s) && CanResume(s, t)
    ensures Safe(Resume(s, t).0)
  {
    assert ThreadShape(s, t);
    if !s.thread[t].failed {
      ThreadEdit(s, t, s.thread[t].(waitingIn := None));
    } else {
      var m := s.thread[t].waitingIn.value;
      CleanUpSafe(s, t, m);
      var r := CleanUp(s, t, m);
      assert ThreadShape(r, t);
      ThreadEdit(r, t, r.thread[t].(pending := None, waitingIn := None));
    }
  }

  lemma ResumeOkKeepsExact(s: Sys, t: nat, stale: set<nat> := {})
    requires ExactUpTo(s, stale) && Safe(s) && CanResume(s, t) && !s.thread[t].failed
    ensures ExactUpTo(Resume(s, t).0, stale)
  {
    assert ThreadShape(s, t);
    ThreadEdit(s, t, s.thread[t].(waitingIn := None), stale);
  }

  // Clearing the control fields of the thread after its clean-up changes no equation.
  lemma ResumeFailedIff(s: Sys, t: nat, stale: set<nat>, left: set<nat>)
    requires ExactUpTo(s, stale) && Safe(s) && CanResume(s, t) && s.thread[t].failed
    ensures s.thread[t].waitingIn.value < |s.mutex|
    ensures stale - {s.thread[t].waitingIn.value} <= left ==>
      (ExactUpTo(Resume(s, t).0, left) <==> Recognised(s, t, s.thread[t].waitingIn.value))
  {
    assert ThreadShape(s, t);
    var m := s.thread[t].waitingIn.value;
    if stale - {m} <= left {
      CleanUpExactIff(s, t, m, stale, left);
      CleanUpSafe(s, t, m);
      var r := CleanUp(s, t, m);
      assert ThreadShape(r, t);
      var u := SetThread(r, t, r.thread[t].(pending := None, waitingIn := None));
      ThreadEdit(r, t, r.thread[t].(pending := None, waitingIn := None), left);
      if ExactUpTo(u, left) { SameButThread(r, t, u.thread[t], left); }
    }
  }

  // The equations do not look at control fields.
  lemma SameButThread(r: Sys, t: nat, th: Thread, stale: set<nat>)
    requires Shape(r) && t < |r.thread| && ExactUpTo(SetThread(r, t, th), stale)
    ensures ExactUpTo(r, stale)
  {
    var u := SetThread(r, t, th);
    forall x | 0 <= x < |r.curr| ensures Inherits(r, x) {
      assert Inherits(u, x);
      forall k ensures Owns(r, x, k) == Owns(u, x, k) {}
    }
    forall k | 0 <= k < |r.mutex| ensures Queued(r, k) && Current(r, k, stale) {
      assert Queued(u, k) && Current(u, k, stale);
    }
  }

  // A waiter that cleans up right after its timeout recognises its boost, unless an earlier timeout on
  // the same mutex is still outstanding.
  lemma PromptIsRecognised(s: Sys, t: nat, stale: set<nat>)
    requires ExactUpTo(s, stale) && Safe(s) && CanTimeOut(s, t) && s.thread[t].pending.value !in stale
    ensures s.thread[t].pending.value < |s.mutex| && Sized(TimerFires(s, t))
    ensures Recognised(TimerFires(s, t), t, s.thread[t].pending.value)
  {
    TimerKeeps(s, t);
    assert ThreadShape(s, t);
    var f := TimerFires(s, t);
    var m := s.thread[t].pending.value;
    assert MutexShape(s, m) && WaitsFor(s, t, m) && Current(s, m, stale) && Queued(s, m);
    var o := s.mutex[m].owner.value;
    HeadSplit(s.curr, s.waiters[m], t);
    assert Inherits(s, o);
    if s.curr[o] != s.init[o] {
      var k :| 0 <= k < |s.mutex| && Owns(s, o, k) && s.curr[o] == s.mprio[k];
      assert Owns(f, o, k);
    }
  }
}
