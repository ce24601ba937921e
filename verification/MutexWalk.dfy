/** The walk along the owner chain (`_thread_update_priority`): it terminates, and it repairs the
    inheritance relation although it stops at the first owner that keeps its priority. */
module MutexWalk {
  import opened Basics
  import opened WaitList
  import opened MutexModel

  // Priorities and the order inside the lists may change; who owns and who waits may not.
  ghost predicate SameLinks(s: Sys, r: Sys)
    requires Sized(s)
  {
    && Sized(r) && r.init == s.init && r.thread == s.thread && r.mutex == s.mutex
    && (forall m :: 0 <= m < |s.waiters| ==> (NoDup(s.waiters[m]) ==> NoDup(r.waiters[m])))
    && (forall m, t {:trigger t in r.waiters[m]} :: 0 <= m < |s.waiters| ==> (t in r.waiters[m] <==> t in s.waiters[m]))
  }

  lemma ShapeKept(s: Sys, r: Sys)
    requires Shape(s) && SameLinks(s, r)
    ensures Shape(r)
  {
    forall m | 0 <= m < |r.mutex| ensures MutexShape(r, m) {
      assert MutexShape(s, m);
      forall t ensures t in r.waiters[m] <==> WaitsFor(r, t, m) {
        assert t in r.waiters[m] <==> t in s.waiters[m];
        assert WaitsFor(r, t, m) <==> WaitsFor(s, t, m);
      }
      if r.waiters[m] != [] {
        assert r.waiters[m][0] in r.waiters[m];
      }
    }
    forall t | 0 <= t < |r.thread| ensures ThreadShape(r, t) {
      assert ThreadShape(s, t);
      forall m ensures m in r.thread[t].taken <==> Owns(r, t, m) {
        assert Owns(r, t, m) <==> Owns(s, t, m);
      }
    }
  }

  lemma RequeueLinks(s: Sys, t: nat, m: nat)
    requires Shape(s) && t < |s.curr| && m < |s.mutex| && WaitsFor(s, t, m)
    ensures InRange(Remove(s.waiters[m], t), |s.curr|)
    ensures var r := Requeue(s, t, m); SameLinks(s, r) && Shape(r)
  {
    assert MutexShape(s, m);
    RemoveKeepsOrder(s.curr, s.waiters[m], t);
    EnqueueNoDup(s.curr, Remove(s.waiters[m], t), t);
    var r := Requeue(s, t, m);
    assert Sized(r);
    ShapeKept(s, r);
  }

  // The list is sorted again and its mutex carries the head's priority.
  lemma RequeueRestores(s: Sys, t: nat, p0: nat, m: nat)
    requires Shape(s) && t < |s.curr| && m < |s.mutex| && WaitsFor(s, t, m) && Lagging(s, t, p0, m)
    ensures InRange(Remove(s.waiters[m], t), |s.curr|)
    ensures var r := Requeue(s, t, m);
      && Shape(r) && Queued(r, m) && r.mprio[m] == Head(r.curr, r.waiters[m])
      && r.mprio[m] == Min(s.curr[t], Head(s.curr, Remove(s.waiters[m], t)))
  {
    RequeueLinks(s, t, m);
    EnqueueSorted(s.curr, Remove(s.waiters[m], t), t);
  }

  // A thread's own list is the only one that notices its change of priority.
  lemma PriorityChangeIsLocal(s: Sys, o: nat, p: nat, m: nat)
    requires Shape(s) && o < |s.curr| && p < PRIORITY_MAX && m < |s.mutex| && !WaitsFor(s, o, m)
    ensures var r := SetPriority(s, o, p);
      Sized(r) &&
      (Queued(r, m) <==> Queued(s, m)) && Head(r.curr, r.waiters[m]) == Head(s.curr, s.waiters[m])
  {
    assert MutexShape(s, m);
    SortedAgree(s.curr, SetPriority(s, o, p).curr, s.waiters[m]);
  }

  // Moving a queued thread leaves its list lagging by exactly that move.
  lemma PriorityChangeLags(s: Sys, o: nat, p: nat, m: nat)
    requires Shape(s) && o < |s.curr| && p < PRIORITY_MAX && m < |s.mutex| && WaitsFor(s, o, m)
    requires Queued(s, m) && s.mprio[m] <= Head(s.curr, s.waiters[m])
    ensures var r := SetPriority(s, o, p);
      Sized(r) && Lagging(r, o, s.curr[o], m)
  {
    assert MutexShape(s, m);
    var ws := s.waiters[m];
    HeadSplit(s.curr, ws, o);
    RemoveKeepsOrder(s.curr, ws, o);
    SortedAgree(s.curr, SetPriority(s, o, p).curr, Remove(ws, o));
  }

  lemma SetPriorityShape(s: Sys, o: nat, p: nat)
    requires Shape(s) && o < |s.curr| && p < PRIORITY_MAX
    ensures Shape(SetPriority(s, o, p))
  {
    var r := SetPriority(s, o, p);
    assert Sized(r);
    ShapeKept(s, r);
  }

  // If all lists are in order and `o` is the only thread out of bounds, setting it to what it
  // needs leaves at most the mutex `o` waits for behind.
  lemma SettleSafe(s: Sys, o: nat, p: nat)
    requires Shape(s) && o < |s.curr| && p < PRIORITY_MAX && p != s.curr[o]
    requires forall m :: 0 <= m < |s.mutex| ==> Queued(s, m) && s.mprio[m] <= Head(s.curr, s.waiters[m])
    requires forall x :: 0 <= x < |s.curr| && x != o ==> Bounded(s, x)
    requires p <= s.init[o] && forall m :: 0 <= m < |s.mutex| && Owns(s, o, m) ==> p <= s.mprio[m]
    ensures AlmostSafe(SetPriority(s, o, p), o, s.curr[o])
  {
    var r := SetPriority(s, o, p);
    SetPriorityShape(s, o, p);
    forall x | 0 <= x < |r.curr| ensures Bounded(r, x) {
      forall m | 0 <= m < |r.mutex| && Owns(r, x, m) ensures r.curr[x] <= r.mprio[m] {
        assert Owns(s, x, m);
        if x != o { assert Bounded(s, x); }
      }
      if x != o { assert Bounded(s, x); }
    }
    forall m | 0 <= m < |r.mutex| && !WaitsFor(r, o, m)
      ensures Queued(r, m) && r.mprio[m] <= Head(r.curr, r.waiters[m])
    {
      PriorityChangeIsLocal(s, o, p, m);
    }
    forall m | 0 <= m < |r.mutex| && WaitsFor(r, o, m) ensures Lagging(r, o, s.curr[o], m) {
      assert WaitsFor(s, o, m);
      PriorityChangeLags(s, o, p, m);
    }
  }

  lemma SettleExact(s: Sys, o: nat, p: nat, stale: set<nat>)
    requires Shape(s) && o < |s.curr| && p < PRIORITY_MAX && p != s.curr[o]
    requires forall m :: 0 <= m < |s.mutex| ==> Queued(s, m) && Current(s, m, stale)
    requires forall x :: 0 <= x < |s.curr| && x != o ==> Inherits(s, x)
    requires p <= s.init[o] && forall m :: 0 <= m < |s.mutex| && Owns(s, o, m) ==> p <= s.mprio[m]
    requires p == s.init[o] || exists m :: 0 <= m < |s.mutex| && Owns(s, o, m) && p == s.mprio[m]
    ensures AlmostExact(SetPriority(s, o, p), o, s.curr[o], stale)
  {
    var r := SetPriority(s, o, p);
    forall x | 0 <= x < |s.curr| && x != o ensures Bounded(s, x) { assert Inherits(s, x); }
    forall m | 0 <= m < |s.mutex| ensures s.mprio[m] <= Head(s.curr, s.waiters[m]) { assert Current(s, m, stale); }
    SettleSafe(s, o, p);
    forall x | 0 <= x < |r.curr| ensures Inherits(r, x) {
      assert Bounded(r, x);
      if x != o {
        assert Inherits(s, x);
        if s.curr[x] != s.init[x] {
          var m :| 0 <= m < |s.mutex| && Owns(s, x, m) && s.curr[x] == s.mprio[m];
          assert Owns(r, x, m);
        }
      } else if p != s.init[o] {
        var m :| 0 <= m < |s.mutex| && Owns(s, o, m) && p == s.mprio[m];
        assert Owns(r, o, m);
      }
    }
    forall m | 0 <= m < |r.mutex| && !WaitsFor(r, o, m) ensures Queued(r, m) && Current(r, m, stale) {
      PriorityChangeIsLocal(s, o, p, m);
      assert Current(s, m, stale);
    }
    forall m | 0 <= m < |r.mutex| && WaitsFor(r, o, m) ensures Lagging(r, o, s.curr[o], m) {
      assert WaitsFor(s, o, m);
      PriorityChangeLags(s, o, p, m);
    }
  }

  /* ---------- one turn of the loop ---------- */

  // Re-queueing puts the list in order and leaves only the owner of the mutex to be looked at.
  lemma RequeueSafe(s: Sys, t: nat, p0: nat, m: nat)
    requires AlmostSafe(s, t, p0) && m < |s.mutex| && WaitsFor(s, t, m)
    ensures InRange(Remove(s.waiters[m], t), |s.curr|)
    ensures var r := Requeue(s, t, m);
      && Shape(r) && |r.curr| == |s.curr|
      && (forall k :: 0 <= k < |r.mutex| ==> Queued(r, k) && r.mprio[k] <= Head(r.curr, r.waiters[k]))
      && (forall x :: 0 <= x < |r.curr| && (s.mutex[m].owner != Some(x) || p0 < s.curr[t]) ==> Bounded(r, x))
  {
    RequeueRestores(s, t, p0, m);
    var r := Requeue(s, t, m);
    forall k | 0 <= k < |r.mutex| ensures Queued(r, k) && r.mprio[k] <= Head(r.curr, r.waiters[k]) {
      if k != m {
        assert !WaitsFor(s, t, k);
        assert Queued(s, k);
      }
    }
    forall x | 0 <= x < |r.curr| && (s.mutex[m].owner != Some(x) || p0 < s.curr[t]) ensures Bounded(r, x) {
      assert Bounded(s, x);
      forall k | 0 <= k < |r.mutex| && Owns(r, x, k) ensures r.curr[x] <= r.mprio[k] {
        assert Owns(s, x, k);
      }
    }
  }

  // After re-queueing, only the owner of the mutex can be out of step.
  lemma TurnSafe(s: Sys, t: nat, p0: nat, m: nat)
    requires AlmostSafe(s, t, p0) && m < |s.mutex| && WaitsFor(s, t, m)
    ensures InRange(Remove(s.waiters[m], t), |s.curr|)
    ensures s.mutex[m].owner.Some? && s.mutex[m].owner.value < |s.curr| && s.mutex[m].owner.value != t
    ensures var r := Requeue(s, t, m); var o := s.mutex[m].owner.value;
      && Shape(r)
      && (forall k :: 0 <= k < |r.mutex| ==> Queued(r, k) && r.mprio[k] <= Head(r.curr, r.waiters[k]))
      && (forall x :: 0 <= x < |r.curr| && x != o ==> Bounded(r, x))
      && (p0 < s.curr[t] ==> Bounded(r, o))
      && (Need(r, o) == r.curr[o] ==> Safe(r))
      && (Need(r, o) != r.curr[o] ==> AlmostSafe(SetPriority(r, o, Need(r, o)), o, r.curr[o]))
  {
    assert MutexShape(s, m) && t in s.waiters[m];
    RequeueSafe(s, t, p0, m);
    var o := s.mutex[m].owner.value;
    var r := Requeue(s, t, m);
    assert ThreadShape(r, o);
    NeedInherits(r, o);
    if Need(r, o) == r.curr[o] {
      assert Bounded(r, o);
    } else {
      SettleSafe(r, o, Need(r, o));
    }
  }

  lemma AlmostExactIsAlmostSafe(s: Sys, t: nat, p0: nat, stale: set<nat>)
    requires AlmostExact(s, t, p0, stale)
    ensures AlmostSafe(s, t, p0)
  {
    forall x | 0 <= x < |s.curr| ensures Bounded(s, x) {
      assert Inherits(s, x);
    }
    forall m | 0 <= m < |s.mutex| && !WaitsFor(s, t, m)
      ensures Queued(s, m) && s.mprio[m] <= Head(s.curr, s.waiters[m])
    {
      assert Current(s, m, stale);
    }
  }

  // Re-queueing makes the mutex current, stale or not, and leaves only its owner to be looked at.
  lemma RequeueExact(s: Sys, t: nat, p0: nat, m: nat, stale: set<nat>)
    requires AlmostExact(s, t, p0, stale) && m < |s.mutex| && WaitsFor(s, t, m)
    ensures InRange(Remove(s.waiters[m], t), |s.curr|)
    ensures var r := Requeue(s, t, m);
      && Shape(r) && |r.curr| == |s.curr|
      && (forall k :: 0 <= k < |r.mutex| ==> Queued(r, k) && Current(r, k, stale))
      && (forall x :: 0 <= x < |r.curr| && s.mutex[m].owner != Some(x) ==> Inherits(r, x))
  {
    RequeueRestores(s, t, p0, m);
    var r := Requeue(s, t, m);
    forall k | 0 <= k < |r.mutex| ensures Queued(r, k) && Current(r, k, stale) {
      if k != m {
        assert !WaitsFor(s, t, k);
        assert Queued(s, k) && Current(s, k, stale);
      }
    }
    forall x | 0 <= x < |r.curr| && s.mutex[m].owner != Some(x) ensures Inherits(r, x) {
      assert Inherits(s, x);
      forall k ensures Owns(r, x, k) == Owns(s, x, k) {}
      if s.curr[x] != s.init[x] {
        var k :| 0 <= k < |s.mutex| && Owns(s, x, k) && s.curr[x] == s.mprio[k];
        assert Owns(r, x, k) && k != m;
      }
    }
  }

  // In the exact setting the owner moves the way the waiter moved.
  lemma TurnExact(s: Sys, t: nat, p0: nat, m: nat, stale: set<nat>)
    requires AlmostExact(s, t, p0, stale) && m < |s.mutex| && WaitsFor(s, t, m)
    ensures InRange(Remove(s.waiters[m], t), |s.curr|)
    ensures s.mutex[m].owner.Some? && s.mutex[m].owner.value < |s.curr|
    ensures var r := Requeue(s, t, m); var o := s.mutex[m].owner.value;
      && Shape(r)
      && (Need(r, o) == r.curr[o] ==> ExactUpTo(r, stale))
      && (Need(r, o) != r.curr[o] ==> AlmostExact(SetPriority(r, o, Need(r, o)), o, r.curr[o], stale))
  {
    RequeueExact(s, t, p0, m, stale);
    assert MutexShape(s, m) && t in s.waiters[m];
    var o := s.mutex[m].owner.value;
    var r := Requeue(s, t, m);
    assert ThreadShape(r, o);
    NeedInherits(r, o);
    if Need(r, o) == r.curr[o] {
      assert Bounded(r, o) && Inherits(r, o);
    } else {
      SettleExact(r, o, Need(r, o), stale);
    }
  }

  // A turn that passes the change on uses up room, or turns a boost into a de-boost once.
  lemma TurnUsesRoom(s: Sys, t: nat, p0: nat, m: nat)
    requires AlmostSafe(s, t, p0) && m < |s.mutex| && WaitsFor(s, t, m)
    requires InRange(Remove(s.waiters[m], t), |s.curr|)
    requires s.mutex[m].owner.Some? && s.mutex[m].owner.value < |s.curr|
    requires var r := Requeue(s, t, m); Sized(r) && Need(r, s.mutex[m].owner.value) != r.curr[s.mutex[m].owner.value]
    ensures var r := Requeue(s, t, m); var o := s.mutex[m].owner.value; var r' := SetPriority(r, o, Need(r, o));
      Sized(r') &&
      if s.curr[t] < p0
      then r.curr[o] < Need(r, o) || Room(r', o, r.curr[o]) < Room(s, t, p0)
      else r.curr[o] < Need(r, o) && Room(r', o, r.curr[o]) < Room(s, t, p0)
  {
    TurnSafe(s, t, p0, m);
    var r := Requeue(s, t, m);
    var o := s.mutex[m].owner.value;
    NeedInherits(r, o);
    if p0 < s.curr[t] {
      var need := Need(r, o);
      assert Bounded(r, o);
      assert r.curr[o] <= need by {
        if need != r.init[o] {
          var k :| 0 <= k < |r.mutex| && Owns(r, o, k) && need == r.mprio[k];
        }
      }
    }
    SumUpdate(r.curr, o, Need(r, o));
  }

  /* ---------- the loop ---------- */

  // The walk that follows a change of `t` from `p0` to its current priority.
  function Walk(s: Sys, t: nat, p0: nat): (r: Sys)
    requires AlmostSafe(s, t, p0)
    decreases s.curr[t] < p0, Room(s, t, p0)
  {
    if s.thread[t].suspended && s.thread[t].pending.Some? then
      var m := s.thread[t].pending.value;
      assert ThreadShape(s, t);
      TurnSafe(s, t, p0, m);
      var s1 := Requeue(s, t, m);
      var o := s.mutex[m].owner.value;
      var need := Need(s1, o);
      if need != s1.curr[o] then
        TurnUsesRoom(s, t, p0, m);
        Walk(SetPriority(s1, o, need), o, s1.curr[o])
      else s1
    else s
  }

  // One turn in full: what it leaves, and what is left to walk.
  lemma TurnInFull(s: Sys, t: nat, p0: nat, m: nat)
    requires AlmostSafe(s, t, p0) && m < |s.mutex| && WaitsFor(s, t, m)
    ensures NoDup(s.waiters[m]) && InRange(Remove(s.waiters[m], t), |s.curr|)
    ensures s.mutex[m].owner.Some? && s.mutex[m].owner.value < |s.curr|
    ensures var r := Requeue(s, t, m); var o := s.mutex[m].owner.value;
      Sized(r) && r.curr == s.curr && var need := Need(r, o);
      (need == r.curr[o] ==> Walk(s, t, p0) == r) &&
      (need != r.curr[o] ==>
        (&& Sized(SetPriority(r, o, need)) && AlmostSafe(SetPriority(r, o, need), o, r.curr[o])
         && Walk(s, t, p0) == Walk(SetPriority(r, o, need), o, r.curr[o])
         && if s.curr[t] < p0
            then r.curr[o] < need || Room(SetPriority(r, o, need), o, r.curr[o]) < Room(s, t, p0)
            else r.curr[o] < need && Room(SetPriority(r, o, need), o, r.curr[o]) < Room(s, t, p0)))
  {
    assert MutexShape(s, m);
    TurnSafe(s, t, p0, m);
    if Need(Requeue(s, t, m), s.mutex[m].owner.value) != s.curr[s.mutex[m].owner.value] {
      TurnUsesRoom(s, t, p0, m);
    }
  }

  // Nothing to walk behind a thread that waits for no mutex.
  lemma WalkStops(s: Sys, t: nat, p0: nat)
    requires AlmostSafe(s, t, p0) && !(s.thread[t].suspended && s.thread[t].pending.Some?)
    ensures Walk(s, t, p0) == s
  {
  }

  // The walk repairs the bounds, on boost and on de-boost, and touches no link.
  lemma {:induction false} WalkSafe(s: Sys, t: nat, p0: nat)
    requires AlmostSafe(s, t, p0)
    ensures Safe(Walk(s, t, p0)) && SameLinks(s, Walk(s, t, p0))
    decreases s.curr[t] < p0, Room(s, t, p0)
  {
    hide Walk, Lagging, TakenMin, Queued, Bounded;
    if s.thread[t].suspended && s.thread[t].pending.Some? {
      var m := s.thread[t].pending.value;
      assert ThreadShape(s, t);
      TurnSafe(s, t, p0, m);
      TurnInFull(s, t, p0, m);
      RequeueLinks(s, t, m);
      var s1 := Requeue(s, t, m);
      var o := s.mutex[m].owner.value;
      if Need(s1, o) != s1.curr[o] {
        TurnUsesRoom(s, t, p0, m);
        WalkSafe(SetPriority(s1, o, Need(s1, o)), o, s1.curr[o]);
      }
    } else {
      WalkStops(s, t, p0);
    }
  }

  // If the equations hold everywhere but at the thread just changed, they hold everywhere
  // after the walk; mutexes that were stale before may still be.
  lemma {:induction false} WalkExact(s: Sys, t: nat, p0: nat, stale: set<nat>)
    requires AlmostExact(s, t, p0, stale)
    ensures AlmostSafe(s, t, p0) && ExactUpTo(Walk(s, t, p0), stale)
    decreases s.curr[t] < p0, Room(s, t, p0)
  {
    AlmostExactIsAlmostSafe(s, t, p0, stale);
    if s.thread[t].suspended && s.thread[t].pending.Some? {
      var m := s.thread[t].pending.value;
      assert ThreadShape(s, t);
      TurnSafe(s, t, p0, m);
      TurnExact(s, t, p0, m, stale);
      var s1 := Requeue(s, t, m);
      var o := s.mutex[m].owner.value;
      if Need(s1, o) != s1.curr[o] {
        TurnUsesRoom(s, t, p0, m);
        WalkExact(SetPriority(s1, o, Need(s1, o)), o, s1.curr[o], stale);
      }
    }
  }
}
