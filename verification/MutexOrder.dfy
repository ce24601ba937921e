/** First come, first served among threads of one priority, through every boost and de-boost: nobody gets in
    front of a thread of its own priority that waited there before. */
module MutexOrder {
  import opened Basics
  import opened WaitList
  import Order = WaitOrder
  import opened MutexModel
  import opened MutexWalk
  import opened MutexSteps
  import opened MutexKeeps
  import opened MutexRuns
  import opened MutexChains

  ghost predicate Before(ws: seq<nat>, u: nat, v: nat) {
    exists i, j :: 0 <= i < j < |ws| && ws[i] == u && ws[j] == v
  }

  lemma BeforeAt(ws: seq<nat>, i: nat, j: nat)
    requires i < j < |ws|
    ensures Before(ws, ws[i], ws[j])
  {
  }

  lemma CutBefore(ws: seq<nat>, k: nat, u: nat, v: nat)
    requires NoDup(ws) && k < |ws|
    ensures Before(ws[..k] + ws[k + 1..], u, v) <==> Before(ws, u, v) && u != ws[k] && v != ws[k]
  {
    hide NoDup;
    if Before(ws[..k] + ws[k + 1..], u, v) {
      CutHad(ws, k, u, v);
    }
    if Before(ws, u, v) && u != ws[k] && v != ws[k] {
      CutHas(ws, k, u, v);
    }
  }

  lemma CutHad(ws: seq<nat>, k: nat, u: nat, v: nat)
    requires NoDup(ws) && k < |ws| && Before(ws[..k] + ws[k + 1..], u, v)
    ensures Before(ws, u, v) && u != ws[k] && v != ws[k]
  {
    var r := ws[..k] + ws[k + 1..];
    var i, j :| 0 <= i < j < |r| && r[i] == u && r[j] == v;
    BeforeAt(ws, if i < k then i else i + 1, if j < k then j else j + 1);
  }

  lemma CutHas(ws: seq<nat>, k: nat, u: nat, v: nat)
    requires k < |ws| && Before(ws, u, v) && u != ws[k] && v != ws[k]
    ensures Before(ws[..k] + ws[k + 1..], u, v)
  {
    var i, j :| 0 <= i < j < |ws| && ws[i] == u && ws[j] == v;
    BeforeAt(ws[..k] + ws[k + 1..], if i < k then i else i - 1, if j < k then j else j - 1);
  }

  lemma RemoveBefore(ws: seq<nat>, t: nat, u: nat, v: nat)
    requires NoDup(ws)
    ensures Before(Remove(ws, t), u, v) <==> Before(ws, u, v) && u != t && v != t
  {
    if t in ws {
      var k :| 0 <= k < |ws| && ws[k] == t;
      RemoveAt(ws, k);
      CutBefore(ws, k, u, v);
    }
  }

  // A newcomer gets in front of strictly less urgent threads only, and moves nobody else.
  lemma EnqueueBefore(prio: seq<nat>, ws: seq<nat>, t: nat, u: nat, v: nat)
    requires Order.Ranked(prio, ws) && t < |prio| && t !in ws && v != t
    ensures Before(Enqueue(prio, ws, t), u, v) ==>
              if u == t then v < |prio| && prio[t] < prio[v] else Before(ws, u, v)
  {
    hide Order.Ranked, Enqueue, Before;
    var k := Order.PlaceFor(prio, ws, t);
    RankedParts(prio, ws);
    EnqueuePlace(prio, ws, t, k);
    EnqueueNoDup(prio, ws, t);
    var r := Enqueue(prio, ws, t);
    if Before(r, u, v) && u == t {
      BehindNewcomer(prio, ws, t, k, v);
    } else if Before(r, u, v) {
      CutBefore(r, k, u, v);
      assert r[..k] + r[k + 1..] == ws;
    }
  }

  lemma RankedParts(prio: seq<nat>, ws: seq<nat>)
    requires Order.Ranked(prio, ws)
    ensures InRange(ws, |prio|) && NoDup(ws) && Sorted(prio, ws)
  {
  }

  lemma OthersListed(ws: seq<nat>, t: nat, k: nat, n: nat)
    requires k <= |ws| && n <= |ws| && n != k
    ensures (ws[..k] + [t] + ws[k..])[n] == ws[if n < k then n else n - 1]
  {
  }

  lemma BehindNewcomer(prio: seq<nat>, ws: seq<nat>, t: nat, k: nat, v: nat)
    requires InRange(ws, |prio|) && t < |prio| && t !in ws && k <= |ws|
    requires forall i :: 0 <= i < |ws| ==> (i < k <==> prio[ws[i]] <= prio[t])
    requires Before(ws[..k] + [t] + ws[k..], t, v)
    ensures v < |prio| && prio[t] < prio[v]
  {
    var r := ws[..k] + [t] + ws[k..];
    var i, j :| 0 <= i < j < |r| && r[i] == t && r[j] == v;
    forall n | 0 <= n < |r| && n != k ensures r[n] in ws {
      OthersListed(ws, t, k, n);
    }
    assert i == k;
    OthersListed(ws, t, k, j);
  }

  // Moving one thread of a list to where its new priority belongs.
  lemma RequeueBefore(s: Sys, t: nat, m: nat, u: nat, v: nat)
    requires Shape(s) && t < |s.curr| && m < |s.mutex| && WaitsFor(s, t, m) && v != t
    requires InRange(Remove(s.waiters[m], t), |s.curr|) && Sorted(s.curr, Remove(s.waiters[m], t))
    ensures Before(Requeue(s, t, m).waiters[m], u, v) ==>
              if u == t then v < |s.curr| && s.curr[t] < s.curr[v] else Before(s.waiters[m], u, v)
  {
    assert MutexShape(s, m);
    RemoveKeepsOrder(s.curr, s.waiters[m], t);
    EnqueueBefore(s.curr, Remove(s.waiters[m], t), t, u, v);
    RemoveBefore(s.waiters[m], t, u, v);
  }

  // A walk from `t` comes by `x`.
  ghost predicate OnChain(s: Sys, t: nat, x: nat) {
    exists path :: Chain(s, path) && path[0] == t && path[|path| - 1] == x
  }

  lemma ChainStarts(s: Sys, t: nat)
    requires t < |s.thread|
    ensures OnChain(s, t, t)
  {
    assert Chain(s, [t]) && [t][0] == t;
  }

  lemma ChainGoesOn(s: Sys, r: Sys, t: nat, o: nat, x: nat)
    requires r.thread == s.thread && r.mutex == s.mutex && t < |s.thread| && BlockedBehind(s, t, o)
    ensures OnChain(r, o, x) ==> OnChain(s, t, x)
  {
    if OnChain(r, o, x) {
      var path :| Chain(r, path) && path[0] == o && path[|path| - 1] == x;
      var more := [t] + path;
      forall i | 0 <= i < |more| - 1 ensures BlockedBehind(s, more[i], more[i + 1]) {
        if i > 0 {
          assert BlockedBehind(r, path[i - 1], path[i]);
          var m :| 0 <= m < |r.mutex| && WaitsFor(r, path[i - 1], m) && Owns(r, path[i], m);
          assert WaitsFor(s, path[i - 1], m) && Owns(s, path[i], m);
        }
      }
      assert Chain(s, more) && more[0] == t && more[|more| - 1] == x;
    }
  }

  // Between two states: whoever stands in front of an equal that the walk from `t` does not come by, stood there
  // before and kept its priority.
  ghost predicate InTurn(s: Sys, r: Sys, t: nat) {
    && |r.waiters| == |s.waiters| && |r.curr| == |s.curr|
    && forall m: nat, u: nat, v: nat {:trigger Before(r.waiters[m], u, v)} ::
         m < |s.waiters| && u < |s.curr| && v < |s.curr| && !OnChain(s, t, v)
         && Before(r.waiters[m], u, v) && r.curr[u] == r.curr[v]
         ==> Before(s.waiters[m], u, v) && s.curr[u] == r.curr[u] == s.curr[v] && u != t && v != t
  }

  // Off the chain no priority changes.
  ghost predicate ChainOnly(s: Sys, r: Sys, t: nat) {
    |r.curr| == |s.curr| && forall x: nat :: x < |s.curr| && !OnChain(s, t, x) ==> r.curr[x] == s.curr[x]
  }

  /** The walk from a thread changes no priority off the chain of owners behind it. */
  lemma {:induction false} WalkChainOnly(s: Sys, t: nat, p0: nat)
    requires AlmostSafe(s, t, p0)
    ensures ChainOnly(s, Walk(s, t, p0), t)
    decreases s.curr[t] < p0, Room(s, t, p0)
  {
    hide Walk, Lagging, TakenMin, Queued, Bounded, OnChain;
    if s.thread[t].suspended && s.thread[t].pending.Some? {
      var m := s.thread[t].pending.value;
      assert ThreadShape(s, t);
      TurnInFull(s, t, p0, m);
      var s1 := Requeue(s, t, m);
      var o := s.mutex[m].owner.value;
      assert WaitsFor(s, t, m) && Owns(s, o, m);
      assert BlockedBehind(s, t, o);
      if Need(s1, o) != s1.curr[o] {
        var s2 := SetPriority(s1, o, Need(s1, o));
        WalkChainOnly(s2, o, s1.curr[o]);
        ChainStarts(s2, o);
        forall x: nat | x < |s.curr| && !OnChain(s, t, x) ensures !OnChain(s2, o, x) {
          ChainGoesOn(s, s2, t, o, x);
        }
      }
    } else {
      WalkStops(s, t, p0);
    }
  }

  lemma NotWaiting(s: Sys, t: nat, m: nat, v: nat)
    requires Shape(s) && t < |s.thread| && m < |s.mutex| && !WaitsFor(s, t, m)
    ensures !Before(s.waiters[m], t, v)
  {
    assert MutexShape(s, m);
  }

  lemma WalkInTurnAt(s: Sys, t: nat, p0: nat, r: Sys, m: nat, u: nat, v: nat)
    requires AlmostSafe(s, t, p0) && r == Walk(s, t, p0)
    requires m < |s.waiters| == |r.waiters| && u < |s.curr| && v < |s.curr| == |r.curr|
    requires !OnChain(s, t, v) && Before(r.waiters[m], u, v) && r.curr[u] == r.curr[v]
    ensures Before(s.waiters[m], u, v) && s.curr[u] == r.curr[u] == s.curr[v] && u != t && v != t
    decreases s.curr[t] < p0, Room(s, t, p0), 0
  {
    hide Walk, TakenMin, Queued, Bounded, OnChain, Before, Requeue;
    ChainStarts(s, t);
    AlmostSafeSized(s, t, p0);
    if s.thread[t].suspended && s.thread[t].pending.Some? {
      var k := s.thread[t].pending.value;
      assert ThreadShape(s, t);
      assert Lagging(s, t, p0, k) by { assert WaitsFor(s, t, k); }
      TurnInFull(s, t, p0, k);
      var s1 := Requeue(s, t, k);
      var o := s.mutex[k].owner.value;
      assert BlockedBehind(s, t, o) by { assert WaitsFor(s, t, k) && Owns(s, o, k); }
      WalkChainOnly(s, t, p0);
      assert r.curr[v] == s.curr[v];
      RequeueFrame(s, t, k);
      if Need(s1, o) != s1.curr[o] {
        var s2 := SetPriority(s1, o, Need(s1, o));
        ChainGoesOn(s, s2, t, o, v);
        WalkInTurnAt(s2, o, s1.curr[o], r, m, u, v);
      }
      assert Before(s1.waiters[m], u, v) && r.curr[u] == s.curr[u];
      if m == k {
        RequeueBefore(s, t, k, u, v);
      } else {
        NotWaiting(s, t, m, v);
      }
    } else {
      WalkStops(s, t, p0);
      NotWaiting(s, t, m, v);
    }
  }

  lemma RequeueFrame(s: Sys, t: nat, k: nat)
    requires Shape(s) && t < |s.curr| && k < |s.mutex| && InRange(Remove(s.waiters[k], t), |s.curr|)
    ensures var r := Requeue(s, t, k);
      && r.curr == s.curr && r.thread == s.thread && r.mutex == s.mutex && |r.waiters| == |s.waiters|
      && forall m :: 0 <= m < |s.waiters| && m != k ==> r.waiters[m] == s.waiters[m]
  {
  }

  /** The walk lets nobody overtake a thread of its own priority. */
  lemma WalkInTurn(s: Sys, t: nat, p0: nat)
    requires AlmostSafe(s, t, p0)
    ensures InTurn(s, Walk(s, t, p0), t)
  {
    hide Walk, AlmostSafe, OnChain, Before;
    var r := Walk(s, t, p0);
    AlmostSafeSized(s, t, p0);
    WalkSafe(s, t, p0);
    SafeSized(r);
    forall m: nat, u: nat, v: nat | m < |s.waiters| && u < |s.curr| && v < |s.curr| && !OnChain(s, t, v)
                                    && Before(r.waiters[m], u, v) && r.curr[u] == r.curr[v]
      ensures Before(s.waiters[m], u, v) && s.curr[u] == r.curr[u] == s.curr[v] && u != t && v != t
    {
      WalkInTurnAt(s, t, p0, r, m, u, v);
    }
  }

  /* ---------- the steps ---------- */

  // The owner a step re-evaluates: that of the mutex a take blocks on or gives up.
  function Looked(s: Sys, a: Step): Option<nat> {
    match a
    case DoTake(_, m, _) => if m < |s.mutex| then s.mutex[m].owner else None
    case DoResume(t) => OwnerAwaited(s, t)
    case DoGiveUp(t) => OwnerAwaited(s, t)
    case _ => None
  }

  function OwnerAwaited(s: Sys, t: nat): Option<nat> {
    if t < |s.thread| && s.thread[t].waitingIn.Some? && s.thread[t].waitingIn.value < |s.mutex|
    then s.mutex[s.thread[t].waitingIn.value].owner else None
  }

  // The walk of the step does not come by this thread.
  ghost predicate Untouched(r: Sys, looked: Option<nat>, v: nat) {
    looked.Some? ==> !OnChain(r, looked.value, v)
  }

  // Between the states around a step: whoever stands in front of an equal that was there before and that the walk
  // does not come by, stood in front of it before, with the same priority.
  ghost predicate NobodyOvertaken(s: Sys, r: Sys, looked: Option<nat>) {
    && |r.waiters| == |s.waiters| && |r.curr| == |s.curr|
    && forall m: nat, u: nat, v: nat {:trigger Before(r.waiters[m], u, v)} ::
         m < |s.waiters| && u < |s.curr| && v < |s.curr| && v in s.waiters[m] && Untouched(r, looked, v)
         && Before(r.waiters[m], u, v) && r.curr[u] == r.curr[v]
         ==> Before(s.waiters[m], u, v) && s.curr[u] == r.curr[u] == s.curr[v]
  }

  // Who owns and who waits is the same.
  ghost predicate SameBlocks(s: Sys, r: Sys) {
    && |r.thread| == |s.thread| && |r.mutex| == |s.mutex|
    && (forall t: nat, m: nat :: WaitsFor(r, t, m) <==> WaitsFor(s, t, m))
    && (forall t: nat, m: nat :: Owns(r, t, m) <==> Owns(s, t, m))
  }

  lemma SameBlocksSameChain(s: Sys, r: Sys, t: nat, x: nat)
    requires SameBlocks(s, r) && OnChain(s, t, x)
    ensures OnChain(r, t, x)
  {
    var path :| Chain(s, path) && path[0] == t && path[|path| - 1] == x;
    forall i | 0 <= i < |path| - 1 ensures BlockedBehind(r, path[i], path[i + 1]) {
      assert BlockedBehind(s, path[i], path[i + 1]);
      var m :| 0 <= m < |s.mutex| && WaitsFor(s, path[i], m) && Owns(s, path[i + 1], m);
      assert WaitsFor(r, path[i], m) && Owns(r, path[i + 1], m);
    }
    assert Chain(r, path);
  }

  // What a walk leaves, seen from its end.
  lemma WalkOvertakesNobody(s: Sys, o: nat, p: nat)
    requires Sized(s) && o < |s.curr| && AlmostSafe(SetPriority(s, o, p), o, s.curr[o])
    ensures NobodyOvertaken(s, UpdatePriority(s, o, p), Some(o))
  {
    hide AlmostSafe, Walk, OnChain, Before;
    var q := SetPriority(s, o, p);
    var r := UpdatePriority(s, o, p);
    WalkInTurn(q, o, s.curr[o]);
    WalkSafe(q, o, s.curr[o]);
    AlmostSafeSized(q, o, s.curr[o]);
    forall v: nat | OnChain(q, o, v) ensures OnChain(r, o, v) {
      SameBlocksSameChain(q, r, o, v);
    }
  }

  lemma BlockInTurn(s: Sys, t: nat, m: nat)
    requires CanBlock(s, t, m)
    ensures NobodyOvertaken(s, Block(s, t, m), s.mutex[m].owner)
  {
    hide Before, OnChain, AlmostSafe, UpdatePriority;
    LinkSettles(s, t, m);
    LinkLists(s, t, m);
    BlockKeeps(s, t, m);
    var q, r := Link(s, t, m), Block(s, t, m);
    var o := s.mutex[m].owner.value;
    LinkInTurn(s, t, m);
    if s.curr[t] < s.mprio[m] && s.curr[t] < s.curr[o] {
      WalkOvertakesNobody(q, o, s.curr[t]);
      InTurnTwice(s, q, r, Some(o));
    } else {
      assert NobodyOvertaken(s, r, Some(o));
    }
  }

  lemma LinkInTurn(s: Sys, t: nat, m: nat)
    requires CanBlock(s, t, m)
    ensures NobodyOvertaken(s, Link(s, t, m), None) && Arrived(s, Link(s, t, m))
  {
    hide Before, OnChain;
    var r := Link(s, t, m);
    assert MutexShape(s, m) && Queued(s, m);
    assert t !in s.waiters[m];
    forall k: nat, u: nat, v: nat | k < |s.waiters| && v in s.waiters[k] && Before(r.waiters[k], u, v) && u < |s.curr|
                                    && v < |s.curr| && r.curr[u] == r.curr[v]
      ensures Before(s.waiters[k], u, v)
    {
      if k == m {
        assert r.waiters[m] == Enqueue(s.curr, s.waiters[m], t);
        EnqueueBefore(s.curr, s.waiters[m], t, u, v);
      } else {
        assert r.waiters[k] == s.waiters[k];
      }
    }
  }

  // Nobody left a list.
  ghost predicate Arrived(s: Sys, r: Sys) {
    |r.waiters| == |s.waiters| && forall m, v :: 0 <= m < |s.waiters| && v in s.waiters[m] ==> v in r.waiters[m]
  }

  lemma InTurnTwice(s: Sys, q: Sys, r: Sys, looked: Option<nat>)
    requires NobodyOvertaken(s, q, None) && NobodyOvertaken(q, r, looked) && q.curr == s.curr
    requires Arrived(s, q)
    ensures NobodyOvertaken(s, r, looked)
  {
    hide Before, OnChain;
    forall m: nat, u: nat, v: nat | m < |s.waiters| && u < |s.curr| && v < |s.curr| && v in s.waiters[m]
                                    && Untouched(r, looked, v) && Before(r.waiters[m], u, v) && r.curr[u] == r.curr[v]
      ensures Before(s.waiters[m], u, v) && s.curr[u] == r.curr[u] == s.curr[v]
    {
      assert Before(q.waiters[m], u, v);
    }
  }

  lemma ReleaseLists(s: Sys, t: nat, m: nat)
    requires Safe(s) && CanRun(s, t) && m < |s.mutex|
    ensures var r := Release(s, t, m).0;
      && |r.waiters| == |s.waiters| == |s.mutex| && |r.curr| == |s.curr|
      && (forall x :: 0 <= x < |s.curr| && x != t ==> r.curr[x] == s.curr[x])
      && forall k :: 0 <= k < |s.waiters| ==>
           r.waiters[k] == s.waiters[k] || (s.waiters[k] != [] && r.waiters[k] == s.waiters[k][1..])
  {
    hide Bounded, Queued;
    assert MutexShape(s, m);
  }

  lemma ReleaseInTurn(s: Sys, t: nat, m: nat)
    requires Safe(s) && CanRun(s, t) && m < |s.mutex|
    ensures NobodyOvertaken(s, Release(s, t, m).0, None)
  {
    hide OnChain, Safe, Before, Release;
    var r := Release(s, t, m).0;
    ReleaseLists(s, t, m);
    forall k: nat, u: nat, v: nat | k < |s.waiters| && Before(r.waiters[k], u, v) && u < |s.curr| && v < |s.curr|
      ensures Before(s.waiters[k], u, v) && u != t && v != t
    {
      if r.waiters[k] != s.waiters[k] {
        SafeList(s, k);
        TailBefore(s.waiters[k], u, v);
      }
      RunnerWaitsNot(s, t, k, u, v);
    }
  }

  lemma SafeList(s: Sys, k: nat)
    requires Safe(s) && k < |s.mutex|
    ensures NoDup(s.waiters[k])
  {
    assert MutexShape(s, k);
  }

  lemma TailBefore(ws: seq<nat>, u: nat, v: nat)
    requires NoDup(ws) && ws != []
    ensures Before(ws[1..], u, v) ==> Before(ws, u, v)
  {
    CutBefore(ws, 0, u, v);
    assert ws[..0] + ws[1..] == ws[1..];
  }

  lemma RunnerWaitsNot(s: Sys, t: nat, k: nat, u: nat, v: nat)
    requires Safe(s) && CanRun(s, t) && k < |s.waiters|
    ensures Before(s.waiters[k], u, v) ==> u != t && v != t
  {
    NotWaiting(s, t, k, v);
    assert MutexShape(s, k);
  }

  lemma TimerInTurn(s: Sys, t: nat)
    requires Safe(s) && CanTimeOut(s, t)
    ensures NobodyOvertaken(s, TimerFires(s, t), None)
  {
    hide OnChain, Before;
    assert ThreadShape(s, t);
    var m := s.thread[t].pending.value;
    var r := TimerFires(s, t);
    assert MutexShape(s, m);
    forall k: nat, u: nat, v: nat | k < |s.waiters| && Before(r.waiters[k], u, v)
      ensures Before(s.waiters[k], u, v)
    {
      if k == m {
        RemoveBefore(s.waiters[m], t, u, v);
      } else {
        assert r.waiters[k] == s.waiters[k];
      }
    }
  }

  lemma CleanUpInTurn(s: Sys, t: nat, m: nat)
    requires Safe(s) && t < |s.thread| && m < |s.mutex|
    ensures NobodyOvertaken(s, CleanUp(s, t, m), s.mutex[m].owner)
  {
    hide Before, OnChain, AlmostSafe, UpdatePriority, Safe;
    CleanUpShape(s, m);
    RefreshSafe(s, m);
    var q, r := Refresh(s, m), CleanUp(s, t, m);
    if s.mutex[m].owner.Some? {
      var o := s.mutex[m].owner.value;
      if s.curr[o] == s.curr[t] && Need(q, o) != q.curr[o] {
        FallBackSettles(q, o);
        WalkOvertakesNobody(q, o, Need(q, o));
        assert q.waiters == s.waiters && q.curr == s.curr;
      }
    }
  }

  lemma CleanUpShape(s: Sys, m: nat)
    requires Safe(s) && m < |s.mutex|
    ensures Sized(s) && Sized(Refresh(s, m)) && (s.mutex[m].owner.Some? ==> s.mutex[m].owner.value < |s.curr|)
  {
    RefreshSafe(s, m);
    assert MutexShape(s, m);
  }

  lemma ResumeInTurn(s: Sys, t: nat)
    requires Safe(s) && CanResume(s, t)
    ensures NobodyOvertaken(s, Resume(s, t).0, OwnerAwaited(s, t))
  {
    hide Before, OnChain, CleanUp, Bounded, Queued;
    assert ThreadShape(s, t);
    var m := s.thread[t].waitingIn.value;
    if s.thread[t].failed {
      CleanUpInTurn(s, t, m);
      CleanUpSafe(s, t, m);
      var q, r := CleanUp(s, t, m), Resume(s, t).0;
      forall v: nat | Untouched(r, s.mutex[m].owner, v) ensures Untouched(q, s.mutex[m].owner, v) {
        if s.mutex[m].owner.Some? && OnChain(q, s.mutex[m].owner.value, v) {
          SameBlocksSameChain(q, r, s.mutex[m].owner.value, v);
        }
      }
    }
  }

  lemma GiveUpInTurn(s: Sys, t: nat)
    requires Safe(s) && CanTimeOut(s, t)
    ensures NobodyOvertaken(s, Next(s, DoGiveUp(t)), OwnerAwaited(s, t))
  {
    hide Before, OnChain, Resume, Bounded, Queued, NobodyOvertaken;
    TimerKeeps(s, t);
    TimerInTurn(s, t);
    var q := TimerFires(s, t);
    ResumeInTurn(q, t);
    StaysListed(s, t);
    TurnsCompose(s, q, Resume(q, t).0, OwnerAwaited(s, t));
  }

  // Who is still in line at the end was in line in between.
  lemma StaysListed(s: Sys, t: nat)
    requires Safe(s) && CanTimeOut(s, t)
    ensures Safe(TimerFires(s, t)) && CanResume(TimerFires(s, t), t)
    ensures var q := TimerFires(s, t); var r := Resume(q, t).0;
      && q.curr == s.curr && OwnerAwaited(q, t) == OwnerAwaited(s, t) && |r.waiters| == |q.waiters|
      && forall m, v :: 0 <= m < |q.waiters| && v in r.waiters[m] ==> v in q.waiters[m]
  {
    hide Bounded, Queued, CleanUp;
    TimerKeeps(s, t);
    assert ThreadShape(s, t);
    var q := TimerFires(s, t);
    CleanUpSafe(q, t, q.thread[t].waitingIn.value);
  }

  lemma TurnsCompose(s: Sys, q: Sys, r: Sys, looked: Option<nat>)
    requires NobodyOvertaken(s, q, None) && NobodyOvertaken(q, r, looked) && q.curr == s.curr
    requires forall m, v :: 0 <= m < |q.waiters| == |r.waiters| && v in r.waiters[m] ==> v in q.waiters[m]
    ensures NobodyOvertaken(s, r, looked)
  {
    hide OnChain;
    forall m: nat, u: nat, v: nat | m < |s.waiters| && u < |s.curr| && v < |s.curr| && v in s.waiters[m]
                                    && Untouched(r, looked, v) && Before(r.waiters[m], u, v) && r.curr[u] == r.curr[v]
      ensures Before(s.waiters[m], u, v) && s.curr[u] == r.curr[u] == s.curr[v]
    {
      assert v in r.waiters[m];
      assert Before(q.waiters[m], u, v);
    }
  }

  /** No step, with all its boosts and de-boosts, lets a thread get in front of one of its own priority that was
    * in line before, unless that one's own place was re-evaluated. */
  lemma NextInTurn(s: Sys, a: Step)
    requires Safe(s) && Enabled(s, a)
    ensures NobodyOvertaken(s, Next(s, a), Looked(s, a))
  {
    hide Before, OnChain, Release, Resume, Block, TimerFires, NobodyOvertaken;
    match a
    case DoTake(t, m, wait) => TakeInTurn(s, t, m, wait);
    case DoRelease(t, m) => ReleaseInTurn(s, t, m);
    case DoTimer(t) => TimerInTurn(s, t);
    case DoResume(t) => ResumeInTurn(s, t);
    case DoGiveUp(t) => GiveUpInTurn(s, t);
    case DoSleep(_) => SameLists(s, Next(s, a), None);
    case DoWake(_) => SameLists(s, Next(s, a), None);
  }

  lemma TakeInTurn(s: Sys, t: nat, m: nat, wait: bool)
    requires Safe(s) && CanRun(s, t) && m < |s.mutex|
    ensures NobodyOvertaken(s, Take(s, t, m, wait).0, s.mutex[m].owner)
  {
    hide Safe, Block, NobodyOvertaken;
    if s.mutex[m].owner.Some? && !Owns(s, t, m) && wait {
      BlockInTurn(s, t, m);
    } else {
      SameLists(s, Take(s, t, m, wait).0, s.mutex[m].owner);
    }
  }

  lemma SameLists(s: Sys, r: Sys, looked: Option<nat>)
    requires r.waiters == s.waiters && r.curr == s.curr
    ensures NobodyOvertaken(s, r, looked)
  {
    hide Before, OnChain;
  }
}
