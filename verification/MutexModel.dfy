/** The mutex half of the kernel as a state of plain values: threads, mutexes, and what one
    lock/unlock region of take, release, timeout and clean-up does to them.

    Threads and mutexes are named by their indices.  Priority ceilings are unset. */
module MutexModel {
  import opened Basics
  import opened WaitList

  // RT_THREAD_PRIORITY_MAX and RT_MUTEX_HOLD_MAX
  const PRIORITY_MAX: nat := 32
  const HOLD_MAX: nat := 255

  /** The control fields of a thread.
      `waitingIn` is the mutex of a blocked take whose second half has not run yet;
      `failed` says that `thread->error` is not RT_EOK. */
  datatype Thread = Thread(
    suspended: bool,
    pending: Option<nat>,
    taken: seq<nat>,
    waitingIn: Option<nat>,
    failed: bool)

  datatype Mutex = Mutex(owner: Option<nat>, hold: nat)

  datatype Sys = Sys(
    init: seq<nat>,         // initial priority of every thread
    curr: seq<nat>,         // current priority of every thread
    thread: seq<Thread>,
    mutex: seq<Mutex>,
    mprio: seq<nat>,        // the `priority` field of every mutex
    waiters: seq<seq<nat>>) // its suspend list

  datatype Outcome = Done | Full | TimedOut | NotOwner | Blocked

  /* ---------- shape: who owns, who waits ---------- */

  ghost predicate Sized(s: Sys) {
    && |s.curr| == |s.init| && |s.thread| == |s.init|
    && |s.mprio| == |s.mutex| && |s.waiters| == |s.mutex|
    && (forall t :: 0 <= t < |s.init| ==> s.init[t] < PRIORITY_MAX)
    && (forall t :: 0 <= t < |s.curr| ==> s.curr[t] < PRIORITY_MAX)
    && (forall m :: 0 <= m < |s.mprio| ==> s.mprio[m] <= NO_PRIORITY)
    && (forall m :: 0 <= m < |s.waiters| ==> InRange(s.waiters[m], |s.init|))
    && (forall t :: 0 <= t < |s.thread| ==> InRange(s.thread[t].taken, |s.mutex|))
  }

  predicate Owns(s: Sys, t: nat, m: nat) {
    m < |s.mutex| && s.mutex[m].owner == Some(t)
  }

  predicate WaitsFor(s: Sys, t: nat, m: nat) {
    t < |s.thread| && s.thread[t].suspended && s.thread[t].pending == Some(m)
  }

  ghost predicate MutexShape(s: Sys, m: nat)
    requires Sized(s) && m < |s.mutex|
  {
    && (s.mutex[m].hold == 0 <==> s.mutex[m].owner == None)
    && s.mutex[m].hold <= HOLD_MAX
    && (s.mutex[m].owner.Some? ==> s.mutex[m].owner.value < |s.thread|)
    && NoDup(s.waiters[m])
    && (forall t {:trigger t in s.waiters[m]} {:trigger WaitsFor(s, t, m)} :: t in s.waiters[m] <==> WaitsFor(s, t, m))
    && (s.waiters[m] != [] ==> s.mutex[m].owner.Some?)
    && (s.mutex[m].owner.Some? ==> s.mutex[m].owner.value !in s.waiters[m])
  }

  ghost predicate ThreadShape(s: Sys, t: nat)
    requires Sized(s) && t < |s.thread|
  {
    var th := s.thread[t];
    && NoDup(th.taken)
    && (forall m {:trigger m in th.taken} {:trigger Owns(s, t, m)} :: m in th.taken <==> Owns(s, t, m))
    && (th.pending.Some? ==> th.pending.value < |s.mutex|)
    && match th.waitingIn
       case None => th.pending == None
       case Some(m) =>
         && m < |s.mutex|
         && (th.suspended ==> th.pending == Some(m) && !th.failed)
         && (!th.suspended && !th.failed ==> th.pending == None && Owns(s, t, m))
         && (!th.suspended && th.failed ==> th.pending == Some(m) && !Owns(s, t, m))
  }

  ghost predicate Shape(s: Sys) {
    && Sized(s)
    && (forall m :: 0 <= m < |s.mutex| ==> MutexShape(s, m))
    && (forall t :: 0 <= t < |s.thread| ==> ThreadShape(s, t))
  }

  /* ---------- the inheritance equations ---------- */

  ghost predicate Bounded(s: Sys, t: nat)
    requires Sized(s) && t < |s.curr|
  {
    s.curr[t] <= s.init[t] && forall m :: 0 <= m < |s.mutex| && Owns(s, t, m) ==> s.curr[t] <= s.mprio[m]
  }

  // The current priority is the minimum of the initial one and of those of all owned mutexes.
  ghost predicate Inherits(s: Sys, t: nat)
    requires Sized(s) && t < |s.curr|
  {
    && Bounded(s, t)
    && (s.curr[t] == s.init[t] || exists m :: 0 <= m < |s.mutex| && Owns(s, t, m) && s.curr[t] == s.mprio[m])
  }

  ghost predicate Queued(s: Sys, m: nat)
    requires Sized(s) && m < |s.mutex|
  {
    Sorted(s.curr, s.waiters[m])
  }

  // A mutex carries the priority of its first waiter; a stale one may carry a more urgent one.
  ghost predicate Current(s: Sys, m: nat, stale: set<nat>)
    requires Sized(s) && m < |s.mutex|
  {
    s.mprio[m] <= Head(s.curr, s.waiters[m]) && (m !in stale ==> s.mprio[m] == Head(s.curr, s.waiters[m]))
  }

  // Exact inheritance, but for mutexes that still carry the claim of a waiter that gave up.
  ghost predicate ExactUpTo(s: Sys, stale: set<nat>) {
    && Shape(s)
    && (forall t :: 0 <= t < |s.curr| ==> Inherits(s, t))
    && (forall m :: 0 <= m < |s.mutex| ==> Queued(s, m) && Current(s, m, stale))
  }

  // Exact inheritance.
  ghost predicate Exact(s: Sys) {
    ExactUpTo(s, {})
  }

  // Nobody is less urgent than it has to be.
  ghost predicate Safe(s: Sys) {
    && Shape(s)
    && (forall t :: 0 <= t < |s.curr| ==> Bounded(s, t))
    && (forall m :: 0 <= m < |s.mutex| ==> Queued(s, m) && s.mprio[m] <= Head(s.curr, s.waiters[m]))
  }

  lemma ExactIsSafe(s: Sys, stale: set<nat> := {})
    requires ExactUpTo(s, stale)
    ensures Safe(s)
  {
    forall t | 0 <= t < |s.curr| ensures Bounded(s, t) {
      assert Inherits(s, t);
    }
    forall m | 0 <= m < |s.mutex| ensures Queued(s, m) && s.mprio[m] <= Head(s.curr, s.waiters[m]) {
      assert Current(s, m, stale);
    }
  }

  lemma MoreStale(s: Sys, stale: set<nat>, more: set<nat>)
    requires ExactUpTo(s, stale) && stale <= more
    ensures ExactUpTo(s, more)
  {
    forall m | 0 <= m < |s.mutex| ensures Queued(s, m) && Current(s, m, more) {
      assert Current(s, m, stale);
    }
  }

  /* ---------- priority of a thread from its taken list ---------- */

  // The loop over the taken list, from the running minimum `p`.
  function TakenMin(p: nat, taken: seq<nat>, mprio: seq<nat>): (r: nat)
    requires InRange(taken, |mprio|)
    ensures r <= p && forall i :: 0 <= i < |taken| ==> r <= mprio[taken[i]]
    ensures r == p || exists i :: 0 <= i < |taken| && r == mprio[taken[i]]
  {
    if taken == [] then p else
      assert forall i :: 1 <= i < |taken| ==> taken[i] == taken[1..][i - 1];
      TakenMin(if p > mprio[taken[0]] then mprio[taken[0]] else p, taken[1..], mprio)
  }

  lemma TakenMinStep(p: nat, taken: seq<nat>, mprio: seq<nat>, i: nat)
    requires InRange(taken, |mprio|) && i < |taken|
    ensures InRange(taken[i..], |mprio|) && InRange(taken[i + 1..], |mprio|)
    ensures TakenMin(p, taken[i..], mprio) ==
            TakenMin(if p > mprio[taken[i]] then mprio[taken[i]] else p, taken[i + 1..], mprio)
  {
    assert taken[i..][1..] == taken[i + 1..];
  }

  function Need(s: Sys, t: nat): (r: nat)
    requires Sized(s) && t < |s.init|
    ensures r < PRIORITY_MAX
  {
    TakenMin(s.init[t], s.thread[t].taken, s.mprio)
  }

  lemma NeedInherits(s: Sys, t: nat)
    requires Sized(s) && t < |s.thread| && ThreadShape(s, t)
    ensures Need(s, t) <= s.init[t]
    ensures forall m :: 0 <= m < |s.mutex| && Owns(s, t, m) ==> Need(s, t) <= s.mprio[m]
    ensures Need(s, t) == s.init[t] || exists m :: 0 <= m < |s.mutex| && Owns(s, t, m) && Need(s, t) == s.mprio[m]
  {
    var taken := s.thread[t].taken;
    forall m | 0 <= m < |s.mutex| && Owns(s, t, m)
      ensures Need(s, t) <= s.mprio[m]
    {
      assert m in taken;
    }
    if Need(s, t) != s.init[t] {
      var i :| 0 <= i < |taken| && Need(s, t) == s.mprio[taken[i]];
      assert taken[i] in taken;
    }
  }

  /* ---------- walking the owner chain ---------- */

  // Re-queues a suspended waiter on the mutex it waits for and refreshes the mutex's priority.
  function Requeue(s: Sys, t: nat, m: nat): (r: Sys)
    requires t < |s.curr| && m < |s.mprio| && m < |s.waiters|
    requires InRange(Remove(s.waiters[m], t), |s.curr|)
  {
    var ws := Enqueue(s.curr, Remove(s.waiters[m], t), t);
    s.(waiters := s.waiters[m := ws], mprio := s.mprio[m := Head(s.curr, ws)])
  }

  function SetPriority(s: Sys, t: nat, p: nat): Sys
    requires t < |s.curr|
  {
    s.(curr := s.curr[t := p])
  }

  // `t` was moved from priority `p0` to its current one; the list and the priority of the mutex it
  // waits for have not followed yet.
  ghost predicate Lagging(s: Sys, t: nat, p0: nat, m: nat)
    requires Sized(s) && t < |s.curr| && m < |s.mutex|
  {
    var rest := Remove(s.waiters[m], t);
    && InRange(rest, |s.curr|) && Sorted(s.curr, rest)
    && s.mprio[m] <= Min(p0, Head(s.curr, rest))
  }

  ghost predicate AlmostSafe(s: Sys, t: nat, p0: nat) {
    && Shape(s) && t < |s.curr| && p0 < PRIORITY_MAX && p0 != s.curr[t]
    && (forall x :: 0 <= x < |s.curr| ==> Bounded(s, x))
    && (forall m :: 0 <= m < |s.mutex| && !WaitsFor(s, t, m) ==> Queued(s, m) && s.mprio[m] <= Head(s.curr, s.waiters[m]))
    && (forall m :: 0 <= m < |s.mutex| && WaitsFor(s, t, m) ==> Lagging(s, t, p0, m))
  }

  lemma SafeSized(s: Sys)
    requires Safe(s)
    ensures Sized(s)
  {
  }

  lemma AlmostSafeSized(s: Sys, t: nat, p0: nat)
    requires AlmostSafe(s, t, p0)
    ensures Sized(s) && t < |s.curr| && p0 < PRIORITY_MAX
  {
  }

  // The same with equations: everything is exact, up to stale mutexes, but the one mutex `t` waits for.
  ghost predicate AlmostExact(s: Sys, t: nat, p0: nat, stale: set<nat>) {
    && Shape(s) && t < |s.curr| && p0 < PRIORITY_MAX && p0 != s.curr[t]
    && (forall x :: 0 <= x < |s.curr| ==> Inherits(s, x))
    && (forall m :: 0 <= m < |s.mutex| && !WaitsFor(s, t, m) ==> Queued(s, m) && Current(s, m, stale))
    && (forall m :: 0 <= m < |s.mutex| && WaitsFor(s, t, m) ==> Lagging(s, t, p0, m))
  }

  lemma {:induction false} SumBound(p: seq<nat>, b: nat)
    requires forall i :: 0 <= i < |p| ==> p[i] <= b
    ensures Sum(p) <= b * |p|
  {
    if p != [] {
      SumBound(p[1..], b);
      assert b * |p| == b + b * (|p| - 1);
    }
  }

  // How far the walk can still move: the sum of all priorities shrinks while it boosts and grows
  // while it de-boosts.
  ghost function Room(s: Sys, t: nat, p0: nat): (r: nat)
    requires Sized(s) && t < |s.curr|
  {
    SumBound(s.curr, PRIORITY_MAX);
    if s.curr[t] < p0 then Sum(s.curr) else PRIORITY_MAX * |s.curr| - Sum(s.curr)
  }
}
