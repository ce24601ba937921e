/** The mutex code of the kernel on objects that are updated in place.  Every method is proved to
    compute exactly the step of MutexSteps on the state it reads off the objects. */
module MutexKernel {
  import opened Basics
  import M = MutexModel
  import opened WaitList
  import opened MutexWalk
  import opened MutexSteps
  import opened MutexKeeps
  import opened MutexRuns

  class Thread {
    const id: nat
    const initPriority: nat
    var currentPriority: nat
    var suspended: bool
    var pendingObject: Mutex?
    var takenObjects: seq<Mutex>
    var waitingIn: Mutex?
    var failed: bool

    constructor (id: nat, priority: nat)
      ensures this.id == id && initPriority == currentPriority == priority
      ensures !suspended && !failed && pendingObject == null && waitingIn == null && takenObjects == []
    {
      this.id, initPriority, currentPriority := id, priority, priority;
      suspended, failed, pendingObject, waitingIn, takenObjects := false, false, null, null, [];
    }
  }

  class Mutex {
    const id: nat
    var owner: Thread?
    var hold: nat
    var priority: nat
    var waiters: seq<Thread>

    constructor (id: nat)
      ensures this.id == id && owner == null && hold == 0 && priority == NO_PRIORITY && waiters == []
    {
      this.id, owner, hold, priority, waiters := id, null, 0, NO_PRIORITY, [];
    }
  }

  function ThreadIds(ts: seq<Thread>): (r: seq<nat>)
    ensures |r| == |ts|
  {
    seq(|ts|, i requires 0 <= i < |ts| => ts[i].id)
  }

  lemma IdsInserted(ts: seq<Thread>, n: nat, t: Thread)
    requires n <= |ts|
    ensures ThreadIds(ts[..n] + [t] + ts[n..]) == ThreadIds(ts)[..n] + [t.id] + ThreadIds(ts)[n..]
  {
  }

  function MutexIds(ms: seq<Mutex>): (r: seq<nat>)
    ensures |r| == |ms|
  {
    seq(|ms|, i requires 0 <= i < |ms| => ms[i].id)
  }

  function MutexId(m: Mutex?): Option<nat> {
    if m == null then None else Some(m.id)
  }

  function ThreadId(t: Thread?): Option<nat> {
    if t == null then None else Some(t.id)
  }

  method NewThreads(priorities: seq<nat>) returns (ts: seq<Thread>)
    ensures fresh(ts) && |ts| == |priorities|
    ensures forall i :: 0 <= i < |ts| ==>
      (&& ts[i].id == i && ts[i].initPriority == ts[i].currentPriority == priorities[i]
       && !ts[i].suspended && !ts[i].failed && ts[i].pendingObject == null && ts[i].waitingIn == null && ts[i].takenObjects == [])
  {
    ts := [];
    while |ts| < |priorities|
      invariant |ts| <= |priorities| && fresh(ts)
      invariant forall i :: 0 <= i < |ts| ==>
        (&& ts[i].id == i && ts[i].initPriority == ts[i].currentPriority == priorities[i]
         && !ts[i].suspended && !ts[i].failed && ts[i].pendingObject == null && ts[i].waitingIn == null && ts[i].takenObjects == [])
    {
      var t := new Thread(|ts|, priorities[|ts|]);
      ts := ts + [t];
    }
  }

  method NewMutexes(count: nat) returns (ms: seq<Mutex>)
    ensures fresh(ms) && |ms| == count
    ensures forall i :: 0 <= i < |ms| ==>
      ms[i].id == i && ms[i].owner == null && ms[i].hold == 0 && ms[i].priority == NO_PRIORITY && ms[i].waiters == []
  {
    ms := [];
    while |ms| < count
      invariant |ms| <= count && fresh(ms)
      invariant forall i :: 0 <= i < |ms| ==>
        ms[i].id == i && ms[i].owner == null && ms[i].hold == 0 && ms[i].priority == NO_PRIORITY && ms[i].waiters == []
    {
      var m := new Mutex(|ms|);
      ms := ms + [m];
    }
  }

  class Kernel {
    const threads: seq<Thread>
    const mutexes: seq<Mutex>

    predicate Known(t: Thread) { t.id < |threads| && threads[t.id] == t }

    predicate KnownMutex(m: Mutex) { m.id < |mutexes| && mutexes[m.id] == m }

    // Objects are numbered by their place, and refer only to objects of this kernel.
    ghost predicate Wired()
      reads this, threads, mutexes
    {
      && (forall i :: 0 <= i < |threads| ==> threads[i].id == i)
      && (forall i :: 0 <= i < |mutexes| ==> mutexes[i].id == i)
      && (forall i :: 0 <= i < |threads| ==> LinkedThread(threads[i]))
      && (forall i :: 0 <= i < |mutexes| ==> LinkedMutex(mutexes[i]))
    }

    ghost predicate LinkedThread(t: Thread)
      reads t
    {
      && (t.pendingObject != null ==> KnownMutex(t.pendingObject))
      && (t.waitingIn != null ==> KnownMutex(t.waitingIn))
      && (forall j :: 0 <= j < |t.takenObjects| ==> KnownMutex(t.takenObjects[j]))
    }

    ghost predicate LinkedMutex(m: Mutex)
      reads m
    {
      && (m.owner != null ==> Known(m.owner))
      && (forall j :: 0 <= j < |m.waiters| ==> Known(m.waiters[j]))
    }

    ghost function ThreadView(t: Thread): M.Thread
      reads t
    {
      M.Thread(t.suspended, MutexId(t.pendingObject), MutexIds(t.takenObjects), MutexId(t.waitingIn), t.failed)
    }

    // The state of the model that the objects stand for.
    ghost function Abs(): M.Sys
      reads this, threads, mutexes
    {
      M.Sys(
        seq(|threads|, i requires 0 <= i < |threads| => threads[i].initPriority),
        seq(|threads|, i requires 0 <= i < |threads| reads threads => threads[i].currentPriority),
        seq(|threads|, i requires 0 <= i < |threads| reads threads => ThreadView(threads[i])),
        seq(|mutexes|, i requires 0 <= i < |mutexes| reads mutexes => M.Mutex(ThreadId(mutexes[i].owner), mutexes[i].hold)),
        seq(|mutexes|, i requires 0 <= i < |mutexes| reads mutexes => mutexes[i].priority),
        seq(|mutexes|, i requires 0 <= i < |mutexes| reads mutexes => ThreadIds(mutexes[i].waiters)))
    }

    // Only control fields of `t` were assigned.
    twostate lemma ThreadEdited(t: Thread)
      requires old(Wired()) && Known(t) && LinkedThread(t) && t.currentPriority == old(t.currentPriority)
      requires forall i :: 0 <= i < |threads| && threads[i] != t ==> unchanged(threads[i])
      requires forall i :: 0 <= i < |mutexes| ==> unchanged(mutexes[i])
      ensures Wired()
      ensures Abs() == old(Abs()).(thread := old(Abs()).thread[t.id := ThreadView(t)])
    {
    }

    // Only fields of `m` were assigned.
    twostate lemma MutexEdited(m: Mutex)
      requires old(Wired()) && KnownMutex(m) && LinkedMutex(m)
      requires forall i :: 0 <= i < |threads| ==> unchanged(threads[i])
      requires forall i :: 0 <= i < |mutexes| && mutexes[i] != m ==> unchanged(mutexes[i])
      ensures Wired()
      ensures Abs() == (var s := old(Abs()); s.(
        mutex := s.mutex[m.id := M.Mutex(ThreadId(m.owner), m.hold)],
        mprio := s.mprio[m.id := m.priority],
        waiters := s.waiters[m.id := ThreadIds(m.waiters)]))
    {
    }

    // Insertion by priority, behind everybody who is not less urgent.
    method ListEnqueue(list: seq<Thread>, t: Thread) returns (r: seq<Thread>)
      requires Wired() && Known(t) && forall j :: 0 <= j < |list| ==> Known(list[j])
      ensures forall j :: 0 <= j < |r| ==> Known(r[j])
      ensures InRange(ThreadIds(list), |Abs().curr|)
      ensures ThreadIds(r) == Enqueue(Abs().curr, ThreadIds(list), t.id)
    {
      var n := 0;
      while n < |list| && list[n].currentPriority <= t.currentPriority
        invariant 0 <= n <= |list|
        invariant forall j :: 0 <= j < n ==> list[j].currentPriority <= t.currentPriority
      {
        n := n + 1;
      }
      r := list[..n] + [t] + list[n..];
      EnqueuePlace(Abs().curr, ThreadIds(list), t.id, n);
      IdsInserted(list, n, t);
    }

    // Unlinking of a list node.
    method ListRemove(list: seq<Thread>, t: Thread) returns (r: seq<Thread>)
      requires Wired() && Known(t) && forall j :: 0 <= j < |list| ==> Known(list[j])
      requires NoDup(ThreadIds(list))
      ensures forall j :: 0 <= j < |r| ==> Known(r[j])
      ensures ThreadIds(r) == Remove(ThreadIds(list), t.id)
    {
      var n := 0;
      while n < |list| && list[n] != t
        invariant 0 <= n <= |list|
        invariant t !in list[..n]
      {
        n := n + 1;
      }
      if n < |list| {
        r := list[..n] + list[n + 1..];
        RemoveAt(ThreadIds(list), n);
        assert ThreadIds(r) == ThreadIds(list)[..n] + ThreadIds(list)[n + 1..];
      } else {
        r := list;
        assert t.id !in ThreadIds(list) by {
          forall j | 0 <= j < |list| ensures ThreadIds(list)[j] != t.id {
            assert list[j] in list[..n];
          }
        }
      }
    }

    method MutexUpdatePriority(m: Mutex)
      requires Wired() && KnownMutex(m)
      modifies m`priority
      ensures Wired()
      ensures InRange(old(Abs().waiters[m.id]), |Abs().curr|)
      ensures Abs() == old(Abs()).(mprio := old(Abs().mprio)[m.id := Head(old(Abs().curr), old(Abs().waiters[m.id]))])
    {
      assert LinkedMutex(m);
      if m.waiters != [] {
        m.priority := m.waiters[0].currentPriority;
      } else {
        m.priority := NO_PRIORITY;
      }
    }

    // The priority a thread needs: its own, or a more urgent one of a mutex it has taken.
    method ThreadGetMutexPriority(t: Thread) returns (priority: nat)
      requires Wired() && Known(t) && M.Sized(Abs())
      ensures priority == M.Need(Abs(), t.id)
    {
      ghost var s := Abs();
      ghost var taken := s.thread[t.id].taken;
      assert LinkedThread(t) && taken == MutexIds(t.takenObjects);
      priority := t.initPriority;
      var i := 0;
      assert taken[0..] == taken;
      while i < |t.takenObjects|
        invariant 0 <= i <= |taken| == |t.takenObjects| && InRange(taken[i..], |s.mprio|)
        invariant M.TakenMin(priority, taken[i..], s.mprio) == M.TakenMin(t.initPriority, taken, s.mprio)
      {
        M.TakenMinStep(priority, taken, s.mprio, i);
        assert s.mprio[taken[i]] == t.takenObjects[i].priority;
        if priority > t.takenObjects[i].priority {
          priority := t.takenObjects[i].priority;
        }
        i := i + 1;
      }
    }

    method ChangePriority(t: Thread, priority: nat)
      requires Wired() && Known(t)
      modifies t`currentPriority
      ensures Wired()
      ensures Abs() == SetPriorityOf(old(Abs()), t.id, priority)
    {
      t.currentPriority := priority;
    }

    ghost function SetPriorityOf(s: M.Sys, t: nat, p: nat): M.Sys {
      if t < |s.curr| then M.SetPriority(s, t, p) else s
    }

    method SetWaiters(m: Mutex, ws: seq<Thread>)
      requires Wired() && KnownMutex(m) && forall j :: 0 <= j < |ws| ==> Known(ws[j])
      modifies m`waiters
      ensures Wired()
      ensures Abs() == old(Abs()).(waiters := old(Abs().waiters)[m.id := ThreadIds(ws)])
    {
      m.waiters := ws;
    }

    // What the state shows of a mutex and of a thread.
    lemma Seen(t: Thread, m: Mutex)
      requires Wired() && Known(t) && KnownMutex(m)
      ensures t.id < |Abs().curr| && m.id < |Abs().mprio| && m.id < |Abs().waiters|
      ensures Abs().waiters[m.id] == ThreadIds(m.waiters)
      ensures forall j :: 0 <= j < |m.waiters| ==> Known(m.waiters[j])
    {
      assert LinkedMutex(m);
    }

    // A suspended thread leaves its place in the list of the mutex it waits for and queues up again.
    method Reinsert(t: Thread, m: Mutex)
      requires Wired() && Known(t) && KnownMutex(m) && NoDup(Abs().waiters[m.id])
      modifies m`waiters, m`priority
      ensures Wired()
      ensures InRange(Remove(old(Abs().waiters[m.id]), t.id), |old(Abs().curr)|)
      ensures Abs() == M.Requeue(old(Abs()), t.id, m.id)
    {
      hide Remove, Enqueue, NoDup, Abs, LinkedMutex;
      Seen(t, m);
      var rest := ListRemove(m.waiters, t);
      var ws := ListEnqueue(rest, t);
      SetWaiters(m, ws);
      MutexUpdatePriority(m);
    }

    // One turn of the walk: the mutex `thread` waits for is put in order and its owner re-evaluated.
    // Returns the owner if its priority had to change, null if the walk is over.
    method PassOn(thread: Thread, m: Mutex) returns (next: Thread?, ghost was: nat)
      requires Wired() && Known(thread) && KnownMutex(m) && m.owner != null
      requires NoDup(Abs().waiters[m.id]) && InRange(Remove(Abs().waiters[m.id], thread.id), |Abs().curr|)
      requires M.Sized(M.Requeue(Abs(), thread.id, m.id))
      modifies threads`currentPriority, mutexes`waiters, mutexes`priority
      ensures Wired()
      ensures Known(old(m.owner)) && was == old(m.owner.currentPriority)
      ensures var r := old(M.Requeue(Abs(), thread.id, m.id)); var o := old(m.owner); var need := M.Need(r, o.id);
        if need == was then next == null && Abs() == r
        else next == o && Abs() == M.SetPriority(r, o.id, need)
    {
      assert LinkedMutex(m);
      var owner: Thread := m.owner;
      was := owner.currentPriority;
      Reinsert(thread, m);
      var p := ThreadGetMutexPriority(owner);
      if p != owner.currentPriority {
        ChangePriority(owner, p);
        next := owner;
      } else {
        next := null;
      }
    }

    // The walk along the owner chain, starting behind a thread whose priority was just changed.
    method WalkChain(start: Thread, ghost was: nat)
      requires Wired() && Known(start) && M.AlmostSafe(Abs(), start.id, was)
      modifies threads`currentPriority, mutexes`waiters, mutexes`priority
      ensures Wired()
      ensures old(M.AlmostSafe(Abs(), start.id, was)) && Abs() == old(Walk(Abs(), start.id, was))
    {
      hide M.AlmostSafe, M.Room, Walk, M.Requeue;
      M.AlmostSafeSized(Abs(), start.id, was);
      ghost var goal := Walk(Abs(), start.id, was);
      ghost var from := was;
      var thread: Thread := start;
      var ok := true;
      while ok && thread.suspended
        invariant Wired() && Known(thread)
        invariant ok ==> M.Sized(Abs()) && M.AlmostSafe(Abs(), thread.id, from) && Walk(Abs(), thread.id, from) == goal
        invariant !ok ==> Abs() == goal
        decreases ok, ok && thread.currentPriority < from, if ok then M.Room(Abs(), thread.id, from) else 0
      {
        assert LinkedThread(thread);
        if thread.pendingObject != null {
          var m := thread.pendingObject;
          TurnInFull(Abs(), thread.id, from, m.id);
          var next;
          next, from := PassOn(thread, m);
          if next != null {
            thread := next;
          } else {
            ok := false;
          }
        } else {
          WalkStops(Abs(), thread.id, from);
          ok := false;
        }
      }
      if ok {
        WalkStops(Abs(), thread.id, from);
      }
    }

    // Change of a priority, and the walk.
    method ThreadUpdatePriority(t: Thread, priority: nat)
      requires Wired() && Known(t)
      requires M.AlmostSafe(M.SetPriority(Abs(), t.id, priority), t.id, t.currentPriority)
      modifies threads`currentPriority, mutexes`waiters, mutexes`priority
      ensures Wired()
      ensures old(M.AlmostSafe(M.SetPriority(Abs(), t.id, priority), t.id, t.currentPriority))
      ensures Abs() == old(UpdatePriority(Abs(), t.id, priority))
    {
      ghost var was := t.currentPriority;
      ChangePriority(t, priority);
      WalkChain(t, was);
    }

    /* ---------- the interface ---------- */

    // What a caller of the operations below relies on.
    ghost predicate Valid()
      reads this, threads, mutexes
    {
      Wired() && M.Safe(Abs())
    }

    constructor (priorities: seq<nat>, mutexCount: nat)
      requires forall i :: 0 <= i < |priorities| ==> priorities[i] < M.PRIORITY_MAX
      ensures Valid() && M.Exact(Abs()) && fresh(threads) && fresh(mutexes)
      ensures |threads| == |priorities| && |mutexes| == mutexCount
      ensures forall i :: 0 <= i < |priorities| ==> threads[i].initPriority == priorities[i]
    {
      var ts := NewThreads(priorities);
      var ms := NewMutexes(mutexCount);
      threads, mutexes := ts, ms;
      new;
      StartExact(priorities, mutexCount);
      assert Abs().init == priorities && Abs().curr == priorities;
      assert Abs() == Start(priorities, mutexCount);
    }

    // The thread stops and joins the list of the mutex.
    method Suspend(thread: Thread, m: Mutex)
      requires Wired() && Known(thread) && KnownMutex(m)
      modifies thread`failed, thread`suspended, thread`pendingObject, thread`waitingIn, m`waiters
      ensures Wired()
      ensures InRange(old(Abs()).waiters[m.id], |old(Abs()).curr|)
      ensures Abs() == (var s := old(Abs()); s.(
        waiters := s.waiters[m.id := Enqueue(s.curr, s.waiters[m.id], thread.id)],
        thread := s.thread[thread.id := s.thread[thread.id].(
          suspended := true, pending := Some(m.id), waitingIn := Some(m.id), failed := false)]))
    {
      hide Enqueue;
      assert LinkedMutex(m) && LinkedThread(thread);
      var ws := ListEnqueue(m.waiters, thread);
      SetWaiters(m, ws);
      ghost var s := Abs();
      label L:
      thread.failed := false;
      thread.suspended := true;
      thread.pendingObject := m;
      thread.waitingIn := m;
      ThreadEdited@L(thread);
    }

    // The thread is queued, and the mutex takes over its priority if that is more urgent.
    method LinkUp(thread: Thread, m: Mutex) returns (raised: bool)
      requires Wired() && Known(thread) && KnownMutex(m) && M.Sized(Abs())
      modifies thread`failed, thread`suspended, thread`pendingObject, thread`waitingIn, m`waiters, m`priority
      ensures Wired()
      ensures raised == (thread.currentPriority < old(m.priority))
      ensures raised ==> m.priority == thread.currentPriority
      ensures Abs() == old(Link(Abs(), thread.id, m.id))
    {
      ghost var s := Abs();
      Suspend(thread, m);
      raised := thread.currentPriority < m.priority;
      if raised {
        SetMutexPriority(m, thread.currentPriority);
      } else {
        assert s.mprio[m.id := s.mprio[m.id]] == s.mprio;
      }
    }

    // The blocking branch: suspend, queue up, lend the priority.
    method SuspendOn(thread: Thread, m: Mutex)
      requires Wired() && Known(thread) && KnownMutex(m)
      requires CanBlock(Abs(), thread.id, m.id)
      modifies threads, mutexes
      ensures Wired()
      ensures old(CanBlock(Abs(), thread.id, m.id)) && Abs() == old(Block(Abs(), thread.id, m.id))
    {
      ghost var s := Abs();
      LinkSettles(s, thread.id, m.id);
      assert LinkedMutex(m);
      var raised := LinkUp(thread, m);
      if raised && m.priority < m.owner.currentPriority {
        ThreadUpdatePriority(m.owner, m.priority);
      }
    }

    method SetMutexPriority(m: Mutex, priority: nat)
      requires Wired() && KnownMutex(m)
      modifies m`priority
      ensures Wired() && m.priority == priority
      ensures Abs() == (var s := old(Abs()); s.(mprio := s.mprio[m.id := priority]))
    {
      m.priority := priority;
    }

    // First half of a take: everything up to the reschedule.
    method Take(thread: Thread, m: Mutex, timeout: int) returns (r: M.Outcome)
      requires Valid() && Known(thread) && KnownMutex(m) && CanRun(Abs(), thread.id)
      modifies threads, mutexes
      ensures Valid()
      ensures (Abs(), r) == old(MutexSteps.Take(Abs(), thread.id, m.id, timeout != 0))
    {
      hide M.Safe, Block;
      ghost var s := Abs();
      M.SafeSized(s);
      TakeKeeps(s, thread.id, m.id, timeout != 0);
      assert LinkedMutex(m) && LinkedThread(thread);
      if m.owner == thread {
        SetFailed(thread, false);
        if m.hold < M.HOLD_MAX {
          SetHold(m, m.hold + 1);
          r := M.Done;
        } else {
          r := M.Full;
        }
      } else if m.owner == null {
        Acquire(thread, m);
        r := M.Done;
      } else if timeout == 0 {
        SetFailed(thread, true);
        r := M.TimedOut;
      } else {
        SuspendOn(thread, m);
        r := M.Blocked;
      }
    }

    method SetFailed(thread: Thread, failed: bool)
      requires Wired() && Known(thread)
      modifies thread`failed
      ensures Wired() && thread.failed == failed
      ensures Abs() == (var s := old(Abs()); SetThread(s, thread.id, s.thread[thread.id].(failed := failed)))
    {
      assert LinkedThread(thread);
      label L:
      thread.failed := failed;
      ThreadEdited@L(thread);
    }

    method SetHold(m: Mutex, hold: nat)
      requires Wired() && KnownMutex(m)
      modifies m`hold
      ensures Wired() && m.hold == hold
      ensures Abs() == (var s := old(Abs()); s.(mutex := s.mutex[m.id := s.mutex[m.id].(hold := hold)]))
    {
      m.hold := hold;
    }

    // A free mutex gets its owner.
    method Acquire(thread: Thread, m: Mutex)
      requires Wired() && Known(thread) && KnownMutex(m) && M.Sized(Abs())
      modifies m`owner, m`priority, m`hold, thread`takenObjects, thread`failed
      ensures Wired()
      ensures Abs() == old(MutexSteps.Acquire(Abs(), thread.id, m.id))
    {
      assert LinkedMutex(m) && LinkedThread(thread);
      ghost var s := Abs();
      label L:
      m.owner := thread;
      m.priority := NO_PRIORITY;
      m.hold := 1;
      MutexEdited@L(m);
      assert s.waiters[m.id := s.waiters[m.id]] == s.waiters;
      InsertTaken(thread, m);
      SetFailed(thread, false);
    }

    // rt_list_insert_after on the taken list of a thread
    method InsertTaken(thread: Thread, m: Mutex)
      requires Wired() && Known(thread) && KnownMutex(m)
      modifies thread`takenObjects
      ensures Wired()
      ensures Abs() == (var s := old(Abs()); SetThread(s, thread.id, s.thread[thread.id].(taken := [m.id] + s.thread[thread.id].taken)))
    {
      assert LinkedThread(thread);
      label L:
      ghost var taken := MutexIds(thread.takenObjects);
      thread.takenObjects := [m] + thread.takenObjects;
      assert MutexIds(thread.takenObjects) == [m.id] + taken;
      ThreadEdited@L(thread);
    }

    // Unlinking of a mutex from a taken list.
    method TakenWithout(list: seq<Mutex>, m: Mutex) returns (r: seq<Mutex>)
      requires Wired() && KnownMutex(m) && forall j :: 0 <= j < |list| ==> KnownMutex(list[j])
      requires NoDup(MutexIds(list))
      ensures forall j :: 0 <= j < |r| ==> KnownMutex(r[j])
      ensures MutexIds(r) == Remove(MutexIds(list), m.id)
    {
      var n := 0;
      while n < |list| && list[n] != m
        invariant 0 <= n <= |list|
        invariant m !in list[..n]
      {
        n := n + 1;
      }
      if n < |list| {
        r := list[..n] + list[n + 1..];
        RemoveAt(MutexIds(list), n);
        assert MutexIds(r) == MutexIds(list)[..n] + MutexIds(list)[n + 1..];
      } else {
        r := list;
        assert m.id !in MutexIds(list) by {
          forall j | 0 <= j < |list| ensures MutexIds(list)[j] != m.id {
            assert list[j] in list[..n];
          }
        }
      }
    }

    // rt_list_remove from the taken list of a thread
    method RemoveTaken(thread: Thread, m: Mutex)
      requires Wired() && Known(thread) && KnownMutex(m) && NoDup(Abs().thread[thread.id].taken)
      modifies thread`takenObjects
      ensures Wired()
      ensures Abs() == (var s := old(Abs()); SetThread(s, thread.id, s.thread[thread.id].(taken := Remove(s.thread[thread.id].taken, m.id))))
    {
      assert LinkedThread(thread);
      var list := TakenWithout(thread.takenObjects, m);
      label L:
      thread.takenObjects := list;
      ThreadEdited@L(thread);
    }

    // Puts a suspended thread back on the ready list; fails if it is not suspended.
    method Ready(thread: Thread) returns (ok: bool)
      requires Wired() && Known(thread)
      modifies thread`suspended
      ensures Wired() && ok == old(thread.suspended)
      ensures Abs() == (var s := old(Abs()); SetThread(s, thread.id, s.thread[thread.id].(suspended := false)))
    {
      assert LinkedThread(thread);
      label L:
      ok := thread.suspended;
      if ok {
        thread.suspended := false;
      }
      ThreadEdited@L(thread);
    }

    // After the last release: the releaser may fall back.
    method CheckAndUpdatePriority(thread: Thread, m: Mutex) returns (schedule: bool)
      requires Wired() && Known(thread) && KnownMutex(m) && M.Sized(Abs())
      modifies thread`currentPriority
      ensures Wired()
      ensures Abs() == (var s := old(Abs());
        if s.curr[thread.id] == s.mprio[m.id] then M.SetPriority(s, thread.id, M.Need(s, thread.id)) else s)
      ensures schedule <==> old(thread.currentPriority) == old(m.priority)
    {
      schedule := false;
      if thread.currentPriority == m.priority {
        var priority := ThreadGetMutexPriority(thread);
        ChangePriority(thread, priority);
        schedule := true;
      }
    }

    // Takes waiters off the list until one can be made ready.
    method WakeFirst(m: Mutex) returns (next: Thread)
      requires Wired() && KnownMutex(m) && m.waiters != [] && m.waiters[0].suspended
      modifies m`waiters, threads`suspended
      ensures Wired() && Known(next) && next == old(m.waiters[0])
      ensures Abs() == (var s := old(Abs()); s.(
        waiters := s.waiters[m.id := s.waiters[m.id][1..]],
        thread := s.thread[next.id := s.thread[next.id].(suspended := false)]))
    {
      ghost var s := Abs();
      assert LinkedMutex(m);
      ghost var first := m.waiters[0];
      var found: Thread? := null;
      while found == null && m.waiters != []
        invariant Wired() && (found == null || found == first)
        invariant found == null ==> m.waiters == old(m.waiters) && Abs() == s && m.waiters[0].suspended
        invariant found != null ==> Known(found) && Abs() == s.(
          waiters := s.waiters[m.id := s.waiters[m.id][1..]],
          thread := s.thread[found.id := s.thread[found.id].(suspended := false)])
        decreases found == null
      {
        assert LinkedMutex(m);
        found := m.waiters[0];
        assert ThreadIds(m.waiters[1..]) == s.waiters[m.id][1..];
        SetWaiters(m, m.waiters[1..]);
        var ok := Ready(found);
        if !ok {
          found := null;
        }
      }
      next := found;
    }

    // The woken thread becomes the owner.
    method GiveTo(next: Thread, m: Mutex)
      requires Wired() && Known(next) && KnownMutex(m)
      modifies m`owner, m`hold, m`priority, next`takenObjects, next`pendingObject
      ensures Wired()
      ensures InRange(old(Abs()).waiters[m.id], |old(Abs()).curr|)
      ensures Abs() == (var s := old(Abs()); s.(
        mutex := s.mutex[m.id := M.Mutex(Some(next.id), 1)],
        mprio := s.mprio[m.id := Head(s.curr, s.waiters[m.id])],
        thread := s.thread[next.id := s.thread[next.id].(pending := None, taken := [m.id] + s.thread[next.id].taken)]))
    {
      assert LinkedMutex(m) && LinkedThread(next);
      ghost var s := Abs();
      SetOwner(m, next, 1);
      InsertTaken(next, m);
      ClearPending(next);
      MutexUpdatePriority(m);
    }

    method SetOwner(m: Mutex, owner: Thread?, hold: nat)
      requires Wired() && KnownMutex(m) && (owner != null ==> Known(owner))
      modifies m`owner, m`hold
      ensures Wired()
      ensures Abs() == (var s := old(Abs()); s.(mutex := s.mutex[m.id := M.Mutex(ThreadId(owner), hold)]))
    {
      assert LinkedMutex(m);
      ghost var s := Abs();
      label L:
      m.owner := owner;
      m.hold := hold;
      MutexEdited@L(m);
      assert s.waiters[m.id := s.waiters[m.id]] == s.waiters && s.mprio[m.id := s.mprio[m.id]] == s.mprio;
    }

    method ClearPending(thread: Thread)
      requires Wired() && Known(thread)
      modifies thread`pendingObject
      ensures Wired()
      ensures Abs() == (var s := old(Abs()); SetThread(s, thread.id, s.thread[thread.id].(pending := None)))
    {
      assert LinkedThread(thread);
      label L:
      thread.pendingObject := null;
      ThreadEdited@L(thread);
    }

    // The mutex leaves its owner's taken list, and the owner may fall back.
    method Relinquish(thread: Thread, m: Mutex)
      requires Wired() && Known(thread) && KnownMutex(m) && M.Sized(Abs()) && NoDup(Abs().thread[thread.id].taken)
      modifies thread`takenObjects, thread`currentPriority
      ensures Wired()
      ensures Abs() == old(DropTaken(Abs(), thread.id, m.id))
    {
      ghost var s := Abs();
      ghost var taken := Remove(s.thread[thread.id].taken, m.id);
      RemoveInRange(s.thread[thread.id].taken, m.id, |s.mutex|);
      RemoveTaken(thread, m);
      var schedule := CheckAndUpdatePriority(thread, m);
      assert s.curr[thread.id := s.curr[thread.id]] == s.curr;
    }

    // The first waiter, if any, takes over.
    method HandOver(m: Mutex)
      requires Wired() && KnownMutex(m) && M.Sized(Abs())
      requires m.waiters != [] ==> m.waiters[0].suspended
      modifies threads, mutexes
      ensures Wired()
      ensures Abs() == old(HandOff(Abs(), m.id))
    {
      ghost var s := Abs();
      if m.waiters != [] {
        var next := WakeFirst(m);
        GiveTo(next, m);
      } else {
        SetOwner(m, null, 0);
        SetMutexPriority(m, NO_PRIORITY);
      }
    }

    // The last hold is gone.
    method LetGo(thread: Thread, m: Mutex)
      requires Wired() && Known(thread) && KnownMutex(m) && M.Sized(Abs()) && NoDup(Abs().thread[thread.id].taken)
      requires m.waiters != [] ==> m.waiters[0].suspended
      modifies threads, mutexes
      ensures Wired()
      ensures Abs() == old(HandOff(DropTaken(Abs(), thread.id, m.id), m.id))
    {
      Relinquish(thread, m);
      HandOver(m);
    }

    // The owner drops one hold.
    method DropHold(thread: Thread, m: Mutex)
      requires Wired() && Known(thread) && KnownMutex(m) && M.Sized(Abs()) && NoDup(Abs().thread[thread.id].taken)
      requires m.waiters != [] ==> m.waiters[0].suspended
      requires m.hold > 0
      modifies threads, mutexes
      ensures Wired()
      ensures Abs() == (var s := old(Abs());
        if s.mutex[m.id].hold > 1 then s.(mutex := s.mutex[m.id := s.mutex[m.id].(hold := s.mutex[m.id].hold - 1)])
        else old(HandOff(DropTaken(Abs(), thread.id, m.id), m.id)))
    {
      HandOffForgetsHold(Abs(), thread.id, m.id);
      SetHold(m, m.hold - 1);
      if m.hold == 0 {
        LetGo(thread, m);
      }
    }

    method Release(thread: Thread, m: Mutex) returns (r: M.Outcome)
      requires Valid() && Known(thread) && KnownMutex(m) && CanRun(Abs(), thread.id)
      modifies threads, mutexes
      ensures Valid()
      ensures (Abs(), r) == old(MutexSteps.Release(Abs(), thread.id, m.id))
    {
      ghost var s := Abs();
      ReleaseKeeps(s, thread.id, m.id);
      ReleaseFacts(s, thread.id, m.id);
      assert LinkedMutex(m);
      if thread != m.owner {
        SetFailed(thread, true);
        return M.NotOwner;
      }
      assert m.waiters != [] ==> m.waiters[0].suspended by {
        if m.waiters != [] { assert s.thread[m.waiters[0].id].suspended; }
      }
      DropHold(thread, m);
      assert Abs() == MutexSteps.Release(s, thread.id, m.id).0;
      return M.Done;
    }

    lemma HandOffForgetsHold(s: M.Sys, t: nat, m: nat)
      requires M.Sized(s) && t < |s.thread| && m < |s.mutex| && s.mutex[m].hold > 0
      ensures var r := s.(mutex := s.mutex[m := s.mutex[m].(hold := s.mutex[m].hold - 1)]);
        M.Sized(r) && HandOff(DropTaken(r, t, m), m) == HandOff(DropTaken(s, t, m), m)
    {
    }

    lemma ReleaseFacts(s: M.Sys, t: nat, m: nat)
      requires M.Shape(s) && t < |s.thread| && m < |s.mutex|
      ensures NoDup(s.thread[t].taken)
      ensures s.mutex[m].owner.Some? ==> s.mutex[m].hold > 0
      ensures s.waiters[m] != [] ==> s.waiters[m][0] < |s.thread| && s.thread[s.waiters[m][0]].suspended
    {
      assert M.MutexShape(s, m) && M.ThreadShape(s, t);
      if s.waiters[m] != [] {
        assert s.waiters[m][0] in s.waiters[m];
      }
    }

    // The timer of a waiter fires.
    method ThreadTimeout(thread: Thread)
      requires Valid() && Known(thread) && CanTimeOut(Abs(), thread.id)
      modifies threads, mutexes
      ensures Valid()
      ensures old(M.Shape(Abs()) && CanTimeOut(Abs(), thread.id)) && Abs() == old(TimerFires(Abs(), thread.id))
    {
      ghost var s := Abs();
      TimerKeeps(s, thread.id);
      assert LinkedThread(thread);
      Detach(thread, thread.pendingObject);
      SetFailed(thread, true);
      var ok := Ready(thread);
      assert Abs() == TimerFires(s, thread.id);
    }

    // rt_list_remove of a waiter
    method Detach(thread: Thread, m: Mutex)
      requires Wired() && M.Shape(Abs()) && Known(thread) && KnownMutex(m)
      modifies m`waiters
      ensures Wired()
      ensures Abs() == (var s := old(Abs()); s.(waiters := s.waiters[m.id := Remove(s.waiters[m.id], thread.id)]))
    {
      assert LinkedMutex(m) && M.MutexShape(Abs(), m.id);
      var ws := ListRemove(m.waiters, thread);
      SetWaiters(m, ws);
    }

    // A take that failed lets go of its claim.
    method DropClaim(thread: Thread, m: Mutex)
      requires Valid() && Known(thread) && KnownMutex(m)
      modifies threads, mutexes
      ensures Wired()
      ensures old(M.Safe(Abs())) && Abs() == old(CleanUp(Abs(), thread.id, m.id))
    {
      hide M.AlmostSafe, Walk, M.Safe;
      ghost var s := Abs();
      M.SafeSized(s);
      RefreshSafe(s, m.id);
      M.SafeSized(Refresh(s, m.id));
      assert LinkedMutex(m);
      var needUpdate := m.owner != null && m.owner.currentPriority == thread.currentPriority;
      MutexUpdatePriority(m);
      if needUpdate {
        var priority := ThreadGetMutexPriority(m.owner);
        if priority != m.owner.currentPriority {
          FallBackSettles(Abs(), m.owner.id);
          ThreadUpdatePriority(m.owner, priority);
        }
      }
    }

    // Second half of a blocked take: what the thread does once it runs again.
    method Resume(thread: Thread) returns (r: M.Outcome)
      requires Valid() && Known(thread) && CanResume(Abs(), thread.id)
      modifies threads, mutexes
      ensures Valid()
      ensures (Abs(), r) == old(MutexSteps.Resume(Abs(), thread.id))
    {
      ghost var s := Abs();
      ResumeKeeps(s, thread.id);
      assert LinkedThread(thread) && M.ThreadShape(s, thread.id);
      var m: Mutex := thread.waitingIn;
      if !thread.failed {
        assert m.owner == thread;
        EndTake(thread, false);
        r := M.Done;
      } else {
        assert m.owner != thread;
        CleanUpSafe(s, thread.id, m.id);
        DropClaim(thread, m);
        EndTake(thread, true);
        r := M.TimedOut;
      }
    }

    method EndTake(thread: Thread, clear: bool)
      requires Wired() && Known(thread)
      modifies thread`pendingObject, thread`waitingIn
      ensures Wired()
      ensures Abs() == (var s := old(Abs()); var th := s.thread[thread.id]; SetThread(s, thread.id,
        if clear then th.(pending := None, waitingIn := None) else th.(waitingIn := None)))
    {
      assert LinkedThread(thread);
      label L:
      if clear {
        thread.pendingObject := null;
      }
      thread.waitingIn := null;
      ThreadEdited@L(thread);
    }
  }
}
