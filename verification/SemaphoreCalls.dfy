/** What each call of the semaphore does and answers, call by call and over runs. */
module SemaphoreCalls {
  import opened Basics
  import opened WaitList
  import opened SuspendList
  import opened WaitOrder
  import opened SemaphoreModel

  /** A take succeeds exactly when a token is there, and then costs that one token and nothing else; it is
    * refused exactly when there is none and it may not wait; otherwise the thread joins the list at its place. */
  lemma TakeExact(s: Sem, t: nat, wait: Patience)
    requires Safe(s) && Enabled(s, Take(t, wait))
    ensures var (n, answer) := Next(s, Take(t, wait));
            && (answer == Got <==> s.core.value > 0)
            && (answer == Failed <==> s.core.value == 0 && wait.NoWait?)
            && (answer == Nothing <==> s.core.value == 0 && wait.WaitAt?)
            && (answer.Got? ==> n == s.(core := s.core.(value := s.core.value - 1)))
            && (answer.Failed? ==> n == s)
            && (answer.Nothing? ==>
                  && n.core.value == 0 && n.core.limit == s.core.limit
                  && n.pc == s.pc[t := Waiting]
                  && |n.core.wait| == |s.core.wait| + 1 && n.core.wait[wait.pos] == t
                  && n.core.wait[..wait.pos] + n.core.wait[wait.pos + 1..] == s.core.wait)
  {
    var n := Next(s, Take(t, wait)).0;
    if s.core.value == 0 && wait.WaitAt? {
      assert n.core.wait[..wait.pos] + n.core.wait[wait.pos + 1..] == s.core.wait;
    }
  }

  /** A release succeeds exactly when somebody waits or the limit is not reached. The token goes to the first
    * suspended thread and to nobody else if there is one, and otherwise to the value. */
  lemma ReleaseExact(s: Sem)
    requires Safe(s)
    ensures var (n, answer) := Next(s, Release);
            && (answer == Put <==> s.core.wait != [] || s.core.value < s.core.limit)
            && (answer == Failed <==> s.core.wait == [] && s.core.value >= s.core.limit)
            && |n.pc| == |s.pc| && n.core.limit == s.core.limit
            && n.core.value == s.core.value + (if s.core.wait == [] && answer.Put? then 1 else 0)
            && (s.core.wait == [] ==> n.core.wait == [] && n.pc == s.pc)
            && (s.core.wait != [] ==>
                  && s.core.wait == [s.core.wait[0]] + n.core.wait
                  && forall u :: 0 <= u < |s.pc| ==> n.pc[u] == if u == s.core.wait[0] then Granted else s.pc[u])
  {
    if s.core.wait != [] {
      assert s.core.wait[0] in s.core.wait;
    }
  }

  /** The other ways out of a call: a thread with a token returns with it, one that timed out or was dismissed
    * returns an error, and none of them moves a token or another thread. */
  lemma LeavingExact(s: Sem, step: Step)
    requires Safe(s) && Enabled(s, step) && (step.Return? || step.TimeOut? || step.Leave?)
    ensures var (n, answer) := Next(s, step);
            && (answer == Got <==> s.pc[step.t] == Granted) && (answer == Failed <==> s.pc[step.t] != Granted)
            && n.core.value == s.core.value && n.core.limit == s.core.limit && |n.pc| == |s.pc|
            && (forall u :: 0 <= u < |s.pc| ==> n.pc[u] == if u == step.t then Idle else s.pc[u])
            && n.core.wait == Remove(s.core.wait, step.t)
  {
    hide Remove;
    assert step.t in s.core.wait <==> s.pc[step.t].Waiting?;
  }

  /** A reset sets the value to its argument cut to 16 bits and dismisses exactly the suspended threads; a new
    * limit is refused exactly when those bits are all zero, and changes nothing but the limit. */
  lemma ControlExact(s: Sem, arg: nat)
    requires Safe(s)
    ensures var (n, answer) := Next(s, Reset(arg));
            && answer == Nothing && n.core == Core(arg % WORD16, s.core.limit, []) && |n.pc| == |s.pc|
            && forall u :: 0 <= u < |s.pc| ==> n.pc[u] == if u in s.core.wait then Dismissed else s.pc[u]
    ensures var (n, answer) := Next(s, SetLimit(arg));
            && (answer == Failed <==> arg % WORD16 == 0)
            && n == if answer.Failed? then s else s.(core := s.core.(limit := arg % WORD16))
  {
    LimitWakesNobody(s, arg);
    assert Next(s, SetLimit(arg)).0.pc == s.pc;
  }

  // What a step does to the suspend list.
  function MoveOf(s: Sem, step: Step): Move {
    match step
    case Take(t, wait) => if s.core.value == 0 && wait.WaitAt? then Join(t, wait.pos) else Keep
    case Release => Pop
    case TimeOut(t) => Drop(t)
    case Reset(_) => Clear
    case _ => Keep
  }

  lemma NextMoves(s: Sem, step: Step)
    requires Safe(s) && Enabled(s, step)
    ensures Fits(s.core.wait, MoveOf(s, step))
    ensures Next(s, step).0.core.wait == After(s.core.wait, MoveOf(s, step))
    ensures |Next(s, step).0.pc| == |s.pc|
  {
    hide InsertAt, Remove, Dismiss;
    match step
    case Take(t, _) => assert t in s.core.wait <==> s.pc[t].Waiting?;
    case SetLimit(m) => LimitWakesNobody(s, m);
    case _ =>
  }

  // The priorities at each step of a run: everybody queues by priority and keeps it while suspended.
  ghost predicate Prioritised(s: Sem, steps: seq<Step>, prio: seq<seq<nat>>)
    requires Safe(s)
    decreases |steps|
  {
    |prio| == |steps| + 1
    && (steps != [] ==>
          if Enabled(s, steps[0]) then
            NextSafe(s, steps[0]);
            var n := Next(s, steps[0]).0;
            && ByPriority(prio[0], s.core.wait, MoveOf(s, steps[0]))
            && Steady(prio[0], prio[1], n.core.wait)
            && Prioritised(n, steps[1..], prio[1..])
          else Steady(prio[0], prio[1], s.core.wait) && Prioritised(s, steps[1..], prio[1..]))
  }

  // A step that grants a token to a suspended thread picks one nobody suspended is more urgent than.
  ghost predicate PicksMostUrgent(s: Sem, n: Sem, prio: seq<nat>) {
    forall t: nat, u: nat :: t < |s.pc| && t < |n.pc| && u < |s.pc| ==>
      s.pc[t].Waiting? && n.pc[t].Granted? && s.pc[u].Waiting? ==> t < |prio| && u < |prio| && prio[t] <= prio[u]
  }

  ghost predicate AlwaysMostUrgent(s: Sem, steps: seq<Step>, prio: seq<seq<nat>>)
    requires Safe(s) && |prio| == |steps| + 1
    decreases |steps|
  {
    if steps == [] then true
    else if Enabled(s, steps[0]) then
      NextSafe(s, steps[0]);
      var n := Next(s, steps[0]).0;
      PicksMostUrgent(s, n, prio[0]) && AlwaysMostUrgent(n, steps[1..], prio[1..])
    else AlwaysMostUrgent(s, steps[1..], prio[1..])
  }

  lemma NextPicks(s: Sem, step: Step, prio: seq<nat>)
    requires Safe(s) && Enabled(s, step) && Ranked(prio, s.core.wait) && |prio| >= |s.pc|
    ensures PicksMostUrgent(s, Next(s, step).0, prio)
  {
    hide Ranked, InsertAt, Remove;
    if step.Release? {
      ReleaseExact(s);
    }
    NextMoves(s, step);
    var n := Next(s, step).0;
    forall t: nat, u: nat | t < |s.pc| && u < |s.pc| && s.pc[t].Waiting? && n.pc[t].Granted? && s.pc[u].Waiting?
      ensures prio[t] <= prio[u]
    {
      assert u in s.core.wait && t in s.core.wait;
      FirstIsMostUrgent(prio, s.core.wait, u);
    }
  }

  /** In every run in which the threads queue by priority, each token released while threads are suspended
    * goes to one that no suspended thread is more urgent than. */
  lemma {:induction false} TokensToMostUrgent(s: Sem, steps: seq<Step>, prio: seq<seq<nat>>)
    requires Safe(s) && Prioritised(s, steps, prio) && Ranked(prio[0], s.core.wait) && |prio[0]| >= |s.pc|
    ensures AlwaysMostUrgent(s, steps, prio)
    decreases |steps|
  {
    hide Safe, Ranked, ByPriority, PicksMostUrgent, Next, Enabled, MoveOf;
    if steps == [] {
    } else if Enabled(s, steps[0]) {
      var n := Next(s, steps[0]).0;
      NextSafe(s, steps[0]);
      NextMoves(s, steps[0]);
      NextPicks(s, steps[0], prio[0]);
      MoveRanked(prio[0], s.core.wait, MoveOf(s, steps[0]));
      SteadyRanked(prio[0], prio[1], n.core.wait);
      TokensToMostUrgent(n, steps[1..], prio[1..]);
    } else {
      SteadyRanked(prio[0], prio[1], s.core.wait);
      TokensToMostUrgent(s, steps[1..], prio[1..]);
    }
  }

  lemma GrantStays(s: Sem, step: Step, t: nat)
    requires Safe(s) && Enabled(s, step) && t < |s.pc| && s.pc[t].Granted? && step != Return(t)
    ensures |Next(s, step).0.pc| == |s.pc| && Next(s, step).0.pc[t].Granted?
  {
  }

  /** A token granted stays granted, whatever releases, takes, time-outs, resets and limits follow, until the
    * thread returns; and its call then succeeds. */
  lemma {:induction false} GrantIsKept(s: Sem, steps: seq<Step>, t: nat)
    requires Safe(s) && t < |s.pc| && s.pc[t].Granted? && Return(t) !in steps
    ensures var r := Run(s, steps); Enabled(r, Return(t)) && Next(r, Return(t)).1 == Got
    decreases |steps|
  {
    hide Safe, Next, Enabled;
    if steps == [] {
      LastReturn(s, t);
    } else if Enabled(s, steps[0]) {
      NextSafe(s, steps[0]);
      assert steps[0] in steps;
      GrantStays(s, steps[0], t);
      GrantIsKept(Next(s, steps[0]).0, steps[1..], t);
    } else {
      GrantIsKept(s, steps[1..], t);
    }
  }

  lemma LastReturn(s: Sem, t: nat)
    requires Safe(s) && t < |s.pc| && s.pc[t].Granted?
    ensures Enabled(s, Return(t)) && Next(s, Return(t)).1 == Got
  {
  }

  // Two threads of equal priority are suspended, the first of them first.
  const TWO_WAIT: Sem := Sem(Core(0, 1, [0, 1]), [Waiting, Waiting])

  lemma TwoWaitReached()
    ensures Safe(Start(0, 1, 2))
    ensures Run(Start(0, 1, 2), [Take(0, WaitAt(0)), Take(1, WaitAt(1))]) == TWO_WAIT
  {
    var s0 := Start(0, 1, 2);
    var s1 := Next(s0, Take(0, WaitAt(0))).0;
    var rest := [Take(1, WaitAt(1))];
    NextSafe(s0, Take(0, WaitAt(0)));
    assert Next(s1, Take(1, WaitAt(1))).0 == TWO_WAIT;
    assert Run(s1, rest) == Run(TWO_WAIT, []) by { assert rest[1..] == []; NextSafe(s1, rest[0]); }
    assert [Take(0, WaitAt(0)), Take(1, WaitAt(1))][1..] == rest;
  }

  /** The threads have to keep their priorities while suspended: two threads of priority 5 are queued, the
    * second is then raised to 3, and the token still goes to the first. */
  lemma LateBoostIsIgnored()
    ensures Safe(Start(0, 1, 2))
    ensures Run(Start(0, 1, 2), [Take(0, WaitAt(0)), Take(1, WaitAt(1))]) == TWO_WAIT
    ensures Safe(TWO_WAIT) && Ranked([5, 5], TWO_WAIT.core.wait)
    ensures !PicksMostUrgent(TWO_WAIT, Next(TWO_WAIT, Release).0, [5, 3])
  {
    TwoWaitReached();
    var n := Next(TWO_WAIT, Release).0;
    assert TWO_WAIT.pc[0].Waiting? && n.pc[0].Granted? && TWO_WAIT.pc[1].Waiting?;
  }
}
