/** Which threads the message queue suspends, where it queues them, and which ones it resumes. */
module MqWaits {
  import opened Basics
  import opened WaitList
  import opened SuspendList
  import opened WaitOrder
  import opened MqModel
  import opened MqKeeps
  import opened MqRuns

  // What a step does to the list of suspended senders, and to that of suspended receivers.
  function SendersMove(s: Mq, step: Step): Move
    requires Enabled(s, step)
  {
    match step
    case Send(t, msg, wait) =>
      if |msg| <= s.msgSize && s.core.free == [] && wait.WaitAt? then Join(t, wait.pos) else Keep
    case Retry(t, wait) =>
      if s.pc[t].SendWoken? && s.core.free == [] && wait.WaitAt? then Join(t, wait.pos) else Keep
    case Return(_) => Pop
    case TimeOut(t) => Drop(t)
    case Reset => Clear
    case _ => Keep
  }

  function ReceiversMove(s: Mq, step: Step): Move
    requires Enabled(s, step)
  {
    match step
    case Recv(t, _, wait) => if s.core.live == [] && wait.WaitAt? then Join(t, wait.pos) else Keep
    case Retry(t, wait) =>
      if s.pc[t].RecvWoken? && s.core.live == [] && wait.WaitAt? then Join(t, wait.pos) else Keep
    case Link(_) => Pop
    case TimeOut(t) => Drop(t)
    case Reset => Clear
    case _ => Keep
  }

  // The state of a thread that did not take the step itself.
  function Bystander(s: Mq, step: Step, u: nat): Pc
    requires u < |s.pc|
  {
    match s.pc[u]
    case SendWait(msg) =>
      if step.Reset? then Dismissed(false)
      else if step.Return? && s.core.sendWait != [] && u == s.core.sendWait[0] then SendWoken(msg)
      else s.pc[u]
    case RecvWait(size) =>
      if step.Reset? then Dismissed(true)
      else if step.Link? && s.core.recvWait != [] && u == s.core.recvWait[0] then RecvWoken(size)
      else s.pc[u]
    case _ => s.pc[u]
  }

  ghost predicate WaitsExact(s: Mq, n: Mq, step: Step)
    requires Enabled(s, step)
  {
    && Fits(s.core.sendWait, SendersMove(s, step)) && Fits(s.core.recvWait, ReceiversMove(s, step))
    && n.core.sendWait == After(s.core.sendWait, SendersMove(s, step))
    && n.core.recvWait == After(s.core.recvWait, ReceiversMove(s, step))
    && |n.pc| == |s.pc|
    && forall u :: 0 <= u < |s.pc| && (step.Reset? || u != step.t) ==> n.pc[u] == Bystander(s, step, u)
  }

  lemma RunnerNotListed(s: Mq, t: nat)
    requires Safe(s) && t < |s.pc| && !Waiting(s.pc[t])
    ensures t !in s.core.sendWait && t !in s.core.recvWait
  {
  }

  lemma TrySendWaits(s: Mq, t: nat, msg: seq<byte>, wait: Patience)
    requires Safe(s) && t < |s.pc| && WaitFits(wait, s.core.sendWait) && !Waiting(s.pc[t])
    ensures var n := TrySend(s, t, msg, wait).0;
      var move := if s.core.free == [] && wait.WaitAt? then Join(t, wait.pos) else Keep;
      && Fits(s.core.sendWait, move) && n.core.sendWait == After(s.core.sendWait, move)
      && n.core.recvWait == s.core.recvWait && |n.pc| == |s.pc|
      && forall u :: 0 <= u < |s.pc| && u != t ==> n.pc[u] == s.pc[u]
  {
    RunnerNotListed(s, t);
    hide Safe;
  }

  lemma TryRecvWaits(s: Mq, t: nat, size: nat, wait: Patience)
    requires Safe(s) && t < |s.pc| && WaitFits(wait, s.core.recvWait) && !Waiting(s.pc[t])
    ensures var n := TryRecv(s, t, size, wait).0;
      var move := if s.core.live == [] && wait.WaitAt? then Join(t, wait.pos) else Keep;
      && Fits(s.core.recvWait, move) && n.core.recvWait == After(s.core.recvWait, move)
      && n.core.sendWait == s.core.sendWait && |n.pc| == |s.pc|
      && forall u :: 0 <= u < |s.pc| && u != t ==> n.pc[u] == s.pc[u]
  {
    CountedLive(s);
    RunnerNotListed(s, t);
    hide Safe;
  }

  lemma LinkWaits(s: Mq, t: nat)
    requires Safe(s) && Enabled(s, Link(t))
    ensures WaitsExact(s, Next(s, Link(t)).0, Link(t))
  {
    RoomToLink(s, t);
    ListedKnown(s.core, s.pc);
    hide Safe;
  }

  lemma ReturnWaits(s: Mq, t: nat)
    requires Safe(s) && Enabled(s, Return(t))
    ensures WaitsExact(s, Next(s, Return(t)).0, Return(t))
  {
    CountedLive(s);
    ListedKnown(s.core, s.pc);
    hide Safe;
  }

  lemma OtherWaits(s: Mq, step: Step)
    requires Safe(s) && Enabled(s, step)
    requires !step.Send? && !step.Recv? && !step.Retry? && !step.Link? && !step.Return?
    ensures WaitsExact(s, Next(s, step).0, step)
  {
    hide Conserved, AllPresent, NoLostWakeUp, Sound, InsertAt, Remove;
    CountedLive(s);
  }

  /** After any step: the senders' list has lost its first thread iff a receiver gave its node back, the receivers'
    * list iff a message was linked; exactly that thread has been woken. A thread that finds no node, or no message,
    * and may wait, joins the list at its place. Nobody else moves, but at a time-out or a reset. */
  lemma NextWaits(s: Mq, step: Step)
    requires Safe(s) && Enabled(s, step)
    ensures WaitsExact(s, Next(s, step).0, step)
  {
    hide Conserved, AllPresent, Listed, NoLostWakeUp, Sound, LinkNode, PutFree, Wake, TrySend, TryRecv, InsertAt, Remove;
    CountedLive(s);
    match step
    case Send(t, msg, wait) => TrySendWaits(s, t, msg, wait);
    case Recv(t, size, wait) => TryRecvWaits(s, t, size, wait);
    case Retry(t, wait) => RetryWaits(s, t, wait);
    case Link(t) => LinkWaits(s, t);
    case Return(t) => ReturnWaits(s, t);
    case _ => OtherWaits(s, step);
  }

  lemma RetryWaits(s: Mq, t: nat, wait: Patience)
    requires Safe(s) && Enabled(s, Retry(t, wait))
    ensures WaitsExact(s, Next(s, Retry(t, wait)).0, Retry(t, wait))
  {
    CountedLive(s);
    hide Safe, TrySend, TryRecv, InsertAt;
    if s.pc[t].SendWoken? {
      TrySendWaits(s, t, s.pc[t].msg, wait);
    } else {
      TryRecvWaits(s, t, s.pc[t].size, wait);
    }
  }

  /* ---------- priorities ---------- */

  // The priorities at each step of a run: everybody queues by priority and keeps it while suspended.
  ghost predicate Prioritised(s: Mq, steps: seq<Step>, prio: seq<seq<nat>>)
    requires Safe(s)
    decreases |steps|
  {
    |prio| == |steps| + 1
    && (steps != [] ==>
          if Enabled(s, steps[0]) then
            NextSafe(s, steps[0]);
            var n := Next(s, steps[0]).0;
            && ByPriority(prio[0], s.core.sendWait, SendersMove(s, steps[0]))
            && ByPriority(prio[0], s.core.recvWait, ReceiversMove(s, steps[0]))
            && Steady(prio[0], prio[1], n.core.sendWait) && Steady(prio[0], prio[1], n.core.recvWait)
            && Prioritised(n, steps[1..], prio[1..])
          else
            && Steady(prio[0], prio[1], s.core.sendWait) && Steady(prio[0], prio[1], s.core.recvWait)
            && Prioritised(s, steps[1..], prio[1..]))
  }

  // Nobody who waits for the same thing is more urgent than a thread that is woken.
  ghost predicate WakesMostUrgent(s: Mq, n: Mq, prio: seq<nat>) {
    forall t: nat, u: nat :: t < |s.pc| && t < |n.pc| && u < |s.pc| ==>
      && (s.pc[t].SendWait? && n.pc[t].SendWoken? && s.pc[u].SendWait? ==> t < |prio| && u < |prio| && prio[t] <= prio[u])
      && (s.pc[t].RecvWait? && n.pc[t].RecvWoken? && s.pc[u].RecvWait? ==> t < |prio| && u < |prio| && prio[t] <= prio[u])
  }

  ghost predicate AlwaysMostUrgent(s: Mq, steps: seq<Step>, prio: seq<seq<nat>>)
    requires Safe(s) && |prio| == |steps| + 1
    decreases |steps|
  {
    if steps == [] then true
    else if Enabled(s, steps[0]) then
      NextSafe(s, steps[0]);
      var n := Next(s, steps[0]).0;
      WakesMostUrgent(s, n, prio[0]) && AlwaysMostUrgent(n, steps[1..], prio[1..])
    else AlwaysMostUrgent(s, steps[1..], prio[1..])
  }

  // Both lists are in order of priority.
  ghost predicate BothRanked(s: Mq, prio: seq<nat>) {
    Ranked(prio, s.core.sendWait) && Ranked(prio, s.core.recvWait)
  }

  // No thread wakes itself.
  lemma ActorWakesNot(s: Mq, step: Step)
    requires Safe(s) && Enabled(s, step) && !step.Reset?
    ensures step.t < |Next(s, step).0.pc|
    ensures Waiting(s.pc[step.t]) ==> Next(s, step).0.pc[step.t].Idle?
  {
    PoolSize(s, step);
  }

  // Only the first thread of a list is ever woken.
  lemma WokenWasFirst(s: Mq, step: Step, t: nat)
    requires Safe(s) && Enabled(s, step) && t < |s.pc|
    ensures t < |Next(s, step).0.pc|
    ensures s.pc[t].SendWait? && Next(s, step).0.pc[t].SendWoken? ==> s.core.sendWait != [] && t == s.core.sendWait[0]
    ensures s.pc[t].RecvWait? && Next(s, step).0.pc[t].RecvWoken? ==> s.core.recvWait != [] && t == s.core.recvWait[0]
  {
    hide Next, Safe, After, Enabled, SendersMove, ReceiversMove;
    CountedLive(s);
    NextWaits(s, step);
    if !step.Reset? {
      ActorWakesNot(s, step);
    }
  }

  lemma WaitersListed(s: Mq, u: nat)
    requires Safe(s) && u < |s.pc|
    ensures s.pc[u].SendWait? ==> u in s.core.sendWait
    ensures s.pc[u].RecvWait? ==> u in s.core.recvWait
  {
  }

  lemma NextWakesFirst(s: Mq, step: Step, prio: seq<nat>)
    requires Safe(s) && Enabled(s, step) && BothRanked(s, prio)
    ensures WakesMostUrgent(s, Next(s, step).0, prio)
  {
    hide Ranked, Next, Safe, Enabled;
    CountedLive(s);
    var n := Next(s, step).0;
    forall t: nat, u: nat | t < |s.pc| && u < |s.pc| && t < |n.pc|
      ensures s.pc[t].SendWait? && n.pc[t].SendWoken? && s.pc[u].SendWait? ==>
                t < |prio| && u < |prio| && prio[t] <= prio[u]
      ensures s.pc[t].RecvWait? && n.pc[t].RecvWoken? && s.pc[u].RecvWait? ==>
                t < |prio| && u < |prio| && prio[t] <= prio[u]
    {
      WokenWasFirst(s, step, t);
      WaitersListed(s, u);
      if s.pc[t].SendWait? && n.pc[t].SendWoken? && s.pc[u].SendWait? {
        FirstIsMostUrgent(prio, s.core.sendWait, u);
      }
      if s.pc[t].RecvWait? && n.pc[t].RecvWoken? && s.pc[u].RecvWait? {
        FirstIsMostUrgent(prio, s.core.recvWait, u);
      }
    }
  }

  /** In every run in which senders and receivers queue by priority, each node given back and each message linked
    * while threads are suspended wakes one that no thread waiting for the same is more urgent than. */
  lemma {:induction false} MostUrgentFirst(s: Mq, steps: seq<Step>, prio: seq<seq<nat>>)
    requires Safe(s) && Prioritised(s, steps, prio) && BothRanked(s, prio[0])
    ensures AlwaysMostUrgent(s, steps, prio)
    decreases |steps|
  {
    hide Safe, Ranked, ByPriority, WakesMostUrgent, Next, Enabled, SendersMove, ReceiversMove;
    CountedLive(s);
    if steps == [] {
    } else if Enabled(s, steps[0]) {
      var n := Next(s, steps[0]).0;
      NextSafe(s, steps[0]);
      NextWaits(s, steps[0]);
      NextWakesFirst(s, steps[0], prio[0]);
      MoveRanked(prio[0], s.core.sendWait, SendersMove(s, steps[0]));
      MoveRanked(prio[0], s.core.recvWait, ReceiversMove(s, steps[0]));
      SteadyRanked(prio[0], prio[1], n.core.sendWait);
      SteadyRanked(prio[0], prio[1], n.core.recvWait);
      MostUrgentFirst(n, steps[1..], prio[1..]);
    } else {
      SteadyRanked(prio[0], prio[1], s.core.sendWait);
      SteadyRanked(prio[0], prio[1], s.core.recvWait);
      MostUrgentFirst(s, steps[1..], prio[1..]);
    }
  }
}
