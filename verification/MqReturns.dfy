// What the calls of the message queue return, and how far the value of a receive is the length of a message.
module MqReturns {
  import opened Basics
  import opened WaitList
  import opened SuspendList
  import opened MqModel
  import opened MqKeeps
  import opened MqRuns

  // What the documentation of the receive calls promises: a positive value is the length of a message.
  predicate PositiveIsLength(answer: Answer)
    requires !answer.Nothing?
  {
    ReturnValue(answer) > 0 ==> answer.Delivered? && ReturnValue(answer) == |answer.bytes|
  }

  /** The promise holds for every step that ends a call, except exactly for a thread that leaves after a
    * reset has resumed it: that one returns a positive value with nothing copied. */
  lemma PositiveIsLengthIff(s: Mq, step: Step)
    requires Safe(s) && Enabled(s, step) && !Next(s, step).1.Nothing?
    ensures PositiveIsLength(Next(s, step).1) <==> !step.Leave?
    ensures step.Return? ==> ReturnValue(Next(s, step).1) > 0
  {
    hide Conserved, AllPresent, Listed, NoLostWakeUp, Sound, LinkNode, PutFree, Wake, TrySend, TryRecv;
    match step
    case Return(t) => LengthPositive(s, t);
    case Send(t, msg, wait) =>
      if |msg| <= s.msgSize { TryAnswers(s, t, msg, 1, wait); }
    case Recv(t, size, wait) => TryAnswers(s, t, [], size, wait);
    case Retry(t, wait) =>
      if s.pc[t].SendWoken? {
        TryAnswers(s, t, s.pc[t].msg, 1, wait);
      } else {
        TryAnswers(s, t, [], s.pc[t].size, wait);
      }
    case _ =>
  }

  /** A call returns zero exactly when it ends by linking its message, and a negative value exactly when it ends
    * neither so, nor by handing over a message, nor after a reset. */
  lemma ZeroIffLinked(s: Mq, step: Step)
    requires Safe(s) && Enabled(s, step) && !Next(s, step).1.Nothing?
    ensures ReturnValue(Next(s, step).1) == 0 <==> step.Link?
    ensures ReturnValue(Next(s, step).1) < 0 <==> !step.Link? && !step.Return? && !step.Leave?
  {
    hide Conserved, AllPresent, Listed, NoLostWakeUp, Sound, LinkNode, PutFree, Wake, TrySend, TryRecv;
    match step
    case Link(t) => RoomToLink(s, t);
    case Return(t) => LengthPositive(s, t);
    case Send(t, msg, wait) =>
      if |msg| <= s.msgSize { TryAnswers(s, t, msg, 1, wait); }
    case Recv(t, size, wait) => TryAnswers(s, t, [], size, wait);
    case Retry(t, wait) =>
      if s.pc[t].SendWoken? {
        TryAnswers(s, t, s.pc[t].msg, 1, wait);
      } else {
        TryAnswers(s, t, [], s.pc[t].size, wait);
      }
    case _ =>
  }

  lemma LengthPositive(s: Mq, t: nat)
    requires Sound(s) && Enabled(s, Return(t))
    ensures |s.pc[t].got| > 0
  {
    SoundAt(s, t);
  }

  lemma TryAnswers(s: Mq, t: nat, msg: seq<byte>, size: nat, wait: Patience)
    requires Safe(s) && t < |s.pc|
    ensures WaitFits(wait, s.core.sendWait) ==>
              TrySend(s, t, msg, wait).1.Nothing? || TrySend(s, t, msg, wait).1.Failed?
    ensures WaitFits(wait, s.core.recvWait) ==>
              TryRecv(s, t, size, wait).1.Nothing? || TryRecv(s, t, size, wait).1.Failed?
  {
    hide Conserved, Listed, NoLostWakeUp, Sound, InsertAt;
  }

  ghost predicate NobodyDismissed(s: Mq) {
    forall t :: 0 <= t < |s.pc| ==> !s.pc[t].Dismissed?
  }

  // Waking turns waiting threads into woken ones.
  lemma WakeDismisses(pc: seq<Pc>, who: Option<nat>, t: nat)
    requires t < |pc|
    ensures Wake(pc, who)[t].Dismissed? <==> pc[t].Dismissed?
  {
  }

  /** A thread is dismissed after a step iff it was before and did not leave, or the step is a reset that
    * found it waiting. */
  lemma NextDismissedIff(s: Mq, step: Step, t: nat)
    requires Safe(s) && Enabled(s, step) && t < |s.pc|
    ensures |Next(s, step).0.pc| == |s.pc|
    ensures Next(s, step).0.pc[t].Dismissed?
       <==> (s.pc[t].Dismissed? && step != Leave(t)) || (step.Reset? && Waiting(s.pc[t]))
  {
    hide Conserved, AllPresent, Listed, NoLostWakeUp, Sound, LinkNode, PutFree, InsertAt, Remove, Wake;
    PoolSize(s, step);
    match step
    case Link(u) => WakeDismisses(s.pc[u := Idle], LinkNode(s.core, s.pc[u].node, s.pc[u].urgent).2, t);
    case Return(u) => WakeDismisses(s.pc[u := Idle], PutFree(s.core, s.pc[u].node).1, t);
    case _ =>
  }

  // Every positive value returned in the run is the length of a message.
  ghost predicate PromiseKept(s: Mq, steps: seq<Step>)
    requires Safe(s)
    decreases |steps|
  {
    if steps == [] then true
    else if Enabled(s, steps[0]) then
      NextSafe(s, steps[0]);
      var (n, answer) := Next(s, steps[0]);
      (answer.Nothing? || PositiveIsLength(answer)) && PromiseKept(n, steps[1..])
    else PromiseKept(s, steps[1..])
  }

  // No reset of the run finds a thread waiting.
  ghost predicate QuietResets(s: Mq, steps: seq<Step>)
    requires Safe(s)
    decreases |steps|
  {
    if steps == [] then true
    else if Enabled(s, steps[0]) then
      NextSafe(s, steps[0]);
      && (steps[0].Reset? ==> forall t :: 0 <= t < |s.pc| ==> !Waiting(s.pc[t]))
      && QuietResets(Next(s, steps[0]).0, steps[1..])
    else QuietResets(s, steps[1..])
  }

  lemma LeaveBreaks(s: Mq, step: Step)
    requires Safe(s) && Enabled(s, step)
    ensures Next(s, step).1.Nothing? || PositiveIsLength(Next(s, step).1) <==> !step.Leave?
  {
    hide Safe;
    CountedLive(s);
    if !step.Leave? && !Next(s, step).1.Nothing? {
      PositiveIsLengthIff(s, step);
    }
  }

  // A dismissed thread has to leave to stop being one, and that breaks the promise.
  lemma {:induction false} DismissedMustLeave(s: Mq, steps: seq<Step>, t: nat)
    requires Safe(s) && t < |s.pc| && s.pc[t].Dismissed?
    requires NobodyDismissed(Run(s, steps))
    ensures !PromiseKept(s, steps)
    decreases |steps|
  {
    hide Safe, Next, Enabled, PositiveIsLength;
    CountedLive(s);
    if steps == [] {
    } else if Enabled(s, steps[0]) {
      NextSafe(s, steps[0]);
      NextDismissedIff(s, steps[0], t);
      LeaveBreaks(s, steps[0]);
      if steps[0] != Leave(t) {
        DismissedMustLeave(Next(s, steps[0]).0, steps[1..], t);
      }
    } else {
      DismissedMustLeave(s, steps[1..], t);
    }
  }

  /** Over runs at whose ends every dismissed thread has left: the promise holds throughout if and only if
    * no reset found a thread waiting. */
  lemma {:induction false} EveryRunKeepsPromiseIff(s: Mq, steps: seq<Step>)
    requires Safe(s) && NobodyDismissed(s) && NobodyDismissed(Run(s, steps))
    ensures PromiseKept(s, steps) <==> QuietResets(s, steps)
    decreases |steps|
  {
    hide Safe, Next, Enabled, PositiveIsLength, NobodyDismissed;
    CountedLive(s);
    if steps == [] {
    } else if Enabled(s, steps[0]) {
      var n := Next(s, steps[0]).0;
      NextSafe(s, steps[0]);
      LeaveBreaks(s, steps[0]);
      NoLeave(s, steps[0]);
      if steps[0].Reset? && exists t :: 0 <= t < |s.pc| && Waiting(s.pc[t]) {
        var t :| 0 <= t < |s.pc| && Waiting(s.pc[t]);
        NextDismissedIff(s, steps[0], t);
        DismissedMustLeave(n, steps[1..], t);
      } else {
        StaysUndismissed(s, steps[0]);
        EveryRunKeepsPromiseIff(n, steps[1..]);
      }
    } else {
      EveryRunKeepsPromiseIff(s, steps[1..]);
    }
  }

  lemma NoLeave(s: Mq, step: Step)
    requires Enabled(s, step) && NobodyDismissed(s)
    ensures !step.Leave?
  {
  }

  lemma StaysUndismissed(s: Mq, step: Step)
    requires Safe(s) && Enabled(s, step) && NobodyDismissed(s)
    requires step.Reset? ==> forall t :: 0 <= t < |s.pc| ==> !Waiting(s.pc[t])
    ensures NobodyDismissed(Next(s, step).0)
  {
    hide Safe, Next, Enabled;
    CountedLive(s);
    PoolSize(s, step);
    forall t | 0 <= t < |Next(s, step).0.pc|
      ensures !Next(s, step).0.pc[t].Dismissed?
    {
      NextDismissedIff(s, step, t);
    }
  }

  /** In particular it holds in every run without resets. */
  lemma {:induction false} NoResetNoDismissal(s: Mq, steps: seq<Step>)
    requires Safe(s) && NobodyDismissed(s)
    requires forall k :: 0 <= k < |steps| ==> !steps[k].Reset?
    ensures NobodyDismissed(Run(s, steps)) && PromiseKept(s, steps)
    decreases |steps|
  {
    hide Safe, Next, Enabled, NobodyDismissed, PositiveIsLength;
    CountedLive(s);
    if steps == [] {
    } else if Enabled(s, steps[0]) {
      NextSafe(s, steps[0]);
      StaysUndismissed(s, steps[0]);
      LeaveBreaks(s, steps[0]);
      NoLeave(s, steps[0]);
      NoResetNoDismissal(Next(s, steps[0]).0, steps[1..]);
    } else {
      NoResetNoDismissal(s, steps[1..]);
    }
  }

  /** A receiver suspended on an empty queue that is then reset gets 1, the length of no message. */
  lemma ResetLooksLikeAByte(nodes: nat)
    requires nodes <= ENTRY_MAX
    ensures var s0 := Start(8, nodes, 1);
            && Safe(s0) && Enabled(s0, Recv(0, 4, WaitAt(0)))
            && var s1 := Next(s0, Recv(0, 4, WaitAt(0))).0;
               && Enabled(s1, Reset) && s1.core.entry == 0
               && var s2 := Next(s1, Reset).0;
                  && Enabled(s2, Leave(0)) && s2.core.entry == 0
                  && Next(s2, Leave(0)).1 == ResetError
                  && ReturnValue(ResetError) == 1
  {
    StartSafe(8, nodes, 1);
  }
}
