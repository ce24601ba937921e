/** Which threads the mailbox suspends, where it queues them, and which ones it resumes. */
module MailboxWaits {
  import opened Basics
  import opened WaitList
  import opened SuspendList
  import opened WaitOrder
  import opened MailboxModel
  import opened MailboxRuns

  predicate Full(s: Mb) { s.box.entry == s.box.size }

  // A mail is put into the box, or taken out of it, by this step.
  predicate Puts(s: Mb, step: Step)
    requires Enabled(s, step)
  {
    !Full(s) && (step.Send? || step.Urgent? || (step.Retry? && s.pc[step.t].SendWoken?))
  }

  predicate Takes(s: Mb, step: Step)
    requires Enabled(s, step)
  {
    s.box.entry > 0 && (step.Recv? || (step.Retry? && s.pc[step.t].RecvWoken?))
  }

  // What a step does to the list of suspended senders, and to that of suspended receivers.
  function SendersMove(s: Mb, step: Step): Move
    requires Enabled(s, step)
  {
    if Takes(s, step) then Pop
    else
      match step
      case Send(t, _, wait) => if Full(s) && wait.WaitAt? then Join(t, wait.pos) else Keep
      case Retry(t, wait) => if s.pc[t].SendWoken? && Full(s) && wait.WaitAt? then Join(t, wait.pos) else Keep
      case TimeOut(t) => Drop(t)
      case Reset => Clear
      case _ => Keep
  }

  function ReceiversMove(s: Mb, step: Step): Move
    requires Enabled(s, step)
  {
    if Puts(s, step) then Pop
    else
      match step
      case Recv(t, wait) => if s.box.entry == 0 && wait.WaitAt? then Join(t, wait.pos) else Keep
      case Retry(t, wait) =>
        if s.pc[t].RecvWoken? && s.box.entry == 0 && wait.WaitAt? then Join(t, wait.pos) else Keep
      case TimeOut(t) => Drop(t)
      case Reset => Clear
      case _ => Keep
  }

  predicate ActsFor(step: Step, u: nat) {
    !step.Urgent? && !step.Reset? && step.t == u
  }

  // The state of a thread that did not take the step itself.
  function Bystander(s: Mb, step: Step, u: nat): Pc
    requires Enabled(s, step) && u < |s.pc|
  {
    match s.pc[u]
    case SendWait(mail) =>
      if step.Reset? then Dismissed
      else if Takes(s, step) && s.sendWait != [] && u == s.sendWait[0] then SendWoken(mail)
      else s.pc[u]
    case RecvWait =>
      if step.Reset? then Dismissed
      else if Puts(s, step) && s.recvWait != [] && u == s.recvWait[0] then RecvWoken
      else s.pc[u]
    case _ => s.pc[u]
  }

  // The state of the thread that took it: suspended with what it wants if it joined a list, and out of its call
  // otherwise.
  function ActorAfter(s: Mb, step: Step): Pc
    requires Enabled(s, step) && !step.Urgent? && !step.Reset?
  {
    if SendersMove(s, step).Join? then SendWait(if step.Send? then step.mail else s.pc[step.t].mail)
    else if ReceiversMove(s, step).Join? then RecvWait
    else Idle
  }

  ghost predicate WaitsExact(s: Mb, n: Mb, step: Step)
    requires Enabled(s, step)
  {
    && Fits(s.sendWait, SendersMove(s, step)) && Fits(s.recvWait, ReceiversMove(s, step))
    && n.sendWait == After(s.sendWait, SendersMove(s, step))
    && n.recvWait == After(s.recvWait, ReceiversMove(s, step))
    && |n.pc| == |s.pc|
    && forall u :: 0 <= u < |s.pc| ==> n.pc[u] == if ActsFor(step, u) then ActorAfter(s, step) else Bystander(s, step, u)
  }

  lemma RunnerNotListed(s: Mb, t: nat)
    requires Listed(s) && t < |s.pc| && !s.pc[t].SendWait? && !s.pc[t].RecvWait?
    ensures t !in s.sendWait && t !in s.recvWait
  {
  }

  lemma SendWaits(s: Mb, step: Step)
    requires Safe(s) && Enabled(s, step) && (step.Send? || (step.Retry? && s.pc[step.t].SendWoken?))
    ensures WaitsExact(s, Next(s, step).0, step)
  {
    hide InsertAt, NoLostWakeUp, Queue;
    RunnerNotListed(s, step.t);
    HeadsWait(s);
    if !Full(s) {
      PutTailAppends(s.box, if step.Send? then step.mail else s.pc[step.t].mail);
    }
    hide Safe, Listed;
  }

  lemma RecvWaits(s: Mb, step: Step)
    requires Safe(s) && Enabled(s, step) && (step.Recv? || (step.Retry? && s.pc[step.t].RecvWoken?))
    ensures WaitsExact(s, Next(s, step).0, step)
  {
    hide InsertAt, NoLostWakeUp;
    RunnerNotListed(s, step.t);
    HeadsWait(s);
    hide Safe, Listed;
  }

  lemma OtherWaits(s: Mb, step: Step)
    requires Safe(s) && Enabled(s, step) && !step.Send? && !step.Recv? && !step.Retry?
    ensures WaitsExact(s, Next(s, step).0, step)
  {
    hide InsertAt, NoLostWakeUp, Remove;
    HeadsWait(s);
    hide Safe, Listed;
  }

  /** After any step: the senders' list has lost its first thread iff a mail was taken out, the receivers' list
    * iff one was put in, at either end; exactly that thread has been woken. A thread that finds the box full, or
    * empty, and may wait, joins the list at its place. Nobody else moves, but at a time-out or a reset. */
  lemma NextWaits(s: Mb, step: Step)
    requires Safe(s) && Enabled(s, step)
    ensures WaitsExact(s, Next(s, step).0, step)
  {
    hide WaitsExact, Next, Safe;
    OkNow(s);
    match step
    case Send(_, _, _) => SendWaits(s, step);
    case Recv(_, _) => RecvWaits(s, step);
    case Retry(t, _) => if s.pc[t].SendWoken? { SendWaits(s, step); } else { RecvWaits(s, step); }
    case _ => OtherWaits(s, step);
  }

  /* ---------- priorities ---------- */

  // The priorities at each step of a run: everybody queues by priority and keeps it while suspended.
  ghost predicate Prioritised(s: Mb, steps: seq<Step>, prio: seq<seq<nat>>)
    requires Safe(s)
    decreases |steps|
  {
    |prio| == |steps| + 1
    && (steps != [] ==>
          if Enabled(s, steps[0]) then
            NextSafe(s, steps[0]);
            var n := Next(s, steps[0]).0;
            && ByPriority(prio[0], s.sendWait, SendersMove(s, steps[0]))
            && ByPriority(prio[0], s.recvWait, ReceiversMove(s, steps[0]))
            && Steady(prio[0], prio[1], n.sendWait) && Steady(prio[0], prio[1], n.recvWait)
            && Prioritised(n, steps[1..], prio[1..])
          else
            && Steady(prio[0], prio[1], s.sendWait) && Steady(prio[0], prio[1], s.recvWait)
            && Prioritised(s, steps[1..], prio[1..]))
  }

  // Nobody who waits for the same thing is more urgent than a thread that is woken.
  ghost predicate WakesMostUrgent(s: Mb, n: Mb, prio: seq<nat>) {
    forall t: nat, u: nat :: t < |s.pc| && t < |n.pc| && u < |s.pc| ==>
      && (s.pc[t].SendWait? && n.pc[t].SendWoken? && s.pc[u].SendWait? ==> t < |prio| && u < |prio| && prio[t] <= prio[u])
      && (s.pc[t].RecvWait? && n.pc[t].RecvWoken? && s.pc[u].RecvWait? ==> t < |prio| && u < |prio| && prio[t] <= prio[u])
  }

  ghost predicate AlwaysMostUrgent(s: Mb, steps: seq<Step>, prio: seq<seq<nat>>)
    requires Safe(s) && |prio| == |steps| + 1
    decreases |steps|
  {
    if steps == [] then true
    else if Enabled(s, steps[0]) then
      NextSafe(s, steps[0]);
      var n := Next(s, steps[0]).0;
      WakesMostUrgent(s, n, prio[0]) && AlwaysMostUrgent(n, steps[1..], prio[1..])
    else AlwaysMostUrgent(s, steps[1..], prio[1..])
  }

  ghost predicate BothRanked(s: Mb, prio: seq<nat>) {
    Ranked(prio, s.sendWait) && Ranked(prio, s.recvWait)
  }

  // Only the first thread of a list is ever woken.
  lemma WokenWasFirst(s: Mb, step: Step, t: nat)
    requires Safe(s) && Enabled(s, step) && t < |s.pc|
    ensures t < |Next(s, step).0.pc|
    ensures s.pc[t].SendWait? && Next(s, step).0.pc[t].SendWoken? ==> s.sendWait != [] && t == s.sendWait[0]
    ensures s.pc[t].RecvWait? && Next(s, step).0.pc[t].RecvWoken? ==> s.recvWait != [] && t == s.recvWait[0]
  {
    hide Next, Safe, After, Enabled, SendersMove, ReceiversMove;
    OkNow(s);
    NextWaits(s, step);
  }

  lemma WaitersListed(s: Mb, u: nat)
    requires Safe(s) && u < |s.pc|
    ensures s.pc[u].SendWait? ==> u in s.sendWait
    ensures s.pc[u].RecvWait? ==> u in s.recvWait
  {
  }

  lemma NextWakesFirst(s: Mb, step: Step, prio: seq<nat>)
    requires Safe(s) && Enabled(s, step) && BothRanked(s, prio)
    ensures WakesMostUrgent(s, Next(s, step).0, prio)
  {
    hide Ranked, Next, Safe, Enabled;
    OkNow(s);
    var n := Next(s, step).0;
    forall t: nat, u: nat | t < |s.pc| && u < |s.pc| && t < |n.pc|
      ensures s.pc[t].SendWait? && n.pc[t].SendWoken? && s.pc[u].SendWait? ==>
                t < |prio| && u < |prio| && prio[t] <= prio[u]
      ensures s.pc[t].RecvWait? && n.pc[t].RecvWoken? && s.pc[u].RecvWait? ==>
                t < |prio| && u < |prio| && prio[t] <= prio[u]
    {
      WokenWasFirst(s, step, t);
      WaitersListed(s, u);
      if s.pc[t].SendWait? && n.pc[t].SendWoken? && s.pc[u].SendWait? {
        FirstIsMostUrgent(prio, s.sendWait, u);
      }
      if s.pc[t].RecvWait? && n.pc[t].RecvWoken? && s.pc[u].RecvWait? {
        FirstIsMostUrgent(prio, s.recvWait, u);
      }
    }
  }

  /** In every run in which senders and receivers queue by priority, each mail that comes or goes while threads
    * are suspended wakes one that no thread waiting for the same is more urgent than. */
  lemma {:induction false} MostUrgentFirst(s: Mb, steps: seq<Step>, prio: seq<seq<nat>>)
    requires Safe(s) && Prioritised(s, steps, prio) && BothRanked(s, prio[0])
    ensures AlwaysMostUrgent(s, steps, prio)
    decreases |steps|
  {
    hide Safe, Ranked, ByPriority, WakesMostUrgent, Next, Enabled, SendersMove, ReceiversMove;
    OkNow(s);
    if steps == [] {
    } else if Enabled(s, steps[0]) {
      var n := Next(s, steps[0]).0;
      NextSafe(s, steps[0]);
      NextWaits(s, steps[0]);
      NextWakesFirst(s, steps[0], prio[0]);
      MoveRanked(prio[0], s.sendWait, SendersMove(s, steps[0]));
      MoveRanked(prio[0], s.recvWait, ReceiversMove(s, steps[0]));
      SteadyRanked(prio[0], prio[1], n.sendWait);
      SteadyRanked(prio[0], prio[1], n.recvWait);
      MostUrgentFirst(n, steps[1..], prio[1..]);
    } else {
      SteadyRanked(prio[0], prio[1], s.sendWait);
      SteadyRanked(prio[0], prio[1], s.recvWait);
      MostUrgentFirst(s, steps[1..], prio[1..]);
    }
  }
}
