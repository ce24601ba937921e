// Runs of the mailbox: a bounded double-ended queue that loses no wake-up.
module MailboxRuns {
  import opened Basics
  import opened SuspendList
  import opened MailboxModel

  lemma WokenUpdate(pc: seq<Pc>, t: nat, p: Pc)
    requires t < |pc|
    ensures WokenRecvs(pc[t := p])
         == WokenRecvs(pc) - (if pc[t].RecvWoken? then 1 else 0) + (if p.RecvWoken? then 1 else 0)
    ensures WokenSends(pc[t := p])
         == WokenSends(pc) - (if pc[t].SendWoken? then 1 else 0) + (if p.SendWoken? then 1 else 0)
  {
    SumUpdate(RecvMarks(pc), t, if p.RecvWoken? then 1 else 0);
    assert RecvMarks(pc[t := p]) == RecvMarks(pc)[t := if p.RecvWoken? then 1 else 0];
    SumUpdate(SendMarks(pc), t, if p.SendWoken? then 1 else 0);
    assert SendMarks(pc[t := p]) == SendMarks(pc)[t := if p.SendWoken? then 1 else 0];
  }

  // The heads of the wait lists are waiting threads.
  lemma HeadsWait(s: Mb)
    requires Listed(s)
    ensures s.recvWait != [] ==> s.recvWait[0] < |s.pc| && s.pc[s.recvWait[0]].RecvWait?
    ensures s.sendWait != [] ==> s.sendWait[0] < |s.pc| && s.pc[s.sendWait[0]].SendWait?
  {
    assert s.recvWait != [] ==> s.recvWait[0] in s.recvWait;
    assert s.sendWait != [] ==> s.sendWait[0] in s.sendWait;
  }

  lemma WakeListed(s: Mb)
    requires Listed(s)
    ensures Listed(WakeRecv(s)) && Listed(WakeSend(s))
  {
    HeadsWait(s);
    if s.recvWait != [] {
      FrontOut(s.recvWait);
    }
    if s.sendWait != [] {
      FrontOut(s.sendWait);
    }
  }

  lemma MoveListed(s: Mb, t: nat, p: Pc)
    requires Listed(s) && t < |s.pc| && !s.pc[t].RecvWait? && !s.pc[t].SendWait?
    requires !p.RecvWait? && !p.SendWait?
    ensures Listed(s.(pc := s.pc[t := p]))
  {
  }

  lemma SuspendListed(s: Mb, t: nat, mail: Mail, pos: nat)
    requires Listed(s) && t < |s.pc| && !s.pc[t].RecvWait? && !s.pc[t].SendWait?
    ensures pos <= |s.sendWait| ==>
              Listed(s.(sendWait := InsertAt(s.sendWait, pos, t), pc := s.pc[t := SendWait(mail)]))
    ensures pos <= |s.recvWait| ==>
              Listed(s.(recvWait := InsertAt(s.recvWait, pos, t), pc := s.pc[t := RecvWait]))
  {
    hide InsertAt;
    if pos <= |s.sendWait| {
      InsertedInto(s.sendWait, pos, t);
    }
    if pos <= |s.recvWait| {
      InsertedInto(s.recvWait, pos, t);
    }
  }

  lemma BoxListed(s: Mb, b: Box)
    requires Listed(s)
    ensures Listed(s.(box := b))
  {
  }

  // A mail arrives: either a receiver is woken for it or none was suspended.
  lemma ArrivalSafe(s: Mb, b: Box)
    requires Listed(s) && Ok(b) && b.size == s.box.size && b.entry == s.box.entry + 1
    requires s.recvWait != [] ==> s.box.entry <= WokenRecvs(s.pc)
    requires s.sendWait != [] ==> s.box.size - b.entry <= WokenSends(s.pc)
    ensures Safe(WakeRecv(s.(box := b)))
  {
    hide Ok, Listed, WokenRecvs, WokenSends;
    HeadsWait(s);
    BoxListed(s, b);
    WakeListed(s.(box := b));
    if s.recvWait != [] {
      WokenUpdate(s.pc, s.recvWait[0], RecvWoken);
    }
  }

  lemma DepartureSafe(s: Mb, b: Box)
    requires Listed(s) && Ok(b) && b.size == s.box.size && b.entry + 1 == s.box.entry
    requires s.recvWait != [] ==> b.entry <= WokenRecvs(s.pc)
    requires s.sendWait != [] ==> s.box.size - s.box.entry <= WokenSends(s.pc)
    ensures Safe(WakeSend(s.(box := b)))
  {
    hide Ok, Listed, WokenRecvs, WokenSends;
    HeadsWait(s);
    BoxListed(s, b);
    WakeListed(s.(box := b));
    if s.sendWait != [] {
      WokenUpdate(s.pc, s.sendWait[0], SendWoken(s.pc[s.sendWait[0]].mail));
    }
  }

  lemma TrySendSafe(s: Mb, t: nat, mail: Mail, wait: Patience)
    requires Safe(s) && t < |s.pc| && WaitFits(wait, s.sendWait)
    requires s.pc[t].Idle? || s.pc[t].SendWoken?
    ensures Safe(TrySend(s, t, mail, wait).0)
  {
    hide Listed, WokenRecvs, WokenSends, WakeRecv, InsertAt;
    WokenUpdate(s.pc, t, SendWait(mail));
    WokenUpdate(s.pc, t, Idle);
    MoveListed(s, t, Idle);
    if s.box.entry < s.box.size {
      PutTailAppends(s.box, mail);
      ArrivalSafe(s.(pc := s.pc[t := Idle]), PutTail(s.box, mail).0);
    } else if wait.WaitAt? {
      SuspendListed(s, t, mail, wait.pos);
    }
  }

  lemma TryRecvSafe(s: Mb, t: nat, wait: Patience)
    requires Safe(s) && t < |s.pc| && WaitFits(wait, s.recvWait)
    requires s.pc[t].Idle? || s.pc[t].RecvWoken?
    ensures Safe(TryRecv(s, t, wait).0)
  {
    hide Listed, WokenRecvs, WokenSends, WakeSend, InsertAt;
    WokenUpdate(s.pc, t, RecvWait);
    WokenUpdate(s.pc, t, Idle);
    MoveListed(s, t, Idle);
    if s.box.entry > 0 {
      TakeHeadPops(s.box);
      DepartureSafe(s.(pc := s.pc[t := Idle]), TakeHead(s.box).0);
    } else if wait.WaitAt? {
      SuspendListed(s, t, 0, wait.pos);
    }
  }

  lemma TimeOutSafe(s: Mb, t: nat)
    requires Safe(s) && Enabled(s, TimeOut(t))
    ensures Safe(Next(s, TimeOut(t)).0)
  {
    hide WokenRecvs, WokenSends;
    TakenOut(s.recvWait, t);
    TakenOut(s.sendWait, t);
    WokenUpdate(s.pc, t, Idle);
  }

  lemma LeaveSafe(s: Mb, t: nat)
    requires Safe(s) && Enabled(s, Leave(t))
    ensures Safe(Next(s, Leave(t)).0)
  {
    hide WokenRecvs, WokenSends, Listed;
    MoveListed(s, t, Idle);
    WokenUpdate(s.pc, t, Idle);
  }

  /** Every step keeps the invariant: valid offsets, exact wait lists, no lost wake-up. */
  lemma NextSafe(s: Mb, step: Step)
    requires Safe(s) && Enabled(s, step)
    ensures Safe(Next(s, step).0)
  {
    hide NoLostWakeUp, Listed, TrySend, TryRecv, WakeRecv, InsertAt;
    match step
    case Send(t, mail, wait) => TrySendSafe(s, t, mail, wait);
    case Urgent(mail) =>
      if s.box.entry < s.box.size {
        UrgentSafe(s, mail);
      }
    case Recv(t, wait) => TryRecvSafe(s, t, wait);
    case Retry(t, wait) =>
      if s.pc[t].SendWoken? {
        TrySendSafe(s, t, s.pc[t].mail, wait);
      } else {
        TryRecvSafe(s, t, wait);
      }
    case TimeOut(t) => TimeOutSafe(s, t);
    case Leave(t) => LeaveSafe(s, t);
    case Reset => ResetSafe(s);
  }

  lemma UrgentSafe(s: Mb, mail: Mail)
    requires Safe(s) && s.box.entry < s.box.size
    ensures Safe(WakeRecv(s.(box := PutHead(s.box, mail))))
  {
    hide Listed, WokenRecvs, WokenSends, WakeRecv;
    PutHeadPrepends(s.box, mail);
    ArrivalSafe(s, PutHead(s.box, mail));
  }

  lemma ResetSafe(s: Mb)
    requires Safe(s)
    ensures Safe(Next(s, Reset).0)
  {
  }

  ghost function Run(s: Mb, steps: seq<Step>): (end: Mb)
    requires Safe(s)
    ensures Safe(end)
    decreases |steps|
  {
    if steps == [] then s
    else if Enabled(s, steps[0]) then
      NextSafe(s, steps[0]);
      Run(Next(s, steps[0]).0, steps[1..])
    else Run(s, steps[1..])
  }

  lemma StartSafe(pool: seq<Mail>, size: nat, threads: nat)
    requires size <= ENTRY_MAX && size <= |pool|
    ensures Safe(Start(pool, size, threads))
    ensures Queue(Start(pool, size, threads).box) == []
  {
  }

  /** In every reachable state of a mailbox of any size the offsets agree with the counter, and a thread
    * sleeps only while the others already woken will use up what is there. */
  lemma EveryRunSafe(pool: seq<Mail>, size: nat, threads: nat, steps: seq<Step>)
    requires size <= ENTRY_MAX && size <= |pool|
    ensures Safe(Start(pool, size, threads))
    ensures var s := Run(Start(pool, size, threads), steps);
            && s.box.entry <= s.box.size
            && (s.box.size > 0 ==> (s.box.outOff + s.box.entry) % s.box.size == s.box.inOff)
            && (s.recvWait != [] ==> s.box.entry <= WokenRecvs(s.pc))
            && (s.sendWait != [] ==> s.box.size - s.box.entry <= WokenSends(s.pc))
  {
    StartSafe(pool, size, threads);
    var s := Run(Start(pool, size, threads), steps);
    if s.box.size > 0 {
      OffsetsMeet(s.box);
    }
  }

  // The bounded double-ended queue: what a step does to the mails alone, and its answer.
  predicate DequeStep(q: seq<Mail>, r: seq<Mail>, cap: nat, step: Step, p: Pc, answer: Answer) {
    match step
    case Send(t, mail, wait) => SendStep(q, r, cap, mail, wait, answer)
    case Urgent(mail) => if |q| < cap then r == [mail] + q && answer == Accepted else r == q && answer == Failed
    case Recv(t, wait) => RecvStep(q, r, wait, answer)
    case Retry(t, wait) =>
      if p.SendWoken? then SendStep(q, r, cap, p.mail, wait, answer) else RecvStep(q, r, wait, answer)
    case TimeOut(t) => r == q && answer == Failed
    case Leave(t) => r == q && answer == ResetError
    case Reset => r == [] && answer == Nothing
  }

  predicate SendStep(q: seq<Mail>, r: seq<Mail>, cap: nat, mail: Mail, wait: Patience, answer: Answer) {
    if |q| < cap then r == q + [mail] && answer == Accepted
    else r == q && answer == if wait.NoWait? then Failed else Nothing
  }

  predicate RecvStep(q: seq<Mail>, r: seq<Mail>, wait: Patience, answer: Answer) {
    if q != [] then answer == Received(q[0]) && r == q[1..]
    else r == q && answer == if wait.NoWait? then Failed else Nothing
  }

  // The state of the thread that takes the step.
  function Actor(s: Mb, step: Step): Pc {
    if step.Retry? && step.t < |s.pc| then s.pc[step.t] else Idle
  }

  /** The circular buffer does what the bounded deque does. */
  lemma NextRefines(s: Mb, step: Step)
    requires Safe(s) && Enabled(s, step)
    ensures var (n, answer) := Next(s, step);
            && Ok(n.box) && n.box.size == s.box.size
            && DequeStep(Queue(s.box), Queue(n.box), s.box.size, step, Actor(s, step), answer)
  {
    hide Listed, NoLostWakeUp, InsertAt, Ok, Queue, TrySend, TryRecv, SendStep, RecvStep;
    NextSafe(s, step);
    match step
    case Send(t, mail, wait) => TrySendRefines(s, t, mail, wait);
    case Urgent(mail) => UrgentRefines(s, mail);
    case Recv(t, wait) => TryRecvRefines(s, t, wait);
    case Retry(t, wait) =>
      if s.pc[t].SendWoken? {
        TrySendRefines(s, t, s.pc[t].mail, wait);
      } else {
        TryRecvRefines(s, t, wait);
      }
    case TimeOut(t) =>
    case Leave(t) =>
    case Reset => EmptyBox(s.box);
  }

  lemma UrgentRefines(s: Mb, mail: Mail)
    requires Ok(s.box)
    ensures var (n, answer) := Next(s, Urgent(mail));
            && Ok(n.box) && n.box.size == s.box.size
            && DequeStep(Queue(s.box), Queue(n.box), s.box.size, Urgent(mail), Idle, answer)
  {
    hide WakeRecv;
    if s.box.entry < s.box.size {
      PutHeadPrepends(s.box, mail);
      WakeKeepsBox(s.(box := PutHead(s.box, mail)));
    }
  }

  lemma EmptyBox(b: Box)
    requires Ok(b)
    ensures var c := b.(inOff := 0, outOff := 0, entry := 0); Ok(c) && Queue(c) == []
  {
  }

  lemma WakeKeepsBox(s: Mb)
    ensures WakeRecv(s).box == s.box && WakeSend(s).box == s.box
  {
  }

  lemma TrySendRefines(s: Mb, t: nat, mail: Mail, wait: Patience)
    requires Ok(s.box) && t < |s.pc| && WaitFits(wait, s.sendWait)
    ensures var (n, answer) := TrySend(s, t, mail, wait);
            Ok(n.box) && n.box.size == s.box.size
            && SendStep(Queue(s.box), Queue(n.box), s.box.size, mail, wait, answer)
  {
    hide WakeRecv, InsertAt;
    if s.box.entry < s.box.size {
      PutTailAppends(s.box, mail);
      WakeKeepsBox(s.(box := PutTail(s.box, mail).0, pc := s.pc[t := Idle]));
    }
  }

  lemma TryRecvRefines(s: Mb, t: nat, wait: Patience)
    requires Ok(s.box) && t < |s.pc| && WaitFits(wait, s.recvWait)
    ensures var (n, answer) := TryRecv(s, t, wait);
            Ok(n.box) && n.box.size == s.box.size
            && RecvStep(Queue(s.box), Queue(n.box), wait, answer)
  {
    hide WakeSend, InsertAt;
    if s.box.entry > 0 {
      TakeHeadPops(s.box);
      WakeKeepsBox(s.(box := TakeHead(s.box).0, pc := s.pc[t := Idle]));
    }
  }

  // Mails put at the tail, and received, by one step and over a run.
  function SentBy(s: Mb, step: Step): seq<Mail> {
    if s.box.entry >= s.box.size then []
    else if step.Send? then [step.mail]
    else if Actor(s, step).SendWoken? then [Actor(s, step).mail]
    else []
  }

  function ReceivedBy(s: Mb, step: Step): seq<Mail>
    requires Ok(s.box)
  {
    if s.box.entry > 0 && (step.Recv? || Actor(s, step).RecvWoken?) then [Queue(s.box)[0]] else []
  }

  ghost function Sent(s: Mb, steps: seq<Step>): seq<Mail>
    requires Safe(s)
    decreases |steps|
  {
    if steps == [] then []
    else if Enabled(s, steps[0]) then
      NextSafe(s, steps[0]);
      SentBy(s, steps[0]) + Sent(Next(s, steps[0]).0, steps[1..])
    else Sent(s, steps[1..])
  }

  ghost function Got(s: Mb, steps: seq<Step>): seq<Mail>
    requires Safe(s)
    decreases |steps|
  {
    if steps == [] then []
    else if Enabled(s, steps[0]) then
      NextSafe(s, steps[0]);
      ReceivedBy(s, steps[0]) + Got(Next(s, steps[0]).0, steps[1..])
    else Got(s, steps[1..])
  }

  lemma StepInOrder(s: Mb, step: Step)
    requires Safe(s) && Enabled(s, step) && !step.Urgent? && !step.Reset?
    ensures var n := Next(s, step).0;
            Ok(n.box) && ReceivedBy(s, step) + Queue(n.box) == Queue(s.box) + SentBy(s, step)
  {
    hide Safe, Next, Queue;
    OkNow(s);
    NextRefines(s, step);
  }

  lemma OkNow(s: Mb)
    requires Safe(s)
    ensures Ok(s.box)
  {
  }

  /** Over any run without urgent mails and resets: the mails received, followed by those still in the
    * box, are those in it before followed by those sent. */
  lemma {:induction false} ReceivedInOrder(s: Mb, steps: seq<Step>)
    requires Safe(s)
    requires forall k :: 0 <= k < |steps| ==> !steps[k].Urgent? && !steps[k].Reset?
    ensures Got(s, steps) + Queue(Run(s, steps).box) == Queue(s.box) + Sent(s, steps)
    decreases |steps|
  {
    hide Listed, NoLostWakeUp, Ok, Next, Enabled, Queue, SentBy, ReceivedBy;
    if steps == [] {
    } else if Enabled(s, steps[0]) {
      var n := Next(s, steps[0]).0;
      NextSafe(s, steps[0]);
      StepInOrder(s, steps[0]);
      ReceivedInOrder(n, steps[1..]);
      var out, into := ReceivedBy(s, steps[0]), SentBy(s, steps[0]);
      var more, come, end := Got(n, steps[1..]), Sent(n, steps[1..]), Queue(Run(n, steps[1..]).box);
      calc {
        (out + more) + end;
        out + (more + end);
        (out + Queue(n.box)) + come;
        Queue(s.box) + (into + come);
      }
    } else {
      ReceivedInOrder(s, steps[1..]);
    }
  }

  /** A call returns RT_EOK exactly when its mail was put into or taken out of the box: a thread dismissed by
    * a reset gets a positive value, never RT_EOK. */
  lemma OkIffTransferred(s: Mb, step: Step)
    requires Safe(s) && Enabled(s, step) && !Next(s, step).1.Nothing?
    ensures var (n, answer) := Next(s, step);
            && Ok(n.box)
            && (ReturnValue(answer) == 0 <==> Queue(n.box) != Queue(s.box))
            && (step.Leave? ==> ReturnValue(answer) == RT_ERROR)
  {
    hide Safe, Next, Queue;
    OkNow(s);
    NextRefines(s, step);
  }
}
