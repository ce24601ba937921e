// Every step of the message queue keeps the invariant Safe, one part after the other.
module MqKeeps {
  import opened Basics
  import opened WaitList
  import opened SuspendList
  import opened MqModel

  lemma {:induction false} TallyUpdate(pc: seq<Pc>, t: nat, p: Pc, kind: Kind)
    requires t < |pc|
    ensures Tally(pc[t := p], kind) == Tally(pc, kind) - Weight(pc[t], kind) + Weight(p, kind)
    ensures Tally(pc, kind) >= Weight(pc[t], kind)
  {
    if t == 0 {
      assert pc[t := p][1..] == pc[1..];
    } else {
      assert pc[t := p][1..] == pc[1..][t - 1 := p];
      TallyUpdate(pc[1..], t - 1, p, kind);
    }
  }

  // Waking moves a thread from its wait list to the woken ones and touches nothing it holds.
  lemma WakeTally(pc: seq<Pc>, who: Option<nat>, kind: Kind)
    requires who.Some? ==> who.value < |pc|
    ensures Tally(Wake(pc, who), kind) == Tally(pc, kind)
      + (if who.Some? && pc[who.value].RecvWait? && kind.WokenRecv? then 1
         else if who.Some? && pc[who.value].SendWait? && kind.WokenSend? then 1
         else 0)
  {
    if who.Some? {
      var t := who.value;
      match pc[t]
      case SendWait(msg) => TallyUpdate(pc, t, SendWoken(msg), kind);
      case RecvWait(size) => TallyUpdate(pc, t, RecvWoken(size), kind);
      case _ =>
    }
  }

  lemma {:induction false} DismissTally(pc: seq<Pc>, kind: Kind)
    ensures Tally(DismissAll(pc), kind) == Tally(pc, kind)
  {
    if pc != [] {
      DismissTally(pc[1..], kind);
    }
  }

  lemma {:induction false} ReverseCounts(s: seq<nat>)
    ensures multiset(Reverse(s)) == multiset(s)
  {
    if s != [] {
      ReverseCounts(s[1..]);
      assert s == [s[0]] + s[1..];
    }
  }

  lemma FrontCounts(s: seq<nat>)
    requires s != []
    ensures multiset(s) == multiset([s[0]]) + multiset(s[1..])
  {
    assert s == [s[0]] + s[1..];
  }

  // A node taken from the free list into the hands of a thread that held none.
  lemma TakeConserves(c: Core, pc: seq<Pc>, t: nat, p: Pc, v: nat)
    requires t < |pc| && c.free != []
    requires !Holds(pc[t]) && Holds(p) && p.node == c.free[0]
    ensures Copies(TakeFree(c), pc[t := p], v) == Copies(c, pc, v)
  {
    FrontCounts(c.free);
    TallyUpdate(pc, t, p, Holding(v));
  }

  lemma PopConserves(c: Core, pc: seq<Pc>, t: nat, p: Pc, v: nat)
    requires t < |pc| && c.live != []
    requires !Holds(pc[t]) && Holds(p) && p.node == c.live[0]
    ensures Copies(PopHead(c), pc[t := p], v) == Copies(c, pc, v)
  {
    FrontCounts(c.live);
    TallyUpdate(pc, t, p, Holding(v));
  }

  // A node given back by the thread that held it, to either list.
  lemma LinkConserves(c: Core, pc: seq<Pc>, t: nat, urgent: bool, v: nat)
    requires t < |pc| && Holds(pc[t])
    ensures Copies(LinkNode(c, pc[t].node, urgent).0, pc[t := Idle], v) == Copies(c, pc, v)
  {
    hide Tally;
    var d := LinkNode(c, pc[t].node, urgent).0;
    assert multiset(d.live) == multiset(c.live) + multiset([pc[t].node]);
    TallyUpdate(pc, t, Idle, Holding(v));
  }

  lemma PutConserves(c: Core, pc: seq<Pc>, t: nat, v: nat)
    requires t < |pc| && Holds(pc[t])
    ensures Copies(PutFree(c, pc[t].node).0, pc[t := Idle], v) == Copies(c, pc, v)
  {
    hide Tally;
    var d := PutFree(c, pc[t].node).0;
    assert multiset(d.free) == multiset([pc[t].node]) + multiset(c.free);
    TallyUpdate(pc, t, Idle, Holding(v));
  }

  // A thread moves on without changing what it holds.
  lemma MoveConserves(c: Core, pc: seq<Pc>, t: nat, p: Pc, v: nat)
    requires t < |pc|
    requires Holds(pc[t]) == Holds(p) && (Holds(p) ==> p.node == pc[t].node)
    ensures Copies(c, pc[t := p], v) == Copies(c, pc, v)
  {
    TallyUpdate(pc, t, p, Holding(v));
  }

  lemma ResetConserves(c: Core, pc: seq<Pc>, v: nat)
    ensures Copies(ResetCore(c), DismissAll(pc), v) == Copies(c, pc, v)
  {
    DismissTally(pc, Holding(v));
    ReverseCounts(c.live);
  }

  // The thread a region wakes is a known one.
  predicate Known(c: Core, pc: seq<Pc>) {
    && (c.recvWait != [] ==> c.recvWait[0] < |pc|)
    && (c.sendWait != [] ==> c.sendWait[0] < |pc|)
  }

  lemma TrySendConserves(s: Mq, t: nat, msg: seq<byte>, wait: Patience, v: nat)
    requires t < |s.pc| && WaitFits(wait, s.core.sendWait) && !Holds(s.pc[t])
    ensures var n := TrySend(s, t, msg, wait).0; Copies(n.core, n.pc, v) == Copies(s.core, s.pc, v)
  {
    if s.core.free != [] {
      TakeConserves(s.core, s.pc, t, Taken(s.core.free[0], msg, false), v);
    } else {
      MoveConserves(s.core, s.pc, t, TrySend(s, t, msg, wait).0.pc[t], v);
    }
  }

  lemma TryRecvConserves(s: Mq, t: nat, size: nat, wait: Patience, v: nat)
    requires t < |s.pc| && WaitFits(wait, s.core.recvWait) && !Holds(s.pc[t])
    requires s.core.entry > 0 ==> s.core.live != []
    ensures var n := TryRecv(s, t, size, wait).0; Copies(n.core, n.pc, v) == Copies(s.core, s.pc, v)
  {
    if s.core.entry > 0 {
      PopConserves(s.core, s.pc, t, Popped(s.core.live[0], size), v);
    } else {
      MoveConserves(s.core, s.pc, t, TryRecv(s, t, size, wait).0.pc[t], v);
    }
  }

  lemma LinkCopies(s: Mq, t: nat, v: nat)
    requires Enabled(s, Link(t)) && Known(s.core, s.pc)
    requires s.core.entry > 0 ==> s.core.live != []
    ensures var n := Next(s, Link(t)).0; Copies(n.core, n.pc, v) == Copies(s.core, s.pc, v)
  {
    hide Tally, Wake;
    LinkConserves(s.core, s.pc, t, s.pc[t].urgent, v);
    WakeTally(s.pc[t := Idle], LinkNode(s.core, s.pc[t].node, s.pc[t].urgent).2, Holding(v));
  }

  lemma ReturnCopies(s: Mq, t: nat, v: nat)
    requires Enabled(s, Return(t)) && Known(s.core, s.pc)
    requires s.core.entry > 0 ==> s.core.live != []
    ensures var n := Next(s, Return(t)).0; Copies(n.core, n.pc, v) == Copies(s.core, s.pc, v)
  {
    hide Tally, Wake;
    PutConserves(s.core, s.pc, t, v);
    WakeTally(s.pc[t := Idle], PutFree(s.core, s.pc[t].node).1, Holding(v));
  }

  /** No step creates, loses or doubles a node, wherever the locks are released in between. */
  lemma NextCopies(s: Mq, step: Step, v: nat)
    requires Enabled(s, step) && Known(s.core, s.pc)
    requires s.core.entry > 0 ==> s.core.live != []
    ensures var n := Next(s, step).0; Copies(n.core, n.pc, v) == Copies(s.core, s.pc, v)
  {
    hide Tally, Reverse, DismissAll, Remove, Wake, TrySend, TryRecv, LinkNode, PutFree;
    match step
    case Send(t, msg, wait) =>
      if |msg| <= s.msgSize {
        TrySendConserves(s, t, msg, wait, v);
      }
    case Urgent(t, msg) =>
      if |msg| <= s.msgSize && s.core.free != [] {
        TakeConserves(s.core, s.pc, t, Taken(s.core.free[0], msg, true), v);
      }
    case WriteLength(t) => MoveConserves(s.core, s.pc, t, Next(s, step).0.pc[t], v);
    case FillByte(t) => MoveConserves(s.core, s.pc, t, Next(s, step).0.pc[t], v);
    case Link(t) => LinkCopies(s, t, v);
    case Recv(t, size, wait) => TryRecvConserves(s, t, size, wait, v);
    case ReadLength(t) => MoveConserves(s.core, s.pc, t, Next(s, step).0.pc[t], v);
    case CopyByte(t) => MoveConserves(s.core, s.pc, t, Next(s, step).0.pc[t], v);
    case Return(t) => ReturnCopies(s, t, v);
    case Retry(t, wait) =>
      if s.pc[t].SendWoken? {
        TrySendConserves(s, t, s.pc[t].msg, wait, v);
      } else {
        TryRecvConserves(s, t, s.pc[t].size, wait, v);
      }
    case TimeOut(t) => MoveConserves(s.core, s.pc, t, Idle, v);
    case Leave(t) => MoveConserves(s.core, s.pc, t, Idle, v);
    case Reset => ResetConserves(s.core, s.pc, v);
  }

  lemma NextPresent(s: Mq, step: Step)
    requires Enabled(s, step) && Listed(s.core, s.pc) && AllPresent(s)
    requires s.core.entry > 0 ==> s.core.live != []
    ensures AllPresent(Next(s, step).0)
  {
    hide Tally, Reverse, DismissAll, Remove, Wake, InsertAt, Listed;
    var n := Next(s, step).0;
    ListedKnown(s.core, s.pc);
    if step.Reset? {
      DismissTally(s.pc, Busy);
    } else if step.Link? || step.Return? {
      GivePresent(s, step);
    } else {
      TallyUpdate(s.pc, step.t, n.pc[step.t], Busy);
    }
  }

  lemma GivePresent(s: Mq, step: Step)
    requires step.Link? || step.Return?
    requires Enabled(s, step) && Known(s.core, s.pc) && AllPresent(s)
    requires s.core.entry > 0 ==> s.core.live != []
    ensures AllPresent(Next(s, step).0)
  {
    hide Tally, Wake;
    TallyUpdate(s.pc, step.t, Idle, Busy);
    var p := s.pc[step.t];
    var who := if step.Link? then LinkNode(s.core, p.node, p.urgent).2 else PutFree(s.core, p.node).1;
    WakeTally(s.pc[step.t := Idle], who, Busy);
  }

  // Wait lists.

  // A thread that waits in no list moves to another state in which it waits in no list.
  lemma MoveListed(c: Core, d: Core, pc: seq<Pc>, t: nat, p: Pc)
    requires Listed(c, pc) && t < |pc| && !Waiting(pc[t]) && !Waiting(p)
    requires d.recvWait == c.recvWait && d.sendWait == c.sendWait
    ensures Listed(d, pc[t := p])
  {
  }

  lemma SuspendListed(c: Core, pc: seq<Pc>, t: nat, p: Pc, pos: nat)
    requires Listed(c, pc) && t < |pc| && !Waiting(pc[t]) && Waiting(p)
    requires pos <= |if p.SendWait? then c.sendWait else c.recvWait|
    ensures p.SendWait? ==> Listed(c.(sendWait := InsertAt(c.sendWait, pos, t)), pc[t := p])
    ensures p.RecvWait? ==> Listed(c.(recvWait := InsertAt(c.recvWait, pos, t)), pc[t := p])
  {
    hide InsertAt;
    if p.SendWait? {
      InsertedInto(c.sendWait, pos, t);
    } else {
      InsertedInto(c.recvWait, pos, t);
    }
  }

  lemma WakeListed(c: Core, pc: seq<Pc>)
    requires Listed(c, pc)
    ensures c.recvWait != [] ==>
              Listed(c.(recvWait := c.recvWait[1..]), Wake(pc, Some(c.recvWait[0])))
    ensures c.sendWait != [] ==>
              Listed(c.(sendWait := c.sendWait[1..]), Wake(pc, Some(c.sendWait[0])))
  {
    if c.recvWait != [] {
      FrontOut(c.recvWait);
      assert c.recvWait[0] in c.recvWait;
    }
    if c.sendWait != [] {
      FrontOut(c.sendWait);
      assert c.sendWait[0] in c.sendWait;
    }
  }

  lemma ListedKnown(c: Core, pc: seq<Pc>)
    requires Listed(c, pc)
    ensures Known(c, pc)
    ensures c.recvWait != [] ==> pc[c.recvWait[0]].RecvWait?
    ensures c.sendWait != [] ==> pc[c.sendWait[0]].SendWait?
  {
    assert c.recvWait != [] ==> c.recvWait[0] in c.recvWait;
    assert c.sendWait != [] ==> c.sendWait[0] in c.sendWait;
  }

  lemma TrySendListed(s: Mq, t: nat, msg: seq<byte>, wait: Patience)
    requires t < |s.pc| && WaitFits(wait, s.core.sendWait) && !Waiting(s.pc[t])
    requires Listed(s.core, s.pc)
    ensures var n := TrySend(s, t, msg, wait).0; Listed(n.core, n.pc)
  {
    hide Listed, InsertAt;
    var n := TrySend(s, t, msg, wait).0;
    if s.core.free == [] && wait.WaitAt? {
      SuspendListed(s.core, s.pc, t, SendWait(msg), wait.pos);
    } else {
      MoveListed(s.core, n.core, s.pc, t, n.pc[t]);
    }
  }

  lemma TryRecvListed(s: Mq, t: nat, size: nat, wait: Patience)
    requires t < |s.pc| && WaitFits(wait, s.core.recvWait) && !Waiting(s.pc[t])
    requires s.core.entry > 0 ==> s.core.live != []
    requires Listed(s.core, s.pc)
    ensures var n := TryRecv(s, t, size, wait).0; Listed(n.core, n.pc)
  {
    hide Listed, InsertAt;
    var n := TryRecv(s, t, size, wait).0;
    if s.core.entry == 0 && wait.WaitAt? {
      SuspendListed(s.core, s.pc, t, RecvWait(size), wait.pos);
    } else {
      MoveListed(s.core, n.core, s.pc, t, n.pc[t]);
    }
  }

  lemma TimeOutListed(s: Mq, t: nat)
    requires Listed(s.core, s.pc) && t < |s.pc| && Waiting(s.pc[t])
    ensures Listed(s.core.(recvWait := Remove(s.core.recvWait, t), sendWait := Remove(s.core.sendWait, t)),
                   s.pc[t := Idle])
  {
    TakenOut(s.core.recvWait, t);
    TakenOut(s.core.sendWait, t);
  }

  lemma GiveBackListed(c: Core, d: Core, pc: seq<Pc>, t: nat, who: Option<nat>)
    requires Listed(c, pc) && t < |pc| && Holds(pc[t])
    requires
      || (who == None && d.recvWait == c.recvWait && d.sendWait == c.sendWait)
      || (c.recvWait != [] && who == Some(c.recvWait[0])
          && d.recvWait == c.recvWait[1..] && d.sendWait == c.sendWait)
      || (c.sendWait != [] && who == Some(c.sendWait[0])
          && d.recvWait == c.recvWait && d.sendWait == c.sendWait[1..])
    ensures Listed(d, Wake(pc[t := Idle], who))
  {
    MoveListed(c, c, pc, t, Idle);
    WakeListed(c, pc[t := Idle]);
  }

  lemma NextListed(s: Mq, step: Step)
    requires Enabled(s, step) && Listed(s.core, s.pc)
    requires s.core.entry > 0 ==> s.core.live != []
    ensures var n := Next(s, step).0; Listed(n.core, n.pc)
  {
    hide Listed, InsertAt, Remove, Wake, TrySend, TryRecv;
    var n := Next(s, step).0;
    match step
    case Send(t, msg, wait) =>
      if |msg| <= s.msgSize {
        TrySendListed(s, t, msg, wait);
      }
    case Urgent(t, msg) =>
      if |msg| <= s.msgSize && s.core.free != [] {
        MoveListed(s.core, n.core, s.pc, t, n.pc[t]);
      }
    case WriteLength(t) => MoveListed(s.core, n.core, s.pc, t, n.pc[t]);
    case FillByte(t) => MoveListed(s.core, n.core, s.pc, t, n.pc[t]);
    case Link(t) =>
      GiveBackListed(s.core, n.core, s.pc, t, LinkNode(s.core, s.pc[t].node, s.pc[t].urgent).2);
    case Recv(t, size, wait) => TryRecvListed(s, t, size, wait);
    case ReadLength(t) => MoveListed(s.core, n.core, s.pc, t, n.pc[t]);
    case CopyByte(t) => MoveListed(s.core, n.core, s.pc, t, n.pc[t]);
    case Return(t) =>
      GiveBackListed(s.core, n.core, s.pc, t, PutFree(s.core, s.pc[t].node).1);
    case Retry(t, wait) =>
      if s.pc[t].SendWoken? {
        TrySendListed(s, t, s.pc[t].msg, wait);
      } else {
        TryRecvListed(s, t, s.pc[t].size, wait);
      }
    case TimeOut(t) => TimeOutListed(s, t);
    case Leave(t) => MoveListed(s.core, s.core, s.pc, t, Idle);
    case Reset => NobodyWaits(s);
  }

  lemma NobodyWaits(s: Mq)
    ensures Listed(ResetCore(s.core), DismissAll(s.pc))
  {
  }

  // Wake-ups.

  lemma TrySendWakes(s: Mq, t: nat, msg: seq<byte>, wait: Patience)
    requires t < |s.pc| && WaitFits(wait, s.core.sendWait)
    requires s.pc[t].Idle? || s.pc[t].SendWoken?
    requires NoLostWakeUp(s.core, s.pc)
    ensures var n := TrySend(s, t, msg, wait).0; NoLostWakeUp(n.core, n.pc)
  {
    hide Tally;
    var n := TrySend(s, t, msg, wait).0;
    TallyUpdate(s.pc, t, n.pc[t], WokenRecv);
    TallyUpdate(s.pc, t, n.pc[t], WokenSend);
  }

  lemma TryRecvWakes(s: Mq, t: nat, size: nat, wait: Patience)
    requires t < |s.pc| && WaitFits(wait, s.core.recvWait)
    requires s.pc[t].Idle? || s.pc[t].RecvWoken?
    requires s.core.entry > 0 ==> s.core.live != []
    requires NoLostWakeUp(s.core, s.pc)
    ensures var n := TryRecv(s, t, size, wait).0; NoLostWakeUp(n.core, n.pc)
  {
    hide Tally;
    var n := TryRecv(s, t, size, wait).0;
    TallyUpdate(s.pc, t, n.pc[t], WokenRecv);
    TallyUpdate(s.pc, t, n.pc[t], WokenSend);
  }

  // A thread that is not woken moves on; the free list and the counter do not grow.
  lemma MoveWakes(c: Core, d: Core, pc: seq<Pc>, t: nat, p: Pc)
    requires t < |pc| && NoLostWakeUp(c, pc)
    requires !pc[t].RecvWoken? && !pc[t].SendWoken? && !p.RecvWoken? && !p.SendWoken?
    requires d.entry <= c.entry && |d.free| <= |c.free|
    requires (c.recvWait == [] ==> d.recvWait == []) && (c.sendWait == [] ==> d.sendWait == [])
    ensures NoLostWakeUp(d, pc[t := p])
  {
    TallyUpdate(pc, t, p, WokenRecv);
    TallyUpdate(pc, t, p, WokenSend);
  }

  lemma LinkWakes(c: Core, pc: seq<Pc>, t: nat, urgent: bool)
    requires t < |pc| && pc[t].Filling? && Listed(c, pc) && NoLostWakeUp(c, pc)
    ensures var (d, room, who) := LinkNode(c, pc[t].node, urgent);
            NoLostWakeUp(d, Wake(pc[t := Idle], who))
  {
    hide Tally, Wake, Listed;
    var (d, room, who) := LinkNode(c, pc[t].node, urgent);
    ListedKnown(c, pc);
    TallyUpdate(pc, t, Idle, WokenRecv);
    TallyUpdate(pc, t, Idle, WokenSend);
    WakeTally(pc[t := Idle], who, WokenRecv);
    WakeTally(pc[t := Idle], who, WokenSend);
  }

  lemma PutWakes(c: Core, pc: seq<Pc>, t: nat)
    requires t < |pc| && pc[t].Copying? && Listed(c, pc) && NoLostWakeUp(c, pc)
    ensures var (d, who) := PutFree(c, pc[t].node);
            NoLostWakeUp(d, Wake(pc[t := Idle], who))
  {
    hide Tally, Wake, Listed;
    var (d, who) := PutFree(c, pc[t].node);
    ListedKnown(c, pc);
    TallyUpdate(pc, t, Idle, WokenRecv);
    TallyUpdate(pc, t, Idle, WokenSend);
    WakeTally(pc[t := Idle], who, WokenRecv);
    WakeTally(pc[t := Idle], who, WokenSend);
  }

  lemma WithoutOfEmpty(s: seq<nat>, t: nat)
    ensures s == [] ==> Remove(s, t) == []
  {
  }

  /** No step loses a wake-up: every message still on the queue while receivers sleep, and every free
    * node while senders sleep, has a thread that was woken for it and has not run yet. */
  lemma NextWakes(s: Mq, step: Step)
    requires Enabled(s, step) && Listed(s.core, s.pc) && NoLostWakeUp(s.core, s.pc)
    requires s.core.entry > 0 ==> s.core.live != []
    ensures var n := Next(s, step).0; NoLostWakeUp(n.core, n.pc)
  {
    hide Listed, NoLostWakeUp, InsertAt, Remove, Wake, TrySend, TryRecv, LinkNode, PutFree;
    var n := Next(s, step).0;
    match step
    case Send(t, msg, wait) =>
      if |msg| <= s.msgSize {
        TrySendWakes(s, t, msg, wait);
      }
    case Urgent(t, msg) =>
      if |msg| <= s.msgSize && s.core.free != [] {
        MoveWakes(s.core, n.core, s.pc, t, n.pc[t]);
      }
    case WriteLength(t) => MoveWakes(s.core, n.core, s.pc, t, n.pc[t]);
    case FillByte(t) => MoveWakes(s.core, n.core, s.pc, t, n.pc[t]);
    case Link(t) => LinkWakes(s.core, s.pc, t, s.pc[t].urgent);
    case Recv(t, size, wait) => TryRecvWakes(s, t, size, wait);
    case ReadLength(t) => MoveWakes(s.core, n.core, s.pc, t, n.pc[t]);
    case CopyByte(t) => MoveWakes(s.core, n.core, s.pc, t, n.pc[t]);
    case Return(t) => PutWakes(s.core, s.pc, t);
    case Retry(t, wait) =>
      if s.pc[t].SendWoken? {
        TrySendWakes(s, t, s.pc[t].msg, wait);
      } else {
        TryRecvWakes(s, t, s.pc[t].size, wait);
      }
    case TimeOut(t) =>
      WithoutOfEmpty(s.core.recvWait, t);
      WithoutOfEmpty(s.core.sendWait, t);
      MoveWakes(s.core, n.core, s.pc, t, Idle);
    case Leave(t) => MoveWakes(s.core, n.core, s.pc, t, Idle);
    case Reset => NobodySleeps(s);
  }

  lemma NobodySleeps(s: Mq)
    ensures NoLostWakeUp(ResetCore(s.core), DismissAll(s.pc))
  {
  }

  // Payloads.

  /** The node in a thread's hands is nowhere else. */
  lemma HeldAlone(s: Mq, t: nat)
    requires Conserved(s) && t < |s.pc| && Holds(s.pc[t])
    ensures s.pc[t].node !in s.core.live && s.pc[t].node !in s.core.free
    ensures forall u :: 0 <= u < |s.pc| && u != t && Holds(s.pc[u]) ==> s.pc[u].node != s.pc[t].node
  {
    var v := s.pc[t].node;
    assert Copies(s.core, s.pc, v) <= 1;
    TallyUpdate(s.pc, t, Idle, Holding(v));
    forall u | 0 <= u < |s.pc| && u != t && Holds(s.pc[u])
      ensures s.pc[u].node != v
    {
      TallyUpdate(s.pc[t := Idle], u, Idle, Holding(v));
    }
  }

  // Writing a node in a thread's hands disturbs neither the queued messages nor the other threads.
  lemma WriteSound(s: Mq, t: nat, slot: Slot, p: Pc)
    requires Sound(s) && Conserved(s) && t < |s.pc| && Holds(s.pc[t])
    requires s.pc[t].node < |s.pool| && |slot.bytes| == s.msgSize
    requires Consistent(p, s.pool[s.pc[t].node := slot], s.msgSize)
    ensures Sound(s.(pool := s.pool[s.pc[t].node := slot], pc := s.pc[t := p]))
  {
    hide Conserved, Min;
    HeldAlone(s, t);
  }

  lemma MoveSound(s: Mq, t: nat, p: Pc)
    requires Sound(s) && t < |s.pc| && Consistent(p, s.pool, s.msgSize)
    ensures Sound(s.(pc := s.pc[t := p]))
  {
    hide Consistent;
  }

  lemma CoreSound(s: Mq, c: Core, pc: seq<Pc>)
    requires Sound(s)
    requires forall v :: v in c.live ==> v in s.core.live
    requires forall t :: 0 <= t < |pc| ==> Consistent(pc[t], s.pool, s.msgSize)
    ensures Sound(s.(core := c, pc := pc))
  {
    hide Consistent;
    forall i | 0 <= i < |c.live|
      ensures c.live[i] < |s.pool| && 0 < s.pool[c.live[i]].length <= s.msgSize
    {
      assert c.live[i] in s.core.live;
    }
  }

  lemma TrySendSound(s: Mq, t: nat, msg: seq<byte>, wait: Patience)
    requires Sound(s) && Conserved(s) && t < |s.pc| && WaitFits(wait, s.core.sendWait)
    requires 0 < |msg| <= s.msgSize
    ensures Sound(TrySend(s, t, msg, wait).0)
  {
    hide Sound, Conserved;
    var n := TrySend(s, t, msg, wait).0;
    if s.core.free != [] {
      FreeInPool(s, s.core.free[0]);
    }
    MoveSound(s, t, n.pc[t]);
    SameLiveSound(s.(pc := n.pc), n.core);
  }

  lemma FreeInPool(s: Mq, v: nat)
    requires Conserved(s) && v in s.core.free
    ensures v < |s.pool|
  {
    assert Copies(s.core, s.pc, v) > 0;
  }

  lemma SameLiveSound(s: Mq, c: Core)
    requires Sound(s) && c.live == s.core.live
    ensures Sound(s.(core := c))
  {
    hide Consistent;
  }

  lemma TryRecvSound(s: Mq, t: nat, size: nat, wait: Patience)
    requires Sound(s) && t < |s.pc| && WaitFits(wait, s.core.recvWait) && size > 0
    requires s.core.entry > 0 ==> s.core.live != []
    ensures Sound(TryRecv(s, t, size, wait).0)
  {
    var n := TryRecv(s, t, size, wait).0;
    assert Consistent(n.pc[t], s.pool, s.msgSize);
    MoveSound(s, t, n.pc[t]);
    CoreSound(s.(pc := n.pc), n.core, n.pc);
  }

  lemma FillSound(s: Mq, t: nat)
    requires Enabled(s, FillByte(t)) && Sound(s) && Conserved(s)
    requires s.core.entry > 0 ==> s.core.live != []
    ensures Sound(Next(s, FillByte(t)).0)
  {
    hide Conserved, Sound;
    var p := s.pc[t];
    var slot := s.pool[p.node];
    SoundAt(s, t);
    WriteSound(s, t, slot.(bytes := slot.bytes[p.done := p.msg[p.done]]), p.(done := p.done + 1));
  }

  lemma SoundAt(s: Mq, t: nat)
    requires Sound(s) && t < |s.pc|
    ensures Consistent(s.pc[t], s.pool, s.msgSize)
    ensures forall v :: 0 <= v < |s.pool| ==> |s.pool[v].bytes| == s.msgSize
  {
    hide Consistent;
  }

  lemma WriteLengthSound(s: Mq, t: nat)
    requires Enabled(s, WriteLength(t)) && Sound(s) && Conserved(s)
    requires s.core.entry > 0 ==> s.core.live != []
    ensures Sound(Next(s, WriteLength(t)).0)
  {
    hide Conserved, Sound;
    var p := s.pc[t];
    SoundAt(s, t);
    WriteSound(s, t, s.pool[p.node].(length := |p.msg|), Filling(p.node, p.msg, p.urgent, 0));
  }

  lemma WokenSound(pool: seq<Slot>, msgSize: nat, pc: seq<Pc>, who: Option<nat>)
    requires forall t :: 0 <= t < |pc| ==> Consistent(pc[t], pool, msgSize)
    ensures forall t :: 0 <= t < |pc| ==> Consistent(Wake(pc, who)[t], pool, msgSize)
  {
  }

  lemma LinkSound(s: Mq, t: nat)
    requires Enabled(s, Link(t)) && Sound(s)
    requires s.core.entry > 0 ==> s.core.live != []
    ensures Sound(Next(s, Link(t)).0)
  {
    var p := s.pc[t];
    var who := LinkNode(s.core, p.node, p.urgent).2;
    var n := Next(s, Link(t)).0;
    SoundAt(s, t);
    WokenSound(s.pool, s.msgSize, s.pc[t := Idle], who);
    var longer := s.core.(live := n.core.live);
    LongerSound(s, p.node, p.urgent);
    CoreSound(s.(core := longer), n.core, n.pc);
  }

  lemma LongerSound(s: Mq, v: nat, urgent: bool)
    requires Sound(s) && v < |s.pool| && 0 < s.pool[v].length <= s.msgSize
    ensures Sound(s.(core := s.core.(live := if urgent then [v] + s.core.live else s.core.live + [v])))
  {
    hide Consistent;
  }

  lemma ReturnSound(s: Mq, t: nat)
    requires Enabled(s, Return(t)) && Sound(s)
    requires s.core.entry > 0 ==> s.core.live != []
    ensures Sound(Next(s, Return(t)).0)
  {
    hide Sound;
    var n := Next(s, Return(t)).0;
    MoveSound(s, t, Idle);
    AllConsistent(s.(pc := s.pc[t := Idle]));
    WokenSound(s.pool, s.msgSize, s.pc[t := Idle], PutFree(s.core, s.pc[t].node).1);
    CoreSound(s, n.core, n.pc);
  }

  lemma AllConsistent(s: Mq)
    requires Sound(s)
    ensures forall t :: 0 <= t < |s.pc| ==> Consistent(s.pc[t], s.pool, s.msgSize)
  {
    hide Consistent;
  }

  lemma CopySound(s: Mq, t: nat)
    requires Enabled(s, CopyByte(t)) && Sound(s)
    requires s.core.entry > 0 ==> s.core.live != []
    ensures Sound(Next(s, CopyByte(t)).0)
  {
    hide Sound;
    SoundAt(s, t);
    var p := s.pc[t];
    MoveSound(s, t, p.(got := p.got + [s.pool[p.node].bytes[|p.got|]]));
  }

  lemma ReadLengthSound(s: Mq, t: nat)
    requires Enabled(s, ReadLength(t)) && Sound(s)
    requires s.core.entry > 0 ==> s.core.live != []
    ensures Sound(Next(s, ReadLength(t)).0)
  {
    hide Sound;
    SoundAt(s, t);
    var p := s.pc[t];
    MoveSound(s, t, Copying(p.node, p.size, Min(s.pool[p.node].length, p.size), []));
  }

  lemma ResetSound(s: Mq)
    requires Sound(s)
    requires s.core.entry > 0 ==> s.core.live != []
    ensures Sound(Next(s, Reset).0)
  {
    hide Sound;
    AllConsistent(s);
    CoreSound(s, ResetCore(s.core), DismissAll(s.pc));
  }

  lemma NextSound(s: Mq, step: Step)
    requires Enabled(s, step) && Sound(s) && Conserved(s)
    requires s.core.entry > 0 ==> s.core.live != []
    ensures Sound(Next(s, step).0)
  {
    hide Sound, Conserved, TrySend, TryRecv, InsertAt, Remove, LinkNode, PutFree, Wake;
    if !step.Reset? {
      SoundAt(s, step.t);
    }
    match step
    case Send(t, msg, wait) =>
      if |msg| <= s.msgSize {
        TrySendSound(s, t, msg, wait);
      }
    case Urgent(t, msg) =>
      if |msg| <= s.msgSize && s.core.free != [] {
        FreeInPool(s, s.core.free[0]);
        MoveSound(s, t, Taken(s.core.free[0], msg, true));
        SameLiveSound(s.(pc := s.pc[t := Taken(s.core.free[0], msg, true)]), TakeFree(s.core));
      }
    case WriteLength(t) => WriteLengthSound(s, t);
    case FillByte(t) => FillSound(s, t);
    case Link(t) => LinkSound(s, t);
    case Recv(t, size, wait) => TryRecvSound(s, t, size, wait);
    case ReadLength(t) => ReadLengthSound(s, t);
    case CopyByte(t) => CopySound(s, t);
    case Return(t) => ReturnSound(s, t);
    case Retry(t, wait) =>
      if s.pc[t].SendWoken? {
        TrySendSound(s, t, s.pc[t].msg, wait);
      } else {
        TryRecvSound(s, t, s.pc[t].size, wait);
      }
    case TimeOut(t) =>
      MoveSound(s, t, Idle);
      SameLiveSound(s.(pc := s.pc[t := Idle]), Next(s, step).0.core);
    case Leave(t) => MoveSound(s, t, Idle);
    case Reset => ResetSound(s);
  }
}
