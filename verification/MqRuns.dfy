// Whole runs of the message queue, and the atomic bounded deque they refine.
module MqRuns {
  import opened Basics
  import opened WaitList
  import opened SuspendList
  import opened MqModel
  import opened MqKeeps

  lemma {:induction false} PushedOnce(n: nat, v: nat)
    ensures multiset(Pushed(n))[v] == if v < n then 1 else 0
  {
    if n > 0 {
      PushedOnce(n - 1, v);
    }
  }

  lemma {:induction false} IdleTally(pc: seq<Pc>, kind: Kind)
    requires forall t :: 0 <= t < |pc| ==> pc[t].Idle?
    ensures Tally(pc, kind) == 0
  {
    if pc != [] {
      IdleTally(pc[1..], kind);
    }
  }

  lemma StartCopies(msgSize: nat, nodes: nat, threads: nat, v: nat)
    ensures var s := Start(msgSize, nodes, threads); Copies(s.core, s.pc, v) == if v < nodes then 1 else 0
  {
    hide Tally, Pushed;
    var s := Start(msgSize, nodes, threads);
    IdleTally(s.pc, Holding(v));
    PushedOnce(nodes, v);
  }

  lemma StartSafe(msgSize: nat, nodes: nat, threads: nat)
    requires nodes <= ENTRY_MAX
    ensures Safe(Start(msgSize, nodes, threads))
  {
    hide Tally, Pushed, Copies;
    var s := Start(msgSize, nodes, threads);
    IdleTally(s.pc, Busy);
    forall v: nat
      ensures Copies(s.core, s.pc, v) == if v < |s.pool| then 1 else 0
    {
      StartCopies(msgSize, nodes, threads, v);
    }
  }

  lemma CountedLive(s: Mq)
    requires Safe(s)
    ensures s.core.entry == |s.core.live|
  {
  }

  lemma NextEntry(s: Mq, step: Step)
    requires Safe(s) && Enabled(s, step)
    ensures Next(s, step).0.core.entry == |Next(s, step).0.core.live|
  {
    hide Conserved, Listed, NoLostWakeUp, Sound, Wake, InsertAt, Remove, DismissAll;
    if step.Link? {
      RoomToLink(s, step.t);
    }
  }

  /** Linking always finds room in the 16-bit counter: the overflow branch behind it is never taken. */
  lemma RoomToLink(s: Mq, t: nat)
    requires Safe(s) && Enabled(s, Link(t))
    ensures s.core.entry < ENTRY_MAX
    ensures Next(s, Link(t)).1 == Accepted
  {
    hide Conserved, Listed, NoLostWakeUp, Sound, Wake;
    TallyUpdate(s.pc, t, Idle, Busy);
  }

  /** Every step keeps the invariant. */
  lemma NextSafe(s: Mq, step: Step)
    requires Safe(s) && Enabled(s, step)
    ensures Safe(Next(s, step).0)
  {
    hide Copies, Listed, NoLostWakeUp, Sound, AllPresent, Next, Enabled;
    NextEntry(s, step);
    NextPresent(s, step);
    NextListed(s, step);
    NextWakes(s, step);
    NextSound(s, step);
    ListedKnown(s.core, s.pc);
    PoolSize(s, step);
    forall v: nat
      ensures Copies(Next(s, step).0.core, Next(s, step).0.pc, v) == if v < |s.pool| then 1 else 0
    {
      NextCopies(s, step, v);
    }
  }

  lemma PoolSize(s: Mq, step: Step)
    requires Enabled(s, step)
    requires s.core.entry > 0 ==> s.core.live != []
    ensures |Next(s, step).0.pool| == |s.pool|
    ensures Next(s, step).0.msgSize == s.msgSize
    ensures |Next(s, step).0.pc| == |s.pc|
  {
  }

  // Runs: a step that is not enabled is skipped.
  ghost function Run(s: Mq, steps: seq<Step>): (end: Mq)
    requires Safe(s)
    ensures Safe(end)
    decreases |steps|
  {
    if steps == [] then s
    else if Enabled(s, steps[0]) then
      NextSafe(s, steps[0]);
      Run(Next(s, steps[0]).0, steps[1..])
    else Run(s, steps[1..])
  }

  /** After any interleaving of sends, urgent sends, receives, time-outs and resets, every pool node is
    * in exactly one place, the counter is the length of the live list, and no wake-up is lost. */
  lemma EveryRunSafe(msgSize: nat, nodes: nat, threads: nat, steps: seq<Step>)
    requires nodes <= ENTRY_MAX
    ensures Safe(Start(msgSize, nodes, threads))
    ensures var s := Run(Start(msgSize, nodes, threads), steps);
            && s.core.entry == |s.core.live|
            && (forall v: nat :: Copies(s.core, s.pc, v) == if v < |s.pool| then 1 else 0)
            && |s.core.live| + |s.core.free| + Tally(s.pc, Busy) == |s.pool|
            && (s.core.recvWait != [] ==> s.core.entry <= Tally(s.pc, WokenRecv))
            && (s.core.sendWait != [] ==> |s.core.free| <= Tally(s.pc, WokenSend))
  {
    StartSafe(msgSize, nodes, threads);
  }

  // The deque: messages, and for each thread what it is about.
  datatype Task =
    | Free
    | Asking(msg: seq<byte>)
    | Sending(msg: seq<byte>, urgent: bool)
    | Wanting(size: nat)
    | Taking(msg: seq<byte>, size: nat)
    | Leaving

  datatype Deque = Deque(queue: seq<seq<byte>>, task: seq<Task>)

  function Payload(pool: seq<Slot>, v: nat): seq<byte> {
    if v < |pool| && pool[v].length <= |pool[v].bytes| then Content(pool[v]) else []
  }

  function TaskOf(p: Pc, pool: seq<Slot>): Task {
    match p
    case Idle => Free
    case SendWait(msg) => Asking(msg)
    case SendWoken(msg) => Asking(msg)
    case Taken(_, msg, urgent) => Sending(msg, urgent)
    case Filling(_, msg, urgent, _) => Sending(msg, urgent)
    case RecvWait(size) => Wanting(size)
    case RecvWoken(size) => Wanting(size)
    case Popped(node, size) => Taking(Payload(pool, node), size)
    case Copying(node, size, _, _) => Taking(Payload(pool, node), size)
    case Dismissed(_) => Leaving
  }

  function QueueOf(live: seq<nat>, pool: seq<Slot>): (q: seq<seq<byte>>)
    ensures |q| == |live|
  {
    seq(|live|, i requires 0 <= i < |live| => Payload(pool, live[i]))
  }

  function TasksOf(pc: seq<Pc>, pool: seq<Slot>): (q: seq<Task>)
    ensures |q| == |pc|
  {
    seq(|pc|, t requires 0 <= t < |pc| => TaskOf(pc[t], pool))
  }

  function Abs(s: Mq): Deque {
    Deque(QueueOf(s.core.live, s.pool), TasksOf(s.pc, s.pool))
  }

  // Messages queued or on their way in or out; a send needs this to stay below the capacity.
  function Load(d: Deque): nat {
    |d.queue| + InHands(d.task)
  }

  function InHands(task: seq<Task>): nat {
    if task == [] then 0
    else (if task[0].Sending? || task[0].Taking? then 1 else 0) + InHands(task[1..])
  }

  predicate SendStep(a: Deque, b: Deque, t: nat, msg: seq<byte>, cap: nat, wait: Patience, answer: Answer)
    requires t < |a.task|
  {
    && b.queue == a.queue
    && if Load(a) < cap then b.task == a.task[t := Sending(msg, false)] && answer == Nothing
       else if wait.NoWait? then b.task == a.task[t := Free] && answer == Failed
       else b.task == a.task[t := Asking(msg)] && answer == Nothing
  }

  predicate RecvStep(a: Deque, b: Deque, t: nat, size: nat, wait: Patience, answer: Answer)
    requires t < |a.task|
  {
    if a.queue != [] then
      b == Deque(a.queue[1..], a.task[t := Taking(a.queue[0], size)]) && answer == Nothing
    else if wait.NoWait? then b == a.(task := a.task[t := Free]) && answer == Failed
    else b == a.(task := a.task[t := Wanting(size)]) && answer == Nothing
  }

  // One step of the deque. The byte copies do nothing here: a message is queued, taken and handed over
  // in one piece.
  predicate DequeStep(a: Deque, b: Deque, msgSize: nat, cap: nat, step: Step, answer: Answer) {
    (step.Reset? || step.t < |a.task|)
    && match step
       case Send(t, msg, wait) =>
         if |msg| > msgSize then b == a && answer == Failed
         else SendStep(a, b, t, msg, cap, wait, answer)
       case Urgent(t, msg) =>
         if |msg| > msgSize || Load(a) >= cap then b == a && answer == Failed
         else b == a.(task := a.task[t := Sending(msg, true)]) && answer == Nothing
       case Link(t) =>
         && a.task[t].Sending?
         && b.task == a.task[t := Free]
         && b.queue == (if a.task[t].urgent then [a.task[t].msg] + a.queue else a.queue + [a.task[t].msg])
         && answer == Accepted
       case Recv(t, size, wait) => RecvStep(a, b, t, size, wait, answer)
       case Return(t) =>
         && a.task[t].Taking?
         && b == a.(task := a.task[t := Free])
         && answer == Delivered(a.task[t].msg[..Min(|a.task[t].msg|, a.task[t].size)])
       case Retry(t, wait) =>
         if a.task[t].Asking? then SendStep(a, b, t, a.task[t].msg, cap, wait, answer)
         else a.task[t].Wanting? && RecvStep(a, b, t, a.task[t].size, wait, answer)
       case TimeOut(t) =>
         && (a.task[t].Asking? || a.task[t].Wanting?)
         && b == a.(task := a.task[t := Free]) && answer == Failed
       case Leave(t) => a.task[t].Leaving? && b == a.(task := a.task[t := Free]) && answer == ResetError
       case Reset =>
         && b.queue == [] && |b.task| == |a.task| && answer == Nothing
         && forall t :: 0 <= t < |a.task| ==>
              (b.task[t] == a.task[t] || ((a.task[t].Asking? || a.task[t].Wanting?) && b.task[t] == Leaving))
       case _ => b == a && answer == Nothing
  }

  lemma {:induction false} HandsTally(pc: seq<Pc>, pool: seq<Slot>)
    ensures InHands(TasksOf(pc, pool)) == Tally(pc, Busy)
  {
    if pc != [] {
      HandsTally(pc[1..], pool);
      assert TasksOf(pc, pool)[1..] == TasksOf(pc[1..], pool);
    }
  }

  // The pool has a free node exactly while the deque is below its capacity.
  lemma FreeMeansRoom(s: Mq)
    requires AllPresent(s)
    ensures Load(Abs(s)) + |s.core.free| == |s.pool|
  {
    HandsTally(s.pc, s.pool);
  }

  lemma TaskMoves(s: Mq, t: nat, p: Pc)
    requires t < |s.pc|
    ensures TasksOf(s.pc[t := p], s.pool) == TasksOf(s.pc, s.pool)[t := TaskOf(p, s.pool)]
  {
    hide TaskOf;
  }

  lemma WakeKeepsTasks(pc: seq<Pc>, who: Option<nat>, pool: seq<Slot>)
    ensures TasksOf(Wake(pc, who), pool) == TasksOf(pc, pool)
  {
    hide Payload;
  }

  // Writing a held node changes nothing the deque sees.
  lemma WriteUnseen(s: Mq, t: nat, slot: Slot, p: Pc)
    requires Safe(s) && t < |s.pc| && Holds(s.pc[t]) && Holds(p) && s.pc[t].node < |s.pool|
    requires TaskOf(s.pc[t], s.pool).Sending? && TaskOf(p, s.pool) == TaskOf(s.pc[t], s.pool)
    ensures Abs(s.(pool := s.pool[s.pc[t].node := slot], pc := s.pc[t := p])) == Abs(s)
  {
    hide Copies, Listed, NoLostWakeUp, Sound, AllPresent;
    HeldAlone(s, t);
    var n := s.(pool := s.pool[s.pc[t].node := slot], pc := s.pc[t := p]);
    forall i | 0 <= i < |s.core.live|
      ensures Payload(n.pool, s.core.live[i]) == Payload(s.pool, s.core.live[i])
    {
      assert s.core.live[i] in s.core.live;
    }
    assert QueueOf(n.core.live, n.pool) == QueueOf(s.core.live, s.pool);
    forall u | 0 <= u < |s.pc|
      ensures TaskOf(n.pc[u], n.pool) == TaskOf(s.pc[u], s.pool)
    {
    }
    assert TasksOf(n.pc, n.pool) == TasksOf(s.pc, s.pool);
  }

  lemma TrySendRefines(s: Mq, t: nat, msg: seq<byte>, wait: Patience)
    requires Safe(s) && t < |s.pc| && WaitFits(wait, s.core.sendWait)
    ensures var (n, answer) := TrySend(s, t, msg, wait);
            SendStep(Abs(s), Abs(n), t, msg, |s.pool|, wait, answer)
  {
    hide Conserved, Listed, NoLostWakeUp, Sound, Load, TasksOf, QueueOf, InsertAt;
    FreeMeansRoom(s);
    var n := TrySend(s, t, msg, wait).0;
    TaskMoves(s, t, n.pc[t]);
  }

  lemma TryRecvRefines(s: Mq, t: nat, size: nat, wait: Patience)
    requires Safe(s) && t < |s.pc| && WaitFits(wait, s.core.recvWait)
    ensures var (n, answer) := TryRecv(s, t, size, wait);
            RecvStep(Abs(s), Abs(n), t, size, wait, answer)
  {
    hide Conserved, Listed, NoLostWakeUp, Sound, TasksOf, InsertAt, AllPresent;
    var n := TryRecv(s, t, size, wait).0;
    TaskMoves(s, t, n.pc[t]);
    if s.core.entry > 0 {
      assert QueueOf(s.core.live[1..], s.pool) == QueueOf(s.core.live, s.pool)[1..];
    }
  }

  lemma LinkRefines(s: Mq, t: nat)
    requires Safe(s) && Enabled(s, Link(t))
    ensures var (n, answer) := Next(s, Link(t));
            DequeStep(Abs(s), Abs(n), s.msgSize, |s.pool|, Link(t), answer)
  {
    hide Conserved, Listed, NoLostWakeUp, Sound, AllPresent, TasksOf, Wake, TaskOf;
    RoomToLink(s, t);
    var p := s.pc[t];
    var n := Next(s, Link(t)).0;
    TaskMoves(s, t, Idle);
    WakeKeepsTasks(s.pc[t := Idle], LinkNode(s.core, p.node, p.urgent).2, s.pool);
    FilledPayload(s, t);
    IdleFree(s.pool);
    if p.urgent {
      assert QueueOf([p.node] + s.core.live, s.pool) == [Payload(s.pool, p.node)] + QueueOf(s.core.live, s.pool);
    } else {
      assert QueueOf(s.core.live + [p.node], s.pool) == QueueOf(s.core.live, s.pool) + [Payload(s.pool, p.node)];
    }
  }

  lemma IdleFree(pool: seq<Slot>)
    ensures TaskOf(Idle, pool) == Free
  {
  }

  // Once every byte is written, the node carries the message, although other threads ran in between.
  lemma FilledPayload(s: Mq, t: nat)
    requires Sound(s) && Enabled(s, Link(t))
    ensures Payload(s.pool, s.pc[t].node) == s.pc[t].msg
    ensures TasksOf(s.pc, s.pool)[t] == Sending(s.pc[t].msg, s.pc[t].urgent)
  {
    SoundAt(s, t);
    var p := s.pc[t];
    assert p.msg[..p.done] == p.msg;
  }

  lemma ReturnRefines(s: Mq, t: nat)
    requires Safe(s) && Enabled(s, Return(t))
    ensures var (n, answer) := Next(s, Return(t));
            DequeStep(Abs(s), Abs(n), s.msgSize, |s.pool|, Return(t), answer)
  {
    hide Conserved, Listed, NoLostWakeUp, Sound, AllPresent, TasksOf, QueueOf, Wake, TaskOf;
    var p := s.pc[t];
    TaskMoves(s, t, Idle);
    WakeKeepsTasks(s.pc[t := Idle], PutFree(s.core, p.node).1, s.pool);
    CopiedPayload(s, t);
    IdleFree(s.pool);
  }

  lemma CopiedPayload(s: Mq, t: nat)
    requires Sound(s) && Enabled(s, Return(t))
    ensures TasksOf(s.pc, s.pool)[t] == Taking(Payload(s.pool, s.pc[t].node), s.pc[t].size)
    ensures s.pc[t].got == Payload(s.pool, s.pc[t].node)[..Min(|Payload(s.pool, s.pc[t].node)|, s.pc[t].size)]
  {
    SoundAt(s, t);
    var p := s.pc[t];
    var slot := s.pool[p.node];
    assert p.got == slot.bytes[..|p.got|];
  }

  lemma ResetRefines(s: Mq)
    requires Safe(s)
    ensures var (n, answer) := Next(s, Reset);
            DequeStep(Abs(s), Abs(n), s.msgSize, |s.pool|, Reset, answer)
  {
    hide Conserved, Listed, NoLostWakeUp, Sound, AllPresent, Payload;
  }

  /** Each step of the queue, with its lock released in the middle of every call, is a step of the atomic
    * deque with the same answer. */
  lemma NextRefines(s: Mq, step: Step)
    requires Safe(s) && Enabled(s, step)
    ensures var (n, answer) := Next(s, step);
            DequeStep(Abs(s), Abs(n), s.msgSize, |s.pool|, step, answer)
  {
    hide Conserved, Listed, NoLostWakeUp, Sound, AllPresent, TasksOf, QueueOf, Load, SendStep, RecvStep,
         TrySend, TryRecv, LinkNode, PutFree, Wake, InsertAt, Remove;
    match step
    case Send(t, msg, wait) =>
      if |msg| <= s.msgSize {
        TrySendRefines(s, t, msg, wait);
      }
    case Urgent(t, msg) =>
      FreeMeansRoom(s);
      if |msg| <= s.msgSize && s.core.free != [] {
        TaskMoves(s, t, Taken(s.core.free[0], msg, true));
      }
    case WriteLength(t) =>
      var p := s.pc[t];
      WriteUnseen(s, t, s.pool[p.node].(length := |p.msg|), Filling(p.node, p.msg, p.urgent, 0));
    case FillByte(t) =>
      var p := s.pc[t];
      var slot := s.pool[p.node];
      WriteUnseen(s, t, slot.(bytes := slot.bytes[p.done := p.msg[p.done]]), p.(done := p.done + 1));
    case Link(t) => LinkRefines(s, t);
    case Recv(t, size, wait) => TryRecvRefines(s, t, size, wait);
    case ReadLength(t) => ReadUnseen(s, step);
    case CopyByte(t) => ReadUnseen(s, step);
    case Return(t) => ReturnRefines(s, t);
    case Retry(t, wait) =>
      TaskAt(s, t);
      if s.pc[t].SendWoken? {
        TrySendRefines(s, t, s.pc[t].msg, wait);
      } else {
        TryRecvRefines(s, t, s.pc[t].size, wait);
      }
    case TimeOut(t) =>
      TaskAt(s, t);
      TaskMoves(s, t, Idle);
    case Leave(t) =>
      TaskAt(s, t);
      TaskMoves(s, t, Idle);
    case Reset => ResetRefines(s);
  }

  lemma TaskAt(s: Mq, t: nat)
    requires t < |s.pc|
    ensures TasksOf(s.pc, s.pool)[t] == TaskOf(s.pc[t], s.pool)
  {
  }

  lemma ReadUnseen(s: Mq, step: Step)
    requires Safe(s) && Enabled(s, step) && (step.ReadLength? || step.CopyByte?)
    ensures Abs(Next(s, step).0) == Abs(s)
  {
    hide Conserved, Listed, NoLostWakeUp, Sound, AllPresent, QueueOf, Payload;
    TaskMoves(s, step.t, Next(s, step).0.pc[step.t]);
    TaskAt(s, step.t);
  }

  // Every step of a run is a deque step.
  ghost predicate RefinesDeque(s: Mq, steps: seq<Step>)
    requires Safe(s)
    decreases |steps|
  {
    if steps == [] then true
    else if Enabled(s, steps[0]) then
      NextSafe(s, steps[0]);
      var (n, answer) := Next(s, steps[0]);
      DequeStep(Abs(s), Abs(n), s.msgSize, |s.pool|, steps[0], answer) && RefinesDeque(n, steps[1..])
    else RefinesDeque(s, steps[1..])
  }

  /** Every run, of any length and interleaving, is a run of the atomic deque. */
  lemma {:induction false} EveryRunIsADeque(s: Mq, steps: seq<Step>)
    requires Safe(s)
    ensures RefinesDeque(s, steps)
    decreases |steps|
  {
    hide Safe, DequeStep, Enabled, Next;
    CountedLive(s);
    if steps == [] {
    } else if Enabled(s, steps[0]) {
      NextSafe(s, steps[0]);
      NextRefines(s, steps[0]);
      EveryRunIsADeque(Next(s, steps[0]).0, steps[1..]);
    } else {
      EveryRunIsADeque(s, steps[1..]);
    }
  }

  // The messages linked at the tail by one step, and taken from the head.
  function LinkedBy(s: Mq, step: Step): seq<seq<byte>> {
    if step.Link? && step.t < |s.pc| && s.pc[step.t].Filling? then [s.pc[step.t].msg] else []
  }

  function TakenBy(s: Mq, step: Step): seq<seq<byte>> {
    var q := QueueOf(s.core.live, s.pool);
    if q != [] && (step.Recv? || (step.Retry? && step.t < |s.pc| && s.pc[step.t].RecvWoken?)) then [q[0]]
    else []
  }

  ghost function Linked(s: Mq, steps: seq<Step>): seq<seq<byte>>
    requires Safe(s)
    decreases |steps|
  {
    if steps == [] then []
    else if Enabled(s, steps[0]) then
      NextSafe(s, steps[0]);
      LinkedBy(s, steps[0]) + Linked(Next(s, steps[0]).0, steps[1..])
    else Linked(s, steps[1..])
  }

  ghost function Received(s: Mq, steps: seq<Step>): seq<seq<byte>>
    requires Safe(s)
    decreases |steps|
  {
    if steps == [] then []
    else if Enabled(s, steps[0]) then
      NextSafe(s, steps[0]);
      TakenBy(s, steps[0]) + Received(Next(s, steps[0]).0, steps[1..])
    else Received(s, steps[1..])
  }

  ghost predicate NobodyUrgent(s: Mq) {
    forall t :: 0 <= t < |s.pc| ==> (s.pc[t].Taken? || s.pc[t].Filling? ==> !s.pc[t].urgent)
  }

  predicate Ordinary(step: Step) {
    !step.Urgent? && !step.Reset?
  }

  lemma StepInOrder(s: Mq, step: Step)
    requires Safe(s) && Enabled(s, step) && NobodyUrgent(s) && Ordinary(step)
    ensures NobodyUrgent(Next(s, step).0)
    ensures TakenBy(s, step) + Abs(Next(s, step).0).queue == Abs(s).queue + LinkedBy(s, step)
  {
    hide Safe, TasksOf, QueueOf, Load, InHands, Wake, Remove, InsertAt;
    NextRefines(s, step);
    StaysOrdinary(s, step);
    if step.t < |s.pc| {
      TaskAt(s, step.t);
    }
  }

  lemma StaysOrdinary(s: Mq, step: Step)
    requires Safe(s) && Enabled(s, step) && NobodyUrgent(s) && Ordinary(step)
    ensures NobodyUrgent(Next(s, step).0)
  {
    hide Safe, Remove, InsertAt, LinkNode, PutFree;
  }

  /** First in, first out: over any run without urgent messages and resets, the messages taken from the
    * queue, followed by those still on it, are those on it before followed by those linked. */
  lemma {:induction false} DeliveredInOrder(s: Mq, steps: seq<Step>)
    requires Safe(s) && NobodyUrgent(s)
    requires forall k :: 0 <= k < |steps| ==> Ordinary(steps[k])
    ensures Received(s, steps) + Abs(Run(s, steps)).queue == Abs(s).queue + Linked(s, steps)
    decreases |steps|
  {
    hide Safe, NobodyUrgent, Next, Enabled, Abs, TakenBy, LinkedBy;
    CountedLive(s);
    if steps == [] {
    } else if Enabled(s, steps[0]) {
      var n := Next(s, steps[0]).0;
      NextSafe(s, steps[0]);
      StepInOrder(s, steps[0]);
      DeliveredInOrder(n, steps[1..]);
      var out, into := TakenBy(s, steps[0]), LinkedBy(s, steps[0]);
      var more, come, end := Received(n, steps[1..]), Linked(n, steps[1..]), Abs(Run(n, steps[1..])).queue;
      calc {
        (out + more) + end;
        out + (more + end);
        (out + Abs(n).queue) + come;
        Abs(s).queue + (into + come);
      }
    } else {
      DeliveredInOrder(s, steps[1..]);
    }
  }
}
