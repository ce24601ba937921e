// The message queue of project/rt-thread/src/ipc.c as a state machine. Each lock region of send, urgent
// send, receive and reset is one step; the copies in and out of a pool node run outside the lock, so
// here every single byte is a step of its own that may fall between the steps of other threads.
module MqModel {
  import opened Basics
  import opened WaitList
  import opened SuspendList

  type byte = b: nat | b < 256

  // RT_MQ_ENTRY_MAX, also the largest value of the 16-bit fields entry and max_msgs.
  const ENTRY_MAX: nat := 65535

  // What the lock protects: the live list from head to tail, the free list, the entry counter and the
  // two lists of suspended threads. Nodes and threads are numbered.
  datatype Core = Core(live: seq<nat>, free: seq<nat>, entry: nat, recvWait: seq<nat>, sendWait: seq<nat>)

  // The payload of a pool node.
  datatype Slot = Slot(length: nat, bytes: seq<byte>)

  // Where a thread stands in a call. Dismissed: a reset has resumed it. Taken..Filling: it owns a node taken from the free list.
  // Popped..Copying: it owns a node taken from the live list.
  datatype Pc =
    | Idle
    | SendWait(msg: seq<byte>)
    | SendWoken(msg: seq<byte>)
    | Taken(node: nat, msg: seq<byte>, urgent: bool)
    | Filling(node: nat, msg: seq<byte>, urgent: bool, done: nat)
    | RecvWait(size: nat)
    | RecvWoken(size: nat)
    | Popped(node: nat, size: nat)
    | Copying(node: nat, size: nat, len: nat, got: seq<byte>)
    | Dismissed(receiving: bool)

  datatype Mq = Mq(msgSize: nat, core: Core, pool: seq<Slot>, pc: seq<Pc>)

  datatype Step =
    | Send(t: nat, msg: seq<byte>, wait: Patience)
    | Urgent(t: nat, msg: seq<byte>)
    | WriteLength(t: nat)
    | FillByte(t: nat)
    | Link(t: nat)
    | Recv(t: nat, size: nat, wait: Patience)
    | ReadLength(t: nat)
    | CopyByte(t: nat)
    | Return(t: nat)
    | Retry(t: nat, wait: Patience)
    | TimeOut(t: nat)
    | Leave(t: nat)
    | Reset

  // What a step gives back to the caller.
  datatype Answer = Nothing | Failed | Accepted | Delivered(bytes: seq<byte>) | ResetError

  // The number the call returns: 0 for a message accepted, the length of a message delivered, a negative
  // code for a failure, and thread->error as it stands after a reset.
  function ReturnValue(answer: Answer): int
    requires !answer.Nothing?
  {
    match answer
    case Failed => -1
    case Accepted => 0
    case Delivered(bytes) => |bytes|
    case ResetError => RT_ERROR
  }

  function Reverse(s: seq<nat>): (r: seq<nat>)
    ensures |r| == |s|
  {
    if s == [] then [] else Reverse(s[1..]) + [s[0]]
  }

  // The lock regions.

  function TakeFree(c: Core): Core
    requires c.free != []
  {
    c.(free := c.free[1..])
  }

  // Linking returns whether the counter still had room, and the thread to wake.
  function LinkNode(c: Core, node: nat, urgent: bool): (res: (Core, bool, Option<nat>)) {
    var d := c.(live := if urgent then [node] + c.live else c.live + [node]);
    if c.entry < ENTRY_MAX then
      var e := d.(entry := c.entry + 1);
      if e.recvWait == [] then (e, true, None)
      else (e.(recvWait := e.recvWait[1..]), true, Some(e.recvWait[0]))
    else (d, false, None)
  }

  function PopHead(c: Core): Core
    requires c.live != []
  {
    c.(live := c.live[1..], entry := if c.entry > 0 then c.entry - 1 else 0)
  }

  function PutFree(c: Core, node: nat): (res: (Core, Option<nat>)) {
    var d := c.(free := [node] + c.free);
    if d.sendWait == [] then (d, None)
    else (d.(sendWait := d.sendWait[1..]), Some(d.sendWait[0]))
  }

  function ResetCore(c: Core): Core {
    Core([], Reverse(c.live) + c.free, 0, [], [])
  }

  // The machine.

  function Content(slot: Slot): seq<byte>
    requires slot.length <= |slot.bytes|
  {
    slot.bytes[..slot.length]
  }

  function Waiting(p: Pc): bool {
    p.SendWait? || p.RecvWait?
  }

  predicate Holds(p: Pc) {
    p.Taken? || p.Filling? || p.Popped? || p.Copying?
  }

  // A woken thread leaves its wait list.
  function Wake(pc: seq<Pc>, who: Option<nat>): (r: seq<Pc>)
    ensures |r| == |pc|
  {
    match who
    case None => pc
    case Some(t) =>
      if t >= |pc| then pc
      else
        match pc[t]
        case SendWait(msg) => pc[t := SendWoken(msg)]
        case RecvWait(size) => pc[t := RecvWoken(size)]
        case _ => pc
  }

  predicate Enabled(s: Mq, step: Step) {
    (step.Reset? || step.t < |s.pc|)
    && match step
       case Send(t, msg, wait) => s.pc[t].Idle? && msg != [] && WaitFits(wait, s.core.sendWait)
       case Urgent(t, msg) => s.pc[t].Idle? && msg != []
       case WriteLength(t) => s.pc[t].Taken? && s.pc[t].node < |s.pool|
       case FillByte(t) =>
         && s.pc[t].Filling? && s.pc[t].done < |s.pc[t].msg| && s.pc[t].node < |s.pool|
         && s.pc[t].done < |s.pool[s.pc[t].node].bytes|
       case Link(t) => s.pc[t].Filling? && s.pc[t].done == |s.pc[t].msg|
       case Recv(t, size, wait) => s.pc[t].Idle? && size > 0 && WaitFits(wait, s.core.recvWait)
       case ReadLength(t) => s.pc[t].Popped? && s.pc[t].node < |s.pool|
       case CopyByte(t) =>
         && s.pc[t].Copying? && |s.pc[t].got| < s.pc[t].len && s.pc[t].node < |s.pool|
         && |s.pc[t].got| < |s.pool[s.pc[t].node].bytes|
       case Return(t) => s.pc[t].Copying? && |s.pc[t].got| == s.pc[t].len
       case Retry(t, wait) =>
         || (s.pc[t].SendWoken? && WaitFits(wait, s.core.sendWait))
         || (s.pc[t].RecvWoken? && WaitFits(wait, s.core.recvWait))
       case TimeOut(t) => Waiting(s.pc[t])
       case Leave(t) => s.pc[t].Dismissed?
       case Reset => true
  }

  // The region at the top of a send: take a node, or wait, or give up.
  function TrySend(s: Mq, t: nat, msg: seq<byte>, wait: Patience): (res: (Mq, Answer))
    requires t < |s.pc| && WaitFits(wait, s.core.sendWait)
  {
    if s.core.free != [] then
      (s.(core := TakeFree(s.core), pc := s.pc[t := Taken(s.core.free[0], msg, false)]), Nothing)
    else
      match wait
      case NoWait => (s.(pc := s.pc[t := Idle]), Failed)
      case WaitAt(pos) =>
        (s.(core := s.core.(sendWait := InsertAt(s.core.sendWait, pos, t)), pc := s.pc[t := SendWait(msg)]), Nothing)
  }

  function TryRecv(s: Mq, t: nat, size: nat, wait: Patience): (res: (Mq, Answer))
    requires t < |s.pc| && WaitFits(wait, s.core.recvWait)
    requires s.core.entry > 0 ==> s.core.live != []
  {
    if s.core.entry > 0 then
      (s.(core := PopHead(s.core), pc := s.pc[t := Popped(s.core.live[0], size)]), Nothing)
    else
      match wait
      case NoWait => (s.(pc := s.pc[t := Idle]), Failed)
      case WaitAt(pos) =>
        (s.(core := s.core.(recvWait := InsertAt(s.core.recvWait, pos, t)), pc := s.pc[t := RecvWait(size)]), Nothing)
  }

  // rt_susp_list_resume_all on both lists: every waiting thread will return RT_ERROR.
  function DismissAll(pc: seq<Pc>): (r: seq<Pc>)
    ensures |r| == |pc|
    ensures forall t :: 0 <= t < |pc| ==> r[t] == if Waiting(pc[t]) then Dismissed(pc[t].RecvWait?) else pc[t]
  {
    if pc == [] then [] else [if Waiting(pc[0]) then Dismissed(pc[0].RecvWait?) else pc[0]] + DismissAll(pc[1..])
  }

  function Next(s: Mq, step: Step): (res: (Mq, Answer))
    requires Enabled(s, step)
    requires s.core.entry > 0 ==> s.core.live != []
  {
    match step
    case Send(t, msg, wait) =>
      if |msg| > s.msgSize then (s, Failed) else TrySend(s, t, msg, wait)
    case Urgent(t, msg) =>
      if |msg| > s.msgSize || s.core.free == [] then (s, Failed)
      else (s.(core := TakeFree(s.core), pc := s.pc[t := Taken(s.core.free[0], msg, true)]), Nothing)
    case WriteLength(t) =>
      var p := s.pc[t];
      (s.(pool := s.pool[p.node := s.pool[p.node].(length := |p.msg|)],
          pc := s.pc[t := Filling(p.node, p.msg, p.urgent, 0)]), Nothing)
    case FillByte(t) =>
      var p := s.pc[t];
      var slot := s.pool[p.node];
      (s.(pool := s.pool[p.node := slot.(bytes := slot.bytes[p.done := p.msg[p.done]])],
          pc := s.pc[t := p.(done := p.done + 1)]), Nothing)
    case Link(t) =>
      var p := s.pc[t];
      var (c, room, who) := LinkNode(s.core, p.node, p.urgent);
      (s.(core := c, pc := Wake(s.pc[t := Idle], who)), if room then Accepted else Failed)
    case Recv(t, size, wait) => TryRecv(s, t, size, wait)
    case ReadLength(t) =>
      var p := s.pc[t];
      (s.(pc := s.pc[t := Copying(p.node, p.size, Min(s.pool[p.node].length, p.size), [])]), Nothing)
    case CopyByte(t) =>
      var p := s.pc[t];
      (s.(pc := s.pc[t := p.(got := p.got + [s.pool[p.node].bytes[|p.got|]])]), Nothing)
    case Return(t) =>
      var p := s.pc[t];
      var (c, who) := PutFree(s.core, p.node);
      (s.(core := c, pc := Wake(s.pc[t := Idle], who)), Delivered(p.got))
    case Retry(t, wait) =>
      if s.pc[t].SendWoken? then TrySend(s, t, s.pc[t].msg, wait)
      else TryRecv(s, t, s.pc[t].size, wait)
    case TimeOut(t) =>
      (s.(core := s.core.(recvWait := Remove(s.core.recvWait, t), sendWait := Remove(s.core.sendWait, t)),
          pc := s.pc[t := Idle]), Failed)
    case Leave(t) => (s.(pc := s.pc[t := Idle]), ResetError)
    case Reset => (s.(core := ResetCore(s.core), pc := DismissAll(s.pc)), Nothing)
  }

  // The free list after rt_mq_init has pushed n nodes in pool order: the last one first.
  function Pushed(n: nat): (s: seq<nat>)
    ensures |s| == n
  {
    if n == 0 then [] else [n - 1] + Pushed(n - 1)
  }

  function Start(msgSize: nat, nodes: nat, threads: nat): Mq {
    Mq(msgSize, Core([], Pushed(nodes), 0, [], []),
       seq(nodes, i => Slot(0, seq(msgSize, j => 0))), seq(threads, i => Idle))
  }

  // Counting over the threads: those woken for a receive, those woken for a send, those that hold
  // some node, those that hold v.
  datatype Kind = WokenRecv | WokenSend | Busy | Holding(v: nat)

  function Weight(p: Pc, kind: Kind): nat {
    match kind
    case WokenRecv => if p.RecvWoken? then 1 else 0
    case WokenSend => if p.SendWoken? then 1 else 0
    case Busy => if Holds(p) then 1 else 0
    case Holding(v) => if Holds(p) && p.node == v then 1 else 0
  }

  function Tally(pc: seq<Pc>, kind: Kind): nat {
    if pc == [] then 0 else Weight(pc[0], kind) + Tally(pc[1..], kind)
  }

  // In how many places node v is: on the live list, on the free list, in a thread's hands.
  function Copies(c: Core, pc: seq<Pc>, v: nat): nat {
    multiset(c.live)[v] + multiset(c.free)[v] + Tally(pc, Holding(v))
  }

  ghost predicate Conserved(s: Mq) {
    forall v: nat :: Copies(s.core, s.pc, v) == if v < |s.pool| then 1 else 0
  }

  // The same count over all nodes at once.
  predicate AllPresent(s: Mq) {
    |s.core.live| + |s.core.free| + Tally(s.pc, Busy) == |s.pool|
  }

  // Nobody waits for what is already there, save for what woken threads are about to fetch.
  predicate NoLostWakeUp(c: Core, pc: seq<Pc>) {
    && (c.recvWait != [] ==> c.entry <= Tally(pc, WokenRecv))
    && (c.sendWait != [] ==> |c.free| <= Tally(pc, WokenSend))
  }

  // The wait lists hold exactly the waiting threads.
  ghost predicate Listed(c: Core, pc: seq<Pc>) {
    && NoDup(c.recvWait) && NoDup(c.sendWait)
    && (forall t: nat :: t in c.recvWait <==> t < |pc| && pc[t].RecvWait?)
    && (forall t: nat :: t in c.sendWait <==> t < |pc| && pc[t].SendWait?)
  }

  // What a thread knows about the node it holds.
  predicate Consistent(p: Pc, pool: seq<Slot>, msgSize: nat) {
    && (p.SendWait? || p.SendWoken? || p.Taken? || p.Filling? ==> 0 < |p.msg| <= msgSize)
    && (Holds(p) ==> p.node < |pool|)
    && (p.Filling? ==> p.done <= |p.msg| && pool[p.node].length == |p.msg|
                       && p.msg[..p.done] <= pool[p.node].bytes)
    && (p.RecvWait? || p.RecvWoken? || p.Popped? || p.Copying? ==> p.size > 0)
    && (p.Popped? || p.Copying? ==> 0 < pool[p.node].length <= msgSize)
    && (p.Copying? ==> p.len == Min(pool[p.node].length, p.size) && |p.got| <= p.len
                       && p.got <= pool[p.node].bytes)
  }

  ghost predicate Sound(s: Mq) {
    && (forall v :: 0 <= v < |s.pool| ==> |s.pool[v].bytes| == s.msgSize)
    && (forall i :: 0 <= i < |s.core.live| ==>
          s.core.live[i] < |s.pool| && 0 < s.pool[s.core.live[i]].length <= s.msgSize)
    && (forall t :: 0 <= t < |s.pc| ==> Consistent(s.pc[t], s.pool, s.msgSize))
  }

  ghost predicate Safe(s: Mq) {
    && |s.pool| <= ENTRY_MAX
    && s.core.entry == |s.core.live|
    && Conserved(s)
    && AllPresent(s)
    && Listed(s.core, s.pc)
    && NoLostWakeUp(s.core, s.pc)
    && Sound(s)
  }
}
