// The mailbox of project/rt-thread/src/ipc.c: a circular buffer used as a double-ended queue, with a
// list of suspended receivers and one of suspended senders. Every call, and every retry after a
// wake-up, is one lock region and so one step.
module MailboxModel {
  import opened Basics
  import opened WaitList
  import opened SuspendList
  import Powers

  type Mail = bv32

  // RT_MB_ENTRY_MAX, also the largest value of the 16-bit fields.
  const ENTRY_MAX: nat := 65535

  datatype Box = Box(pool: seq<Mail>, size: nat, inOff: nat, outOff: nat, entry: nat)

  // The offsets stay in range and in leads out by the number of mails.
  predicate Ok(b: Box) {
    && b.size <= ENTRY_MAX && b.size <= |b.pool| && b.entry <= b.size
    && if b.size == 0 then b.inOff == 0 && b.outOff == 0
       else b.inOff < b.size && b.outOff < b.size && Slot(b.outOff, b.entry, b.size) == b.inOff
  }

  // The mails, next to be received first.
  function Queue(b: Box): (q: seq<Mail>)
    requires Ok(b)
    ensures |q| == b.entry
  {
    seq(b.entry, i requires 0 <= i < b.entry => b.pool[Slot(b.outOff, i, b.size)])
  }

  // The writing part of a send; the flag is false in the branch for an overflowing counter.
  function PutTail(b: Box, v: Mail): (res: (Box, bool))
    requires b.inOff < |b.pool|
  {
    var off := b.inOff + 1;
    var c := b.(pool := b.pool[b.inOff := v], inOff := if off >= b.size then 0 else off);
    if b.entry < ENTRY_MAX then (c.(entry := b.entry + 1), true) else (c, false)
  }

  function PutHead(b: Box, v: Mail): Box
    requires 0 < b.size <= |b.pool| && b.outOff <= |b.pool|
  {
    var off := if b.outOff > 0 then b.outOff - 1 else b.size - 1;
    b.(pool := b.pool[off := v], outOff := off, entry := b.entry + 1)
  }

  function TakeHead(b: Box): (res: (Box, Mail))
    requires b.outOff < |b.pool|
  {
    var off := b.outOff + 1;
    (b.(outOff := if off >= b.size then 0 else off, entry := if b.entry > 0 then b.entry - 1 else 0),
     b.pool[b.outOff])
  }

  /** The offsets always differ by the number of mails, modulo the size. */
  lemma OffsetsMeet(b: Box)
    requires Ok(b) && b.size > 0
    ensures (b.outOff + b.entry) % b.size == b.inOff
  {
    Powers.DivUnique(b.outOff + b.entry, b.size, if b.outOff + b.entry < b.size then 0 else 1, b.inOff);
  }

  /** A send appends, and the overflow branch behind it cannot be taken. */
  lemma PutTailAppends(b: Box, v: Mail)
    requires Ok(b) && b.entry < b.size
    ensures var (c, room) := PutTail(b, v);
            && room && Ok(c) && c.size == b.size && |c.pool| == |b.pool|
            && Queue(c) == Queue(b) + [v]
  {
  }

  /** An urgent mail goes to the front. */
  lemma PutHeadPrepends(b: Box, v: Mail)
    requires Ok(b) && b.entry < b.size
    ensures var c := PutHead(b, v);
            && Ok(c) && c.size == b.size && |c.pool| == |b.pool|
            && Queue(c) == [v] + Queue(b)
  {
  }

  /** A receive takes the front. */
  lemma TakeHeadPops(b: Box)
    requires Ok(b) && b.entry > 0
    ensures var (c, v) := TakeHead(b);
            && Ok(c) && c.size == b.size && c.pool == b.pool
            && Queue(b) == [v] + Queue(c)
  {
  }

  // Dismissed: a reset has resumed the thread.
  datatype Pc = Idle | SendWait(mail: Mail) | SendWoken(mail: Mail) | RecvWait | RecvWoken | Dismissed

  datatype Mb = Mb(box: Box, recvWait: seq<nat>, sendWait: seq<nat>, pc: seq<Pc>)

  datatype Step =
    | Send(t: nat, mail: Mail, wait: Patience)
    | Urgent(mail: Mail)
    | Recv(t: nat, wait: Patience)
    | Retry(t: nat, wait: Patience)
    | TimeOut(t: nat)
    | Leave(t: nat)
    | Reset

  datatype Answer = Nothing | Failed | Accepted | Received(mail: Mail) | ResetError

  // The number the call returns: RT_EOK for a mail taken over either way, a negative code for a failure, and
  // thread->error as it stands after a reset.
  function ReturnValue(answer: Answer): int
    requires !answer.Nothing?
  {
    match answer
    case Failed => -1
    case Accepted => 0
    case Received(_) => 0
    case ResetError => RT_ERROR
  }

  predicate Enabled(s: Mb, step: Step) {
    match step
    case Send(t, mail, wait) => t < |s.pc| && s.pc[t].Idle? && WaitFits(wait, s.sendWait)
    case Urgent(mail) => true
    case Recv(t, wait) => t < |s.pc| && s.pc[t].Idle? && WaitFits(wait, s.recvWait)
    case Retry(t, wait) =>
      && t < |s.pc|
      && ((s.pc[t].SendWoken? && WaitFits(wait, s.sendWait)) || (s.pc[t].RecvWoken? && WaitFits(wait, s.recvWait)))
    case TimeOut(t) => t < |s.pc| && (s.pc[t].SendWait? || s.pc[t].RecvWait?)
    case Leave(t) => t < |s.pc| && s.pc[t].Dismissed?
    case Reset => true
  }

  // Resume the first suspended receiver, or sender, if there is one.
  function WakeRecv(s: Mb): Mb {
    if s.recvWait == [] || s.recvWait[0] >= |s.pc| then s
    else s.(recvWait := s.recvWait[1..], pc := s.pc[s.recvWait[0] := RecvWoken])
  }

  function WakeSend(s: Mb): Mb {
    if s.sendWait == [] || s.sendWait[0] >= |s.pc| || !s.pc[s.sendWait[0]].SendWait? then s
    else
      var t := s.sendWait[0];
      s.(sendWait := s.sendWait[1..], pc := s.pc[t := SendWoken(s.pc[t].mail)])
  }

  function TrySend(s: Mb, t: nat, mail: Mail, wait: Patience): (res: (Mb, Answer))
    requires Ok(s.box) && t < |s.pc| && WaitFits(wait, s.sendWait)
  {
    if s.box.entry == s.box.size then
      match wait
      case NoWait => (s.(pc := s.pc[t := Idle]), Failed)
      case WaitAt(pos) =>
        (s.(sendWait := InsertAt(s.sendWait, pos, t), pc := s.pc[t := SendWait(mail)]), Nothing)
    else
      var (c, room) := PutTail(s.box, mail);
      var n := s.(box := c, pc := s.pc[t := Idle]);
      if room then (WakeRecv(n), Accepted) else (n, Failed)
  }

  function TryRecv(s: Mb, t: nat, wait: Patience): (res: (Mb, Answer))
    requires Ok(s.box) && t < |s.pc| && WaitFits(wait, s.recvWait)
  {
    if s.box.entry == 0 then
      match wait
      case NoWait => (s.(pc := s.pc[t := Idle]), Failed)
      case WaitAt(pos) =>
        (s.(recvWait := InsertAt(s.recvWait, pos, t), pc := s.pc[t := RecvWait]), Nothing)
    else
      var (c, v) := TakeHead(s.box);
      (WakeSend(s.(box := c, pc := s.pc[t := Idle])), Received(v))
  }

  function DismissAll(pc: seq<Pc>): (r: seq<Pc>)
    ensures |r| == |pc|
    ensures forall t :: 0 <= t < |pc| ==> r[t] == if pc[t].SendWait? || pc[t].RecvWait? then Dismissed else pc[t]
  {
    seq(|pc|, t requires 0 <= t < |pc| => if pc[t].SendWait? || pc[t].RecvWait? then Dismissed else pc[t])
  }

  function Next(s: Mb, step: Step): (res: (Mb, Answer))
    requires Ok(s.box) && Enabled(s, step)
  {
    match step
    case Send(t, mail, wait) => TrySend(s, t, mail, wait)
    case Urgent(mail) =>
      if s.box.entry == s.box.size then (s, Failed)
      else (WakeRecv(s.(box := PutHead(s.box, mail))), Accepted)
    case Recv(t, wait) => TryRecv(s, t, wait)
    case Retry(t, wait) =>
      if s.pc[t].SendWoken? then TrySend(s, t, s.pc[t].mail, wait) else TryRecv(s, t, wait)
    case TimeOut(t) =>
      (s.(recvWait := Remove(s.recvWait, t), sendWait := Remove(s.sendWait, t), pc := s.pc[t := Idle]), Failed)
    case Leave(t) => (s.(pc := s.pc[t := Idle]), ResetError)
    case Reset =>
      (s.(box := s.box.(inOff := 0, outOff := 0, entry := 0), recvWait := [], sendWait := [],
          pc := DismissAll(s.pc)), Nothing)
  }

  function Start(pool: seq<Mail>, size: nat, threads: nat): Mb {
    Mb(Box(pool, size, 0, 0, 0), [], [], seq(threads, i => Idle))
  }

  // One for every thread in the given state, zero for the others.
  function RecvMarks(pc: seq<Pc>): (m: seq<nat>)
    ensures |m| == |pc|
  {
    seq(|pc|, t requires 0 <= t < |pc| => if pc[t].RecvWoken? then 1 else 0)
  }

  function SendMarks(pc: seq<Pc>): (m: seq<nat>)
    ensures |m| == |pc|
  {
    seq(|pc|, t requires 0 <= t < |pc| => if pc[t].SendWoken? then 1 else 0)
  }

  // The threads woken but not yet run.
  function WokenRecvs(pc: seq<Pc>): nat { Sum(RecvMarks(pc)) }

  function WokenSends(pc: seq<Pc>): nat { Sum(SendMarks(pc)) }

  predicate NoLostWakeUp(s: Mb) {
    && (s.recvWait != [] ==> s.box.entry <= WokenRecvs(s.pc))
    && (s.sendWait != [] ==> s.box.size - s.box.entry <= WokenSends(s.pc))
  }

  ghost predicate Listed(s: Mb) {
    && NoDup(s.recvWait) && NoDup(s.sendWait)
    && (forall t: nat :: t in s.recvWait <==> t < |s.pc| && s.pc[t].RecvWait?)
    && (forall t: nat :: t in s.sendWait <==> t < |s.pc| && s.pc[t].SendWait?)
  }

  ghost predicate Safe(s: Mb) {
    Ok(s.box) && Listed(s) && NoLostWakeUp(s)
  }
}
