// The event set of project/rt-thread/src/ipc.c: threads wait for all or for any of the bits they name.
module EventModel {
  import opened WaitList
  import opened SuspendList
  import opened EventBits

  // What a thread waits for: its event_set and the three flags of its event_info. RT_EVENT_FLAG_AND is
  // looked at first, so it prevails when both it and RT_EVENT_FLAG_OR are given.
  datatype Want = Want(bits: Bits, all: bool, any: bool, clear: bool)

  // A woken thread finds the received bits in its event_set. Dismissed: a reset has resumed the thread.
  datatype Pc = Idle | Waiting(want: Want) | Woken(got: Bits) | Dismissed

  datatype Ev = Ev(bits: Bits, wait: seq<nat>, pc: seq<Pc>)

  predicate Satisfied(w: Want, now: Bits) {
    if w.all then Both(w.bits, now) == w.bits else w.any && Both(w.bits, now) != 0
  }

  // The thread's event_set once it is satisfied.
  function Matched(w: Want, now: Bits): Bits {
    if w.all then w.bits else Both(w.bits, now)
  }

  // One pass over the suspended threads: those that stay, the new thread states, the bits to clear, and
  // whether the pass broke off at a thread with neither flag.
  function Sweep(wait: seq<nat>, pc: seq<Pc>, now: Bits): (res: (seq<nat>, seq<Pc>, Bits, bool))
    requires forall i :: 0 <= i < |wait| ==> wait[i] < |pc| && pc[wait[i]].Waiting?
    requires NoDup(wait)
    ensures |res.1| == |pc|
    decreases |wait|
  {
    if wait == [] then ([], pc, 0, false)
    else
      var t := wait[0];
      var w := pc[t].want;
      if !w.all && !w.any then (wait, pc, 0, true)
      else if Satisfied(w, now) then
        var rest := Sweep(wait[1..], pc[t := Woken(Matched(w, now))], now);
        (rest.0, rest.1, Either(if w.clear then Matched(w, now) else 0, rest.2), rest.3)
      else
        var rest := Sweep(wait[1..], pc, now);
        ([t] + rest.0, rest.1, rest.2, rest.3)
  }

  datatype Step =
    | Send(now: Bits)
    | Recv(t: nat, want: Want, wait: Patience)
    | Return(t: nat)
    | TimeOut(t: nat)
    | Leave(t: nat)
    | Reset

  // ResetError is thread->error as a reset leaves it, the positive RT_ERROR.
  datatype Answer = Nothing | Failed | Sent | Received(bits: Bits) | ResetError

  ghost predicate Listed(s: Ev) {
    && NoDup(s.wait)
    && (forall t: nat :: t in s.wait <==> t < |s.pc| && s.pc[t].Waiting?)
  }

  // A call with neither flag runs into an assertion, so it is no step of the machine.
  predicate Enabled(s: Ev, step: Step) {
    match step
    case Recv(t, w, wait) =>
      t < |s.pc| && s.pc[t].Idle? && (w.bits != 0 ==> w.all || w.any) && WaitFits(wait, s.wait)
    case Return(t) => t < |s.pc| && s.pc[t].Woken?
    case TimeOut(t) => t < |s.pc| && s.pc[t].Waiting?
    case Leave(t) => t < |s.pc| && s.pc[t].Dismissed?
    case _ => true
  }

  function DismissAll(pc: seq<Pc>): (r: seq<Pc>)
    ensures |r| == |pc|
  {
    seq(|pc|, t requires 0 <= t < |pc| => if pc[t].Waiting? then Dismissed else pc[t])
  }

  lemma ListedWaits(s: Ev)
    requires Listed(s)
    ensures forall i :: 0 <= i < |s.wait| ==> s.wait[i] < |s.pc| && s.pc[s.wait[i]].Waiting?
  {
    forall i | 0 <= i < |s.wait|
      ensures s.wait[i] < |s.pc| && s.pc[s.wait[i]].Waiting?
    {
      assert s.wait[i] in s.wait;
    }
  }

  ghost function Next(s: Ev, step: Step): (res: (Ev, Answer))
    requires Listed(s) && Enabled(s, step)
  {
    match step
    case Send(now) =>
      if now == 0 then (s, Failed)
      else
        ListedWaits(s);
        var raised := Either(s.bits, now);
        var (wait, pc, need, broken) := Sweep(s.wait, s.pc, raised);
        if broken then (Ev(raised, wait, pc), Failed)
        else (Ev(Minus(raised, need), wait, pc), Sent)
    case Recv(t, w, wait) =>
      if w.bits == 0 then (s, Failed)
      else if Satisfied(w, s.bits) then
        (s.(bits := if w.clear then Minus(s.bits, w.bits) else s.bits), Received(Both(s.bits, w.bits)))
      else
        (match wait
         case NoWait => (s, Failed)
         case WaitAt(pos) => (s.(wait := InsertAt(s.wait, pos, t), pc := s.pc[t := Waiting(w)]), Nothing))
    case Return(t) => (s.(pc := s.pc[t := Idle]), Received(s.pc[t].got))
    case TimeOut(t) => (s.(wait := Remove(s.wait, t), pc := s.pc[t := Idle]), Failed)
    case Leave(t) => (s.(pc := s.pc[t := Idle]), ResetError)
    case Reset => (Ev(0, [], DismissAll(s.pc)), Nothing)
  }

  // No suspended thread is satisfied, and every one of them waits for something.
  ghost predicate Unsatisfied(s: Ev) {
    forall t :: 0 <= t < |s.pc| && s.pc[t].Waiting? ==>
      var w := s.pc[t].want;
      w.bits != 0 && (w.all || w.any) && !Satisfied(w, s.bits)
  }

  ghost predicate Safe(s: Ev) {
    Listed(s) && Unsatisfied(s)
  }

  // A thread of the list that a pass with this set wakes.
  predicate Wakes(s: Ev, t: nat, now: Bits) {
    t < |s.pc| && s.pc[t].Waiting? && Satisfied(s.pc[t].want, now)
  }

  function Start(threads: nat): Ev {
    Ev(0, [], seq(threads, i => Idle))
  }

  lemma FewerBits(w: Want, now: Bits, gone: Bits)
    requires Satisfied(w, Minus(now, gone))
    ensures Satisfied(w, now)
  {
    hide Both, Minus;
    MinusFewer(w.bits, now, gone);
  }

  /** In both modes a satisfied thread receives the bits it asked for among those that are set. */
  lemma MatchedIsIntersection(w: Want, now: Bits)
    requires Satisfied(w, now)
    ensures Matched(w, now) == Both(w.bits, now)
  {
  }
}
