// What a send of events does to the suspended threads, and runs of the event object.
module EventRuns {
  import opened WaitList
  import opened SuspendList
  import opened EventBits
  import opened EventModel

  predicate Ready(pc: seq<Pc>, t: nat) {
    t < |pc| && pc[t].Waiting? && (pc[t].want.all || pc[t].want.any)
  }

  ghost predicate Listening(wait: seq<nat>, pc: seq<Pc>) {
    && NoDup(wait)
    && (forall i :: 0 <= i < |wait| ==> Ready(pc, wait[i]))
  }

  lemma RestListens(wait: seq<nat>, pc: seq<Pc>, p: Pc)
    requires Listening(wait, pc) && wait != []
    ensures Listening(wait[1..], pc)
    ensures wait[0] < |pc| && Listening(wait[1..], pc[wait[0] := p])
    ensures forall u: nat :: u in wait[1..] <==> u in wait && u != wait[0]
  {
    FrontOut(wait);
  }

  // The pass treats every suspended thread by the same set, whatever the threads before it cleared.
  lemma {:induction false} SweepWakes(wait: seq<nat>, pc: seq<Pc>, now: Bits)
    requires Listening(wait, pc)
    ensures var (stay, after, need, broken) := Sweep(wait, pc, now);
            && !broken
            && NoDup(stay)
            && (forall t: nat :: t in stay <==> t in wait && !Satisfied(pc[t].want, now))
            && (forall t: nat :: t < |pc| ==>
                  after[t] == if t in wait && Satisfied(pc[t].want, now) then Woken(Both(pc[t].want.bits, now))
                              else pc[t])
    decreases |wait|
  {
    hide Both, Either, Satisfied, Matched;
    if wait == [] {
    } else {
      var t := wait[0];
      var w := pc[t].want;
      if Satisfied(w, now) {
        MatchedIsIntersection(w, now);
        RestListens(wait, pc, Woken(Matched(w, now)));
        SweepWakes(wait[1..], pc[t := Woken(Matched(w, now))], now);
      } else {
        RestListens(wait, pc, pc[t]);
        SweepWakes(wait[1..], pc, now);
      }
    }
  }

  // A woken CLEAR thread that received one of the bits b.
  ghost predicate Clears(wait: seq<nat>, pc: seq<Pc>, now: Bits, b: Bits) {
    exists i :: 0 <= i < |wait| && wait[i] < |pc| && pc[wait[i]].Waiting? && ClearsOne(pc[wait[i]].want, now, b)
  }

  predicate ClearsOne(w: Want, now: Bits, b: Bits) {
    Satisfied(w, now) && w.clear && Both(Both(w.bits, now), b) != 0
  }

  lemma {:induction false} SweepClears(wait: seq<nat>, pc: seq<Pc>, now: Bits, b: Bits)
    requires Listening(wait, pc)
    ensures Both(Sweep(wait, pc, now).2, b) != 0 <==> Clears(wait, pc, now, b)
    decreases |wait|
  {
    hide Both, Either, Satisfied, Matched;
    if wait == [] {
      NoneHas(b);
    } else {
      var t := wait[0];
      var w := pc[t].want;
      if Satisfied(w, now) {
        MatchedIsIntersection(w, now);
        var p := Woken(Matched(w, now));
        RestListens(wait, pc, p);
        SweepClears(wait[1..], pc[t := p], now, b);
        ClearsUnfold(wait, pc, p, now, b);
        EitherHas(if w.clear then Matched(w, now) else 0, Sweep(wait[1..], pc[t := p], now).2, b);
        NoneHas(b);
      } else {
        RestListens(wait, pc, pc[t]);
        SweepClears(wait[1..], pc, now, b);
        ClearsUnfold(wait, pc, pc[t], now, b);
      }
    }
  }

  // Only the first thread's state changes between a pass and its rest.
  lemma ClearsUnfold(wait: seq<nat>, pc: seq<Pc>, p: Pc, now: Bits, b: Bits)
    requires Listening(wait, pc) && wait != []
    requires wait[0] < |pc| && pc[wait[0]].Waiting?
    ensures Clears(wait, pc, now, b)
       <==> ClearsOne(pc[wait[0]].want, now, b) || Clears(wait[1..], pc[wait[0] := p], now, b)
  {
    hide ClearsOne;
    var rest, more := wait[1..], pc[wait[0] := p];
    FrontOut(wait);
    forall i | 0 <= i < |rest|
      ensures rest[i] == wait[i + 1] && rest[i] != wait[0]
    {
      assert rest[i] in rest;
    }
    if Clears(wait, pc, now, b) {
      var i :| 0 <= i < |wait| && wait[i] < |pc| && pc[wait[i]].Waiting? && ClearsOne(pc[wait[i]].want, now, b);
      if i > 0 {
        assert rest[i - 1] == wait[i];
      }
    }
    if Clears(rest, more, now, b) {
      var i :| 0 <= i < |rest| && rest[i] < |more| && more[rest[i]].Waiting? && ClearsOne(more[rest[i]].want, now, b);
      assert wait[i + 1] == rest[i];
    }
  }

  lemma SafeListens(s: Ev)
    requires Safe(s)
    ensures Listening(s.wait, s.pc)
  {
    ListedWaits(s);
  }

  /** A send wakes exactly the threads satisfied by the old bits together with the new ones, all judged by
    * the same set, hands each the bits it matched, and clears exactly the bits matched by the woken
    * threads that asked for clearing. The branch for a thread without a mode is never taken. */
  lemma SendExact(s: Ev, now: Bits)
    requires Safe(s) && now != 0
    ensures var (n, answer) := Next(s, Send(now));
            var raised := Either(s.bits, now);
            && answer == Sent
            && (forall t: nat :: t < |s.pc| ==>
                  n.pc[t] == if Wakes(s, t, raised) then Woken(Both(s.pc[t].want.bits, raised)) else s.pc[t])
            && (forall t: nat :: t in n.wait <==> t in s.wait && !Wakes(s, t, raised))
            && Both(n.bits, raised) == n.bits
            && (forall b: Bits :: Both(b, raised) == b ==>
                  (Both(n.bits, b) != b <==> Clears(s.wait, s.pc, raised, b)))
  {
    hide Satisfied, Both, Either, Minus;
    SafeListens(s);
    var raised := Either(s.bits, now);
    SweepWakes(s.wait, s.pc, raised);
    var need := Sweep(s.wait, s.pc, raised).2;
    forall b: Bits | Both(b, raised) == b
      ensures Both(Minus(raised, need), b) != b <==> Clears(s.wait, s.pc, raised, b)
    {
      SweepClears(s.wait, s.pc, raised, b);
      Cleared(raised, need, b);
    }
    MinusWithin(raised, need);
  }

  lemma SendSafe(s: Ev, now: Bits)
    requires Safe(s) && now != 0
    ensures Safe(Next(s, Send(now)).0)
  {
    hide Satisfied, Both, Either, Minus;
    SafeListens(s);
    var raised := Either(s.bits, now);
    SweepWakes(s.wait, s.pc, raised);
    var (n, answer) := Next(s, Send(now));
    var need := Sweep(s.wait, s.pc, raised).2;
    forall t | 0 <= t < |n.pc| && n.pc[t].Waiting?
      ensures n.pc[t].want.bits != 0 && (n.pc[t].want.all || n.pc[t].want.any)
      ensures !Satisfied(n.pc[t].want, n.bits)
    {
      assert n.pc[t] == s.pc[t];
      if Satisfied(n.pc[t].want, n.bits) {
        FewerBits(n.pc[t].want, raised, need);
      }
    }
  }

  lemma RecvSafe(s: Ev, t: nat, w: Want, wait: Patience)
    requires Safe(s) && Enabled(s, Recv(t, w, wait))
    ensures Safe(Next(s, Recv(t, w, wait)).0)
  {
    hide Satisfied, InsertAt, Both, Either, Minus;
    if w.bits != 0 {
      if Satisfied(w, s.bits) {
        if w.clear {
          ClearingSafe(s, w.bits);
        }
      } else if wait.WaitAt? {
        InsertedInto(s.wait, wait.pos, t);
      }
    }
  }

  // Clearing bits satisfies nobody.
  lemma ClearingSafe(s: Ev, gone: Bits)
    requires Safe(s)
    ensures Safe(s.(bits := Minus(s.bits, gone)))
  {
    hide Satisfied, Both, Either, Minus;
    forall t | 0 <= t < |s.pc| && s.pc[t].Waiting?
      ensures !Satisfied(s.pc[t].want, Minus(s.bits, gone))
    {
      if Satisfied(s.pc[t].want, Minus(s.bits, gone)) {
        FewerBits(s.pc[t].want, s.bits, gone);
      }
    }
  }

  /** Every step keeps: no suspended thread is satisfied by the current bits. */
  lemma NextSafe(s: Ev, step: Step)
    requires Safe(s) && Enabled(s, step)
    ensures Safe(Next(s, step).0)
  {
    hide Satisfied, Sweep, InsertAt, Both, Either, Minus;
    match step
    case Send(now) =>
      if now != 0 {
        SendSafe(s, now);
      }
    case Recv(t, w, wait) => RecvSafe(s, t, w, wait);
    case Return(t) =>
    case TimeOut(t) => TakenOut(s.wait, t);
    case Leave(t) =>
    case Reset =>
  }

  ghost function Run(s: Ev, steps: seq<Step>): (end: Ev)
    requires Safe(s)
    ensures Safe(end)
    decreases |steps|
  {
    if steps == [] then s
    else if Enabled(s, steps[0]) then
      NextSafe(s, steps[0]);
      Run(Next(s, steps[0]).0, steps[1..])
    else Run(s, steps[1..])
  }

  /** After any run of sends, receives, time-outs and resets no suspended thread has what it waits for. */
  lemma NobodyOverlooked(threads: nat, steps: seq<Step>)
    ensures Safe(Start(threads))
    ensures var s := Run(Start(threads), steps);
            forall t :: 0 <= t < |s.pc| && s.pc[t].Waiting? ==> t in s.wait && !Satisfied(s.pc[t].want, s.bits)
  {
  }

  /** A receive succeeds at once exactly when all, or any, of the requested bits are set. It then receives
    * the bits that were both requested and set: all it asked for in AND mode, at least one in OR mode. A bit
    * that was set is gone afterwards exactly when the receive succeeded, asked for clearing and had
    * requested it; no bit appears, and no other thread is touched. Otherwise the call fails if it may not wait,
    * and if it may, the thread waits for what it asked for, at its place. */
  lemma RecvExact(s: Ev, t: nat, w: Want, wait: Patience)
    requires Safe(s) && Enabled(s, Recv(t, w, wait)) && w.bits != 0
    ensures var (n, answer) := Next(s, Recv(t, w, wait));
            && (answer.Received? <==> Satisfied(w, s.bits))
            && (answer.Received? ==>
                  && (if w.all then answer.bits == w.bits else answer.bits != 0)
                  && forall b: Bits :: Both(answer.bits, b) == b <==> Both(w.bits, b) == b && Both(s.bits, b) == b)
            && Both(n.bits, s.bits) == n.bits
            && (forall b: Bits :: Both(b, s.bits) == b ==>
                  (Both(n.bits, b) != b <==> answer.Received? && w.clear && Both(w.bits, b) != 0))
            && (forall u: nat :: u < |s.pc| && u != t ==> n.pc[u] == s.pc[u] && (u in n.wait <==> u in s.wait))
            && (answer.Failed? <==> !answer.Received? && wait.NoWait?)
            && (t in n.wait <==> !answer.Received? && wait.WaitAt?)
            && n.pc[t] == (if t in n.wait then Waiting(w) else Idle)
            && n.wait == (if t in n.wait then InsertAt(s.wait, wait.pos, t) else s.wait)
  {
    hide InsertAt, Both, Minus, Satisfied, Matched;
    var (n, answer) := Next(s, Recv(t, w, wait));
    var gone := if answer.Received? && w.clear then w.bits else 0;
    MinusNone(s.bits);
    assert n.bits == Minus(s.bits, gone);
    MinusWithin(s.bits, gone);
    forall b: Bits | Both(b, s.bits) == b
      ensures Both(n.bits, b) != b <==> Both(gone, b) != 0
    {
      Cleared(s.bits, gone, b);
    }
    forall b: Bits ensures Both(0, b) == 0 { NoneHas(b); }
    if Satisfied(w, s.bits) {
      ReceivedBits(w, s.bits);
    } else if wait.WaitAt? {
      InsertedInto(s.wait, wait.pos, t);
    }
  }

  lemma ReceivedBits(w: Want, now: Bits)
    requires Satisfied(w, now)
    ensures if w.all then Both(now, w.bits) == w.bits else Both(now, w.bits) != 0
    ensures forall b: Bits :: Both(Both(now, w.bits), b) == b <==> Both(w.bits, b) == b && Both(now, b) == b
  {
    hide Both;
    BothCommutes(now, w.bits);
    forall b: Bits
      ensures Both(Both(now, w.bits), b) == b <==> Both(w.bits, b) == b && Both(now, b) == b
    {
      AllInBoth(now, w.bits, b);
    }
  }
}
