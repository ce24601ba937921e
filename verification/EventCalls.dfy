/** What each call on an event set answers in the end, whatever other threads do before a woken one runs. */
module EventCalls {
  import opened WaitList
  import opened SuspendList
  import opened WaitOrder
  import opened EventBits
  import opened EventModel
  import opened EventRuns

  // The steps a thread itself takes.
  predicate By(step: Step, t: nat) {
    (step.Recv? || step.Return? || step.TimeOut? || step.Leave?) && step.t == t
  }

  lemma SafeListed(s: Ev)
    requires Safe(s)
    ensures Listed(s)
    ensures forall now: Bits :: Enabled(s, Send(now))
  {
  }

  lemma WokenStays(s: Ev, step: Step, t: nat)
    requires Safe(s) && Enabled(s, step) && t < |s.pc| && s.pc[t].Woken? && step != Return(t)
    ensures var n := Next(s, step).0; |n.pc| == |s.pc| && n.pc[t] == s.pc[t]
  {
    hide Sweep, Satisfied, Both, Either, Minus, InsertAt, Remove;
    if step.Send? && step.now != 0 {
      SafeListens(s);
      SweepWakes(s.wait, s.pc, Either(s.bits, step.now));
    }
  }

  // A woken thread can only return, and finds what it received.
  lemma WokenReturns(s: Ev, t: nat)
    requires Safe(s) && t < |s.pc| && s.pc[t].Woken?
    ensures Enabled(s, Return(t)) && Next(s, Return(t)).1 == Received(s.pc[t].got)
    ensures forall step :: Enabled(s, step) && By(step, t) ==> step == Return(t)
  {
  }

  lemma {:induction false} WokenKeeps(s: Ev, steps: seq<Step>, t: nat)
    requires Safe(s) && t < |s.pc| && s.pc[t].Woken? && Return(t) !in steps
    ensures var r := Run(s, steps); t < |r.pc| && r.pc[t] == s.pc[t]
    decreases |steps|
  {
    hide Safe, Next, Enabled;
    if steps == [] {
    } else if Enabled(s, steps[0]) {
      assert steps[0] in steps;
      SafeListed(s);
      NextSafe(s, steps[0]);
      WokenStays(s, steps[0], t);
      WokenKeeps(Next(s, steps[0]).0, steps[1..], t);
    } else {
      WokenKeeps(s, steps[1..], t);
    }
  }

  /** A thread woken by a send receives the bits it asked for among those set at that send: its call can end
    * only by returning them, whatever sends, clears, time-outs and resets come in between. */
  lemma SentBitsArrive(s: Ev, now: Bits, steps: seq<Step>, t: nat)
    requires Safe(s) && now != 0 && Wakes(s, t, Either(s.bits, now)) && Return(t) !in steps
    ensures Safe(Next(s, Send(now)).0)
    ensures var r := Run(Next(s, Send(now)).0, steps);
            && Enabled(r, Return(t))
            && Next(r, Return(t)).1 == Received(Both(s.pc[t].want.bits, Either(s.bits, now)))
            && forall step :: Enabled(r, step) && By(step, t) ==> step == Return(t)
  {
    hide Satisfied, Both, Either, Next, Enabled, Safe;
    SafeListed(s);
    NextSafe(s, Send(now));
    SendExact(s, now);
    var n := Next(s, Send(now)).0;
    SendLength(s, now);
    WokenKeeps(n, steps, t);
    WokenReturns(Run(n, steps), t);
  }

  lemma SendLength(s: Ev, now: Bits)
    requires Safe(s) && now != 0
    ensures |Next(s, Send(now)).0.pc| == |s.pc|
  {
    ListedWaits(s);
  }

  /** A set that is empty is refused, in a send and in a receive, with nothing changed. */
  lemma EmptySetRefused(s: Ev, t: nat, w: Want, wait: Patience)
    requires Safe(s) && Enabled(s, Recv(t, w, wait)) && w.bits == 0
    ensures Next(s, Recv(t, w, wait)) == (s, Failed) && Next(s, Send(0)) == (s, Failed)
  {
  }

  /** The other ends of a receive: after a time-out it fails, after a reset it returns the reset's error. The
    * events stay, and no other thread is touched. */
  lemma LeavingExact(s: Ev, step: Step)
    requires Safe(s) && Enabled(s, step) && (step.TimeOut? || step.Leave? || step.Return?)
    ensures var (n, answer) := Next(s, step);
            && (answer.Failed? <==> s.pc[step.t].Waiting?)
            && (answer.ResetError? <==> s.pc[step.t].Dismissed?)
            && (answer.Received? <==> s.pc[step.t].Woken?)
            && n.bits == s.bits && |n.pc| == |s.pc| && n.wait == Remove(s.wait, step.t)
            && forall u :: 0 <= u < |s.pc| ==> n.pc[u] == if u == step.t then Idle else s.pc[u]
  {
    hide Remove;
    assert step.t in s.wait <==> s.pc[step.t].Waiting?;
  }

  /** A reset clears all events and dismisses exactly the suspended threads; a woken one keeps its bits. */
  lemma ResetExact(s: Ev)
    requires Safe(s)
    ensures var n := Next(s, Reset).0;
            && n.bits == 0 && n.wait == [] && |n.pc| == |s.pc|
            && forall u :: 0 <= u < |s.pc| ==> n.pc[u] == if u in s.wait then Dismissed else s.pc[u]
  {
  }

  // The threads that stay suspended stay in order.
  lemma {:induction false} SweepRanked(wait: seq<nat>, pc: seq<Pc>, now: Bits, prio: seq<nat>)
    requires Listening(wait, pc) && Ranked(prio, wait)
    ensures Ranked(prio, Sweep(wait, pc, now).0)
    decreases |wait|
  {
    hide Both, Either, Satisfied, Matched;
    if wait != [] {
      var t := wait[0];
      var w := pc[t].want;
      FrontRanked(prio, wait);
      if Satisfied(w, now) {
        RestListens(wait, pc, Woken(Matched(w, now)));
        SweepRanked(wait[1..], pc[t := Woken(Matched(w, now))], now, prio);
      } else {
        RestListens(wait, pc, pc[t]);
        SweepWakes(wait[1..], pc, now);
        SweepRanked(wait[1..], pc, now, prio);
        StaysInFront(prio, wait, Sweep(wait[1..], pc, now).0);
      }
    }
  }

  lemma StaysInFront(prio: seq<nat>, wait: seq<nat>, rest: seq<nat>)
    requires Ranked(prio, wait) && wait != [] && Ranked(prio, rest)
    requires forall u :: u in rest ==> u in wait[1..]
    ensures Ranked(prio, [wait[0]] + rest)
  {
    forall i | 0 <= i < |rest| ensures rest[i] != wait[0] && prio[wait[0]] <= prio[rest[i]] {
      assert rest[i] in wait[1..];
    }
  }

  /** Priority order survives every send, for any priorities. */
  lemma SendRanked(s: Ev, now: Bits, prio: seq<nat>)
    requires Safe(s) && Ranked(prio, s.wait)
    ensures Ranked(prio, Next(s, Send(now)).0.wait)
  {
    hide Ranked, Sweep, Satisfied;
    SafeListens(s);
    if now != 0 {
      SweepRanked(s.wait, s.pc, Either(s.bits, now), prio);
    }
  }
}
