// The event object: its set, its suspend list and the event fields of the threads, updated in place.
module Events {
  import opened WaitList
  import opened SuspendList
  import opened EventBits
  import opened EventModel
  import opened EventRuns

  // How a call of rt_event_recv leaves its lock region.
  datatype Outcome = Got(bits: Bits) | Refused | Suspended

  class Event {
    var bits: Bits
    var suspendThread: seq<nat>
    const threads: array<Pc>

    ghost function Abs(): Ev
      reads this, threads
    {
      Ev(bits, suspendThread, threads[..])
    }

    constructor (threads: array<Pc>)
      requires forall t :: 0 <= t < threads.Length ==> threads[t].Idle?
      ensures this.threads == threads
      ensures Abs() == Start(threads.Length)
    {
      bits := 0;
      suspendThread := [];
      this.threads := threads;
      new;
      assert threads[..] == Start(threads.Length).pc;
    }

    method Send(raise: Bits) returns (ok: bool)
      requires Listed(Abs())
      modifies this, threads
      ensures (Abs(), if ok then Sent else Failed) == Next(old(Abs()), Step.Send(raise))
    {
      hide Sweep, Either, Minus;
      if raise == 0 {
        return false;
      }
      ListedWaits(Abs());
      bits := Either(bits, raise);
      MinusNone(bits);
      var needClear, broken := Walk();
      if broken {
        return false;
      }
      if needClear != 0 {
        bits := Minus(bits, needClear);
      }
      return true;
    }

    // Walk the suspend list and resume the satisfied threads; what they clear is only collected.
    method Walk() returns (needClear: Bits, broken: bool)
      requires NoDup(suspendThread)
      requires forall i :: 0 <= i < |suspendThread| ==>
                 suspendThread[i] < threads.Length && threads[suspendThread[i]].Waiting?
      modifies this`suspendThread, threads
      ensures (suspendThread, threads[..], needClear, broken) == old(Sweep(suspendThread, threads[..], bits))
    {
      hide Satisfied, Matched, Either, Sweep, Rejoined;
      ghost var wait, pc := suspendThread, threads[..];
      needClear := 0;
      var n := 0;
      RejoinedStart(wait, pc, bits);
      assert wait[..0] == [] && wait[0..] == wait;
      while n < |suspendThread|
        invariant n <= |suspendThread|
        invariant Rejoined(wait, pc, bits, suspendThread[..n], suspendThread[n..], threads[..], needClear)
        invariant bits == old(bits)
        decreases |suspendThread| - n
      {
        ghost var stay, rest, now := suspendThread[..n], suspendThread[n..], threads[..];
        assert rest[1..] == suspendThread[n + 1..];
        RejoinedFront(wait, pc, bits, stay, rest, now, needClear);
        var t := suspendThread[n];
        var w := threads[t].want;
        if !w.all && !w.any {
          assert stay + rest == suspendThread;
          return needClear, true;
        }
        if Satisfied(w, bits) {
          var got := Matched(w, bits);
          if w.clear {
            needClear := Either(needClear, got);
          }
          threads[t] := Woken(got);
          assert threads[..] == now[t := Woken(got)];
          suspendThread := suspendThread[..n] + suspendThread[n + 1..];
          assert suspendThread[..n] == stay && suspendThread[n..] == rest[1..];
        } else {
          n := n + 1;
          assert suspendThread[..n] == stay + [t];
        }
      }
      assert suspendThread[n..] == [] && suspendThread[..n] == suspendThread;
      RejoinedEnd(wait, pc, bits, suspendThread, threads[..], needClear);
      broken := false;
    }

    // The lock region of a receive by thread t.
    method Recv(t: nat, want: Want, wait: Patience) returns (res: Outcome)
      requires Listed(Abs()) && Enabled(Abs(), Step.Recv(t, want, wait))
      modifies this, threads
      ensures Abs() == Next(old(Abs()), Step.Recv(t, want, wait)).0
      ensures Next(old(Abs()), Step.Recv(t, want, wait)).1
           == match res case Got(b) => Received(b) case Refused => Failed case Suspended => Nothing
    {
      if want.bits == 0 {
        return Refused;
      }
      if Satisfied(want, bits) {
        var received := Both(bits, want.bits);
        if want.clear {
          bits := Minus(bits, want.bits);
        }
        return Got(received);
      }
      match wait
      case NoWait =>
        return Refused;
      case WaitAt(pos) =>
        threads[t] := Waiting(want);
        suspendThread := InsertAt(suspendThread, pos, t);
        return Suspended;
    }

    // The end of a receive that was suspended: the thread reads its own event set.
    method FinishRecv(t: nat) returns (received: Bits)
      requires Listed(Abs()) && Enabled(Abs(), Step.Return(t))
      modifies threads
      ensures (Abs(), Received(received)) == Next(old(Abs()), Step.Return(t))
      ensures received == old(threads[t].got)
      ensures threads[..] == old(threads[..])[t := Idle]
    {
      received := threads[t].got;
      threads[t] := Idle;
    }

    // rt_event_control with RT_IPC_CMD_RESET: the suspended threads are resumed, in order, with the given error.
    method Reset() returns (dismissed: seq<nat>, error: int)
      requires Listed(Abs())
      modifies this, threads
      ensures Abs() == Next(old(Abs()), Step.Reset).0
      ensures dismissed == old(suspendThread) && error == RT_ERROR
      ensures suspendThread == [] && bits == 0
    {
      ListedWaits(Abs());
      error := RT_ERROR;
      dismissed := [];
      ghost var pc := threads[..];
      while suspendThread != []
        invariant dismissed + suspendThread == old(suspendThread)
        invariant bits == old(bits) && threads.Length == |pc|
        invariant forall u :: 0 <= u < |pc| ==> threads[u] == if u in dismissed then Dismissed else pc[u]
        decreases |suspendThread|
      {
        var t := suspendThread[0];
        assert old(suspendThread)[|dismissed|] == t;
        threads[t] := Dismissed;
        dismissed, suspendThread := dismissed + [t], suspendThread[1..];
      }
      bits := 0;
      assert threads[..] == DismissAll(pc);
    }
  }

  // The pass over a whole list is what is done so far joined with the pass over the rest.
  ghost predicate Rejoined(wait: seq<nat>, pc: seq<Pc>, bits: Bits, stay: seq<nat>, rest: seq<nat>, now: seq<Pc>,
                           need: Bits)
  {
    && Sweepable(wait, pc) && Sweepable(rest, now)
    && var whole, part := Sweep(wait, pc, bits), Sweep(rest, now, bits);
       whole == (stay + part.0, part.1, Either(need, part.2), part.3)
  }

  ghost predicate Sweepable(wait: seq<nat>, pc: seq<Pc>) {
    NoDup(wait) && forall i :: 0 <= i < |wait| ==> wait[i] < |pc| && pc[wait[i]].Waiting?
  }

  lemma RejoinedStart(wait: seq<nat>, pc: seq<Pc>, bits: Bits)
    requires Sweepable(wait, pc)
    ensures Rejoined(wait, pc, bits, [], wait, pc, 0)
  {
    hide Sweep, Either;
    EitherZero(Sweep(wait, pc, bits).2);
    assert [] + Sweep(wait, pc, bits).0 == Sweep(wait, pc, bits).0;
  }

  lemma RejoinedEnd(wait: seq<nat>, pc: seq<Pc>, bits: Bits, stay: seq<nat>, now: seq<Pc>, need: Bits)
    requires Rejoined(wait, pc, bits, stay, [], now, need)
    ensures Sweepable(wait, pc) && Sweep(wait, pc, bits) == (stay, now, need, false)
  {
    EitherRight(need);
    assert stay + [] == stay;
  }

  // Behind the first thread of a list the others are still waiting.
  lemma RestSweepable(rest: seq<nat>, now: seq<Pc>, p: Pc)
    requires Sweepable(rest, now) && rest != []
    ensures rest[0] < |now| && now[rest[0]].Waiting?
    ensures Sweepable(rest[1..], now) && Sweepable(rest[1..], now[rest[0] := p])
  {
    FrontOut(rest);
    forall i | 0 <= i < |rest| - 1
      ensures rest[1..][i] == rest[i + 1] && rest[1..][i] != rest[0]
    {
      assert rest[1..][i] in rest[1..];
    }
  }

  lemma RejoinedWake(wait: seq<nat>, pc: seq<Pc>, bits: Bits, stay: seq<nat>, rest: seq<nat>, now: seq<Pc>,
                     need: Bits)
    requires Rejoined(wait, pc, bits, stay, rest, now, need) && rest != []
    requires rest[0] < |now| && now[rest[0]].Waiting?
    requires (now[rest[0]].want.all || now[rest[0]].want.any) && Satisfied(now[rest[0]].want, bits)
    ensures var w := now[rest[0]].want;
            var got := Matched(w, bits);
            Rejoined(wait, pc, bits, stay, rest[1..], now[rest[0] := Woken(got)],
                     if w.clear then Either(need, got) else need)
  {
    hide Either, Satisfied, Matched, Both, NoDup;
    var w := now[rest[0]].want;
    var got := Matched(w, bits);
    RestSweepable(rest, now, Woken(got));
    EitherRight(need);
    EitherShifts(need, if w.clear then got else 0, Sweep(rest[1..], now[rest[0] := Woken(got)], bits).2);
  }

  lemma RejoinedStay(wait: seq<nat>, pc: seq<Pc>, bits: Bits, stay: seq<nat>, rest: seq<nat>, now: seq<Pc>,
                     need: Bits)
    requires Rejoined(wait, pc, bits, stay, rest, now, need) && rest != []
    requires rest[0] < |now| && now[rest[0]].Waiting?
    requires (now[rest[0]].want.all || now[rest[0]].want.any) && !Satisfied(now[rest[0]].want, bits)
    ensures Rejoined(wait, pc, bits, stay + [rest[0]], rest[1..], now, need)
  {
    hide Either, Satisfied, Matched, Both, NoDup;
    RestSweepable(rest, now, now[rest[0]]);
    var part := Sweep(rest[1..], now, bits);
    assert stay + ([rest[0]] + part.0) == (stay + [rest[0]]) + part.0;
  }

  lemma RejoinedBreak(wait: seq<nat>, pc: seq<Pc>, bits: Bits, stay: seq<nat>, rest: seq<nat>, now: seq<Pc>,
                      need: Bits)
    requires Rejoined(wait, pc, bits, stay, rest, now, need) && rest != []
    requires rest[0] < |now| && now[rest[0]].Waiting? && !now[rest[0]].want.all && !now[rest[0]].want.any
    ensures Sweepable(wait, pc) && Sweep(wait, pc, bits) == (stay + rest, now, need, true)
  {
    hide Either;
    EitherRight(need);
  }

  // What the first thread of the rest does to the join.
  lemma RejoinedFront(wait: seq<nat>, pc: seq<Pc>, bits: Bits, stay: seq<nat>, rest: seq<nat>, now: seq<Pc>,
                      need: Bits)
    requires Rejoined(wait, pc, bits, stay, rest, now, need) && rest != []
    ensures rest[0] < |now| && now[rest[0]].Waiting?
    ensures var t := rest[0];
            var w := now[t].want;
            var got := Matched(w, bits);
            if !w.all && !w.any then
              Sweepable(wait, pc) && Sweep(wait, pc, bits) == (stay + rest, now, need, true)
            else if Satisfied(w, bits) then
              Rejoined(wait, pc, bits, stay, rest[1..], now[t := Woken(got)],
                       if w.clear then Either(need, got) else need)
            else
              Rejoined(wait, pc, bits, stay + [t], rest[1..], now, need)
  {
    hide Either, Satisfied, Matched, Both, Sweep;
    var w := now[rest[0]].want;
    if !w.all && !w.any {
      RejoinedBreak(wait, pc, bits, stay, rest, now, need);
    } else if Satisfied(w, bits) {
      RejoinedWake(wait, pc, bits, stay, rest, now, need);
    } else {
      RejoinedStay(wait, pc, bits, stay, rest, now, need);
    }
  }

  lemma EitherZero(x: Bits)
    ensures Either(0, x) == x
  {
  }

  lemma EitherRight(x: Bits)
    ensures Either(x, 0) == x
  {
  }

  lemma EitherShifts(x: Bits, y: Bits, z: Bits)
    ensures Either(x, Either(y, z)) == Either(Either(x, y), z)
  {
  }
}
