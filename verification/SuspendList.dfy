// Suspend lists in whichever order: what the message queue, mailbox, semaphore and event models share.
// The order of a PRIO list is that of WaitList.Enqueue; a FIFO list grows at its end.
module SuspendList {
  import opened WaitList

  // The error a reset puts into the threads it resumes. The message queue, mailbox and event calls return it
  // as it is, not negated like all their other errors.
  const RT_ERROR: int := 1

  // How long a caller is ready to wait. WaitAt gives the place in the wait list: the end for a FIFO
  // queue, the place the priority asks for otherwise.
  datatype Patience = NoWait | WaitAt(pos: nat)

  function InsertAt(s: seq<nat>, pos: nat, t: nat): seq<nat>
    requires pos <= |s|
  {
    s[..pos] + [t] + s[pos..]
  }

  predicate WaitFits(wait: Patience, s: seq<nat>) {
    wait.WaitAt? ==> wait.pos <= |s|
  }

  lemma InsertedInto(s: seq<nat>, pos: nat, t: nat)
    requires pos <= |s| && NoDup(s) && t !in s
    ensures NoDup(InsertAt(s, pos, t))
    ensures forall u: nat :: u in InsertAt(s, pos, t) <==> u == t || u in s
  {
    assert s == s[..pos] + s[pos..];
  }

  lemma FrontOut(s: seq<nat>)
    requires NoDup(s) && s != []
    ensures NoDup(s[1..])
    ensures forall u: nat :: u in s[1..] <==> u in s && u != s[0]
  {
    assert s == [s[0]] + s[1..];
  }

  lemma FrontIn(s: seq<nat>, t: nat)
    requires NoDup(s) && t !in s
    ensures NoDup([t] + s)
  {
  }

  lemma {:induction false} TakenOut(s: seq<nat>, t: nat)
    requires NoDup(s)
    ensures NoDup(Remove(s, t))
    ensures forall u: nat :: u in Remove(s, t) <==> u in s && u != t
  {
    if s == [] {
    } else if s[0] == t {
      assert s == [t] + s[1..];
    } else {
      FrontOut(s);
      TakenOut(s[1..], t);
      FrontIn(Remove(s[1..], t), s[0]);
      assert Remove(s, t) == [s[0]] + Remove(s[1..], t);
    }
  }

  // Queueing by priority is one way to choose the place.
  lemma {:induction false} EnqueueInserts(prio: seq<nat>, ws: seq<nat>, t: nat) returns (pos: nat)
    requires InRange(ws, |prio|) && t < |prio|
    ensures pos <= |ws| && Enqueue(prio, ws, t) == InsertAt(ws, pos, t)
  {
    if ws == [] || prio[t] < prio[ws[0]] {
      pos := 0;
    } else {
      var p := EnqueueInserts(prio, ws[1..], t);
      pos := p + 1;
      assert ws[..pos] == [ws[0]] + ws[1..][..p] && ws[pos..] == ws[1..][p..];
    }
  }
}
