/** Who comes out of a suspend list: the threads stand in order of priority as long as each one is queued
    by its priority and keeps it while it waits. Any ranking will do for a priority; with the time of arrival
    for one, the law is that of a FIFO list. */
module WaitOrder {
  import opened WaitList
  import opened SuspendList

  // What a step does to a suspend list.
  datatype Move = Keep | Join(t: nat, pos: nat) | Pop | Drop(t: nat) | Clear

  predicate Fits(w: seq<nat>, move: Move) {
    move.Join? ==> move.pos <= |w| && move.t !in w
  }

  function After(w: seq<nat>, move: Move): seq<nat>
    requires Fits(w, move)
  {
    match move
    case Keep => w
    case Join(t, pos) => InsertAt(w, pos, t)
    case Pop => if w == [] then [] else w[1..]
    case Drop(t) => Remove(w, t)
    case Clear => []
  }

  // The list is in order of priority.
  ghost predicate Ranked(prio: seq<nat>, w: seq<nat>) {
    InRange(w, |prio|) && NoDup(w) && Sorted(prio, w)
  }

  // A newcomer takes the place that queueing by priority gives it.
  ghost predicate ByPriority(prio: seq<nat>, w: seq<nat>, move: Move) {
    move.Join? ==>
      && InRange(w, |prio|) && move.pos <= |w| && move.t < |prio|
      && InsertAt(w, move.pos, move.t) == Enqueue(prio, w, move.t)
  }

  // Where the list has room for a newcomer of this priority.
  lemma {:induction false} PlaceFor(prio: seq<nat>, w: seq<nat>, t: nat) returns (k: nat)
    requires Ranked(prio, w) && t < |prio|
    ensures k <= |w| && forall i :: 0 <= i < |w| ==> (i < k <==> prio[w[i]] <= prio[t])
  {
    if w == [] || prio[t] < prio[w[0]] {
      k := 0;
    } else {
      var j := PlaceFor(prio, w[1..], t);
      k := j + 1;
      forall i | 0 <= i < |w| ensures i < k <==> prio[w[i]] <= prio[t] {
        if i > 0 { assert w[1..][i - 1] == w[i]; }
      }
    }
  }

  // Behind everybody who is not less urgent, and in front of everybody who is.
  ghost predicate InPlace(prio: seq<nat>, w: seq<nat>, t: nat, pos: nat)
    requires InRange(w, |prio|) && t < |prio|
  {
    forall i :: 0 <= i < |w| ==> (i < pos <==> prio[w[i]] <= prio[t])
  }

  lemma PlacedRanked(prio: seq<nat>, w: seq<nat>, t: nat, pos: nat)
    requires Ranked(prio, w) && t < |prio| && t !in w && pos <= |w| && InPlace(prio, w, t, pos)
    ensures Ranked(prio, InsertAt(w, pos, t))
  {
    var r := InsertAt(w, pos, t);
    assert forall i :: 0 <= i < |r| ==> r[i] == if i < pos then w[i] else if i == pos then t else w[i - 1];
  }

  lemma OnePlace(w: seq<nat>, t: nat, pos: nat, k: nat)
    requires pos <= |w| && k <= |w| && t !in w && InsertAt(w, pos, t) == InsertAt(w, k, t)
    ensures pos == k
  {
    var r := InsertAt(w, pos, t);
    assert forall i :: 0 <= i < |r| && i != pos ==> r[i] == w[if i < pos then i else i - 1];
    assert r[k] == t;
  }

  /** Queueing by priority puts the newcomer behind everybody who is not less urgent, in front of everybody
    * who is, and nowhere else; the list stays in order. */
  lemma JoinRanked(prio: seq<nat>, w: seq<nat>, t: nat, pos: nat)
    requires Ranked(prio, w) && t < |prio| && t !in w && pos <= |w|
    ensures ByPriority(prio, w, Join(t, pos)) <==> InPlace(prio, w, t, pos)
    ensures ByPriority(prio, w, Join(t, pos)) ==> Ranked(prio, InsertAt(w, pos, t))
  {
    hide Sorted, NoDup, Enqueue;
    var k := PlaceFor(prio, w, t);
    EnqueuePlace(prio, w, t, k);
    if ByPriority(prio, w, Join(t, pos)) {
      OnePlace(w, t, pos, k);
      PlacedRanked(prio, w, t, pos);
    }
    if InPlace(prio, w, t, pos) {
      EnqueuePlace(prio, w, t, pos);
    }
  }

  lemma FrontRanked(prio: seq<nat>, w: seq<nat>)
    requires Ranked(prio, w) && w != []
    ensures Ranked(prio, w[1..])
  {
  }

  lemma MoveRanked(prio: seq<nat>, w: seq<nat>, move: Move)
    requires Ranked(prio, w) && Fits(w, move) && ByPriority(prio, w, move)
    ensures Ranked(prio, After(w, move))
  {
    hide Ranked, ByPriority, InsertAt, Remove;
    match move
    case Keep =>
    case Join(t, pos) => JoinInRange(prio, w, t, pos); JoinRanked(prio, w, t, pos);
    case Pop => if w != [] { FrontRanked(prio, w); }
    case Drop(t) => DropRanked(prio, w, t);
    case Clear => NobodyRanked(prio);
  }

  lemma JoinInRange(prio: seq<nat>, w: seq<nat>, t: nat, pos: nat)
    requires ByPriority(prio, w, Join(t, pos))
    ensures t < |prio|
  {
  }

  lemma DropRanked(prio: seq<nat>, w: seq<nat>, t: nat)
    requires Ranked(prio, w)
    ensures Ranked(prio, Remove(w, t))
  {
    RemoveKeepsOrder(prio, w, t);
  }

  lemma NobodyRanked(prio: seq<nat>)
    ensures Ranked(prio, [])
  {
  }

  // Nobody on the list changes priority.
  ghost predicate Steady(prio: seq<nat>, more: seq<nat>, w: seq<nat>) {
    |more| == |prio| && forall u: nat :: u in w && u < |prio| ==> more[u] == prio[u]
  }

  lemma SteadyRanked(prio: seq<nat>, more: seq<nat>, w: seq<nat>)
    requires Ranked(prio, w) && Steady(prio, more, w)
    ensures Ranked(more, w)
  {
    forall i | 0 <= i < |w| ensures more[w[i]] == prio[w[i]] {
      assert w[i] in w;
    }
  }

  /** In an ordered list nobody is more urgent than the first thread. */
  lemma FirstIsMostUrgent(prio: seq<nat>, w: seq<nat>, u: nat)
    requires Ranked(prio, w) && u in w
    ensures w[0] < |prio| && u < |prio| && prio[w[0]] <= prio[u]
  {
  }

  /** Ranked by arrival, priority queueing appends: this is a FIFO list. */
  lemma ArrivalAppends(stamp: seq<nat>, w: seq<nat>, t: nat)
    requires Ranked(stamp, w) && t < |stamp| && forall u :: u in w ==> stamp[u] <= stamp[t]
    ensures Enqueue(stamp, w, t) == w + [t]
  {
    EnqueuePlace(stamp, w, t, |w|);
    assert w[..|w|] + [t] + w[|w|..] == w + [t];
  }
}
