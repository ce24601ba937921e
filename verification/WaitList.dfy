/** Priority-ordered suspend lists of the IPC kernel (project/rt-thread/src/ipc.c).

    A thread is named by its index.  `prio[t]` is the current priority of thread `t`; a smaller
    number is more urgent.  A list is the sequence of its threads, head first. */
module WaitList {
  import opened Basics

  // The priority of a mutex nobody waits for.
  const NO_PRIORITY: nat := 0xff

  ghost predicate InRange(ws: seq<nat>, n: nat) {
    forall i :: 0 <= i < |ws| ==> ws[i] < n
  }

  ghost predicate NoDup(ws: seq<nat>) {
    forall i, j :: 0 <= i < j < |ws| ==> ws[i] != ws[j]
  }

  // Every thread of the list is at least as urgent as those queued behind it.
  ghost predicate Sorted(prio: seq<nat>, ws: seq<nat>)
    requires InRange(ws, |prio|)
  {
    forall i, j :: 0 <= i < j < |ws| ==> prio[ws[i]] <= prio[ws[j]]
  }

  // Priority of the first thread of the list.
  function Head(prio: seq<nat>, ws: seq<nat>): nat
    requires InRange(ws, |prio|)
  {
    if ws == [] then NO_PRIORITY else prio[ws[0]]
  }

  // The list with the first occurrence of `t` unlinked.
  function Remove(ws: seq<nat>, t: nat): (r: seq<nat>)
    ensures t !in ws ==> r == ws
    ensures t in ws ==> |r| == |ws| - 1
    ensures forall x :: x in r ==> x in ws
    ensures forall x :: x in ws && x != t ==> x in r
  {
    if ws == [] then [] else if ws[0] == t then ws[1..] else [ws[0]] + Remove(ws[1..], t)
  }

  // Insertion in front of the first strictly less urgent thread.
  function Enqueue(prio: seq<nat>, ws: seq<nat>, t: nat): (r: seq<nat>)
    requires InRange(ws, |prio|) && t < |prio|
    ensures |r| == |ws| + 1
    ensures InRange(r, |prio|)
    ensures forall x :: x in r <==> x == t || x in ws
  {
    if ws == [] then [t]
    else if prio[t] < prio[ws[0]] then [t] + ws
    else [ws[0]] + Enqueue(prio, ws[1..], t)
  }

  lemma {:induction false} RemoveAt(ws: seq<nat>, k: nat)
    requires k < |ws| && NoDup(ws)
    ensures Remove(ws, ws[k]) == ws[..k] + ws[k + 1..]
  {
    if k > 0 {
      var tail := ws[1..];
      assert tail[k - 1] == ws[k] && NoDup(tail);
      RemoveAt(tail, k - 1);
      assert ws[0] != ws[k];
      ConsSkip(ws, k);
    }
  }

  lemma ConsSkip(ws: seq<nat>, k: nat)
    requires 0 < k < |ws|
    ensures [ws[0]] + (ws[1..][..k - 1] + ws[1..][k..]) == ws[..k] + ws[k + 1..]
  {
    assert ws[1..][k..] == ws[k + 1..];
    assert ws[..k] == [ws[0]] + ws[1..][..k - 1];
  }

  lemma RemoveInRange(ws: seq<nat>, t: nat, n: nat)
    requires InRange(ws, n)
    ensures InRange(Remove(ws, t), n)
  {
    forall i | 0 <= i < |Remove(ws, t)| ensures Remove(ws, t)[i] < n {
      assert Remove(ws, t)[i] in ws;
    }
  }

  lemma CutKeepsOrder(prio: seq<nat>, ws: seq<nat>, k: nat)
    requires InRange(ws, |prio|) && NoDup(ws) && k < |ws|
    ensures var r := ws[..k] + ws[k + 1..];
      NoDup(r) && InRange(r, |prio|) && ws[k] !in r && (Sorted(prio, ws) ==> Sorted(prio, r))
  {
    var r := ws[..k] + ws[k + 1..];
    assert forall i :: 0 <= i < |r| ==> r[i] == if i < k then ws[i] else ws[i + 1];
  }

  lemma RemoveKeepsOrder(prio: seq<nat>, ws: seq<nat>, t: nat)
    requires InRange(ws, |prio|) && NoDup(ws)
    ensures NoDup(Remove(ws, t)) && InRange(Remove(ws, t), |prio|) && t !in Remove(ws, t)
    ensures Sorted(prio, ws) ==> Sorted(prio, Remove(ws, t))
  {
    if t in ws {
      var k :| 0 <= k < |ws| && ws[k] == t;
      RemoveAt(ws, k);
      CutKeepsOrder(prio, ws, k);
    }
  }

  // Taking a thread out of a sorted list leaves a head that explains the old head.
  lemma HeadSplit(prio: seq<nat>, ws: seq<nat>, t: nat)
    requires InRange(ws, |prio|) && NoDup(ws) && Sorted(prio, ws) && t in ws
    requires forall x :: 0 <= x < |prio| ==> prio[x] <= NO_PRIORITY
    ensures InRange(Remove(ws, t), |prio|)
    ensures Head(prio, ws) == Min(prio[t], Head(prio, Remove(ws, t)))
  {
    RemoveKeepsOrder(prio, ws, t);
    var k :| 0 <= k < |ws| && ws[k] == t;
    RemoveAt(ws, k);
  }

  lemma EnqueueNoDup(prio: seq<nat>, ws: seq<nat>, t: nat)
    requires InRange(ws, |prio|) && t < |prio| && NoDup(ws) && t !in ws
    ensures NoDup(Enqueue(prio, ws, t))
  {
    if ws != [] && prio[ws[0]] <= prio[t] {
      EnqueueNoDup(prio, ws[1..], t);
      assert ws[0] !in ws[1..];
    }
  }

  // The list stays sorted, its head is the more urgent of the two, and the newcomer stands
  // behind everybody of its own priority.
  lemma {:induction false} EnqueueSorted(prio: seq<nat>, ws: seq<nat>, t: nat)
    requires InRange(ws, |prio|) && t < |prio| && Sorted(prio, ws)
    requires prio[t] <= NO_PRIORITY
    ensures Sorted(prio, Enqueue(prio, ws, t))
    ensures Head(prio, Enqueue(prio, ws, t)) == Min(prio[t], Head(prio, ws))
  {
    if ws == [] {
    } else if prio[t] < prio[ws[0]] {
    } else {
      var rest := Enqueue(prio, ws[1..], t);
      EnqueueSorted(prio, ws[1..], t);
      assert forall x :: x in rest ==> prio[ws[0]] <= prio[x];
    }
  }

  // FIFO among equals: the place of the newcomer is exactly behind the last thread that is not
  // less urgent, and nobody else is moved.
  lemma {:induction false} EnqueuePlace(prio: seq<nat>, ws: seq<nat>, t: nat, k: nat)
    requires InRange(ws, |prio|) && t < |prio| && k <= |ws|
    requires forall i :: 0 <= i < k ==> prio[ws[i]] <= prio[t]
    requires k < |ws| ==> prio[t] < prio[ws[k]]
    ensures Enqueue(prio, ws, t) == ws[..k] + [t] + ws[k..]
  {
    if k > 0 {
      var tail := ws[1..];
      assert prio[ws[0]] <= prio[t];
      EnqueuePlace(prio, tail, t, k - 1);
      ConsCut(ws, k, [t]);
    }
  }

  lemma ConsCut(ws: seq<nat>, k: nat, mid: seq<nat>)
    requires 0 < k <= |ws|
    ensures [ws[0]] + (ws[1..][..k - 1] + mid + ws[1..][k - 1..]) == ws[..k] + mid + ws[k..]
  {
    assert ws[1..][k - 1..] == ws[k..];
    assert ws[..k] == [ws[0]] + ws[1..][..k - 1];
  }

  // Only the priorities of listed threads matter.
  lemma SortedAgree(p: seq<nat>, q: seq<nat>, ws: seq<nat>)
    requires |p| == |q| && InRange(ws, |p|)
    requires forall x :: x in ws ==> p[x] == q[x]
    ensures Sorted(p, ws) == Sorted(q, ws) && Head(p, ws) == Head(q, ws)
  {
  }
}
