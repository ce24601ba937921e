// The circular doubly linked list of project/rt-thread/include/rtservice.h, the list under every suspend
// list. A list is the ring of nodes met by following next; a list head stands at its place 0.
module LinkedLists {
  import opened WaitList
  import opened SuspendList

  class ListNode {
    // The thread this node belongs to (RT_THREAD_LIST_NODE_ENTRY); of no meaning for a list head.
    const thread: nat
    var next: ListNode
    var prev: ListNode
    // Whether that thread is suspended, and its error number.
    var suspended: bool
    var error: int

    // rt_list_init.
    constructor (thread: nat)
      ensures this.thread == thread && IsRing([this]) && !suspended && error == 0
    {
      this.thread := thread;
      suspended, error := false, 0;
      next := this;
      prev := this;
      new;
      assert JoinedAt([this], 0);
    }
  }

  function After(i: nat, n: nat): nat {
    if i + 1 < n then i + 1 else 0
  }

  // The nodes at place i and at the place after it point at each other.
  ghost predicate JoinedAt(r: seq<ListNode>, i: nat)
    requires i < |r|
    reads r
  {
    r[i].next == r[After(i, |r|)] && r[After(i, |r|)].prev == r[i]
  }

  ghost predicate Distinct(r: seq<ListNode>) {
    forall i, j :: 0 <= i < j < |r| ==> r[i] != r[j]
  }

  ghost predicate IsRing(r: seq<ListNode>)
    reads r
  {
    |r| > 0 && Distinct(r) && forall i: nat :: i < |r| ==> JoinedAt(r, i)
  }

  // The ring with n behind place k, and the ring without place k.
  ghost function With(r: seq<ListNode>, k: nat, n: ListNode): seq<ListNode>
    requires k < |r|
  {
    r[..k + 1] + [n] + r[k + 1..]
  }

  ghost function Cut(r: seq<ListNode>, k: nat): seq<ListNode>
    requires k < |r|
  {
    r[..k] + r[k + 1..]
  }

  function Before(k: nat, n: nat): nat
    requires k < n
  {
    if k > 0 then k - 1 else n - 1
  }

  lemma WithDistinct(r: seq<ListNode>, k: nat, n: ListNode)
    requires k < |r| && Distinct(r) && n !in r
    ensures Distinct(With(r, k, n))
    ensures forall i :: 0 <= i < |r| + 1 ==>
              With(r, k, n)[i] == if i <= k then r[i] else if i == k + 1 then n else r[i - 1]
  {
  }

  lemma CutDistinct(r: seq<ListNode>, k: nat)
    requires k < |r| && Distinct(r)
    ensures Distinct(Cut(r, k)) && r[k] !in Cut(r, k)
    ensures forall i :: 0 <= i < |r| - 1 ==> Cut(r, k)[i] == if i < k then r[i] else r[i + 1]
  {
  }

  /** Removing what was inserted gives the ring back. */
  lemma CutUndoesWith(r: seq<ListNode>, k: nat, n: ListNode)
    requires k < |r|
    ensures Cut(With(r, k, n), k + 1) == r
  {
    var s := With(r, k, n);
    assert s[..k + 1] == r[..k + 1] && s[k + 2..] == r[k + 1..];
  }

  /** The order of a ring fixes every link of its nodes: two states with the same ring agree on all of them.
    * So a removal that gives back the ring gives back all next and prev pointers. */
  twostate lemma RingFixesLinks(r: seq<ListNode>)
    requires old(IsRing(r)) && IsRing(r)
    ensures forall x :: x in r ==> x.next == old(x.next) && x.prev == old(x.prev)
  {
    forall i: nat | i < |r|
      ensures r[i].next == old(r[i].next) && r[i].prev == old(r[i].prev)
    {
      var b := Before(i, |r|);
      assert JoinedAt(r, i) && JoinedAt(r, b);
      assert old(JoinedAt(r, i)) && old(JoinedAt(r, b));
    }
  }

  // Whether a list is a ring shows in the links alone.
  twostate lemma SameLinksRing(r: seq<ListNode>)
    requires old(IsRing(r))
    requires forall x :: x in r ==> x.next == old(x.next) && x.prev == old(x.prev)
    ensures IsRing(r)
  {
    forall i: nat | i < |r|
      ensures JoinedAt(r, i)
    {
      assert old(JoinedAt(r, i));
      assert r[i] in r && r[After(i, |r|)] in r;
    }
  }

  method InsertAfter(l: ListNode, n: ListNode, ghost r: seq<ListNode>, ghost k: nat)
    requires IsRing(r) && k < |r| && r[k] == l && n !in r
    modifies r`next, r`prev, n`next, n`prev
    ensures IsRing(With(r, k, n))
  {
    assert JoinedAt(r, k);
    l.next.prev := n;
    n.next := l.next;
    l.next := n;
    n.prev := l;
    WithDistinct(r, k, n);
    ghost var s := With(r, k, n);
    forall i: nat | i < |s|
      ensures JoinedAt(s, i)
    {
      if i < k {
        assert old(JoinedAt(r, i));
      } else if i > k + 1 {
        assert old(JoinedAt(r, i - 1));
      } else {
        assert old(JoinedAt(r, k));
      }
    }
  }

  // Inserting before the node at place k is inserting behind the place before it; before a head that
  // is the end of the list.
  method InsertBefore(l: ListNode, n: ListNode, ghost r: seq<ListNode>, ghost k: nat)
    requires IsRing(r) && k < |r| && r[k] == l && n !in r
    modifies r`next, r`prev, n`next, n`prev
    ensures IsRing(With(r, Before(k, |r|), n))
  {
    ghost var b := Before(k, |r|);
    assert JoinedAt(r, b);
    l.prev.next := n;
    n.prev := l.prev;
    l.prev := n;
    n.next := l;
    WithDistinct(r, b, n);
    ghost var s := With(r, b, n);
    forall i: nat | i < |s|
      ensures JoinedAt(s, i)
    {
      if i < b {
        assert old(JoinedAt(r, i));
      } else if i > b + 1 {
        assert old(JoinedAt(r, i - 1));
      } else {
        assert old(JoinedAt(r, b));
      }
    }
  }

  // The node leaves its ring, which closes behind it, and becomes a ring of its own.
  method Unlink(n: ListNode, ghost r: seq<ListNode>, ghost k: nat)
    requires IsRing(r) && k < |r| && r[k] == n
    modifies r`next, r`prev
    ensures IsRing([n])
    ensures |r| > 1 ==> IsRing(Cut(r, k))
  {
    ghost var b := Before(k, |r|);
    assert JoinedAt(r, k) && JoinedAt(r, b);
    n.next.prev := n.prev;
    n.prev.next := n.next;
    n.next := n;
    n.prev := n;
    CutDistinct(r, k);
    ghost var s := Cut(r, k);
    assert JoinedAt([n], 0);
    forall i: nat | i < |s|
      ensures JoinedAt(s, i)
    {
      if i < k {
        assert old(JoinedAt(r, i));
      }
      if i + 1 < |r| {
        assert old(JoinedAt(r, i + 1));
      }
      assert old(JoinedAt(r, k));
    }
  }

  method IsEmpty(l: ListNode, ghost r: seq<ListNode>) returns (empty: bool)
    requires IsRing(r) && r[0] == l
    ensures empty <==> |r| == 1
  {
    assert JoinedAt(r, 0);
    empty := l.next == l;
  }

  // The length is counted in an unsigned 32-bit variable.
  method Len(l: ListNode, ghost r: seq<ListNode>) returns (len: nat)
    requires IsRing(r) && r[0] == l
    ensures len == (|r| - 1) % 0x1_0000_0000
  {
    len := 0;
    var p := l;
    ghost var i := 0;
    assert JoinedAt(r, 0);
    while p.next != l
      invariant 0 <= i < |r| && p == r[i] && len == i % 0x1_0000_0000
      decreases |r| - i
    {
      assert JoinedAt(r, i);
      p := p.next;
      len := (len + 1) % 0x1_0000_0000;
      i := i + 1;
    }
    assert JoinedAt(r, i);
  }

  // The threads of a suspend list, head first.
  ghost function Threads(r: seq<ListNode>): (ts: seq<nat>)
    requires |r| > 0
    ensures |ts| == |r| - 1
  {
    seq(|r| - 1, i requires 0 <= i < |r| - 1 => r[i + 1].thread)
  }

  lemma ThreadsWith(r: seq<ListNode>, k: nat, n: ListNode)
    requires k < |r|
    ensures Threads(With(r, k, n)) == InsertAt(Threads(r), k, n.thread)
  {
  }

  // The first node whose thread is less urgent than t, or the head; k is its place, or the end.
  method FindPlace(l: ListNode, t: nat, prio: seq<nat>, ghost r: seq<ListNode>) returns (p: ListNode, ghost k: nat)
    requires IsRing(r) && r[0] == l
    requires InRange(Threads(r), |prio|) && t < |prio|
    ensures 1 <= k <= |r| && p == (if k < |r| then r[k] else l)
    ensures forall i :: 0 <= i < k - 1 ==> prio[Threads(r)[i]] <= prio[t]
    ensures k < |r| ==> prio[t] < prio[Threads(r)[k - 1]]
  {
    ghost var ts := Threads(r);
    p := l.next;
    k := 1;
    assert JoinedAt(r, 0);
    while p != l && prio[t] >= prio[p.thread]
      invariant 1 <= k <= |r| && p == (if k < |r| then r[k] else l)
      invariant k < |r| ==> p.thread == ts[k - 1]
      invariant forall i :: 0 <= i < k - 1 ==> prio[ts[i]] <= prio[t]
      decreases |r| - k
    {
      assert JoinedAt(r, k);
      p := p.next;
      k := k + 1;
    }
  }

  // rt_susp_list_enqueue: at the end of a FIFO list; before the first less urgent thread of a PRIO list.
  method SuspListEnqueue(l: ListNode, n: ListNode, prio: seq<nat>, fifo: bool, ghost r: seq<ListNode>)
    returns (ghost s: seq<ListNode>)
    requires IsRing(r) && r[0] == l && n !in r
    requires InRange(Threads(r), |prio|) && n.thread < |prio|
    modifies r`next, r`prev, n`next, n`prev
    ensures IsRing(s) && s[0] == l
    ensures Threads(s) == if fifo then Threads(r) + [n.thread] else Enqueue(prio, Threads(r), n.thread)
  {
    ghost var ts := Threads(r);
    if fifo {
      InsertBefore(l, n, r, 0);
      s := With(r, |r| - 1, n);
      ThreadsWith(r, |r| - 1, n);
    } else {
      var p, k := FindPlace(l, n.thread, prio, r);
      InsertBefore(p, n, r, if k < |r| then k else 0);
      s := With(r, k - 1, n);
      ThreadsWith(r, k - 1, n);
      EnqueuePlace(prio, ts, n.thread, k - 1);
    }
  }

  // rt_sched_thread_ready: fails on a thread that is not suspended; otherwise it leaves its list.
  method ThreadReady(n: ListNode, ghost r: seq<ListNode>, ghost k: nat) returns (ok: bool)
    requires IsRing(r) && 0 < k < |r| && r[k] == n
    modifies r
    ensures ok == old(n.suspended)
    ensures !ok ==> IsRing(r) && unchanged(r)
    ensures ok ==> IsRing(Cut(r, k)) && IsRing([n]) && !n.suspended
    ensures forall x :: x in r ==> x.error == old(x.error) && (x != n ==> x.suspended == old(x.suspended))
  {
    if !n.suspended {
      return false;
    }
    Unlink(n, r, k);
    label L:
    n.suspended := false;
    SameLinksRing@L([n]);
    SameLinksRing@L(Cut(r, k));
    ok := true;
  }

  // rt_susp_list_dequeue: the first thread of the list is made ready and given the error, unless that is
  // negative; null if there is none or it cannot be made ready.
  method SuspListDequeue(l: ListNode, threadError: int, ghost r: seq<ListNode>)
    returns (n: ListNode?, ghost s: seq<ListNode>)
    requires IsRing(r) && r[0] == l
    modifies r
    ensures IsRing(s) && s[0] == l
    ensures n == null <==> |r| == 1 || !old(r[1].suspended)
    ensures n == null ==> s == r && unchanged(r)
    ensures n != null ==> n == r[1] && s == Cut(r, 1) && Threads(s) == Threads(r)[1..] && IsRing([n])
    ensures n != null ==> !n.suspended && n.error == if threadError >= 0 then threadError else old(r[1].error)
    ensures forall x :: x in r && x != n ==> x.suspended == old(x.suspended) && x.error == old(x.error)
  {
    var empty := IsEmpty(l, r);
    if empty {
      return null, r;
    }
    assert JoinedAt(r, 0);
    n := l.next;
    CutDistinct(r, 1);
    var ok := ThreadReady(n, r, 1);
    if !ok {
      return null, r;
    }
    s := Cut(r, 1);
    label L:
    if threadError >= 0 {
      n.error := threadError;
    }
    SameLinksRing@L([n]);
    SameLinksRing@L(s);
  }

  // The first k threads of a list have been made ready with the error; the others are still suspended.
  ghost predicate ResumedUpTo(r: seq<ListNode>, k: nat, threadError: int)
    reads r
  {
    forall i :: 1 <= i < |r| ==> if i <= k then !r[i].suspended && r[i].error == threadError else r[i].suspended
  }

  // One turn of the loop of rt_susp_list_resume_all.
  method ResumeNext(l: ListNode, threadError: int, ghost r: seq<ListNode>, ghost k: nat)
    returns (n: ListNode?, ghost s: seq<ListNode>)
    requires Distinct(r) && k < |r| && r[0] == l && IsRing([l] + r[k + 1..])
    requires threadError >= 0 && ResumedUpTo(r, k, threadError)
    modifies r
    ensures n == null <==> k + 1 == |r|
    ensures IsRing(s) && s == [l] + if n == null then r[k + 1..] else r[k + 2..]
    ensures ResumedUpTo(r, if n == null then k else k + 1, threadError)
  {
    hide IsRing;
    NotBehind(l, r, k);
    n, s := SuspListDequeue(l, threadError, [l] + r[k + 1..]);
  }

  // rt_susp_list_resume_all: every thread of a list of suspended threads is made ready with the error, in
  // order, and the list is empty afterwards.
  method SuspListResumeAll(l: ListNode, threadError: int, ghost r: seq<ListNode>)
    requires IsRing(r) && r[0] == l && threadError >= 0
    requires forall i :: 1 <= i < |r| ==> r[i].suspended
    modifies r
    ensures IsRing([l])
    ensures forall i :: 1 <= i < |r| ==> !r[i].suspended && r[i].error == threadError
  {
    ghost var s, k := r, 0;
    assert r == [l] + r[1..];
    var thread;
    thread, s := ResumeNext(l, threadError, r, k);
    while thread != null
      invariant Distinct(r) && k < |r| && (thread == null <==> k + 1 == |r|)
      invariant IsRing(s) && s == [l] + if thread == null then r[k + 1..] else r[k + 2..]
      invariant ResumedUpTo(r, if thread == null then k else k + 1, threadError)
      decreases |r| - k, thread != null
    {
      k := k + 1;
      thread, s := ResumeNext(l, threadError, r, k);
    }
    assert r[k + 1..] == [] && s == [l];
  }

  // What is left of the ring after k threads, and what the next dequeue takes from it.
  lemma NotBehind(l: ListNode, r: seq<ListNode>, k: nat)
    requires Distinct(r) && k < |r| && r[0] == l
    ensures k + 1 < |r| ==> Cut([l] + r[k + 1..], 1) == [l] + r[k + 2..]
    ensures forall i :: 1 <= i <= k ==> r[i] !in [l] + r[k + 1..]
  {
  }
}
