// The message queue object: pool nodes linked by next pointers, updated in place. Each lock region of
// project/rt-thread/src/ipc.c is a method that does to the lists what the step machine's function says.
module MessageQueues {
  import opened Basics
  import opened WaitList
  import opened SuspendList
  import opened MqModel
  import opened MqKeeps
  import opened MqRuns

  class Node {
    // The place of the node in the pool; stands for its address.
    ghost const id: nat
    const data: array<byte>
    var next: Node?
    var length: nat

    constructor (ghost id: nat, size: nat)
      ensures this.id == id && next == null && length == 0
      ensures fresh(data) && data.Length == size
      ensures data[..] == seq(size, j => 0)
    {
      this.id := id;
      next := null;
      length := 0;
      data := new byte[size](_ => 0);
    }
  }

  // Following next from first visits exactly the nodes ids, in order, and ends with null.
  ghost predicate Chain(nodes: seq<Node>, links: seq<Node?>, first: Node?, ids: seq<nat>)
    requires |links| == |nodes|
  {
    if ids == [] then first == null
    else ids[0] < |nodes| && first == nodes[ids[0]] && Chain(nodes, links, links[ids[0]], ids[1..])
  }

  lemma {:induction false} ChainFrame(nodes: seq<Node>, links: seq<Node?>, more: seq<Node?>, first: Node?, ids: seq<nat>)
    requires |links| == |nodes| == |more| && Chain(nodes, links, first, ids)
    requires forall v :: v in ids && v < |nodes| ==> links[v] == more[v]
    ensures Chain(nodes, more, first, ids)
  {
    if ids != [] {
      assert ids[0] in ids;
      ChainFrame(nodes, links, more, links[ids[0]], ids[1..]);
    }
  }

  lemma {:induction false} ChainInRange(nodes: seq<Node>, links: seq<Node?>, first: Node?, ids: seq<nat>)
    requires |links| == |nodes| && Chain(nodes, links, first, ids)
    ensures forall i :: 0 <= i < |ids| ==> ids[i] < |nodes|
  {
    if ids != [] {
      ChainInRange(nodes, links, links[ids[0]], ids[1..]);
    }
  }

  // Hanging a node behind the last one.
  lemma {:induction false} ChainAppend(nodes: seq<Node>, links: seq<Node?>, first: Node?, ids: seq<nat>, v: nat)
    requires |links| == |nodes| && Chain(nodes, links, first, ids)
    requires v < |nodes| && links[v] == null && v !in ids && NoDup(ids) && ids != []
    ensures ids[|ids| - 1] < |nodes|
    ensures Chain(nodes, links[ids[|ids| - 1] := nodes[v]], first, ids + [v])
  {
    ChainInRange(nodes, links, first, ids);
    var last := ids[|ids| - 1];
    var more := links[last := nodes[v]];
    assert (ids + [v])[1..] == ids[1..] + [v];
    if |ids| == 1 {
      assert more[v] == null;
      assert Chain(nodes, more, more[v], [v][1..]);
      assert Chain(nodes, more, more[ids[0]], [v]);
    } else {
      FrontOut(ids);
      assert ids[0] != last;
      ChainAppend(nodes, links, links[ids[0]], ids[1..], v);
      assert ids[1..][|ids[1..]| - 1] == last;
    }
  }

  // The lists of a queue, as the links of its nodes draw them.
  ghost predicate Shape(nodes: seq<Node>, links: seq<Node?>, head: Node?, tail: Node?, free: Node?,
                        live: seq<nat>, spare: seq<nat>)
  {
    && |links| == |nodes|
    && Chain(nodes, links, head, live)
    && Chain(nodes, links, free, spare)
    && NoDup(live) && NoDup(spare)
    && (forall v :: v in live ==> v !in spare)
    && tail == Last(nodes, live)
  }

  ghost function Last(nodes: seq<Node>, ids: seq<nat>): Node? {
    if ids == [] || ids[|ids| - 1] >= |nodes| then null else nodes[ids[|ids| - 1]]
  }

  ghost predicate Distinct(nodes: seq<Node>) {
    forall v :: 0 <= v < |nodes| ==> nodes[v].id == v
  }

  lemma ShapeAppend(nodes: seq<Node>, links: seq<Node?>, head: Node?, tail: Node?, free: Node?,
                    live: seq<nat>, spare: seq<nat>, v: nat)
    requires Shape(nodes, links, head, tail, free, live, spare)
    requires v < |nodes| && v !in live && v !in spare && links[v] == null
    ensures tail == null <==> live == []
    ensures head == null <==> live == []
    ensures live != [] ==> live[|live| - 1] < |nodes| && tail == nodes[live[|live| - 1]]
    ensures Shape(nodes, if live == [] then links else links[live[|live| - 1] := nodes[v]],
                  if live == [] then nodes[v] else head, nodes[v], free, live + [v], spare)
  {
    ChainInRange(nodes, links, head, live);
    NoDupAppend(live, v);
    if live == [] {
      assert [] + [v] == [v];
      assert Chain(nodes, links, null, [v][1..]);
    } else {
      ChainAppend(nodes, links, head, live, v);
      var last := live[|live| - 1];
      assert last in live;
      ChainFrame(nodes, links, links[last := nodes[v]], free, spare);
    }
  }

  lemma ShapePush(nodes: seq<Node>, links: seq<Node?>, head: Node?, tail: Node?, free: Node?,
                  live: seq<nat>, spare: seq<nat>, v: nat)
    requires Shape(nodes, links, head, tail, free, live, spare)
    requires v < |nodes| && v !in live && v !in spare
    ensures Shape(nodes, links[v := head], nodes[v], if tail == null then nodes[v] else tail, free,
                  [v] + live, spare)
    ensures Shape(nodes, links[v := free], head, tail, nodes[v], live, [v] + spare)
    ensures Shape(nodes, links[v := null], head, tail, free, live, spare)
  {
    ChainInRange(nodes, links, head, live);
    FrontIn(live, v);
    FrontIn(spare, v);
    assert ([v] + live)[1..] == live && ([v] + spare)[1..] == spare;
    ChainFrame(nodes, links, links[v := head], head, live);
    ChainFrame(nodes, links, links[v := head], free, spare);
    ChainFrame(nodes, links, links[v := free], head, live);
    ChainFrame(nodes, links, links[v := free], free, spare);
    ChainFrame(nodes, links, links[v := null], head, live);
    ChainFrame(nodes, links, links[v := null], free, spare);
  }

  lemma ShapePop(nodes: seq<Node>, links: seq<Node?>, head: Node?, tail: Node?, free: Node?,
                 live: seq<nat>, spare: seq<nat>)
    requires Shape(nodes, links, head, tail, free, live, spare) && Distinct(nodes)
    ensures head == null <==> live == []
    ensures live != [] ==>
              && live[0] < |nodes| && head == nodes[live[0]]
              && live[0] !in live[1..] && live[0] !in spare
              && Shape(nodes, links, links[live[0]], if tail == head then null else tail, free, live[1..], spare)
  {
    if live != [] {
      ChainInRange(nodes, links, head, live);
      FrontOut(live);
      OnlyOneLast(live);
      assert live[0] in live;
    }
  }

  lemma ShapeTake(nodes: seq<Node>, links: seq<Node?>, head: Node?, tail: Node?, free: Node?,
                  live: seq<nat>, spare: seq<nat>)
    requires Shape(nodes, links, head, tail, free, live, spare)
    ensures free == null <==> spare == []
    ensures spare != [] ==>
              && spare[0] < |nodes| && free == nodes[spare[0]]
              && spare[0] !in live && spare[0] !in spare[1..]
              && Shape(nodes, links, head, tail, links[spare[0]], live, spare[1..])
  {
    if spare != [] {
      FrontOut(spare);
      assert spare[0] in spare;
    }
  }

  class MessageQueue {
    const msgSize: nat
    const nodes: seq<Node>
    var head: Node?
    var tail: Node?
    var free: Node?
    var entry: nat
    var recvWait: seq<nat>
    var sendWait: seq<nat>
    ghost var live: seq<nat>
    ghost var spare: seq<nat>

    ghost function Abs(): Core
      reads this
    {
      Core(live, spare, entry, recvWait, sendWait)
    }

    ghost function Links(): (l: seq<Node?>)
      reads nodes
      ensures |l| == |nodes|
    {
      seq(|nodes|, v requires 0 <= v < |nodes| reads nodes => nodes[v].next)
    }

    ghost predicate Wired() {
      && Distinct(nodes)
      && (forall v :: 0 <= v < |nodes| ==> nodes[v].data.Length == msgSize)
    }

    ghost predicate Valid()
      reads this, nodes
    {
      Wired() && Shape(nodes, Links(), head, tail, free, live, spare)
    }

    // A node some thread owns: of the pool, and on neither list.
    ghost predicate Owned(msg: Node)
      reads this
    {
      msg.id < |nodes| && nodes[msg.id] == msg && msg.id !in live && msg.id !in spare
    }

    // No node is renamed or resized, and outside the given ones no pointer changes.
    twostate predicate KeepsOthers(touched: seq<nat>)
      reads this, nodes
    {
      forall v :: 0 <= v < |nodes| ==>
        nodes[v].length == old(nodes[v].length) && (v !in touched ==> nodes[v].next == old(nodes[v].next))
    }

    // rt_mq_init: the nodes are pushed on the free list in pool order.
    constructor (size: nat, pool: seq<Node>)
      requires Distinct(pool)
      requires forall v :: 0 <= v < |pool| ==> pool[v].data.Length == size
      modifies pool
      ensures Valid() && msgSize == size && nodes == pool
      ensures Abs() == Start(size, |pool|, 0).core
    {
      msgSize := size;
      nodes := pool;
      head, tail, free := null, null, null;
      entry := 0;
      recvWait, sendWait := [], [];
      live, spare := [], [];
      new;
      var temp := 0;
      while temp < |pool|
        invariant temp <= |pool|
        invariant Valid()
        invariant spare == Pushed(temp)
        invariant forall v :: v in spare ==> v < temp
        invariant live == [] && entry == 0 && recvWait == [] && sendWait == []
        modifies this, nodes
      {
        PushFree(nodes[temp]);
        temp := temp + 1;
      }
    }

    // Put a node at the front of the free list.
    method PushFree(msg: Node)
      requires Valid() && Owned(msg)
      modifies this`free, this`spare, msg`next
      ensures Valid() && spare == [msg.id] + old(spare)
    {
      hide Shape;
      ghost var before := Links();
      ShapePush(nodes, before, head, tail, free, live, spare, msg.id);
      msg.next := free;
      free := msg;
      spare := [msg.id] + spare;
      assert Links() == before[msg.id := old(free)];
    }

    // Take the node at the front of the live list off it.
    method DropHead() returns (msg: Node)
      requires Valid() && head != null
      modifies this`head, this`tail, this`live
      ensures Valid() && Owned(msg)
      ensures old(live) != [] && msg.id == old(live)[0] && live == old(live)[1..]
    {
      hide Shape;
      ShapePop(nodes, Links(), head, tail, free, live, spare);
      msg := head;
      head := msg.next;
      if tail == msg {
        tail := null;
      }
      live := live[1..];
    }

    // The first region of a send: take a node off the free list, or report that there is none.
    method TakeNode() returns (msg: Node?)
      requires Valid()
      modifies this`free, this`spare
      ensures Valid()
      ensures msg == null <==> old(spare) == []
      ensures msg == null ==> Abs() == old(Abs())
      ensures msg != null ==> Abs() == TakeFree(old(Abs())) && Owned(msg) && msg.id == old(spare[0])
    {
      hide Shape;
      ShapeTake(nodes, Links(), head, tail, free, live, spare);
      msg := free;
      if msg == null {
        return;
      }
      free := msg.next;
      spare := spare[1..];
    }

    // The unlocked part of a send: the node becomes the carrier of the message.
    method Fill(msg: Node, buffer: array<byte>, size: nat, urgent: bool)
      requires Valid() && Owned(msg)
      requires size <= buffer.Length && size <= msgSize && buffer != msg.data
      modifies msg`next, msg`length, msg.data
      ensures Valid() && Abs() == old(Abs()) && Owned(msg)
      ensures msg.length == size && msg.data[..size] == old(buffer[..size])
      ensures !urgent ==> msg.next == null
    {
      hide Shape;
      ghost var before := Links();
      ShapePush(nodes, before, head, tail, free, live, spare, msg.id);
      if !urgent {
        msg.next := null;
        assert Links() == before[msg.id := null];
      }
      msg.length := size;
      CopyBytes(msg.data, buffer, size);
      assert Links() == if urgent then before else before[msg.id := null];
    }

    // The last region of a send.
    method LinkTail(msg: Node) returns (ok: bool, woken: Option<nat>)
      requires Valid() && Owned(msg) && msg.next == null
      modifies this, nodes
      ensures Valid()
      ensures (Abs(), ok, woken) == LinkNode(old(Abs()), msg.id, false)
      ensures woken == if ok && old(recvWait) != [] then Some(old(recvWait)[0]) else None
      ensures recvWait == if woken.Some? then old(recvWait)[1..] else old(recvWait)
      ensures KeepsOthers(old(live))
    {
      hide Shape;
      ghost var before := Links();
      ShapeAppend(nodes, before, head, tail, free, live, spare, msg.id);
      if tail != null {
        tail.next := msg;
      }
      tail := msg;
      if head == null {
        head := msg;
      }
      live := live + [msg.id];
      ok, woken := CountAndWake();
      assert Links() == if old(live) == [] then before else before[old(live)[|old(live)| - 1] := msg];
    }

    // The last region of an urgent send.
    method LinkHead(msg: Node) returns (ok: bool, woken: Option<nat>)
      requires Valid() && Owned(msg)
      modifies this, nodes
      ensures Valid()
      ensures (Abs(), ok, woken) == LinkNode(old(Abs()), msg.id, true)
      ensures woken == if ok && old(recvWait) != [] then Some(old(recvWait)[0]) else None
      ensures recvWait == if woken.Some? then old(recvWait)[1..] else old(recvWait)
      ensures KeepsOthers([msg.id])
    {
      hide Shape;
      ghost var before := Links();
      ShapePush(nodes, before, head, tail, free, live, spare, msg.id);
      msg.next := head;
      head := msg;
      if tail == null {
        tail := msg;
      }
      live := [msg.id] + live;
      ok, woken := CountAndWake();
      assert Links() == before[msg.id := old(head)];
    }

    // Raise the counter, unless it is at its largest value, and wake the first receiver.
    method CountAndWake() returns (ok: bool, woken: Option<nat>)
      modifies this`entry, this`recvWait
      ensures ok <==> old(entry) < ENTRY_MAX
      ensures entry == if ok then old(entry) + 1 else old(entry)
      ensures woken == if ok && old(recvWait) != [] then Some(old(recvWait[0])) else None
      ensures recvWait == if woken.Some? then old(recvWait)[1..] else old(recvWait)
    {
      woken := None;
      if entry < ENTRY_MAX {
        entry := entry + 1;
      } else {
        return false, None;
      }
      if recvWait != [] {
        woken, recvWait := Some(recvWait[0]), recvWait[1..];
      }
      ok := true;
    }

    // The first region of a receive, once the counter is known to be positive.
    method TakeHead() returns (msg: Node)
      requires Valid() && live != []
      modifies this`head, this`tail, this`entry, this`live
      ensures Valid()
      ensures Abs() == PopHead(old(Abs()))
      ensures Owned(msg) && msg.id == old(live[0])
    {
      hide Shape;
      ShapePop(nodes, Links(), head, tail, free, live, spare);
      msg := DropHead();
      if entry > 0 {
        entry := entry - 1;
      }
    }

    // The unlocked part of a receive.
    method CopyOut(msg: Node, buffer: array<byte>, size: nat) returns (len: nat)
      requires size <= buffer.Length && msg.length <= msg.data.Length && buffer != msg.data
      modifies buffer
      ensures len == Min(msg.length, size)
      ensures buffer[..len] == msg.data[..len]
      ensures buffer[len..] == old(buffer[len..])
    {
      len := msg.length;
      if len > size {
        len := size;
      }
      CopyBytes(buffer, msg.data, len);
    }

    // The last region of a receive: the node goes back and the first sender is woken.
    method GiveBack(msg: Node) returns (woken: Option<nat>)
      requires Valid() && Owned(msg)
      modifies this`free, this`spare, this`sendWait, msg`next
      ensures Valid()
      ensures (Abs(), woken) == PutFree(old(Abs()), msg.id)
      // the first suspended sender, and no other, is resumed
      ensures woken == if old(sendWait) == [] then None else Some(old(sendWait)[0])
      ensures sendWait == if old(sendWait) == [] then [] else old(sendWait)[1..]
      ensures spare == [msg.id] + old(spare) && live == old(live) && entry == old(entry) && recvWait == old(recvWait)
    {
      hide Shape;
      PushFree(msg);
      woken := None;
      if sendWait != [] {
        woken, sendWait := Some(sendWait[0]), sendWait[1..];
      }
    }

    // One turn of the reset loop: the first queued node goes to the free list.
    method FreeHead()
      requires Valid() && head != null
      modifies this`head, this`tail, this`free, this`live, this`spare, nodes
      ensures Valid()
      ensures old(live) != [] && live == old(live)[1..] && spare == [old(live)[0]] + old(spare)
      ensures KeepsOthers([old(live)[0]])
    {
      hide Shape;
      var msg := DropHead();
      PushFree(msg);
    }

    // rt_susp_list_resume_all on one of the lists: the threads it resumes, in order.
    method ResumeAll(list: seq<nat>) returns (resumed: seq<nat>)
      ensures resumed == list
    {
      var rest := list;
      resumed := [];
      while rest != []
        invariant resumed + rest == list
        decreases |rest|
      {
        resumed := resumed + [rest[0]];
        rest := rest[1..];
      }
    }

    // rt_mq_control with RT_IPC_CMD_RESET: the receivers and then the senders are resumed, with the given
    // error for each, and every queued node is freed.
    method Reset() returns (dismissed: seq<nat>, error: int)
      requires Valid()
      modifies this, nodes
      ensures Valid()
      ensures Abs() == ResetCore(old(Abs()))
      ensures dismissed == old(recvWait) + old(sendWait) && error == RT_ERROR
      ensures KeepsOthers(old(live))
    {
      hide Shape;
      error := RT_ERROR;
      var receivers := ResumeAll(recvWait);
      var senders := ResumeAll(sendWait);
      dismissed := receivers + senders;
      recvWait := [];
      sendWait := [];
      while head != null
        invariant Valid()
        invariant Reverse(live) + spare == Reverse(old(live)) + old(spare)
        invariant recvWait == [] && sendWait == []
        invariant KeepsOthers(old(live)) && (forall v :: v in live ==> v in old(live))
        decreases |live|
      {
        ShapePop(nodes, Links(), head, tail, free, live, spare);
        assert Reverse(live) + spare == Reverse(live[1..]) + ([live[0]] + spare);
        FreeHead();
      }
      ShapePop(nodes, Links(), head, tail, free, live, spare);
      entry := 0;
    }
  }

  method CopyBytes(dst: array<byte>, src: array<byte>, n: nat)
    requires dst != src && n <= dst.Length && n <= src.Length
    modifies dst
    ensures dst[..n] == src[..n]
    ensures dst[n..] == old(dst[n..])
  {
    var i := 0;
    while i < n
      invariant i <= n
      invariant dst[..i] == src[..i]
      invariant forall j :: n <= j < dst.Length ==> dst[j] == old(dst[j])
    {
      dst[i] := src[i];
      i := i + 1;
    }
  }

  lemma NoDupAppend(s: seq<nat>, v: nat)
    requires NoDup(s) && v !in s
    ensures NoDup(s + [v])
  {
  }

  // In a list without duplicates the head is the last element only when it is alone.
  lemma OnlyOneLast(s: seq<nat>)
    requires NoDup(s) && s != []
    ensures s[0] == s[|s| - 1] <==> |s| == 1
    ensures |s| > 1 ==> s[1..][|s| - 2] == s[|s| - 1]
  {
  }
}
