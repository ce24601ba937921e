// Whole runs of the ring, set beside a plain bounded byte queue.
module RingRuns {
  import opened Basics
  import opened RingModel

  datatype Op = Put(data: seq<byte>) | Take(len: nat) | Look(len: nat) | Drop(len: nat) | Reset

  datatype Answer = Count(n: nat) | Bytes(bytes: seq<byte>) | Done

  ghost function Next(r: Ring, op: Op): (res: (Ring, Answer))
    requires Valid(r)
  {
    MaskInRange(r);
    FreeIsRest(r);
    match op
    case Put(data) => var (s, n) := In(r, data); (s, Count(n))
    case Take(len) => var (s, d) := Out(r, len); (s, Bytes(d))
    case Look(len) => (r, Bytes(Peek(r, len)))
    case Drop(len) => var (s, n) := AddOut(r, len); (s, Count(n))
    case Reset => (r.(inn := 0, out := 0), Done)
  }

  // The same operation on a queue that holds at most cap bytes.
  function QueueNext(q: seq<byte>, cap: nat, op: Op): (res: (seq<byte>, Answer))
    requires |q| <= cap
    ensures |res.0| <= cap
  {
    match op
    case Put(data) => var n := Min(|data|, cap - |q|); (q + data[..n], Count(n))
    case Take(len) => var n := Min(len, |q|); (q[n..], Bytes(q[..n]))
    case Look(len) => (q, Bytes(q[..Min(len, |q|)]))
    case Drop(len) => var n := Min(len, |q|); (q[n..], Count(n))
    case Reset => ([], Done)
  }

  ghost function Run(r: Ring, ops: seq<Op>): (res: (Ring, seq<Answer>))
    requires Valid(r)
    decreases |ops|
  {
    if ops == [] then (r, [])
    else
      NextRefines(r, ops[0]);
      var (s, a) := Next(r, ops[0]);
      var (t, rest) := Run(s, ops[1..]);
      (t, [a] + rest)
  }

  function QueueRun(q: seq<byte>, cap: nat, ops: seq<Op>): (res: (seq<byte>, seq<Answer>))
    requires |q| <= cap
    ensures |res.0| <= cap
    decreases |ops|
  {
    if ops == [] then (q, [])
    else
      var (s, a) := QueueNext(q, cap, ops[0]);
      var (t, rest) := QueueRun(s, cap, ops[1..]);
      (t, [a] + rest)
  }

  /** One operation keeps the ring valid and does to its bytes what the queue does. */
  lemma NextRefines(r: Ring, op: Op)
    requires Valid(r)
    ensures var res := Next(r, op);
            && Valid(res.0) && |res.0.buf| == |r.buf|
            && |View(r)| <= |r.buf|
            && (View(res.0), res.1) == QueueNext(View(r), |r.buf|, op)
  {
    hide Mask, Used, Free, Valid;
    MaskInRange(r);
    FreeIsRest(r);
    UsedFits(r);
    match op
    case Put(data) =>
      InAppends(r, data);
    case Take(len) =>
      PeekThenAddOutIsOut(r, len);
      PeekIsPrefix(r, len);
      AddOutDrops(r, |Peek(r, len)|);
    case Look(len) =>
      PeekIsPrefix(r, len);
    case Drop(len) =>
      AddOutDrops(r, len);
    case Reset =>
      ResetEmpties(r);
  }

  lemma ResetEmpties(r: Ring)
    requires Valid(r)
    ensures Valid(r.(inn := 0, out := 0))
    ensures View(r.(inn := 0, out := 0)) == []
  {
  }

  /** Every run of the ring gives the answers of the byte queue and ends with its contents, however
    * often the 32-bit indices wrap on the way. */
  lemma {:induction false} EveryRunRefines(r: Ring, ops: seq<Op>)
    requires Valid(r)
    ensures var res := Run(r, ops);
            && Valid(res.0) && |res.0.buf| == |r.buf|
            && |View(r)| <= |r.buf|
            && (View(res.0), res.1) == QueueRun(View(r), |r.buf|, ops)
    decreases |ops|
  {
    hide Valid, Next, QueueNext;
    UsedFits(r);
    if ops == [] {
    } else {
      NextRefines(r, ops[0]);
      EveryRunRefines(Next(r, ops[0]).0, ops[1..]);
    }
  }

  // The bytes that enter and leave the queue by one operation, and over a run.
  function Accepts(q: seq<byte>, cap: nat, op: Op): seq<byte>
    requires |q| <= cap
  {
    if op.Put? then op.data[..Min(|op.data|, cap - |q|)] else []
  }

  function Releases(q: seq<byte>, op: Op): seq<byte> {
    match op
    case Take(len) => q[..Min(len, |q|)]
    case Drop(len) => q[..Min(len, |q|)]
    case Reset => q
    case _ => []
  }

  function Entered(q: seq<byte>, cap: nat, ops: seq<Op>): seq<byte>
    requires |q| <= cap
    decreases |ops|
  {
    if ops == [] then []
    else Accepts(q, cap, ops[0]) + Entered(QueueNext(q, cap, ops[0]).0, cap, ops[1..])
  }

  function Departed(q: seq<byte>, cap: nat, ops: seq<Op>): seq<byte>
    requires |q| <= cap
    decreases |ops|
  {
    if ops == [] then []
    else Releases(q, ops[0]) + Departed(QueueNext(q, cap, ops[0]).0, cap, ops[1..])
  }

  /** First in, first out, over any run: what left followed by what is still queued is what was queued
    * followed by what was accepted. */
  lemma {:induction false} NothingLostOrReordered(r: Ring, ops: seq<Op>)
    requires Valid(r)
    ensures |View(r)| <= |r.buf|
    ensures Valid(Run(r, ops).0)
    ensures Departed(View(r), |r.buf|, ops) + View(Run(r, ops).0)
         == View(r) + Entered(View(r), |r.buf|, ops)
  {
    EveryRunRefines(r, ops);
    QueueConserves(View(r), |r.buf|, ops);
  }

  lemma StepConserves(q: seq<byte>, cap: nat, op: Op)
    requires |q| <= cap
    ensures Releases(q, op) + QueueNext(q, cap, op).0 == q + Accepts(q, cap, op)
  {
  }

  lemma {:induction false} QueueConserves(q: seq<byte>, cap: nat, ops: seq<Op>)
    requires |q| <= cap
    ensures Departed(q, cap, ops) + QueueRun(q, cap, ops).0 == q + Entered(q, cap, ops)
    decreases |ops|
  {
    hide QueueNext, Releases, Accepts;
    if ops == [] {
    } else {
      var s := QueueNext(q, cap, ops[0]).0;
      StepConserves(q, cap, ops[0]);
      QueueConserves(s, cap, ops[1..]);
      var out, into := Releases(q, ops[0]), Accepts(q, cap, ops[0]);
      var gone, come := Departed(s, cap, ops[1..]), Entered(s, cap, ops[1..]);
      var end := QueueRun(s, cap, ops[1..]).0;
      calc {
        (out + gone) + end;
        out + (gone + end);
        out + (s + come);
        (out + s) + come;
        (q + into) + come;
        q + (into + come);
      }
    }
  }
}
