/** The laws of the small-memory heap: over every run of allocations, reallocations and frees the
    block list stays well formed, the accounts balance, and the list depends on nothing but the set
    of live blocks. */
module HeapLaws {
  import opened Basics
  import opened HeapModel
  import opened HeapOps

  /* ---------- accounts ---------- */

  function UsedSum(bs: seq<Block>): nat {
    if bs == [] then 0 else (if bs[0].used then bs[0].size else 0) + UsedSum(bs[1..])
  }

  function FreeSum(bs: seq<Block>): nat {
    if bs == [] then 0 else (if bs[0].used then 0 else bs[0].size) + FreeSum(bs[1..])
  }

  // Used and free extents make up the heap: the payload area plus one header.
  lemma {:induction false} SumsMakeUpHeap(bs: seq<Block>, start: nat, end: nat)
    requires Tiles(bs, start, end)
    ensures UsedSum(bs) + FreeSum(bs) == end - start
    decreases |bs|
  {
    if bs != [] {
      Tail(bs, start, end);
      SumsMakeUpHeap(bs[1..], start + bs[0].size, end);
    }
  }

  lemma {:induction false} UsedConcat(a: seq<Block>, b: seq<Block>)
    ensures UsedSum(a + b) == UsedSum(a) + UsedSum(b)
  {
    if a == [] {
      assert a + b == b;
    } else {
      assert (a + b)[1..] == a[1..] + b;
      UsedConcat(a[1..], b);
    }
  }

  lemma UsedCut(bs: seq<Block>, i: nat, mid: seq<Block>, j: nat)
    requires i <= j <= |bs|
    ensures UsedSum(bs[..i] + mid + bs[j..]) == UsedSum(bs[..i]) + UsedSum(mid) + UsedSum(bs[j..])
  {
    UsedConcat(bs[..i] + mid, bs[j..]);
    UsedConcat(bs[..i], mid);
  }

  lemma UsedAt(bs: seq<Block>, i: nat)
    requires i < |bs|
    ensures UsedSum(bs) == UsedSum(bs[..i]) + (if bs[i].used then bs[i].size else 0) + UsedSum(bs[i + 1..])
  {
    assert bs == bs[..i] + [bs[i]] + bs[i + 1..];
    UsedCut(bs, i, [bs[i]], i + 1);
  }

  lemma UsedMark(bs: seq<Block>, i: nat, used: bool)
    requires i < |bs|
    ensures UsedSum(Mark(bs, i, used)) == UsedSum(bs) - (if bs[i].used then bs[i].size else 0) + (if used then bs[i].size else 0)
  {
    var b := bs[i].(used := used);
    assert Mark(bs, i, used) == bs[..i] + [b] + bs[i + 1..];
    UsedCut(bs, i, [b], i + 1);
    UsedAt(bs, i);
  }

  lemma UsedSplit(bs: seq<Block>, i: nat, n: nat)
    requires i < |bs| && bs[i].size >= HEADER + n
    ensures UsedSum(Split(bs, i, n)) == UsedSum(bs) - (if bs[i].used then bs[i].size else 0) + HEADER + n
  {
    var b := Block(bs[i].off, HEADER + n, true);
    var f := Block(bs[i].off + HEADER + n, bs[i].size - HEADER - n, false);
    UsedCut(bs, i, [b] + [f], i + 1);
    UsedConcat([b], [f]);
    UsedAt(bs, i);
    assert Split(bs, i, n) == bs[..i] + ([b] + [f]) + bs[i + 1..];
  }

  lemma UsedMergeNext(bs: seq<Block>, i: nat)
    requires i < |bs|
    ensures UsedSum(MergeNext(bs, i)) == UsedSum(bs)
  {
    if i + 1 < |bs| && !bs[i].used && !bs[i + 1].used {
      var x := Block(bs[i].off, bs[i].size + bs[i + 1].size, false);
      UsedCut(bs, i, [x], i + 2);
      UsedAt(bs, i);
      UsedConcat([bs[i + 1]], bs[i + 2..]);
      assert bs[i + 1..] == [bs[i + 1]] + bs[i + 2..];
    }
  }

  lemma UsedCoalesce(bs: seq<Block>, i: nat)
    requires i < |bs|
    ensures UsedSum(Coalesce(bs, i)) == UsedSum(bs)
  {
    UsedMergeNext(bs, i);
    if i > 0 { UsedMergeNext(MergeNext(bs, i), i - 1); }
  }

  /* ---------- the operations ---------- */

  /** `max` is the largest amount in use so far. */
  datatype Heap = Heap(end: nat, blocks: seq<Block>, max: nat)

  ghost predicate Ok(h: Heap) {
    h.end >= HEADER && WellFormed(h.blocks, h.end) && UsedSum(h.blocks) <= h.max
  }

  function Max(a: nat, b: nat): nat { if a < b then b else a }

  function InitHeap(end: nat): Heap { Heap(end, Fresh(end), 0) }

  // Where the live block with its header at `off` stands in the list, or |bs|.
  function IndexOf(bs: seq<Block>, off: nat): (r: nat)
    ensures r <= |bs|
    ensures r < |bs| ==> bs[r].off == off && bs[r].used
    ensures r == |bs| ==> forall i :: 0 <= i < |bs| && bs[i].used ==> bs[i].off != off
  {
    if bs == [] then 0
    else if bs[0].used && bs[0].off == off then 0
    else
      assert forall i :: 1 <= i < |bs| ==> bs[i] == bs[1..][i - 1];
      1 + IndexOf(bs[1..], off)
  }

  predicate IsLive(h: Heap, off: nat) { IndexOf(h.blocks, off) < |h.blocks| }

  function Alloc(h: Heap, request: nat): (Heap, Option<nat>) {
    var n := Rounded(request);
    var i := FirstFit(h.blocks, n);
    if request == 0 || n + HEADER > h.end || i == |h.blocks| then (h, None)
    else
      var bs := AllocAt(h.blocks, i, n);
      (h.(blocks := bs, max := Max(h.max, UsedSum(bs))), Some(h.blocks[i].off))
  }

  function Free(h: Heap, off: nat): Heap
    requires IsLive(h, off)
  {
    h.(blocks := FreeAt(h.blocks, IndexOf(h.blocks, off)))
  }

  // Allocate, copy, free.
  function Move(h: Heap, off: nat, n: nat): (Heap, Option<nat>)
    requires Ok(h) && IsLive(h, off)
  {
    var (h1, r) := Alloc(h, n);
    if r == None then (h1, None) else AllocKeepsLive(h, n, off); (Free(h1, off), r)
  }

  function Realloc(h: Heap, off: Option<nat>, request: nat): (Heap, Option<nat>)
    requires Ok(h) && (off.Some? ==> IsLive(h, off.value))
  {
    var n := AlignUp(request);
    if n + HEADER > h.end then (h, None)
    else if n == 0 then (if off == None then h else Free(h, off.value), None)
    else if off == None then Alloc(h, n)
    else
      var i := IndexOf(h.blocks, off.value);
      var size := Payload(h.blocks[i]);
      if size == n then (h, off)
      else if n + HEADER + MIN_SIZE < size then (h.(blocks := ShrinkAt(h.blocks, i, n)), off)
      else Move(h, off.value, n)
  }

  /* ---------- what an allocation does ---------- */

  lemma AllocKeeps(h: Heap, request: nat)
    requires Ok(h)
    ensures var (r, p) := Alloc(h, request);
      && Ok(r) && r.end == h.end
      && (p == None ==> r == h)
  {
    var n := Rounded(request);
    var i := FirstFit(h.blocks, n);
    if request != 0 && n + HEADER <= h.end && i < |h.blocks| {
      AllocWellFormed(h.blocks, i, n, h.end);
    }
  }

  // The block handed out is new, in use and no smaller than the rounded request; the other live
  // blocks stay where they are.
  lemma AllocGrants(h: Heap, request: nat)
    requires Ok(h) && Alloc(h, request).1.Some?
    ensures var (r, p) := Alloc(h, request); exists b: Block ::
      && b.off == p.value && b.used && Payload(b) >= Rounded(request)
      && Live(r.blocks) == Live(h.blocks) + {b}
      && (forall c :: c in Live(h.blocks) ==> c.off != b.off)
      && UsedSum(r.blocks) == UsedSum(h.blocks) + b.size
  {
    var n := Rounded(request);
    var i := FirstFit(h.blocks, n);
    var bs := h.blocks;
    var b := Block(bs[i].off, Granted(bs[i], n), true);
    AllocLive(bs, i, n, h.end);
    NotLive(bs, i, 0, h.end);
    if bs[i].size >= HEADER + n + HEADER + MIN_SIZE_ALIGNED { UsedSplit(bs, i, n); } else { UsedMark(bs, i, true); }
    assert b.off == Alloc(h, request).1.value && b.used && Payload(b) >= n;
  }

  // Live blocks are told apart by their offsets.
  lemma LiveAt(h: Heap, b: Block)
    requires Ok(h) && b in Live(h.blocks)
    ensures IsLive(h, b.off) && h.blocks[IndexOf(h.blocks, b.off)] == b
  {
    var k :| 0 <= k < |h.blocks| && h.blocks[k].used && h.blocks[k] == b;
    var i := IndexOf(h.blocks, b.off);
    if i < k { Ordered(h.blocks, 0, h.end, i, k); }
    if k < i && i < |h.blocks| { Ordered(h.blocks, 0, h.end, k, i); }
  }

  lemma IndexedIsLive(h: Heap, off: nat)
    requires IsLive(h, off)
    ensures h.blocks[IndexOf(h.blocks, off)] in Live(h.blocks) && h.blocks[IndexOf(h.blocks, off)].off == off
  {
  }

  lemma IsLiveIff(h: Heap, off: nat)
    ensures IsLive(h, off) <==> exists b :: b in Live(h.blocks) && b.off == off
  {
    if IsLive(h, off) {
      assert h.blocks[IndexOf(h.blocks, off)] in Live(h.blocks);
    }
  }

  lemma AllocKeepsLive(h: Heap, request: nat, off: nat)
    requires Ok(h) && IsLive(h, off)
    ensures IsLive(Alloc(h, request).0, off)
  {
    var (r, p) := Alloc(h, request);
    if p.Some? {
      AllocGrants(h, request);
      IsLiveIff(h, off);
      IsLiveIff(r, off);
    }
  }

  // An allocation fails exactly when no free block is large enough, and otherwise takes the lowest
  // one that is.
  lemma AllocCompleteAndLowest(h: Heap, request: nat)
    requires Ok(h) && request != 0
    ensures var p := Alloc(h, request).1; var n := Rounded(request);
      && (p == None <==> forall b :: b in h.blocks && !b.used ==> Payload(b) < n)
      && (p.Some? ==> forall b :: b in h.blocks && !b.used && Payload(b) >= n ==> p.value <= b.off)
  {
    var n := Rounded(request);
    var i := FirstFit(h.blocks, n);
    var bs := h.blocks;
    forall b | b in bs && !b.used && Payload(b) >= n ensures i < |bs| && n + HEADER <= h.end && bs[i].off <= b.off {
      var k :| 0 <= k < |bs| && bs[k] == b;
      assert Fits(bs[k], n);
      Ordered(bs, 0, h.end, k, k);
      Ordered(bs, 0, h.end, i, k);
    }
    if i < |bs| {
      assert bs[i] in bs;
      Ordered(bs, 0, h.end, i, i);
    }
  }

  // A served request gets at least what it asked for exactly when rounding it up does not wrap.
  lemma ServedInFull(request: nat)
    requires request < WORDS
    ensures Rounded(request) >= request <==> request <= WORDS - ALIGN
  {
    if request > WORDS - ALIGN {
      assert (request + ALIGN - 1) % WORDS == request + ALIGN - 1 - WORDS;
    }
  }

  /* ---------- what a free does ---------- */

  lemma FreeKeeps(h: Heap, off: nat)
    requires Ok(h) && IsLive(h, off)
    ensures var r := Free(h, off); var b := h.blocks[IndexOf(h.blocks, off)];
      && Ok(r) && r.end == h.end && r.max == h.max
      && b in Live(h.blocks) && Live(r.blocks) == Live(h.blocks) - {b}
      && UsedSum(r.blocks) == UsedSum(h.blocks) - b.size
  {
    var i := IndexOf(h.blocks, off);
    FreeWellFormed(h.blocks, i, h.end);
    FreeLive(h.blocks, i, h.end);
    UsedMark(h.blocks, i, false);
    UsedCoalesce(Mark(h.blocks, i, false), i);
  }

  // Freeing what was just allocated gives back the same block list: same headers, same amount in
  // use, same lowest free block.
  lemma AllocThenFree(h: Heap, request: nat)
    requires Ok(h) && Alloc(h, request).1.Some?
    ensures var (a, p) := Alloc(h, request); IsLive(a, p.value) && Free(a, p.value).blocks == h.blocks
  {
    var (a, p) := Alloc(h, request);
    AllocKeeps(h, request);
    AllocGrants(h, request);
    IsLiveIff(a, p.value);
    FreeKeeps(a, p.value);
    LiveDetermines(Free(a, p.value).blocks, h.blocks, 0, h.end);
  }

  /* ---------- runs ---------- */

  datatype Op = DoAlloc(size: nat) | DoFree(off: nat) | DoRealloc(from: Option<nat>, size: nat)

  // Only blocks obtained before and not yet returned may be passed in.
  predicate Legal(h: Heap, op: Op) {
    match op
    case DoAlloc(_) => true
    case DoFree(off) => IsLive(h, off)
    case DoRealloc(off, _) => off.Some? ==> IsLive(h, off.value)
  }

  function Next(h: Heap, op: Op): Heap
    requires Ok(h) && Legal(h, op)
  {
    match op
    case DoAlloc(request) => Alloc(h, request).0
    case DoFree(off) => Free(h, off)
    case DoRealloc(off, request) => Realloc(h, off, request).0
  }

  // An illegal operation is left out.
  function Run(h: Heap, ops: seq<Op>): Heap
    requires Ok(h)
    decreases |ops|
  {
    if ops == [] then h
    else if Legal(h, ops[0]) then NextKeeps(h, ops[0]); Run(Next(h, ops[0]), ops[1..])
    else Run(h, ops[1..])
  }

  // The most in use at any moment of an operation; a moving realloc holds both blocks for a while.
  function Peak(h: Heap, op: Op): nat
    requires Ok(h) && Legal(h, op)
  {
    match op
    case DoRealloc(off, request) =>
      var n := AlignUp(request);
      if off.Some? && n != 0 && Alloc(h, n).1.Some? && Realloc(h, off, request).1.Some? && Realloc(h, off, request).1 != off
      then UsedSum(Alloc(h, n).0.blocks)
      else UsedSum(Next(h, op).blocks)
    case _ => UsedSum(Next(h, op).blocks)
  }

  function RunPeak(h: Heap, ops: seq<Op>): nat
    requires Ok(h)
    decreases |ops|
  {
    if ops == [] then UsedSum(h.blocks)
    else if Legal(h, ops[0]) then
      NextKeeps(h, ops[0]);
      Max(UsedSum(h.blocks), Max(Peak(h, ops[0]), RunPeak(Next(h, ops[0]), ops[1..])))
    else RunPeak(h, ops[1..])
  }

  lemma ShrinkKeeps(h: Heap, i: nat, n: nat)
    requires Ok(h) && i < |h.blocks| && h.blocks[i].used && Aligned(n) && n > 0 && n + HEADER + MIN_SIZE < Payload(h.blocks[i])
    ensures var bs := ShrinkAt(h.blocks, i, n);
      && WellFormed(bs, h.end)
      && UsedSum(bs) == UsedSum(h.blocks) - (Payload(h.blocks[i]) - n)
      && Live(bs) == Live(h.blocks) - {h.blocks[i]} + {Block(h.blocks[i].off, HEADER + n, true)}
  {
    ShrinkWellFormed(h.blocks, i, n, h.end);
    ShrinkLive(h.blocks, i, n, h.end);
    UsedSplit(h.blocks, i, n);
    UsedCoalesce(Split(h.blocks, i, n), i + 1);
  }

  lemma MoveFails(h: Heap, off: nat, n: nat)
    requires Ok(h) && IsLive(h, off) && Move(h, off, n).1 == None
    ensures Move(h, off, n).0 == h
  {
  }

  lemma RoundsToZero(request: nat)
    requires 0 < request < WORDS
    ensures AlignUp(request) == 0 <==> request > WORDS - ALIGN
  {
    if request > WORDS - ALIGN {
      assert (request + ALIGN - 1) % WORDS == request + ALIGN - 1 - WORDS;
    }
  }

  // A realloc to a non-zero size that returns NULL leaves the heap alone exactly when the size does not
  // wrap to zero on rounding; the seven largest sizes free the block instead.
  lemma FailedReallocIntactIff(h: Heap, off: nat, request: nat)
    requires Ok(h) && IsLive(h, off) && 0 < request < WORDS
    requires Realloc(h, Some(off), request).1 == None
    ensures Realloc(h, Some(off), request).0 == h <==> request <= WORDS - ALIGN
  {
    RoundsToZero(request);
    var n := AlignUp(request);
    if n == 0 {
      FreeKeeps(h, off);
    } else if n + HEADER <= h.end && Move(h, off, n).1 == None {
      MoveFails(h, off, n);
    }
  }

  // A moved block: the new one is large enough, and takes the place of the old one among the live.
  lemma MoveLive(h: Heap, off: nat, n: nat) returns (nb: Block)
    requires Ok(h) && IsLive(h, off) && Move(h, off, n).1.Some?
    ensures var (r, p) := Move(h, off, n); var b := h.blocks[IndexOf(h.blocks, off)];
      && nb.off == p.value && nb.off != off && nb.used && Payload(nb) >= Rounded(n)
      && Live(Alloc(h, n).0.blocks) == Live(h.blocks) + {nb} && b in Live(h.blocks) && nb !in Live(h.blocks)
      && Live(r.blocks) == Live(h.blocks) - {b} + {nb}
  {
    AllocKeeps(h, n);
    AllocGrants(h, n);
    AllocKeepsLive(h, n, off);
    var (a, p) := Alloc(h, n);
    var b := h.blocks[IndexOf(h.blocks, off)];
    nb :| nb.off == p.value && nb.used && Payload(nb) >= Rounded(n) && Live(a.blocks) == Live(h.blocks) + {nb}
      && forall c :: c in Live(h.blocks) ==> c.off != nb.off;
    assert b in Live(h.blocks);
    LiveAt(a, b);
    FreeKeeps(a, off);
  }

  lemma ReallocKeeps(h: Heap, off: Option<nat>, request: nat)
    requires Ok(h) && (off.Some? ==> IsLive(h, off.value))
    ensures Ok(Realloc(h, off, request).0) && Realloc(h, off, request).0.end == h.end
  {
    var n := AlignUp(request);
    if n + HEADER <= h.end {
      if off == None {
        if n != 0 { AllocKeeps(h, n); }
      } else if n == 0 {
        FreeKeeps(h, off.value);
      } else {
        var i := IndexOf(h.blocks, off.value);
        if n + HEADER + MIN_SIZE < Payload(h.blocks[i]) {
          ShrinkKeeps(h, i, n);
        } else if Payload(h.blocks[i]) != n {
          AllocKeeps(h, n);
          var (h1, r) := Alloc(h, n);
          if r.Some? {
            AllocKeepsLive(h, n, off.value);
            FreeKeeps(h1, off.value);
          }
        }
      }
    }
  }

  lemma NextKeeps(h: Heap, op: Op)
    requires Ok(h) && Legal(h, op)
    ensures Ok(Next(h, op)) && Next(h, op).end == h.end
  {
    match op
    case DoAlloc(request) => AllocKeeps(h, request);
    case DoFree(off) => FreeKeeps(h, off);
    case DoRealloc(off, request) => ReallocKeeps(h, off, request);
  }

  // In every reachable heap the blocks tile it without two free neighbours, and used and free
  // extents add up to the whole.
  lemma {:induction false} EveryRunWellFormed(h: Heap, ops: seq<Op>)
    requires Ok(h)
    ensures var r := Run(h, ops);
      && Ok(r) && r.end == h.end && UsedSum(r.blocks) + FreeSum(r.blocks) == r.end
    decreases |ops|
  {
    if ops == [] {
      SumsMakeUpHeap(h.blocks, 0, h.end);
    } else if Legal(h, ops[0]) {
      NextKeeps(h, ops[0]);
      EveryRunWellFormed(Next(h, ops[0]), ops[1..]);
    } else {
      EveryRunWellFormed(h, ops[1..]);
    }
  }

  lemma NextMax(h: Heap, op: Op)
    requires Ok(h) && Legal(h, op)
    ensures Next(h, op).max == Max(h.max, Peak(h, op))
  {
    match op
    case DoAlloc(request) =>
    case DoFree(off) => FreeKeeps(h, off);
    case DoRealloc(off, request) =>
      var n := AlignUp(request);
      if off.Some? && n + HEADER <= h.end {
        var i := IndexOf(h.blocks, off.value);
        if n == 0 {
          FreeKeeps(h, off.value);
        } else if Payload(h.blocks[i]) != n {
          if n + HEADER + MIN_SIZE < Payload(h.blocks[i]) {
            ShrinkKeeps(h, i, n);
          } else if Alloc(h, n).1.Some? {
            AllocGrants(h, n);
            IsLiveIff(h, off.value);
          }
        }
      }
  }

  // `max` is the largest amount ever in use.
  lemma {:induction false} MaxIsThePeak(h: Heap, ops: seq<Op>)
    requires Ok(h)
    ensures Run(h, ops).max == Max(h.max, RunPeak(h, ops))
    decreases |ops|
  {
    if ops != [] {
      if Legal(h, ops[0]) {
        NextKeeps(h, ops[0]);
        NextMax(h, ops[0]);
        MaxIsThePeak(Next(h, ops[0]), ops[1..]);
      } else {
        MaxIsThePeak(h, ops[1..]);
      }
    }
  }

  // The block list of a heap is a function of its live blocks, whatever was allocated, moved and
  // freed before.
  lemma HistoryDoesNotMatter(end: nat, ops: seq<Op>, ops': seq<Op>)
    requires end >= HEADER && Aligned(end)
    ensures Ok(InitHeap(end))
    ensures var r := Run(InitHeap(end), ops); var r' := Run(InitHeap(end), ops');
      Live(r.blocks) == Live(r'.blocks) ==> r.blocks == r'.blocks
  {
    InitOk(end);
    EveryRunWellFormed(InitHeap(end), ops);
    EveryRunWellFormed(InitHeap(end), ops');
    var r, r' := Run(InitHeap(end), ops), Run(InitHeap(end), ops');
    if Live(r.blocks) == Live(r'.blocks) {
      LiveDetermines(r.blocks, r'.blocks, 0, end);
    }
  }

  lemma InitOk(end: nat)
    requires end >= HEADER && Aligned(end)
    ensures Ok(InitHeap(end)) && Live(Fresh(end)) == {}
  {
    FreshWellFormed(end);
    LiveOne(Block(0, end, false));
    assert Fresh(end) == [Block(0, end, false)];
  }

  function FreeAll(h: Heap, offs: seq<nat>): Heap
    requires Ok(h)
    decreases |offs|
  {
    if offs == [] then h
    else if IsLive(h, offs[0]) then FreeKeeps(h, offs[0]); FreeAll(Free(h, offs[0]), offs[1..])
    else FreeAll(h, offs[1..])
  }

  // Freeing every live block, in any order, brings back the heap as it was initialised.
  lemma {:induction false} FreeAllRestores(h: Heap, offs: seq<nat>)
    requires Ok(h)
    requires forall b :: b in Live(h.blocks) ==> b.off in offs
    ensures FreeAll(h, offs).blocks == Fresh(h.end)
    decreases |offs|
  {
    if offs == [] {
      assert Live(h.blocks) == {};
      InitOk(h.end);
      LiveDetermines(h.blocks, Fresh(h.end), 0, h.end);
    } else if IsLive(h, offs[0]) {
      FreeKeeps(h, offs[0]);
      var r := Free(h, offs[0]);
      forall b | b in Live(r.blocks) ensures b.off in offs[1..] {
        assert b in Live(h.blocks);
        var i :| 0 <= i < |h.blocks| && h.blocks[i] == b;
        var k := IndexOf(h.blocks, offs[0]);
        if i < k { Ordered(h.blocks, 0, h.end, i, k); } else { Ordered(h.blocks, 0, h.end, k, i); }
      }
      FreeAllRestores(r, offs[1..]);
    } else {
      IsLiveIff(h, offs[0]);
      forall b | b in Live(h.blocks) ensures b.off in offs[1..] {
        assert b.off in offs && b.off != offs[0];
      }
      FreeAllRestores(h, offs[1..]);
    }
  }

  lemma FreeAllAfterAnyRun(end: nat, ops: seq<Op>, offs: seq<nat>)
    requires end >= HEADER && Aligned(end)
    ensures Ok(InitHeap(end)) && Ok(Run(InitHeap(end), ops))
    ensures var r := Run(InitHeap(end), ops);
      (forall b :: b in Live(r.blocks) ==> b.off in offs) ==> FreeAll(r, offs).blocks == InitHeap(end).blocks
  {
    InitOk(end);
    EveryRunWellFormed(InitHeap(end), ops);
    var r := Run(InitHeap(end), ops);
    if forall b :: b in Live(r.blocks) ==> b.off in offs {
      FreeAllRestores(r, offs);
    }
  }
}
