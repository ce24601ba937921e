/** Requests at the edges: the smallest ones, which undercut the smallest block, and the largest ones,
    which wrap on rounding. */
module HeapEdges {
  import opened Basics
  import opened HeapModel
  import opened HeapOps
  import opened HeapLaws

  /* ---------- small blocks ---------- */

  /** Shrinking to eight bytes or fewer leaves a block of eight payload bytes, below the smallest block an
    * allocation makes. */
  lemma ShrinkToEight(h: Heap, off: nat, request: nat)
    requires Ok(h) && IsLive(h, off) && 1 <= request <= ALIGN
    requires ALIGN + HEADER + MIN_SIZE < Payload(h.blocks[IndexOf(h.blocks, off)])
    ensures var (r, p) := Realloc(h, Some(off), request);
      p == Some(off) && Ok(r) && IsLive(r, off) && Payload(r.blocks[IndexOf(r.blocks, off)]) == ALIGN < MIN_SIZE_ALIGNED
  {
    hide Tiles, Roomy, Merged, ShrinkAt;
    var i := IndexOf(h.blocks, off);
    RoundsToEight(request);
    ReallocKeeps(h, Some(off), request);
    FitsInHeap(h, i);
    var r := Realloc(h, Some(off), request).0;
    ShrinkKeeps(h, i, ALIGN);
    LiveAt(r, Block(off, HEADER + ALIGN, true));
  }

  lemma FitsInHeap(h: Heap, i: nat)
    requires Ok(h) && i < |h.blocks|
    ensures h.blocks[i].size <= h.end
  {
    LastEnds(h.blocks, 0, h.end, i);
  }

  lemma RoundsToEight(request: nat)
    requires request < WORDS
    ensures AlignUp(request) == ALIGN <==> 1 <= request <= ALIGN
  {
    if request > WORDS - ALIGN {
      assert (request + ALIGN - 1) % WORDS == request + ALIGN - 1 - WORDS;
    }
  }

  /** Such a block comes up: allocate 64 bytes on a fresh heap of 1 KiB and shrink them to one. */
  lemma EightByteBlock()
    ensures Ok(InitHeap(1024))
    ensures var h := Alloc(InitHeap(1024), 64).0;
      && Ok(h) && IsLive(h, 0)
      && var r := Realloc(h, Some(0), 1).0; IsLive(r, 0) && Payload(r.blocks[IndexOf(r.blocks, 0)]) == 8
  {
    InitOk(1024);
    AllocKeeps(InitHeap(1024), 64);
    var h := Alloc(InitHeap(1024), 64).0;
    assert Rounded(64) == 64;
    assert FirstFit(Fresh(1024), 64) == 0;
    assert h.blocks[0] == Block(0, 80, true);
    ShrinkToEight(h, 0, 1);
  }

  // Every block, used or free, has room for the smallest allocation.
  ghost predicate Large(bs: seq<Block>) {
    forall i :: 0 <= i < |bs| ==> bs[i].size >= HEADER + MIN_SIZE_ALIGNED
  }

  lemma MergeLarge(bs: seq<Block>, i: nat)
    requires i < |bs| && Large(bs)
    ensures Large(MergeNext(bs, i))
  {
    MergeNextIndex(bs, i);
  }

  lemma CoalesceLarge(bs: seq<Block>, i: nat)
    requires i < |bs| && Large(bs)
    ensures Large(Coalesce(bs, i))
  {
    hide Large, MergeNext;
    MergeNextIndex(bs, i);
    MergeLarge(bs, i);
    if i > 0 { MergeLarge(MergeNext(bs, i), i - 1); }
  }

  lemma SplitLarge(bs: seq<Block>, i: nat, n: nat)
    requires i < |bs| && Large(bs) && n >= MIN_SIZE_ALIGNED && bs[i].size >= HEADER + n + HEADER + MIN_SIZE_ALIGNED
    ensures Large(Split(bs, i, n))
  {
    SplitIndex(bs, i, n);
    hide Split;
  }

  lemma AllocLarge(h: Heap, request: nat)
    requires Ok(h) && Large(h.blocks)
    ensures Large(Alloc(h, request).0.blocks)
  {
    var n := Rounded(request);
    var i := FirstFit(h.blocks, n);
    if i < |h.blocks| && h.blocks[i].size >= HEADER + n + HEADER + MIN_SIZE_ALIGNED {
      SplitLarge(h.blocks, i, n);
    }
  }

  lemma FreeLarge(h: Heap, off: nat)
    requires Ok(h) && IsLive(h, off) && Large(h.blocks)
    ensures Large(Free(h, off).blocks)
  {
    hide Coalesce;
    var i := IndexOf(h.blocks, off);
    CoalesceLarge(Mark(h.blocks, i, false), i);
  }

  lemma MoveLarge(h: Heap, off: nat, n: nat)
    requires Ok(h) && IsLive(h, off) && Large(h.blocks)
    ensures Large(Move(h, off, n).0.blocks)
  {
    hide Large, Alloc, Free;
    AllocLarge(h, n);
    if Alloc(h, n).1 != None {
      AllocKeeps(h, n);
      AllocKeepsLive(h, n, off);
      FreeLarge(Alloc(h, n).0, off);
    }
  }

  // The rest cut off is at least sixteen bytes because sizes are multiples of eight.
  lemma ShrinkLarge(h: Heap, i: nat, n: nat)
    requires Ok(h) && Large(h.blocks) && i < |h.blocks| && Aligned(n) && n >= MIN_SIZE_ALIGNED
    requires n + HEADER + MIN_SIZE < Payload(h.blocks[i])
    ensures Large(ShrinkAt(h.blocks, i, n))
  {
    EightMore(h.blocks[i].size, n);
    SplitLarge(h.blocks, i, n);
    CoalesceLarge(Split(h.blocks, i, n), i + 1);
  }

  lemma EightMore(size: nat, n: nat)
    requires Aligned(size) && Aligned(n) && n + HEADER + MIN_SIZE < size - HEADER
    ensures size >= HEADER + n + HEADER + MIN_SIZE_ALIGNED
  {
  }

  // A realloc to at most eight bytes of a block with more than thirty-six.
  predicate ShrinksToEight(h: Heap, op: Op)
    requires Legal(h, op)
  {
    op.DoRealloc? && op.from.Some? && AlignUp(op.size) == ALIGN
    && ALIGN + HEADER + MIN_SIZE < Payload(h.blocks[IndexOf(h.blocks, op.from.value)])
  }

  lemma ReallocLarge(h: Heap, op: Op)
    requires Ok(h) && Legal(h, op) && Large(h.blocks) && op.DoRealloc? && !ShrinksToEight(h, op)
    ensures Large(Next(h, op).blocks)
  {
    hide Large, Tiles, Merged, Roomy, Alloc, Free, Move, ShrinkAt;
    var n := AlignUp(op.size);
    if n + HEADER <= h.end {
      if op.from == None {
        AllocLarge(h, n);
      } else if n == 0 {
        FreeLarge(h, op.from.value);
      } else {
        var i := IndexOf(h.blocks, op.from.value);
        MoveLarge(h, op.from.value, n);
        if n + HEADER + MIN_SIZE < Payload(h.blocks[i]) {
          SixteenOrEight(n);
          ShrinkLarge(h, i, n);
        }
      }
    }
  }

  lemma SixteenOrEight(n: nat)
    requires Aligned(n) && n > 0
    ensures n == ALIGN || n >= MIN_SIZE_ALIGNED
  {
  }

  lemma BrokenByShrink(h: Heap, op: Op)
    requires Ok(h) && Legal(h, op) && ShrinksToEight(h, op)
    ensures !Large(Next(h, op).blocks)
  {
    hide Tiles, Roomy, Merged, ShrinkAt;
    var off := op.from.value;
    var i := IndexOf(h.blocks, off);
    FitsInHeap(h, i);
    var r := Next(h, op);
    ReallocKeeps(h, op.from, op.size);
    ShrinkKeeps(h, i, ALIGN);
    LiveAt(r, Block(off, HEADER + ALIGN, true));
  }

  /** An operation keeps every block at sixteen payload bytes or more if and only if it is no realloc to at
    * most eight bytes of a block with more than thirty-six. */
  lemma NextLargeIff(h: Heap, op: Op)
    requires Ok(h) && Legal(h, op) && Large(h.blocks)
    ensures Large(Next(h, op).blocks) <==> !ShrinksToEight(h, op)
  {
    hide Large, Alloc, Free, Realloc;
    if ShrinksToEight(h, op) {
      BrokenByShrink(h, op);
    } else {
      match op
      case DoAlloc(request) => AllocLarge(h, request);
      case DoFree(off) => FreeLarge(h, off);
      case DoRealloc(_, _) => ReallocLarge(h, op);
    }
  }

  // Every heap of the run has large blocks only; no operation of the run shrinks a block to eight bytes.
  ghost predicate LargeThroughout(h: Heap, ops: seq<Op>)
    requires Ok(h)
    decreases |ops|
  {
    && Large(h.blocks)
    && (ops != [] ==>
          if Legal(h, ops[0]) then NextKeeps(h, ops[0]); LargeThroughout(Next(h, ops[0]), ops[1..])
          else LargeThroughout(h, ops[1..]))
  }

  ghost predicate NoneShrinksToEight(h: Heap, ops: seq<Op>)
    requires Ok(h)
    decreases |ops|
  {
    if ops == [] then true
    else if Legal(h, ops[0]) then
      NextKeeps(h, ops[0]);
      !ShrinksToEight(h, ops[0]) && NoneShrinksToEight(Next(h, ops[0]), ops[1..])
    else NoneShrinksToEight(h, ops[1..])
  }

  /** Over any run: all blocks stay at sixteen bytes or more if and only if no operation is such a realloc. */
  lemma {:induction false} EveryRunLargeIff(h: Heap, ops: seq<Op>)
    requires Ok(h) && Large(h.blocks)
    ensures LargeThroughout(h, ops) <==> NoneShrinksToEight(h, ops)
    decreases |ops|
  {
    hide Ok, Large, Next, Legal, ShrinksToEight;
    if ops != [] {
      if Legal(h, ops[0]) {
        NextKeeps(h, ops[0]);
        NextLargeIff(h, ops[0]);
        if !ShrinksToEight(h, ops[0]) {
          EveryRunLargeIff(Next(h, ops[0]), ops[1..]);
        } else {
          NotLarge(Next(h, ops[0]), ops[1..]);
        }
      } else {
        EveryRunLargeIff(h, ops[1..]);
      }
    }
  }

  lemma NotLarge(h: Heap, ops: seq<Op>)
    requires Ok(h) && !Large(h.blocks)
    ensures !LargeThroughout(h, ops)
  {
  }

  /* ---------- requests that wrap ---------- */

  // The smallest size whose rounding wraps.
  const WRAPS: nat := 0xFFFF_FFF9

  lemma WrapsToZero()
    ensures AlignUp(WRAPS) == 0 && Rounded(WRAPS) == MIN_SIZE_ALIGNED < WRAPS
  {
    assert (WRAPS + ALIGN - 1) % WORDS == 0;
  }

  /** A realloc to that size returns NULL and the block is gone, for every live block of every heap. */
  lemma WrappedReallocFrees(h: Heap, off: nat)
    requires Ok(h) && IsLive(h, off)
    ensures Realloc(h, Some(off), WRAPS) == (Free(h, off), None)
    ensures !IsLive(Realloc(h, Some(off), WRAPS).0, off)
  {
    hide Free;
    WrapsToZero();
    FreeKeeps(h, off);
    IsLiveIff(Free(h, off), off);
    IndexedIsLive(h, off);
    if IsLive(Free(h, off), off) {
      var b :| b in Live(Free(h, off).blocks) && b.off == off;
      LiveAt(h, b);
    }
  }

  /** On a fresh heap of 1 KiB an allocation of that size is granted, with sixteen bytes; a realloc of the
    * result to that size then frees it. */
  lemma WrappedRequest()
    ensures Ok(InitHeap(1024))
    ensures var (h, p) := Alloc(InitHeap(1024), WRAPS);
      && p == Some(0) && Ok(h) && IsLive(h, 0) && Payload(h.blocks[0]) == 16
      && Realloc(h, Some(0), WRAPS).1 == None && !IsLive(Realloc(h, Some(0), WRAPS).0, 0)
  {
    InitOk(1024);
    AllocKeeps(InitHeap(1024), WRAPS);
    WrapsToZero();
    var h := Alloc(InitHeap(1024), WRAPS).0;
    assert FirstFit(Fresh(1024), 16) == 0;
    assert h.blocks[0] == Block(0, 32, true);
    WrappedReallocFrees(h, 0);
  }
}
