/** What each heap call answers and which live blocks it leaves, completely: the live blocks determine the whole
    block list (HeapModel.LiveDetermines), so nothing about the list is left open. */
module HeapCalls {
  import opened Basics
  import opened HeapModel
  import opened HeapOps
  import opened HeapLaws

  /** The size carved is the least aligned one that is no smaller than the request and the smallest block;
    * for the requests that wrap it is the smallest block. */
  lemma RoundedIsLeast(request: nat, k: nat)
    requires 0 < request < WORDS
    ensures request <= WORDS - ALIGN && Aligned(k) && k >= request && k >= MIN_SIZE_ALIGNED ==> Rounded(request) <= k
    ensures request <= WORDS - ALIGN ==> Aligned(Rounded(request)) && Rounded(request) >= request
    ensures request > WORDS - ALIGN ==> Rounded(request) == MIN_SIZE_ALIGNED
  {
    RoundsToZero(request);
    ServedInFull(request);
    if request <= WORDS - ALIGN && Aligned(k) && k >= request {
      NextMultiple(k, request, AlignUp(request));
    }
  }

  lemma NextMultiple(k: nat, request: nat, r: nat)
    requires Aligned(k) && Aligned(r) && request <= k && r < request + ALIGN
    ensures r <= k
  {
  }

  // No free block has room for n bytes.
  ghost predicate NoRoom(bs: seq<Block>, n: nat) {
    forall b :: b in bs && !b.used ==> Payload(b) < n
  }

  // The lowest free block with room for n bytes.
  ghost predicate LowestRoom(bs: seq<Block>, n: nat, fb: Block) {
    && fb in bs && !fb.used && Payload(fb) >= n
    && forall b :: b in bs && !b.used && Payload(b) >= n ==> fb.off <= b.off
  }

  // The live block made of it: cut after n bytes if the rest can stand as a block of its own, whole otherwise.
  function Carved(fb: Block, n: nat): Block {
    Block(fb.off, if Payload(fb) >= n + HEADER + MIN_SIZE_ALIGNED then HEADER + n else fb.size, true)
  }

  /** An allocation of anything but zero bytes returns NULL exactly when no free block has room, and then
    * changes nothing; otherwise the lowest such block is carved, and no other live block appears or goes. */
  lemma AllocExact(h: Heap, request: nat)
    requires Ok(h)
    ensures var (r, p) := Alloc(h, request); var n := Rounded(request);
      && Ok(r) && r.end == h.end
      && (p == None <==> request == 0 || NoRoom(h.blocks, n))
      && (p == None ==> r == h)
      && (p.Some? ==> exists fb ::
            LowestRoom(h.blocks, n, fb) && p == Some(fb.off) && Live(r.blocks) == Live(h.blocks) + {Carved(fb, n)})
  {
    hide Ok, LowestRoom, NoRoom, AlignUp, Rounded;
    AllocKeeps(h, request);
    if request != 0 {
      RoomIff(h, request);
      var (r, p) := Alloc(h, request);
      if p.Some? {
        var n := Rounded(request);
        var fb := h.blocks[FirstFit(h.blocks, n)];
        CarvesLowest(h, request);
        assert LowestRoom(h.blocks, n, fb) && p == Some(fb.off) && Live(r.blocks) == Live(h.blocks) + {Carved(fb, n)};
      }
    }
  }

  lemma RoomIff(h: Heap, request: nat)
    requires Ok(h) && request != 0
    ensures Alloc(h, request).1 == None <==> NoRoom(h.blocks, Rounded(request))
  {
    hide Alloc;
    AllocCompleteAndLowest(h, request);
  }

  lemma CarvesLowest(h: Heap, request: nat)
    requires Ok(h) && request != 0 && Alloc(h, request).1.Some?
    ensures var (r, p) := Alloc(h, request); var n := Rounded(request); var i := FirstFit(h.blocks, n);
      i < |h.blocks| && LowestRoom(h.blocks, n, h.blocks[i]) && p == Some(h.blocks[i].off)
      && Live(r.blocks) == Live(h.blocks) + {Carved(h.blocks[i], n)}
  {
    var n := Rounded(request);
    AllocCompleteAndLowest(h, request);
    AllocLive(h.blocks, FirstFit(h.blocks, n), n, h.end);
  }

  // Where a realloc to n bytes leaves a block alone, or cuts it where it stands.
  predicate StaysPut(size: int, n: nat) {
    n == size || n + HEADER + MIN_SIZE < size
  }

  /** A realloc of a live block: it fails exactly when the rounded size is beyond the heap, zero, or calls for a
    * move for which no free block has room. A block that stays put has its new size at the same offset; a moved
    * one is carved out of the lowest free block with room. No other live block changes. */
  lemma ReallocExact(h: Heap, off: nat, request: nat)
    requires Ok(h) && IsLive(h, off)
    ensures var n := AlignUp(request); var b := h.blocks[IndexOf(h.blocks, off)];
      var (r, p) := Realloc(h, Some(off), request);
      && Ok(r) && r.end == h.end && b in Live(h.blocks)
      && (p == None <==> n == 0 || n + HEADER > h.end || (!StaysPut(Payload(b), n) && NoRoom(h.blocks, Rounded(n))))
      && (p == Some(off) <==> n > 0 && n + HEADER <= h.end && StaysPut(Payload(b), n))
      && (n == 0 ==> Live(r.blocks) == Live(h.blocks) - {b})
      && (p == None && n > 0 ==> r == h)
      && (p == Some(off) ==> Live(r.blocks) == Live(h.blocks) - {b} + {Block(off, HEADER + n, true)})
      && (p.Some? && p != Some(off) ==> exists fb ::
            LowestRoom(h.blocks, Rounded(n), fb) && p == Some(fb.off)
            && Live(r.blocks) == Live(h.blocks) - {b} + {Carved(fb, Rounded(n))})
  {
    hide Ok, AlignUp, Rounded, NoRoom, LowestRoom, Live, Free, ShrinkAt, Move;
    var n := AlignUp(request);
    var i := IndexOf(h.blocks, off);
    var b := h.blocks[i];
    ReallocKeeps(h, Some(off), request);
    IndexedIsLive(h, off);
    AtLeastHeader(h);
    if n > 0 && n + HEADER <= h.end {
      if n == Payload(b) {
        Unchanged(h, b, off, n);
      } else if n + HEADER + MIN_SIZE < Payload(b) {
        ShrinkKeeps(h, i, n);
      } else {
        MoveExact(h, off, n);
      }
    } else if n == 0 {
      FreeKeeps(h, off);
    }
  }

  lemma AtLeastHeader(h: Heap)
    requires Ok(h)
    ensures h.end >= HEADER
  {
  }

  lemma Unchanged(h: Heap, b: Block, off: nat, n: nat)
    requires b in Live(h.blocks) && b.off == off && Payload(b) == n
    ensures Live(h.blocks) == Live(h.blocks) - {b} + {Block(off, HEADER + n, true)}
  {
  }

  lemma MoveExact(h: Heap, off: nat, n: nat)
    requires Ok(h) && IsLive(h, off) && n > 0
    ensures var b := h.blocks[IndexOf(h.blocks, off)]; var (r, p) := Move(h, off, n);
      && (p == None <==> NoRoom(h.blocks, Rounded(n)))
      && (p == None ==> r == h)
      && p != Some(off)
      && (p.Some? ==> exists fb ::
            LowestRoom(h.blocks, Rounded(n), fb) && p == Some(fb.off)
            && Live(r.blocks) == Live(h.blocks) - {b} + {Carved(fb, Rounded(n))})
  {
    hide Ok, Alloc, Free, Rounded, NoRoom, Live, LowestRoom;
    AllocExact(h, n);
    AllocKeeps(h, n);
    var (a, p) := Alloc(h, n);
    if p.Some? {
      var fb :| LowestRoom(h.blocks, Rounded(n), fb) && p == Some(fb.off)
                && Live(a.blocks) == Live(h.blocks) + {Carved(fb, Rounded(n))};
      var b := h.blocks[IndexOf(h.blocks, off)];
      AllocKeepsLive(h, n, off);
      IndexedIsLive(h, off);
      LiveAt(a, b);
      FreeKeeps(a, off);
      RoomIsFree(h, fb, Rounded(n));
      assert Live(Move(h, off, n).0.blocks) == Live(h.blocks) - {b} + {Carved(fb, Rounded(n))};
    }
  }

  lemma RoomIsFree(h: Heap, fb: Block, n: nat)
    requires Ok(h) && LowestRoom(h.blocks, n, fb)
    ensures forall b :: b in Live(h.blocks) ==> b.off != fb.off
  {
    var i :| 0 <= i < |h.blocks| && h.blocks[i] == fb;
    NotLive(h.blocks, i, 0, h.end);
  }

  /** A realloc of NULL is an allocation of the rounded size. */
  lemma ReallocNullExact(h: Heap, request: nat)
    requires Ok(h)
    ensures var n := AlignUp(request);
      var (r, p) := Realloc(h, None, request);
      && (p == None <==> n == 0 || NoRoom(h.blocks, Rounded(n)))
      && (p == None ==> r == h)
      && (p.Some? ==> exists fb ::
            LowestRoom(h.blocks, Rounded(n), fb) && p == Some(fb.off)
            && Live(r.blocks) == Live(h.blocks) + {Carved(fb, Rounded(n))})
  {
    hide Ok, AlignUp, NoRoom, LowestRoom, Alloc;
    var n := AlignUp(request);
    AllocExact(h, n);
    if n + HEADER > h.end {
      BelowWords(request);
      BeyondHeap(h, n);
    }
  }

  lemma BelowWords(request: nat)
    ensures AlignUp(request) + ALIGN <= WORDS
  {
  }

  lemma BeyondHeap(h: Heap, n: nat)
    requires Ok(h) && n + HEADER > h.end && n + ALIGN <= WORDS
    ensures NoRoom(h.blocks, Rounded(n))
  {
    hide AlignUp;
    forall b | b in h.blocks && !b.used ensures Payload(b) < n {
      var i :| 0 <= i < |h.blocks| && h.blocks[i] == b;
      LastEnds(h.blocks, 0, h.end, i);
    }
  }
}
