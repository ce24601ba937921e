/** The small-memory allocator on its one array of words: headers linked by offsets, a cached lowest
    free block and running accounts, all updated in place.  Every method computes the operation of
    HeapLaws on the block list the headers encode. */
module SmallMem {
  import opened Basics
  import opened HeapModel
  import opened HeapOps
  import opened HeapWords
  import L = HeapLaws

  // Offset of the lowest free block, or of the end marker.
  function FirstFree(bs: seq<Block>, end: nat): nat {
    if bs == [] then end else if !bs[0].used then bs[0].off else FirstFree(bs[1..], end)
  }

  // Offset of the `j`-th header, the end marker included.
  function OffAt(bs: seq<Block>, j: nat, end: nat): nat {
    if j < |bs| then bs[j].off else end
  }

  lemma {:induction false} FirstFreeAt(bs: seq<Block>, end: nat, j: nat)
    requires j <= |bs| && (forall k :: 0 <= k < j ==> bs[k].used) && (j < |bs| ==> !bs[j].used)
    ensures FirstFree(bs, end) == OffAt(bs, j, end)
  {
    if j > 0 {
      forall k | 0 <= k < j - 1 ensures bs[1..][k].used { assert bs[k + 1].used; }
      FirstFreeAt(bs[1..], end, j - 1);
    }
  }

  lemma {:induction false} FirstFreeIndex(bs: seq<Block>, end: nat) returns (j: nat)
    ensures j <= |bs| && (forall k :: 0 <= k < j ==> bs[k].used) && (j < |bs| ==> !bs[j].used)
    ensures FirstFree(bs, end) == OffAt(bs, j, end)
  {
    j := 0;
    while j < |bs| && bs[j].used
      invariant j <= |bs| && forall k :: 0 <= k < j ==> bs[k].used
    {
      j := j + 1;
    }
    FirstFreeAt(bs, end, j);
  }

  // While block `i` is being merged the cached pointer may stand on `i` or on one of its free
  // neighbours instead of the lowest free block.
  ghost predicate NearlyLowest(bs: seq<Block>, i: nat, lfree: nat) {
    exists j :: 0 <= j < |bs| && j <= i + 1 && !bs[j].used && lfree == bs[j].off &&
      forall k :: 0 <= k < j ==> bs[k].used || i <= k + 1
  }

  // The pointer stands on a free block up to `i` with no free one before it, but for `i - 1` perhaps.
  ghost predicate NotBehind(a: seq<Block>, i: nat, p: nat)
    requires i < |a|
  {
    exists j :: 0 <= j <= i && !a[j].used && p == a[j].off && forall k :: 0 <= k < j ==> a[k].used || i <= k + 1
  }

  // After the forward merge the pointer no longer stands behind block `i`.
  lemma PointerAfterForward(bs: seq<Block>, i: nat, lfree: nat, end: nat)
    requires Tiles(bs, 0, end) && i < |bs| && !bs[i].used && NearlyLowest(bs, i, lfree)
    ensures var a := MergeNext(bs, i); var p := if i + 1 < |bs| && !bs[i + 1].used && lfree == bs[i + 1].off then bs[i].off else lfree;
      i < |a| && NotBehind(a, i, p)
  {
    MergeNextIndex(bs, i);
    var a := MergeNext(bs, i);
    var j :| 0 <= j < |bs| && j <= i + 1 && !bs[j].used && lfree == bs[j].off && forall k :: 0 <= k < j ==> bs[k].used || i <= k + 1;
    hide MergeNext, Tiles;
    if j == i + 1 {
      assert !a[i].used && a[i].off == bs[i].off;
    } else if j < i {
      Ordered(bs, 0, end, j, i);
      if i + 1 < |bs| { Ordered(bs, 0, end, j, i + 1); }
      assert a[j] == bs[j];
    } else {
      if i + 1 < |bs| { Ordered(bs, 0, end, i, i + 1); }
      assert !a[i].used && a[i].off == bs[i].off;
    }
  }

  // After the backward merge it stands on the lowest free block.
  lemma PointerAfterBackward(a: seq<Block>, i: nat, p: nat, end: nat)
    requires Tiles(a, 0, end) && i < |a| && !a[i].used
    requires NotBehind(a, i, p)
    ensures var r := if i > 0 then MergeNext(a, i - 1) else a;
      FirstFree(r, end) == if i > 0 && !a[i - 1].used && p == a[i].off then a[i - 1].off else p
  {
    var j :| 0 <= j <= i && !a[j].used && p == a[j].off && forall k :: 0 <= k < j ==> a[k].used || i <= k + 1;
    if i > 0 { MergeNextIndex(a, i - 1); }
    if j < i { Ordered(a, 0, end, j, i); }
    var r := if i > 0 then MergeNext(a, i - 1) else a;
    hide MergeNext, Tiles;
    if i > 0 && !a[i - 1].used {
      if j == i {
        FirstFreeAt(r, end, i - 1);
      } else {
        FirstFreeAt(r, end, j);
      }
    } else {
      FirstFreeAt(r, end, j);
    }
  }

  lemma SameOffset(bs: seq<Block>, i: nat, j: nat, end: nat)
    requires Tiles(bs, 0, end) && i < |bs| && j < |bs|
    ensures bs[i].off == bs[j].off <==> i == j
    ensures bs[i].off < end
  {
    Ordered(bs, 0, end, i, i);
    if i < j { Ordered(bs, 0, end, i, j); }
    if j < i { Ordered(bs, 0, end, j, i); }
  }

  // An allocation at `i` leaves the blocks below alone and puts block `i` to use where it is.
  lemma AllocPrefix(bs: seq<Block>, i: nat, n: nat)
    requires i < |bs| && Fits(bs[i], n)
    ensures var r := AllocAt(bs, i, n);
      i < |r| && r[i].used && r[i].off == bs[i].off && forall k :: 0 <= k < i ==> r[k] == bs[k]
  {
    SplitIndex(bs, i, n);
  }

  lemma AlignUpTwice(n: nat)
    ensures AlignUp(AlignUp(n)) == AlignUp(n)
  {
    var a := AlignUp(n);
    assert a < WORDS && a + ALIGN <= WORDS by { assert WORDS == ALIGN * 0x2000_0000; }
    SameMultiple(a, AlignUp(a));
  }

  lemma SameMultiple(a: nat, b: nat)
    requires Aligned(a) && Aligned(b) && a <= b < a + ALIGN
    ensures a == b
  {
  }

  function HeaderAt(p: Option<nat>): Option<nat> {
    if p.Some? && p.value >= HEADER then Some(p.value - HEADER) else None
  }

  function PayloadAt(o: Option<nat>): Option<nat> {
    if o.Some? then Some(o.value + HEADER) else None
  }

  lemma FirstFitIs(bs: seq<Block>, n: nat, j: nat)
    requires j <= |bs| && (j < |bs| ==> Fits(bs[j], n)) && forall k :: 0 <= k < j ==> !Fits(bs[k], n)
    ensures FirstFit(bs, n) == j
  {
  }

  // Past the cut-off no block is long enough.
  lemma NoFitBehind(bs: seq<Block>, end: nat, j: nat, n: nat)
    requires Tiles(bs, 0, end) && j <= |bs| && OffAt(bs, j, end) + HEADER + n > end
    ensures forall k :: j <= k < |bs| ==> !Fits(bs[k], n)
  {
    forall k | j <= k < |bs| ensures !Fits(bs[k], n) {
      Ordered(bs, 0, end, j, k);
    }
  }

  lemma Below(bs: seq<Block>, i: nat, j: nat, end: nat)
    requires Tiles(bs, 0, end) && i < |bs| && j < |bs|
    ensures bs[i].off < bs[j].off <==> i < j
  {
    if i < j { Ordered(bs, 0, end, i, j); } else { Ordered(bs, 0, end, j, i); }
  }

  // The lowest free block after block `i` has been freed.
  lemma LowestAfterMark(bs: seq<Block>, i: nat, f: nat)
    requires i < |bs| && bs[i].used && f <= |bs|
    requires (forall k :: 0 <= k < f ==> bs[k].used) && (f < |bs| ==> !bs[f].used)
    ensures NearlyLowest(Mark(bs, i, false), i, if i < f then bs[i].off else bs[f].off)
  {
    var m := Mark(bs, i, false);
    var j := if i < f then i else f;
    assert !m[j].used && forall k :: 0 <= k < j ==> m[k].used;
  }

  // The lowest free block after the rest of block `i` has been cut off.
  lemma LowestAfterSplit(bs: seq<Block>, i: nat, n: nat, f: nat, end: nat)
    requires Tiles(bs, 0, end) && i < |bs| && bs[i].used && Aligned(n) && bs[i].size >= 2 * HEADER + n && f <= |bs|
    requires (forall k :: 0 <= k < f ==> bs[k].used) && (f < |bs| ==> !bs[f].used)
    ensures var o2 := bs[i].off + HEADER + n; var lfree := OffAt(bs, f, end);
      NearlyLowest(Split(bs, i, n), i + 1, if o2 < lfree then o2 else lfree)
  {
    var r := Split(bs, i, n);
    SplitIndex(bs, i, n);
    SplitPlaces(bs, i, n, end);
    assert Joins(bs, i, end);
    if f < i {
      Ordered(bs, 0, end, f, i);
      assert !r[f].used && forall k :: 0 <= k < f ==> r[k].used;
    } else {
      if f < |bs| { Ordered(bs, 0, end, i, f); }
      assert !r[i + 1].used && forall k :: 0 <= k < i + 1 ==> r[k].used;
    }
  }

  lemma Twice(k: nat)
    ensures (2 * k) % 2 == 0 && (2 * k + 1) % 2 == 1
  {
  }

  // An aligned address leaves the lowest bit of a tag free.
  lemma TagParity(pool: nat)
    requires Aligned(pool)
    ensures pool % 2 == 0 && (pool + 1) % 2 == 1
  {
    Twice(4 * (pool / ALIGN));
  }

  // Rounding up the start and down the end of a region.
  lemma RegionAligned(begin: nat, size: nat, control: nat)
    requires 0 < begin && begin + size + ALIGN <= WORDS && control % 4 == 0
    ensures begin <= AlignUp(begin) < begin + ALIGN && Aligned(AlignUp(begin))
    ensures Aligned(begin + size - (begin + size) % ALIGN)
  {
    var n := begin + size;
    assert n - n % ALIGN == ALIGN * (n / ALIGN);
    Eighths(n / ALIGN);
  }

  lemma Eighths(k: int)
    ensures Aligned(ALIGN * k)
  {
  }

  // Room for two headers between n and an aligned limit is room behind n rounded up.
  lemma RoundUpBelow(n: nat, limit: nat)
    requires Aligned(limit) && limit <= WORDS
    ensures n + 2 * HEADER <= limit ==>
              && n <= AlignUp(n) && Aligned(AlignUp(n)) && AlignUp(n) + 2 * HEADER <= limit
              && Aligned(limit - AlignUp(n) - 2 * HEADER)
  {
  }

  class SmallMem {
    const pool: nat
    const end: nat
    const heap: array<word>
    var lfree: nat
    var used: nat
    var max: nat
    ghost var blocks: seq<Block>

    // rt_smem_init: the control block and the two end headers are carved out of the region.
    static method Init(begin: nat, size: nat, control: nat) returns (m: SmallMem?)
      requires 0 < begin && begin + size + ALIGN <= WORDS && control % 4 == 0 && 0 < control
      ensures m == null <==> AlignUp(begin) + control + 2 * HEADER > begin + size - (begin + size) % ALIGN
      ensures m != null ==> fresh(m) && fresh(m.heap) && m.Valid() && m.blocks == Fresh(m.end) && m.max == 0
      ensures m != null ==> m.pool == AlignUp(begin)
      ensures m != null ==> m.pool + control <= AlignUp(m.pool + control)
      ensures m != null ==> m.end == begin + size - (begin + size) % ALIGN - AlignUp(m.pool + control) - HEADER
    {
      hide Aligned, AlignUp, Fresh, SmallMem.Valid;
      RegionAligned(begin, size, control);
      var small := AlignUp(begin);
      var start := small + control;
      var beginAlign := AlignUp(start);
      var endAlign := (begin + size) - (begin + size) % ALIGN;
      RoundUpBelow(start, endAlign);
      if endAlign > 2 * HEADER && endAlign - 2 * HEADER >= start {
        m := new SmallMem(small, endAlign - beginAlign - 2 * HEADER);
      } else {
        m := null;
      }
    }

    constructor (pool: nat, memSize: nat)
      requires 0 < pool && Aligned(pool) && Aligned(memSize) && pool + 1 < WORDS && memSize + 2 * HEADER <= WORDS
      ensures Valid() && fresh(heap) && this.pool == pool && end == memSize + HEADER
      ensures blocks == Fresh(end) && max == 0
    {
      var e := memSize + HEADER;
      var h := new word[Cell(e) + 4](_ => 0);
      h[0] := pool;
      h[1] := e;
      h[2] := 0;
      h[Cell(e)] := pool + 1;
      h[Cell(e) + 1] := e;
      h[Cell(e) + 2] := e;
      this.pool, end, heap := pool, e, h;
      lfree, used, max := 0, 0, 0;
      blocks := Fresh(e);
      new;
      L.InitOk(end);
    }

    ghost predicate Valid()
      reads this, heap
    {
      && 0 < pool && Aligned(pool) && pool + 1 < WORDS && end + HEADER <= WORDS
      && L.Ok(State()) && heap.Length == Cell(end) + 4
      && Linked(heap[..], blocks, pool, end)
      && lfree == FirstFree(blocks, end) && used == L.UsedSum(blocks)
    }

    ghost function State(): L.Heap
      reads this
    {
      L.Heap(end, blocks, max)
    }

    /* ---------- header fields ---------- */

    function IsUsed(o: nat): bool
      requires Cell(o) < heap.Length
      reads heap
    {
      heap[Cell(o)] % 2 == 1
    }

    function NextOf(o: nat): word
      requires Cell(o) + 1 < heap.Length
      reads heap
    {
      heap[Cell(o) + 1]
    }

    function PrevOf(o: nat): word
      requires Cell(o) + 2 < heap.Length
      reads heap
    {
      heap[Cell(o) + 2]
    }

    ghost predicate Holds(bs: seq<Block>)
      reads heap
    {
      && 0 < pool && Aligned(pool) && pool + 1 < WORDS && end + HEADER <= WORDS
      && heap.Length == Cell(end) + 4 && Linked(heap[..], bs, pool, end)
    }

    // What the header of block `k` reads as.
    lemma ReadHeader(bs: seq<Block>, k: nat)
      requires Holds(bs) && k < |bs|
      ensures Cell(bs[k].off) + 3 < heap.Length
      ensures IsUsed(bs[k].off) == bs[k].used && NextOf(bs[k].off) == NextOff(bs, k, end) && PrevOf(bs[k].off) == PrevOff(bs, k)
      ensures bs[k].off + HEADER <= bs[k].off + bs[k].size == NextOff(bs, k, end) <= end
    {
      TagParity(pool);
      hide Aligned;
      assert LinkedAt(heap[..], bs, k, pool, end);
      assert Joins(bs, k, end);
      Ordered(bs, 0, end, k, k);
    }

    lemma ReadEnd(bs: seq<Block>)
      requires Holds(bs)
      ensures Cell(end) + 1 < heap.Length && IsUsed(end) && NextOf(end) == end
    {
      TagParity(pool);
    }

    lemma HoldsTiles(bs: seq<Block>)
      requires Holds(bs)
      ensures Tiles(bs, 0, end)
    {
    }

    /* ---------- merging ---------- */

    // One merge step: the header at `o` swallows the free header at `o1` behind it.
    method Absorb(o: nat, o1: nat, ghost bs: seq<Block>, ghost i: nat)
      requires Holds(bs) && i + 1 < |bs| && !bs[i].used && !bs[i + 1].used
      requires o == bs[i].off && o1 == bs[i + 1].off
      modifies heap
      ensures Holds(MergeNext(bs, i))
      ensures KeepsBodies(old(heap[..]), heap[..], Live(bs))
    {
      ReadHeader(bs, i + 1);
      LinkMerge(heap[..], bs, i, pool, end);
      MergeKeepsBodies(heap[..], bs, i, pool, end);
      ghost var h := heap[..];
      var next := NextOf(o1);
      heap[Cell(o1)] := 0;
      heap[Cell(o) + 1] := next;
      heap[Cell(next) + 2] := o;
      assert heap[..] == MergeWords(h, o, o1, next);
    }

    // Merges the free block at `mem` with a free block behind it.
    method PlugForward(mem: nat, ghost bs: seq<Block>, ghost i: nat)
      requires Holds(bs) && i < |bs| && mem == bs[i].off && !bs[i].used && NearlyLowest(bs, i, lfree)
      modifies heap, this`lfree
      ensures Holds(MergeNext(bs, i))
      ensures var a := MergeNext(bs, i); i < |a| && a[i].off == mem && !a[i].used && NotBehind(a, i, lfree)
      ensures KeepsBodies(old(heap[..]), heap[..], Live(bs))
    {
      hide Tiles, Linked, MergeNext, NearlyLowest, NotBehind;
      assert Tiles(bs, 0, end) by { HoldsTiles(bs); }
      ReadHeader(bs, i);
      ReadEnd(bs);
      PointerAfterForward(bs, i, lfree, end);
      MergeNextIndex(bs, i);
      KeepsSelf(heap[..], Live(bs));
      var nmem := NextOf(mem);
      if i + 1 < |bs| { ReadHeader(bs, i + 1); }
      if mem != nmem && !IsUsed(nmem) && nmem != end {
        if lfree == nmem {
          lfree := mem;
        }
        Absorb(mem, nmem, bs, i);
      }
    }

    // Merges it with a free block before it.
    method PlugBackward(mem: nat, ghost a: seq<Block>, ghost i: nat)
      requires Holds(a) && i < |a| && mem == a[i].off && !a[i].used && NotBehind(a, i, lfree)
      modifies heap, this`lfree
      ensures Holds(if i > 0 then MergeNext(a, i - 1) else a)
      ensures lfree == FirstFree(if i > 0 then MergeNext(a, i - 1) else a, end)
      ensures KeepsBodies(old(heap[..]), heap[..], Live(a))
    {
      hide Tiles, Linked, MergeNext, FirstFree, NotBehind;
      HoldsTiles(a);
      PointerAfterBackward(a, i, lfree, end);
      ReadHeader(a, i);
      KeepsSelf(heap[..], Live(a));
      var pmem := PrevOf(mem);
      if i > 0 { ReadHeader(a, i - 1); Ordered(a, 0, end, i - 1, i); MergeNextIndex(a, i - 1); }
      if pmem != mem && !IsUsed(pmem) {
        if lfree == mem {
          lfree := pmem;
        }
        Absorb(pmem, mem, a, i - 1);
      }
    }

    // plug_holes
    method PlugHoles(mem: nat, ghost bs: seq<Block>, ghost i: nat)
      requires Holds(bs) && i < |bs| && mem == bs[i].off && !bs[i].used && NearlyLowest(bs, i, lfree)
      modifies heap, this`lfree
      ensures Holds(Coalesce(bs, i))
      ensures lfree == FirstFree(Coalesce(bs, i), end)
      ensures KeepsBodies(old(heap[..]), heap[..], Live(bs))
    {
      hide Holds, MergeNext, FirstFree, NearlyLowest, NotBehind, KeepsBodies;
      LiveMergeNext(bs, i);
      PlugForward(mem, bs, i);
      ghost var h := heap[..];
      PlugBackward(mem, MergeNext(bs, i), i);
      KeepsTrans(old(heap[..]), h, heap[..], Live(bs), Live(bs));
    }

    /* ---------- allocation ---------- */

    // The lowest free block moves up past blocks in use.
    method AdvanceLowest(ghost j: nat)
      requires Holds(blocks) && j <= |blocks| && lfree == OffAt(blocks, j, end)
      requires forall k :: 0 <= k < j ==> blocks[k].used
      modifies this`lfree
      ensures lfree == FirstFree(blocks, end)
    {
      ghost var q := j;
      if q < |blocks| { ReadHeader(blocks, q); }
      while lfree != end && IsUsed(lfree)
        invariant j <= q <= |blocks| && lfree == OffAt(blocks, q, end)
        invariant forall k :: 0 <= k < q ==> blocks[k].used
        invariant q < |blocks| ==> lfree < end && Cell(lfree) + 3 < heap.Length && IsUsed(lfree) == blocks[q].used
        decreases |blocks| - q
      {
        ReadHeader(blocks, q);
        lfree := NextOf(lfree);
        q := q + 1;
        if q < |blocks| { ReadHeader(blocks, q); }
      }
      FirstFreeAt(blocks, end, q);
    }

    // Cuts the block at `o` after `n` bytes: a free header is written behind them and linked in, and
    // the front part is tagged as used.
    method CutBlock(o: nat, n: nat, ghost i: nat)
      requires Holds(blocks) && i < |blocks| && o == blocks[i].off
      requires Aligned(n) && blocks[i].size >= 2 * HEADER + n
      modifies heap
      ensures Holds(Split(blocks, i, n))
      ensures KeepsBodies(old(heap[..]), heap[..], Live(blocks) - {blocks[i]})
      ensures Cell(o) + 4 <= Cell(o + HEADER + n) <= heap.Length
      ensures heap[Cell(o) + 4..Cell(o + HEADER + n)] == old(heap[..])[Cell(o) + 4..Cell(o + HEADER + n)]
    {
      hide Tiles, Linked, SplitWords, KeepsBodies, Split, Cell;
      ghost var h := heap[..];
      WriteCut(o, n, i);
      LinkSplit(h, blocks, i, n, pool, end);
      SplitKeepsBodies(h, blocks, i, n, pool, end);
    }

    method WriteCut(o: nat, n: nat, ghost i: nat)
      requires Holds(blocks) && i < |blocks| && o == blocks[i].off
      requires Aligned(n) && blocks[i].size >= 2 * HEADER + n
      modifies heap
      ensures Cell(o) + 1 < |old(heap[..])| && Cell(o + HEADER + n) + 2 < |old(heap[..])|
      ensures NextOff(blocks, i, end) < WORDS && Cell(NextOff(blocks, i, end)) + 2 < |old(heap[..])|
      ensures o + HEADER + n < WORDS && pool + 1 < WORDS
      ensures heap[..] == SplitWords(old(heap[..]), o, o + HEADER + n, NextOff(blocks, i, end), pool, end)
    {
      hide Tiles, Linked, Split;
      HoldsTiles(blocks);
      ReadHeader(blocks, i);
      SplitPlaces(blocks, i, n, end);
      var ptr2 := o + HEADER + n;
      var next := NextOf(o);
      heap[Cell(ptr2)] := pool;
      heap[Cell(ptr2) + 1] := next;
      heap[Cell(ptr2) + 2] := o;
      heap[Cell(o) + 1] := ptr2;
      if next != end {
        heap[Cell(next) + 2] := ptr2;
      }
      heap[Cell(o)] := pool + 1;
    }

    // The block at `o` is tagged as free or used.
    method TagBlock(o: nat, used: bool, ghost i: nat)
      requires Holds(blocks) && i < |blocks| && o == blocks[i].off
      modifies heap
      ensures Holds(Mark(blocks, i, used))
      ensures KeepsBodies(old(heap[..]), heap[..], Live(blocks))
    {
      HoldsTiles(blocks);
      LinkMark(heap[..], blocks, i, used, pool, end);
      MarkKeepsBodies(heap[..], blocks, i, Tag(pool, used), end, Live(blocks));
      ghost var h := heap[..];
      var tag: word := Tag(pool, used);
      heap[Cell(o)] := tag;
      assert heap[..] == h[Cell(o) := tag];
    }

    // The free block at `ptr` is put to use, cut to size if the rest can hold a block of its own.
    method Carve(ptr: nat, n: nat, ghost i: nat)
      requires Valid() && i < |blocks| && ptr == blocks[i].off && Fits(blocks[i], n)
      requires Aligned(n) && n >= MIN_SIZE_ALIGNED
      modifies this`used, this`max, this`blocks, heap
      ensures Holds(blocks) && L.Ok(State()) && used == L.UsedSum(blocks)
      ensures blocks == AllocAt(old(blocks), i, n)
      ensures max == L.Max(old(max), L.UsedSum(blocks))
      ensures KeepsBodies(old(heap[..]), heap[..], Live(old(blocks)))
    {
      hide Tiles, Linked, Split, FirstFree, Aligned, Roomy, Merged;
      ghost var bs := blocks;
      assert blocks[i] !in Live(blocks) by { NotLive(blocks, i, 0, end); }
      AllocWellFormed(blocks, i, n, end);
      ReadHeader(blocks, i);
      ghost var r := AllocAt(blocks, i, n);
      var size := NextOf(ptr) - (ptr + HEADER);
      if size >= n + HEADER + MIN_SIZE_ALIGNED {
        L.UsedSplit(blocks, i, n);
        CutBlock(ptr, n, i);
        used := used + (n + HEADER);
      } else {
        L.UsedMark(blocks, i, true);
        used := used + (NextOf(ptr) - ptr);
        TagBlock(ptr, true, i);
      }
      if max < used {
        max := used;
      }
      blocks := r;
    }

    // The block is handed out; if it was the lowest free one, the next free block becomes that.
    method TakeBlock(ptr: nat, n: nat, ghost i: nat)
      requires Valid() && i < |blocks| && ptr == blocks[i].off && Fits(blocks[i], n)
      requires Aligned(n) && n >= MIN_SIZE_ALIGNED
      modifies this, heap
      ensures Valid()
      ensures blocks == AllocAt(old(blocks), i, n)
      ensures max == L.Max(old(max), L.UsedSum(blocks))
      ensures KeepsBodies(old(heap[..]), heap[..], Live(old(blocks)))
    {
      hide Tiles, Linked, AllocAt, FirstFree, Aligned, Roomy, Merged;
      ghost var bs := blocks;
      ghost var f := FirstFreeIndex(blocks, end);
      if f < |bs| { SameOffset(bs, f, i, end); }
      EndApart(bs, end, i);
      AllocPrefix(bs, i, n);
      Carve(ptr, n, i);
      if ptr == lfree {
        AdvanceLowest(i);
      } else {
        FirstFreeAt(blocks, end, f);
      }
    }

    // The walk over the headers from the lowest free block, up to the last offset that leaves room.
    method Search(size: nat) returns (ptr: nat, found: bool)
      requires Valid() && size + HEADER <= end
      ensures found <==> FirstFit(blocks, size) < |blocks|
      ensures found ==> ptr == blocks[FirstFit(blocks, size)].off
    {
      hide Tiles, Linked, FirstFree, Aligned, Roomy, Merged;
      ghost var j := FirstFreeIndex(blocks, end);
      ptr := lfree;
      while ptr <= end - HEADER - size
        invariant 0 <= j <= |blocks| && ptr == OffAt(blocks, j, end)
        invariant forall k :: 0 <= k < j ==> !Fits(blocks[k], size)
        decreases |blocks| - j
      {
        ReadHeader(blocks, j);
        if !IsUsed(ptr) && NextOf(ptr) - (ptr + HEADER) >= size {
          FirstFitIs(blocks, size, j);
          return ptr, true;
        }
        ptr := NextOf(ptr);
        j := j + 1;
      }
      NoFitBehind(blocks, end, j, size);
      FirstFitIs(blocks, size, |blocks|);
      found := false;
    }

    // rt_smem_alloc.  A pointer is the offset of a payload from the start of the heap.
    method Alloc(request: nat) returns (p: Option<nat>)
      requires Valid()
      modifies this, heap
      ensures Valid()
      ensures State() == old(L.Alloc(State(), request).0)
      ensures p == PayloadAt(old(L.Alloc(State(), request).1))
      ensures KeepsBodies(old(heap[..]), heap[..], old(Live(blocks)))
    {
      hide Tiles, Linked, AllocAt, FirstFree, Aligned, Roomy, Merged;
      if request == 0 {
        return None;
      }
      var size := AlignUp(request);
      if size < MIN_SIZE_ALIGNED {
        size := MIN_SIZE_ALIGNED;
      }
      assert size == Rounded(request);
      if size > end - HEADER {
        return None;
      }
      var ptr, found := Search(size);
      if !found {
        return None;
      }
      TakeBlock(ptr, size, FirstFit(blocks, size));
      return Some(ptr + HEADER);
    }

    // Marks the block at `mem` free; the lowest free pointer follows.
    method TagFree(mem: nat, ghost i: nat)
      requires Valid() && i < |blocks| && mem == blocks[i].off && blocks[i].used
      modifies this`lfree, heap
      ensures Holds(Mark(blocks, i, false)) && NearlyLowest(Mark(blocks, i, false), i, lfree)
      ensures KeepsBodies(old(heap[..]), heap[..], Live(blocks))
    {
      hide Tiles, Linked, FirstFree, Aligned, Roomy, Merged, KeepsBodies, Cell;
      ghost var bs := blocks;
      ghost var f := FirstFreeIndex(blocks, end);
      if f < |bs| { SameOffset(bs, f, i, end); Below(bs, f, i, end); } else { SameOffset(bs, i, i, end); }
      TagBlock(mem, false, i);
      if mem < lfree {
        lfree := mem;
      }
      LowestAfterMark(bs, i, f);
    }

    // rt_smem_free
    method Free(rmem: Option<nat>)
      requires Valid()
      requires rmem.Some? ==> rmem.value >= HEADER && L.IsLive(State(), rmem.value - HEADER)
      modifies this, heap
      ensures Valid()
      ensures State() == old(if rmem == None then State() else L.Free(State(), rmem.value - HEADER))
      ensures KeepsBodies(old(heap[..]), heap[..], Live(blocks))
    {
      hide Tiles, Linked, FirstFree, Aligned, Roomy, Merged, Coalesce, KeepsBodies, Cell, NearlyLowest;
      if rmem == None {
        KeepsSelf(heap[..], Live(blocks));
        return;
      }
      var mem := rmem.value - HEADER;
      ghost var i := L.IndexOf(blocks, mem);
      ghost var bs := blocks;
      ghost var h := heap[..];
      ghost var m := Mark(bs, i, false);
      L.FreeKeeps(State(), mem);
      LiveMark(bs, i, false, 0, end);
      LiveCoalesce(m, i);
      L.UsedAt(bs, i);
      TagFree(mem, i);
      ReadHeader(m, i);
      used := used - (NextOf(mem) - mem);
      ghost var h1 := heap[..];
      PlugHoles(mem, m, i);
      KeepsLess(h, h1, Live(bs), Live(m));
      KeepsTrans(h, h1, heap[..], Live(m), Live(m));
      blocks := Coalesce(m, i);
    }

    // The block at `mem` is cut after `n` bytes and the rest merged with what follows.
    method CutAndPlug(mem: nat, n: nat, ghost i: nat, ghost f: nat)
      requires Holds(blocks) && i < |blocks| && mem == blocks[i].off && blocks[i].used && Aligned(n)
      requires blocks[i].size >= 2 * HEADER + n && f <= |blocks| && lfree == OffAt(blocks, f, end)
      requires (forall k :: 0 <= k < f ==> blocks[k].used) && (f < |blocks| ==> !blocks[f].used)
      modifies heap, this`lfree
      ensures Holds(ShrinkAt(blocks, i, n)) && lfree == FirstFree(ShrinkAt(blocks, i, n), end)
      ensures KeepsBodies(old(heap[..]), heap[..], Live(blocks) - {blocks[i]})
      ensures Cell(mem) + 4 <= Cell(mem + HEADER + n) <= heap.Length
      ensures heap[Cell(mem) + 4..Cell(mem + HEADER + n)] == old(heap[..])[Cell(mem) + 4..Cell(mem + HEADER + n)]
    {
      hide Tiles, Linked, FirstFree, Coalesce, Split, NearlyLowest, KeepsBodies, Cell, Aligned;
      ghost var r := Split(blocks, i, n);
      ghost var h := heap[..];
      HoldsTiles(blocks);
      SplitIndex(blocks, i, n);
      LiveSplit(blocks, i, n, 0, end);
      LowestAfterSplit(blocks, i, n, f, end);
      CutBlock(mem, n, i);
      ghost var h1 := heap[..];
      var mem2 := mem + HEADER + n;
      if mem2 < lfree {
        lfree := mem2;
      }
      PlugHoles(mem2, r, i + 1);
      ghost var front := Block(mem, HEADER + n, true);
      KeepsTrans(h, h1, heap[..], Live(blocks) - {blocks[i]}, Live(r));
      KeepsBody(h1, heap[..], Live(r), front);
    }

    // The used block at `mem` is cut to `n` bytes of payload and the rest given back.
    method ShrinkBlock(mem: nat, n: nat, ghost i: nat)
      requires Valid() && i < |blocks| && mem == blocks[i].off && blocks[i].used && Aligned(n) && n > 0
      requires n + HEADER + MIN_SIZE < Payload(blocks[i])
      modifies this, heap
      ensures Valid() && max == old(max)
      ensures blocks == ShrinkAt(old(blocks), i, n)
      ensures KeepsBodies(old(heap[..]), heap[..], Live(old(blocks)) - {old(blocks)[i]})
      ensures Cell(mem) + 4 <= Cell(mem + HEADER + n) <= heap.Length
      ensures heap[Cell(mem) + 4..Cell(mem + HEADER + n)] == old(heap[..])[Cell(mem) + 4..Cell(mem + HEADER + n)]
    {
      hide Tiles, Linked, FirstFree, Aligned, Roomy, Merged, ShrinkAt;
      L.ShrinkKeeps(State(), i, n);
      ghost var f := FirstFreeIndex(blocks, end);
      ReadHeader(blocks, i);
      L.UsedAt(blocks, i);
      var size := NextOf(mem) - mem - HEADER;
      used := used - (size - n);
      CutAndPlug(mem, n, i, f);
      blocks := ShrinkAt(blocks, i, n);
    }

    // rt_memcpy between the payloads of two blocks; every size is a multiple of a word.
    method CopyWords(to: nat, from: nat, words: nat)
      requires Cell(to) + words <= heap.Length && Cell(from) + words <= heap.Length
      requires Cell(to) + words <= Cell(from) || Cell(from) + words <= Cell(to)
      modifies heap
      ensures heap[Cell(to)..Cell(to) + words] == old(heap[..])[Cell(from)..Cell(from) + words]
      ensures forall c :: 0 <= c < heap.Length && !(Cell(to) <= c < Cell(to) + words) ==> heap[c] == old(heap[c])
    {
      hide Cell;
      var k := 0;
      while k < words
        invariant k <= words
        invariant forall c :: Cell(to) <= c < Cell(to) + k ==> heap[c] == old(heap[c - Cell(to) + Cell(from)])
        invariant forall c :: 0 <= c < heap.Length && !(Cell(to) <= c < Cell(to) + k) ==> heap[c] == old(heap[c])
      {
        heap[Cell(to) + k] := heap[Cell(from) + k];
        k := k + 1;
      }
    }

    // The payload at `nmem` becomes a copy of the first `words` words at `rmem`.
    method CopyBlock(nmem: nat, rmem: nat, words: nat, ghost i: nat, ghost j: nat)
      requires Valid() && i < |blocks| && j < |blocks| && i != j
      requires nmem == blocks[i].off + HEADER && rmem == blocks[j].off + HEADER
      requires 4 * words <= Payload(blocks[i]) && 4 * words <= Payload(blocks[j])
      modifies heap
      ensures Valid()
      ensures KeepsBodies(old(heap[..]), heap[..], Live(blocks) - {blocks[i]})
      ensures Cell(nmem) + words <= heap.Length && Cell(rmem) + words <= heap.Length
      ensures heap[Cell(nmem)..Cell(nmem) + words] == old(heap[..])[Cell(rmem)..Cell(rmem) + words]
    {
      hide Tiles, Linked, FirstFree, Roomy, Merged;
      BlocksApart(blocks, end, i, j);
      EndApart(blocks, end, i);
      EndApart(blocks, end, j);
      Ordered(blocks, 0, end, i, i);
      Ordered(blocks, 0, end, j, j);
      ghost var h := heap[..];
      CopyWords(nmem, rmem, words);
      PayloadWrite(h, heap[..], blocks, i, pool, end);
    }

    lemma LivePlace(b: Block)
      requires Valid() && b in Live(blocks)
      ensures L.IsLive(State(), b.off) && blocks[L.IndexOf(blocks, b.off)] == b
      ensures Aligned(b.off) && Cell(b.off) + 4 <= Cell(b.off + b.size) <= heap.Length
    {
      L.LiveAt(State(), b);
      var i := L.IndexOf(blocks, b.off);
      EndApart(blocks, end, i);
      Ordered(blocks, 0, end, i, i);
      OffsetAligned(blocks, 0, end, i);
      AlignedSum(b.off, b.size);
      CellsApart(b.off, b.off + b.size);
    }

    // The first `bytes` bytes of one live block are copied into another.
    method CopyOver(nmem: nat, rmem: nat, bytes: nat, ghost nb: Block, ghost b: Block)
      requires Valid() && nb in Live(blocks) && b in Live(blocks) && nb.off != b.off
      requires nmem == nb.off + HEADER && rmem == b.off + HEADER && bytes <= Payload(nb) && bytes <= Payload(b)
      modifies heap
      ensures Valid()
      ensures KeepsBodies(old(heap[..]), heap[..], Live(blocks) - {nb})
      ensures SamePayload(old(heap[..]), rmem, heap[..], nmem, bytes)
    {
      hide Tiles, Linked, FirstFree, Roomy, Merged, KeepsBodies, Aligned;
      LivePlace(nb);
      LivePlace(b);
      CopyBlock(nmem, rmem, bytes / 4, L.IndexOf(blocks, nb.off), L.IndexOf(blocks, b.off));
    }

    // The payload is copied over and the old block given back.
    method CopyAndFree(nmem: nat, rmem: nat, bytes: nat, ghost nb: Block, ghost b: Block)
      requires Valid() && nb in Live(blocks) && b in Live(blocks) && nb.off != b.off
      requires nmem == nb.off + HEADER && rmem == b.off + HEADER && bytes <= Payload(nb) && bytes <= Payload(b)
      modifies this, heap
      ensures Valid()
      ensures old(L.IsLive(State(), b.off)) && State() == old(L.Free(State(), b.off))
      ensures KeepsBodies(old(heap[..]), heap[..], old(Live(blocks)) - {b, nb})
      ensures SamePayload(old(heap[..]), rmem, heap[..], nmem, bytes)
    {
      hide Tiles, Linked, FirstFree, Roomy, Merged, KeepsBodies, Aligned, Cell, SamePayload, L.Free, L.IndexOf, L.IsLive,
           Live, SmallMem.Valid;
      ghost var live, h1 := Live(blocks), heap[..];
      LivePlace(b);
      LivePlace(nb);
      OnlyOneFreed(b);
      CopyOver(nmem, rmem, bytes, nb, b);
      ghost var h2 := heap[..];
      Free(Some(rmem));
      MovedKept(h1, h2, heap[..], rmem, nb, b, bytes, live);
    }

    // Giving back a live block takes exactly that one from the live blocks.
    lemma OnlyOneFreed(b: Block)
      requires Valid() && b in Live(blocks)
      ensures L.IsLive(State(), b.off) && Live(L.Free(State(), b.off).blocks) == Live(blocks) - {b}
    {
      LivePlace(b);
      L.FreeKeeps(State(), b.off);
    }

    // The moving branch of a realloc: a new block, a copy, and the old block given back.
    method MoveBlock(rmem: nat, newsize: nat, size: nat) returns (p: Option<nat>)
      requires Valid() && rmem >= HEADER && L.IsLive(State(), rmem - HEADER)
      requires newsize > 0 && newsize <= Rounded(newsize) && size == Payload(blocks[L.IndexOf(blocks, rmem - HEADER)])
      modifies this, heap
      ensures Valid()
      ensures State() == old(L.Move(State(), rmem - HEADER, newsize).0)
      ensures p == PayloadAt(old(L.Move(State(), rmem - HEADER, newsize).1))
      ensures var b := old(blocks[L.IndexOf(blocks, rmem - HEADER)]);
        && KeepsBodies(old(heap[..]), heap[..], old(Live(blocks)) - (if p == None then {} else {b}))
        && (p.Some? ==> SamePayload(old(heap[..]), rmem, heap[..], p.value, if size < newsize then size else newsize))
    {
      hide Tiles, Linked, FirstFree, Roomy, Merged, KeepsBodies, Aligned, SamePayload, Rounded, Cell, L.Alloc, L.Free, L.IndexOf, Live;
      ghost var s0, h0 := State(), heap[..];
      ghost var b := blocks[L.IndexOf(blocks, rmem - HEADER)];
      L.IndexedIsLive(s0, rmem - HEADER);
      LivePlace(b);
      p := Alloc(newsize);
      ghost var h1 := heap[..];
      assert Live(s0.blocks) - {} == Live(s0.blocks);
      if p.Some? {
        ghost var nb := L.MoveLive(s0, rmem - HEADER, newsize);
        var bytes := if size < newsize then size else newsize;
        CopyAndFree(p.value, rmem, bytes, nb, b);
        SourceKept(h0, h1, heap[..], b, p.value, bytes, Live(s0.blocks));
        KeepsLess(h0, h1, Live(s0.blocks), Live(s0.blocks) - {b});
        KeepsTrans(h0, h1, heap[..], Live(s0.blocks) - {b}, Live(s0.blocks) + {nb} - {b, nb});
      }
    }

    // The block a payload pointer belongs to.
    ghost function BlockOf(rmem: nat): Block
      requires rmem >= HEADER && L.IsLive(State(), rmem - HEADER)
      reads this
    {
      blocks[L.IndexOf(blocks, rmem - HEADER)]
    }

    // The three ways to give a live block another size: leave it, cut it in place, move it.
    method Resize(rmem: nat, newsize: nat) returns (p: Option<nat>)
      requires Valid() && rmem >= HEADER && L.IsLive(State(), rmem - HEADER)
      requires newsize > 0 && Aligned(newsize) && newsize + HEADER <= end && newsize == AlignUp(newsize)
      modifies this, heap
      ensures Valid()
      ensures State() == old(L.Realloc(State(), Some(rmem - HEADER), newsize).0)
      ensures p == PayloadAt(old(L.Realloc(State(), Some(rmem - HEADER), newsize).1))
      ensures KeepsBodies(old(heap[..]), heap[..], old(Live(blocks) - {BlockOf(rmem)}))
      ensures p.Some? ==>
        var size := old(Payload(BlockOf(rmem)));
        SamePayload(old(heap[..]), rmem, heap[..], p.value, if size < newsize then size else newsize)
      ensures p == None ==> State() == old(State()) && KeepsBodies(old(heap[..]), heap[..], Live(blocks))
    {
      hide Tiles, Linked, FirstFree, WellFormed, Aligned, KeepsBodies, SamePayload, Cell, AlignUp, L.Move, Live, ShrinkAt, L.Free, L.Alloc;
      var mem := rmem - HEADER;
      ghost var i := L.IndexOf(blocks, mem);
      ghost var live, h := Live(blocks), heap[..];
      ghost var b := BlockOf(rmem);
      L.IndexedIsLive(State(), mem);
      ReadHeader(blocks, i);
      LivePlace(b);
      assert live - {} == live;
      var size := NextOf(mem) - mem - HEADER;
      if size == newsize {
        KeepsSelf(h, live - {b});
        SelfPayload(h, b, size);
        return Some(rmem);
      }
      if newsize + HEADER + MIN_SIZE < size {
        ShrinkBlock(mem, newsize, i);
        FrontPayload(h, heap[..], mem, newsize);
        return Some(rmem);
      }
      p := MoveBlock(rmem, newsize, size);
      if p == None {
        KeepsLess(h, heap[..], live, live - {b});
        L.MoveFails(old(State()), mem, newsize);
      }
    }

    // rt_smem_realloc
    method Realloc(rmem: Option<nat>, request: nat) returns (p: Option<nat>)
      requires Valid()
      requires rmem.Some? ==> rmem.value >= HEADER && L.IsLive(State(), rmem.value - HEADER)
      modifies this, heap
      ensures Valid()
      ensures State() == old(L.Realloc(State(), HeaderAt(rmem), request).0)
      ensures p == PayloadAt(old(L.Realloc(State(), HeaderAt(rmem), request).1))
      // no other live block is touched
      ensures KeepsBodies(old(heap[..]), heap[..], old(if rmem == None then Live(blocks) else Live(blocks) - {BlockOf(rmem.value)}))
      // the payload survives up to the smaller of the two sizes
      ensures rmem.Some? && p.Some? ==>
        var size := old(Payload(BlockOf(rmem.value))); var n := AlignUp(request);
        SamePayload(old(heap[..]), rmem.value, heap[..], p.value, if size < n then size else n)
      // a failed realloc to a non-zero size leaves everything as it was
      ensures p == None && AlignUp(request) != 0 ==>
        State() == old(State()) && KeepsBodies(old(heap[..]), heap[..], Live(blocks))
    {
      hide Tiles, Linked, FirstFree, Roomy, Merged, KeepsBodies, SamePayload, Cell, L.Move, L.Alloc, L.Free;
      var newsize := AlignUp(request);
      ghost var live, h := Live(blocks), heap[..];
      if newsize > end - HEADER {
        KeepsSelf(h, live);
        KeepsLess(h, h, live, if rmem == None then live else live - {BlockOf(rmem.value)});
        return None;
      }
      if newsize == 0 {
        if rmem.Some? { L.FreeKeeps(State(), rmem.value - HEADER); }
        Free(rmem);
        return None;
      }
      if rmem == None {
        L.AllocKeeps(State(), newsize);
        p := Alloc(newsize);
        return;
      }
      AlignUpTwice(request);
      p := Resize(rmem.value, newsize);
    }
  }
}
