/** The small-memory heap as a list of blocks: what allocating, shrinking and freeing a block does
    to the list, without headers, pointers or cached values (project/rt-thread/src/mem.c). */
module HeapModel {
  // Sizes in bytes of the 32-bit build: RT_ALIGN_SIZE, SIZEOF_STRUCT_MEM, MIN_SIZE, MIN_SIZE_ALIGNED.
  const ALIGN: nat := 8
  const HEADER: nat := 16
  const MIN_SIZE: nat := 12
  const MIN_SIZE_ALIGNED: nat := 16
  const WORDS: nat := 0x1_0000_0000

  /** A block: where its header starts, how far it is to the next header, whether it is in use. */
  datatype Block = Block(off: nat, size: nat, used: bool)

  // RT_ALIGN on 32-bit words, wrap-around included.
  function AlignUp(n: nat): (r: nat)
    ensures Aligned(r)
    ensures n + ALIGN <= WORDS ==> n <= r < n + ALIGN
  {
    var m := (n + ALIGN - 1) % WORDS;
    m - m % ALIGN
  }

  // Offset of the header behind block `i`; the last block ends at the end marker.
  function NextOff(bs: seq<Block>, i: nat, end: nat): nat {
    if i + 1 < |bs| then bs[i + 1].off else end
  }

  function PrevOff(bs: seq<Block>, i: nat): nat
    requires i < |bs|
  {
    if i == 0 then 0 else bs[i - 1].off
  }

  predicate Aligned(n: int) { n % ALIGN == 0 }

  // Block `i` ends where the next header starts.
  predicate Joins(bs: seq<Block>, i: nat, end: nat)
    requires i < |bs|
  {
    bs[i].off + bs[i].size == NextOff(bs, i, end)
  }

  // The blocks cover [start, end) without gap or overlap, on aligned offsets, and hold more than
  // their header.
  ghost predicate Tiles(bs: seq<Block>, start: nat, end: nat) {
    && start <= end && Aligned(start) && Aligned(end)
    && (bs == [] ==> start == end)
    && (bs != [] ==> bs[0].off == start)
    && (forall i :: 0 <= i < |bs| ==> Joins(bs, i, end))
    && (forall i :: 0 <= i < |bs| ==> Aligned(bs[i].size) && bs[i].size >= HEADER)
  }

  predicate Parted(bs: seq<Block>, i: nat)
    requires i + 1 < |bs|
  {
    bs[i].used || bs[i + 1].used
  }

  // Free neighbours are merged.
  ghost predicate Merged(bs: seq<Block>) {
    forall i :: 0 <= i < |bs| - 1 ==> Parted(bs, i)
  }

  // No block of a non-empty heap is smaller than one aligned unit of payload.
  ghost predicate Roomy(bs: seq<Block>, end: nat) {
    end > HEADER ==> forall i :: 0 <= i < |bs| ==> bs[i].size >= HEADER + ALIGN
  }

  ghost predicate WellFormed(bs: seq<Block>, end: nat) {
    Tiles(bs, 0, end) && Merged(bs) && Roomy(bs, end) && bs != []
  }

  function Payload(b: Block): int { b.size - HEADER }

  function Fresh(end: nat): seq<Block> { [Block(0, end, false)] }

  lemma FreshWellFormed(end: nat)
    requires end >= HEADER && Aligned(end)
    ensures WellFormed(Fresh(end), end)
  {
  }

  lemma AlignedSum(a: nat, b: nat)
    requires Aligned(a) && Aligned(b)
    ensures Aligned(a + b)
  {
  }

  /* ---------- order of the offsets ---------- */

  lemma {:induction false} Ordered(bs: seq<Block>, start: nat, end: nat, i: nat, j: nat)
    requires Tiles(bs, start, end) && i <= j < |bs|
    ensures i < j ==> bs[i].off + bs[i].size <= bs[j].off
    ensures i == j ==> bs[i].off <= bs[j].off
    ensures start <= bs[i].off && bs[j].off + bs[j].size <= end
    decreases j
  {
    if j > 0 {
      assert Joins(bs, j - 1, end);
      Ordered(bs, start, end, if i < j then i else j - 1, j - 1);
    }
    LastEnds(bs, start, end, j);
  }

  lemma {:induction false} OffsetAligned(bs: seq<Block>, start: nat, end: nat, i: nat)
    requires Tiles(bs, start, end) && i < |bs|
    ensures Aligned(bs[i].off)
  {
    if i > 0 {
      OffsetAligned(bs, start, end, i - 1);
      assert Joins(bs, i - 1, end);
    }
  }

  lemma {:induction false} LastEnds(bs: seq<Block>, start: nat, end: nat, j: nat)
    requires Tiles(bs, start, end) && j < |bs|
    ensures bs[j].off + bs[j].size <= end
    decreases |bs| - j
  {
    assert Joins(bs, j, end);
    if j + 1 < |bs| {
      LastEnds(bs, start, end, j + 1);
    }
  }

  lemma Tail(bs: seq<Block>, start: nat, end: nat)
    requires Tiles(bs, start, end) && bs != []
    ensures Tiles(bs[1..], start + bs[0].size, end)
    ensures Merged(bs) ==> Merged(bs[1..])
  {
    LastEnds(bs, start, end, 0);
    var tl := bs[1..];
    assert Joins(bs, 0, end);
    AlignedSum(start, bs[0].size);
    forall i | 0 <= i < |tl| ensures Joins(tl, i, end) {
      assert Joins(bs, i + 1, end);
    }
    if Merged(bs) {
      forall i | 0 <= i < |tl| - 1 ensures Parted(tl, i) {
        assert Parted(bs, i + 1);
      }
    }
  }

  /* ---------- the live blocks determine the list ---------- */

  ghost function Live(bs: seq<Block>): set<Block> {
    set i | 0 <= i < |bs| && bs[i].used :: bs[i]
  }

  lemma LiveTail(bs: seq<Block>, start: nat, end: nat)
    requires Tiles(bs, start, end) && bs != []
    ensures Live(bs[1..]) == Live(bs) - {bs[0]}
  {
    var tl := bs[1..];
    forall b ensures b in Live(tl) <==> b in Live(bs) && b != bs[0] {
      if b in Live(tl) {
        var i :| 0 <= i < |tl| && tl[i].used && tl[i] == b;
        assert bs[i + 1] == b;
        Ordered(bs, start, end, 0, i + 1);
      }
      if b in Live(bs) && b != bs[0] {
        var i :| 0 <= i < |bs| && bs[i].used && bs[i] == b;
        assert tl[i - 1] == b;
      }
    }
  }

  // A live block that starts where the list starts is its head.
  lemma LiveHead(bs: seq<Block>, start: nat, end: nat, b: Block)
    requires Tiles(bs, start, end) && b in Live(bs) && b.off == start
    ensures bs != [] && bs[0] == b
  {
    var i :| 0 <= i < |bs| && bs[i].used && bs[i] == b;
    if i > 0 {
      Ordered(bs, start, end, 0, i);
    }
  }

  // If the head is free, every live block lies at or behind the second block.
  lemma LiveBehind(bs: seq<Block>, start: nat, end: nat, b: Block)
    requires Tiles(bs, start, end) && b in Live(bs) && bs != [] && !bs[0].used
    ensures |bs| > 1 && bs[1].off <= b.off
  {
    var i :| 0 <= i < |bs| && bs[i].used && bs[i] == b;
    Ordered(bs, start, end, 1, i);
  }

  // Two merged tilings of the same range with the same live blocks are the same list: the free
  // blocks are exactly the gaps.
  lemma {:induction false} LiveDetermines(a: seq<Block>, b: seq<Block>, start: nat, end: nat)
    requires Tiles(a, start, end) && Tiles(b, start, end) && Merged(a) && Merged(b)
    requires Live(a) == Live(b)
    ensures a == b
    decreases |a|
  {
    hide Aligned;
    if a != [] && b != [] {
      if a[0].used || b[0].used {
        if a[0].used {
          assert a[0] in Live(a);
          LiveHead(b, start, end, a[0]);
        } else {
          assert b[0] in Live(b);
          LiveHead(a, start, end, b[0]);
        }
      } else {
        SameGap(a, b, start, end);
      }
      assert a[0] == b[0];
      Tail(a, start, end);
      Tail(b, start, end);
      LiveTail(a, start, end);
      LiveTail(b, start, end);
      LiveDetermines(a[1..], b[1..], start + a[0].size, end);
      assert a == [a[0]] + a[1..] && b == [b[0]] + b[1..];
    } else if a != [] {
      Ordered(a, start, end, 0, 0);
    } else if b != [] {
      Ordered(b, start, end, 0, 0);
    }
  }

  lemma SameGap(a: seq<Block>, b: seq<Block>, start: nat, end: nat)
    requires Tiles(a, start, end) && Tiles(b, start, end) && Merged(a) && Merged(b)
    requires a != [] && b != [] && !a[0].used && !b[0].used && Live(a) == Live(b)
    ensures a[0] == b[0]
  {
    assert Joins(a, 0, end);
    assert Joins(b, 0, end);
    if |a| > 1 {
      assert Parted(a, 0);
      assert a[1] in Live(a);
      LiveBehind(b, start, end, a[1]);
    }
    if |b| > 1 {
      assert Parted(b, 0);
      assert b[1] in Live(b);
      LiveBehind(a, start, end, b[1]);
    }
  }
}
