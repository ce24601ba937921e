/** Allocation, shrinking and freeing on the block list, and what each of them keeps. */
module HeapOps {
  import opened HeapModel

  /* ---------- splitting and merging ---------- */

  // Block `i` is cut after `n` bytes of payload; the rest becomes a free block.
  function Split(bs: seq<Block>, i: nat, n: nat): seq<Block>
    requires i < |bs| && bs[i].size >= HEADER + n
  {
    bs[..i] + [Block(bs[i].off, HEADER + n, true), Block(bs[i].off + HEADER + n, bs[i].size - HEADER - n, false)] + bs[i + 1..]
  }

  function Mark(bs: seq<Block>, i: nat, used: bool): seq<Block>
    requires i < |bs|
  {
    bs[i := bs[i].(used := used)]
  }

  // Free block `i` swallows a free successor.
  function MergeNext(bs: seq<Block>, i: nat): seq<Block>
    requires i < |bs|
  {
    if i + 1 < |bs| && !bs[i].used && !bs[i + 1].used
    then bs[..i] + [Block(bs[i].off, bs[i].size + bs[i + 1].size, false)] + bs[i + 2..]
    else bs
  }

  // Free block `i` merges with its free neighbours on both sides.
  function Coalesce(bs: seq<Block>, i: nat): seq<Block>
    requires i < |bs|
  {
    var a := MergeNext(bs, i);
    if i > 0 then MergeNext(a, i - 1) else a
  }

  // Everybody but block `i` is merged with its neighbours.
  ghost predicate MergedBut(bs: seq<Block>, i: nat) {
    forall k :: 0 <= k < |bs| - 1 && k != i && k + 1 != i ==> Parted(bs, k)
  }

  lemma SplitIndex(bs: seq<Block>, i: nat, n: nat)
    requires i < |bs| && bs[i].size >= HEADER + n
    ensures var r := Split(bs, i, n);
      && |r| == |bs| + 1
      && r[i] == Block(bs[i].off, HEADER + n, true)
      && r[i + 1] == Block(bs[i].off + HEADER + n, bs[i].size - HEADER - n, false)
      && (forall k :: 0 <= k < i ==> r[k] == bs[k])
      && (forall k :: i + 1 < k < |r| ==> r[k] == bs[k - 1])
  {
  }

  lemma SplitTiles(bs: seq<Block>, i: nat, n: nat, end: nat)
    requires Tiles(bs, 0, end) && i < |bs| && Aligned(n) && bs[i].size >= 2 * HEADER + n
    ensures Tiles(Split(bs, i, n), 0, end)
  {
    SplitIndex(bs, i, n);
    AlignedSum(HEADER, n);
    assert Aligned(bs[i].size - HEADER - n);
    hide Aligned, Split;
    var r := Split(bs, i, n);
    forall k | 0 <= k < |r| ensures Joins(r, k, end) {
      if k < i {
        assert Joins(bs, k, end);
      } else if k > i {
        assert Joins(bs, k - 1, end);
      }
    }
    forall k | 0 <= k < |r| ensures Aligned(r[k].size) && r[k].size >= HEADER {
      if k > i + 1 { assert Aligned(bs[k - 1].size); }
    }
  }

  lemma MergeNextIndex(bs: seq<Block>, i: nat)
    requires i < |bs|
    ensures var r := MergeNext(bs, i);
      if i + 1 < |bs| && !bs[i].used && !bs[i + 1].used
      then |r| == |bs| - 1 && r[i] == Block(bs[i].off, bs[i].size + bs[i + 1].size, false) &&
           (forall k :: 0 <= k < i ==> r[k] == bs[k]) && (forall k :: i < k < |r| ==> r[k] == bs[k + 1])
      else r == bs
  {
    if i + 1 < |bs| && !bs[i].used && !bs[i + 1].used {
      var x := Block(bs[i].off, bs[i].size + bs[i + 1].size, false);
      var r := bs[..i] + [x] + bs[i + 2..];
      assert r[i] == x && forall k :: i < k < |r| ==> r[k] == bs[i + 2..][k - i - 1];
    }
  }

  lemma MergeNextTiles(bs: seq<Block>, i: nat, end: nat)
    requires Tiles(bs, 0, end) && i < |bs|
    ensures Tiles(MergeNext(bs, i), 0, end)
  {
    MergeNextIndex(bs, i);
    var r := MergeNext(bs, i);
    if i + 1 < |bs| && !bs[i].used && !bs[i + 1].used {
      AlignedSum(bs[i].size, bs[i + 1].size);
      hide Aligned, MergeNext;
      assert Joins(bs, i, end);
      forall k | 0 <= k < |r| ensures Joins(r, k, end) {
        var q := if k < i then k else k + 1;
        assert Joins(bs, q, end);
      }
    }
  }

  // A merge at `i` settles the pair (i, i + 1) and disturbs no other.
  lemma MergeNextSettles(bs: seq<Block>, i: nat, k: nat)
    requires i < |bs| && k + 1 < |MergeNext(bs, i)|
    requires MergedBut(bs, i)
    requires !bs[i].used && k + 1 != i
    ensures var a := MergeNext(bs, i); Parted(a, k)
  {
    MergeNextIndex(bs, i);
    hide MergeNext;
    var a := MergeNext(bs, i);
    if a == bs {
      if k != i { assert Parted(bs, k); }
    } else if k >= i {
      assert Parted(bs, k + 1);
    } else {
      assert Parted(bs, k);
    }
  }

  lemma MergeNextRoomy(bs: seq<Block>, i: nat, end: nat)
    requires i < |bs| && Roomy(bs, end)
    ensures Roomy(MergeNext(bs, i), end)
  {
    MergeNextIndex(bs, i);
  }

  lemma CoalesceWellFormed(bs: seq<Block>, i: nat, end: nat)
    requires Tiles(bs, 0, end) && Roomy(bs, end) && i < |bs| && !bs[i].used && MergedBut(bs, i)
    ensures WellFormed(Coalesce(bs, i), end)
  {
    MergeNextTiles(bs, i, end);
    MergeNextRoomy(bs, i, end);
    MergeNextIndex(bs, i);
    var a := MergeNext(bs, i);
    hide Tiles, Roomy, MergeNext;
    forall k | 0 <= k < |a| - 1 && k + 1 != i ensures Parted(a, k) {
      MergeNextSettles(bs, i, k);
    }
    if i > 0 {
      MergeNextTiles(a, i - 1, end);
      MergeNextRoomy(a, i - 1, end);
      MergeNextIndex(a, i - 1);
      var r := MergeNext(a, i - 1);
      forall k | 0 <= k < |r| - 1 ensures Parted(r, k) {
        if a[i - 1].used {
          assert r == a;
          if k + 1 != i { assert Parted(a, k); }
        } else if k >= i - 1 {
          assert Parted(a, k + 1);
        } else {
          assert Parted(a, k);
        }
      }
    }
  }

  lemma LiveCut(bs: seq<Block>, i: nat, mid: seq<Block>, j: nat)
    requires i <= j <= |bs|
    ensures Live(bs[..i] + mid + bs[j..]) == Live(bs[..i]) + Live(mid) + Live(bs[j..])
  {
    LiveConcat(bs[..i] + mid, bs[j..]);
    LiveConcat(bs[..i], mid);
  }

  lemma LiveConcat(a: seq<Block>, b: seq<Block>)
    ensures Live(a + b) == Live(a) + Live(b)
  {
    var s := a + b;
    forall x ensures x in Live(s) <==> x in Live(a) || x in Live(b) {
      if x in Live(a) {
        var k :| 0 <= k < |a| && a[k].used && a[k] == x;
        assert s[k] == x;
      }
      if x in Live(b) {
        var k :| 0 <= k < |b| && b[k].used && b[k] == x;
        assert s[|a| + k] == x;
      }
    }
  }

  lemma LiveOne(b: Block)
    ensures Live([b]) == if b.used then {b} else {}
  {
    if b.used { assert [b][0] == b; }
  }

  lemma LiveMergeNext(bs: seq<Block>, i: nat)
    requires i < |bs|
    ensures Live(MergeNext(bs, i)) == Live(bs)
  {
    var r := MergeNext(bs, i);
    if r != bs {
      LiveCut(bs, i, [r[i]], i + 2);
      LiveOne(r[i]);
      LiveCut(bs, i, [bs[i]] + [bs[i + 1]], i + 2);
      LiveConcat([bs[i]], [bs[i + 1]]);
      LiveOne(bs[i]);
      LiveOne(bs[i + 1]);
      assert bs == bs[..i] + ([bs[i]] + [bs[i + 1]]) + bs[i + 2..];
    }
  }

  lemma LiveCoalesce(bs: seq<Block>, i: nat)
    requires i < |bs|
    ensures Live(Coalesce(bs, i)) == Live(bs)
  {
    LiveMergeNext(bs, i);
    if i > 0 { LiveMergeNext(MergeNext(bs, i), i - 1); }
  }

  lemma LiveSplit(bs: seq<Block>, i: nat, n: nat, start: nat, end: nat)
    requires Tiles(bs, start, end) && i < |bs| && bs[i].size >= HEADER + n
    ensures Live(Split(bs, i, n)) == Live(bs) - {bs[i]} + {Block(bs[i].off, HEADER + n, true)}
  {
    var b := Block(bs[i].off, HEADER + n, true);
    var f := Block(bs[i].off + HEADER + n, bs[i].size - HEADER - n, false);
    LiveCut(bs, i, [b, f], i + 1);
    assert [b, f] == [b] + [f];
    LiveConcat([b], [f]);
    LiveOne(b);
    LiveOne(f);
    LiveWithout(bs, i, start, end);
  }

  // Taking block `i` out of the list takes it out of the live blocks and nothing else.
  lemma LiveWithout(bs: seq<Block>, i: nat, start: nat, end: nat)
    requires Tiles(bs, start, end) && i < |bs|
    ensures Live(bs[..i]) + Live(bs[i + 1..]) == Live(bs) - {bs[i]}
  {
    assert bs == bs[..i] + [bs[i]] + bs[i + 1..];
    LiveCut(bs, i, [bs[i]], i + 1);
    LiveOne(bs[i]);
    forall k | 0 <= k < |bs| && k != i ensures bs[k] != bs[i] {
      if k < i { Ordered(bs, start, end, k, i); } else { Ordered(bs, start, end, i, k); }
    }
    hide Tiles;
    assert bs[i] !in Live(bs[..i]);
    assert bs[i] !in Live(bs[i + 1..]);
  }

  lemma LiveMark(bs: seq<Block>, i: nat, used: bool, start: nat, end: nat)
    requires Tiles(bs, start, end) && i < |bs|
    ensures Live(Mark(bs, i, used)) == Live(bs) - {bs[i]} + (if used then {bs[i].(used := true)} else {})
  {
    var b := bs[i].(used := used);
    assert Mark(bs, i, used) == bs[..i] + [b] + bs[i + 1..];
    LiveCut(bs, i, [b], i + 1);
    LiveOne(b);
    LiveWithout(bs, i, start, end);
  }

  /* ---------- allocation ---------- */

  // The size a request is served with.
  function Rounded(request: nat): (r: nat)
    ensures Aligned(r) && r >= MIN_SIZE_ALIGNED
  {
    var n := AlignUp(request);
    if n < MIN_SIZE_ALIGNED then MIN_SIZE_ALIGNED else n
  }

  predicate Fits(b: Block, n: nat) { !b.used && b.size >= HEADER + n }

  // The first block that is free and large enough, or |bs|.
  function FirstFit(bs: seq<Block>, n: nat): (r: nat)
    ensures r <= |bs|
    ensures r < |bs| ==> Fits(bs[r], n)
    ensures forall i :: 0 <= i < r ==> !Fits(bs[i], n)
  {
    if bs == [] then 0
    else if Fits(bs[0], n) then 0
    else
      assert forall i :: 1 <= i < |bs| ==> bs[i] == bs[1..][i - 1];
      1 + FirstFit(bs[1..], n)
  }

  function AllocAt(bs: seq<Block>, i: nat, n: nat): seq<Block>
    requires i < |bs| && Fits(bs[i], n)
  {
    if bs[i].size >= HEADER + n + HEADER + MIN_SIZE_ALIGNED then Split(bs, i, n) else Mark(bs, i, true)
  }

  // Extent of the block an allocation hands out.
  function Granted(b: Block, n: nat): nat {
    if b.size >= HEADER + n + HEADER + MIN_SIZE_ALIGNED then HEADER + n else b.size
  }

  lemma AllocWellFormed(bs: seq<Block>, i: nat, n: nat, end: nat)
    requires WellFormed(bs, end) && i < |bs| && Fits(bs[i], n) && Aligned(n) && n >= MIN_SIZE_ALIGNED
    ensures WellFormed(AllocAt(bs, i, n), end)
  {
    if bs[i].size >= HEADER + n + HEADER + MIN_SIZE_ALIGNED {
      SplitTiles(bs, i, n, end);
      hide Tiles, Aligned;
      SplitMerged(bs, i, n);
    } else {
      MarkTiles(bs, i, true, end);
      hide Tiles, Aligned;
      var r := Mark(bs, i, true);
      forall k | 0 <= k < |r| - 1 ensures Parted(r, k) {
        assert Parted(bs, k);
      }
    }
  }

  lemma SplitMerged(bs: seq<Block>, i: nat, n: nat)
    requires Merged(bs) && i < |bs| && !bs[i].used && bs[i].size >= HEADER + n
    ensures Merged(Split(bs, i, n))
  {
    var r := Split(bs, i, n);
    SplitIndex(bs, i, n);
    forall k | 0 <= k < |r| - 1 ensures Parted(r, k) {
      if k + 1 < i {
        assert Parted(bs, k);
      } else if k == i + 1 {
        assert Parted(bs, i);
      } else if k > i + 1 {
        assert Parted(bs, k - 1);
      }
    }
  }

  lemma MarkTiles(bs: seq<Block>, i: nat, used: bool, end: nat)
    requires Tiles(bs, 0, end) && i < |bs|
    ensures Tiles(Mark(bs, i, used), 0, end)
  {
    var r := Mark(bs, i, used);
    forall k | 0 <= k < |r| ensures Joins(r, k, end) {
      assert Joins(bs, k, end);
    }
  }

  lemma AllocLive(bs: seq<Block>, i: nat, n: nat, end: nat)
    requires WellFormed(bs, end) && i < |bs| && Fits(bs[i], n)
    ensures Live(AllocAt(bs, i, n)) == Live(bs) + {Block(bs[i].off, Granted(bs[i], n), true)}
    ensures Block(bs[i].off, Granted(bs[i], n), true) !in Live(bs)
  {
    if bs[i].size >= HEADER + n + HEADER + MIN_SIZE_ALIGNED {
      LiveSplit(bs, i, n, 0, end);
    } else {
      LiveMark(bs, i, true, 0, end);
    }
    NotLive(bs, i, 0, end);
  }

  // No live block starts where a free one does.
  lemma NotLive(bs: seq<Block>, i: nat, start: nat, end: nat)
    requires Tiles(bs, start, end) && i < |bs| && !bs[i].used
    ensures forall b :: b in Live(bs) ==> b.off != bs[i].off
  {
    forall b | b in Live(bs) ensures b.off != bs[i].off {
      var k :| 0 <= k < |bs| && bs[k].used && bs[k] == b;
      if k < i { Ordered(bs, start, end, k, i); } else { Ordered(bs, start, end, i, k); }
    }
  }

  /* ---------- free ---------- */

  function FreeAt(bs: seq<Block>, i: nat): seq<Block>
    requires i < |bs|
  {
    Coalesce(Mark(bs, i, false), i)
  }

  lemma FreeWellFormed(bs: seq<Block>, i: nat, end: nat)
    requires WellFormed(bs, end) && i < |bs|
    ensures WellFormed(FreeAt(bs, i), end)
  {
    var m := Mark(bs, i, false);
    MarkTiles(bs, i, false, end);
    forall k | 0 <= k < |m| - 1 && k != i && k + 1 != i ensures Parted(m, k) {
      assert Parted(bs, k);
    }
    CoalesceWellFormed(m, i, end);
  }

  lemma FreeLive(bs: seq<Block>, i: nat, end: nat)
    requires WellFormed(bs, end) && i < |bs|
    ensures Live(FreeAt(bs, i)) == Live(bs) - {bs[i]}
  {
    LiveMark(bs, i, false, 0, end);
    LiveCoalesce(Mark(bs, i, false), i);
  }

  /* ---------- shrinking in place ---------- */

  function ShrinkAt(bs: seq<Block>, i: nat, n: nat): seq<Block>
    requires i < |bs| && bs[i].size >= HEADER + n
  {
    Coalesce(Split(bs, i, n), i + 1)
  }

  lemma ShrinkWellFormed(bs: seq<Block>, i: nat, n: nat, end: nat)
    requires WellFormed(bs, end) && i < |bs| && bs[i].used && Aligned(n) && n >= ALIGN
    requires n + HEADER + MIN_SIZE < bs[i].size - HEADER
    ensures WellFormed(ShrinkAt(bs, i, n), end)
  {
    SplitTiles(bs, i, n, end);
    var r := Split(bs, i, n);
    SplitIndex(bs, i, n);
    hide Tiles, Split, Aligned;
    forall k | 0 <= k < |r| - 1 && k != i + 1 && k + 1 != i + 1 ensures Parted(r, k) {
      if k < i { assert Parted(bs, k); } else { assert Parted(bs, k - 1); }
    }
    CoalesceWellFormed(r, i + 1, end);
  }

  lemma ShrinkLive(bs: seq<Block>, i: nat, n: nat, end: nat)
    requires WellFormed(bs, end) && i < |bs| && bs[i].size >= HEADER + n
    ensures Live(ShrinkAt(bs, i, n)) == Live(bs) - {bs[i]} + {Block(bs[i].off, HEADER + n, true)}
  {
    LiveSplit(bs, i, n, 0, end);
    LiveCoalesce(Split(bs, i, n), i + 1);
  }
}
