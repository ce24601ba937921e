/** How the block list is laid down in memory: each header is three words, the owner tag, the offset
    of the next header and that of the previous one, written into the same words the payloads use. */
module HeapWords {
  import opened HeapModel
  import opened HeapOps

  type word = x: int | 0 <= x < WORDS witness 0

  // Index of the word at an aligned byte offset.
  function Cell(o: nat): nat { o / 4 }

  lemma CellsApart(a: nat, b: nat)
    requires Aligned(a) && Aligned(b) && a + HEADER <= b
    ensures Cell(a) + 4 <= Cell(b)
  {
  }

  // The words of the header at `o`.  The lowest bit of the tag says that the block is in use.
  ghost predicate HeaderIs(h: seq<word>, o: nat, tag: int, next: nat, prev: nat) {
    && Cell(o) + 3 < |h|
    && h[Cell(o)] == tag && h[Cell(o) + 1] == next && h[Cell(o) + 2] == prev
  }

  function Tag(pool: nat, used: bool): nat { if used then pool + 1 else pool }

  ghost predicate Linked(h: seq<word>, bs: seq<Block>, pool: nat, end: nat) {
    && |h| == Cell(end) + 4
    && Tiles(bs, 0, end)
    && (forall k :: 0 <= k < |bs| ==> LinkedAt(h, bs, k, pool, end))
    && h[Cell(end)] == pool + 1 && h[Cell(end) + 1] == end
  }

  ghost predicate LinkedAt(h: seq<word>, bs: seq<Block>, k: nat, pool: nat, end: nat)
    requires k < |bs|
  {
    HeaderIs(h, bs[k].off, Tag(pool, bs[k].used), NextOff(bs, k, end), PrevOff(bs, k))
  }

  // Headers of different blocks, and the end marker, lie in different words.
  lemma HeadersApart(bs: seq<Block>, end: nat, i: nat, j: nat)
    requires Tiles(bs, 0, end) && i < j < |bs|
    ensures Cell(bs[i].off) + 4 <= Cell(bs[j].off)
  {
    Ordered(bs, 0, end, i, j);
    OffsetAligned(bs, 0, end, i);
    OffsetAligned(bs, 0, end, j);
    CellsApart(bs[i].off, bs[j].off);
  }

  lemma EndApart(bs: seq<Block>, end: nat, i: nat)
    requires Tiles(bs, 0, end) && i < |bs|
    ensures Cell(bs[i].off) + 4 <= Cell(end)
  {
    Ordered(bs, 0, end, i, i);
    OffsetAligned(bs, 0, end, i);
    CellsApart(bs[i].off, end);
  }

  // Changing the use of a block is a write to its tag.
  lemma LinkMark(h: seq<word>, bs: seq<Block>, i: nat, used: bool, pool: nat, end: nat)
    requires Linked(h, bs, pool, end) && i < |bs| && pool + 1 < WORDS
    ensures Cell(bs[i].off) < |h|
    ensures Linked(h[Cell(bs[i].off) := Tag(pool, used)], Mark(bs, i, used), pool, end)
  {
    EndApart(bs, end, i);
    MarkTiles(bs, i, used, end);
    var r := Mark(bs, i, used);
    var h' := h[Cell(bs[i].off) := Tag(pool, used)];
    hide Cell, Tiles;
    forall k | 0 <= k < |r| ensures LinkedAt(h', r, k, pool, end) {
      assert LinkedAt(h, bs, k, pool, end);
      if k < i { HeadersApart(bs, end, k, i); }
      if i < k { HeadersApart(bs, end, i, k); }
    }
  }

  // The writes of a split: a header inside block `i`, and the links around it.
  function SplitWords(h: seq<word>, o: nat, o2: nat, next: nat, pool: nat, end: nat): (r: seq<word>)
    requires Cell(o) + 1 < |h| && Cell(o2) + 2 < |h| && Cell(next) + 2 < |h|
    requires o < WORDS && o2 < WORDS && next < WORDS && pool + 1 < WORDS
    ensures |r| == |h|
  {
    var a: seq<word> := h[Cell(o2) := pool][Cell(o2) + 1 := next][Cell(o2) + 2 := o][Cell(o) + 1 := o2];
    var b: seq<word> := if next != end then a[Cell(next) + 2 := o2] else a;
    b[Cell(o) := pool + 1]
  }

  // Where a split writes: the two headers and the back link of the one behind.
  lemma SplitWordsElsewhere(h: seq<word>, o: nat, o2: nat, next: nat, pool: nat, end: nat, c: nat)
    requires Cell(o) + 1 < |h| && Cell(o2) + 2 < |h| && Cell(next) + 2 < |h| && c < |h|
    requires o < WORDS && o2 < WORDS && next < WORDS && pool + 1 < WORDS
    requires c != Cell(o) && c != Cell(o) + 1 && !(Cell(o2) <= c <= Cell(o2) + 2) && (next != end ==> c != Cell(next) + 2)
    ensures SplitWords(h, o, o2, next, pool, end)[c] == h[c]
  {
  }

  lemma SplitPlaces(bs: seq<Block>, i: nat, n: nat, end: nat)
    requires Tiles(bs, 0, end) && i < |bs| && Aligned(n) && bs[i].size >= 2 * HEADER + n
    ensures var o := bs[i].off; var o2 := o + HEADER + n; var next := NextOff(bs, i, end);
      && Cell(o) + 4 <= Cell(o2) && Cell(o2) + 4 <= Cell(next) && Cell(next) <= Cell(end) && o2 < end && next <= end
      && (next != end ==> Cell(next) + 4 <= Cell(end))
      && (i + 1 == |bs| <==> next == end)
  {
    SplitTiles(bs, i, n, end);
    SplitIndex(bs, i, n);
    var r := Split(bs, i, n);
    HeadersApart(r, end, i, i + 1);
    EndApart(r, end, i + 1);
    Ordered(r, 0, end, i + 1, i + 1);
    if i + 1 < |bs| {
      HeadersApart(r, end, i + 1, i + 2);
      EndApart(r, end, i + 2);
      Ordered(r, 0, end, i + 2, i + 2);
    }
  }

  lemma SplitBelow(h: seq<word>, bs: seq<Block>, i: nat, n: nat, pool: nat, end: nat, k: nat)
    requires Linked(h, bs, pool, end) && k < i < |bs| && Aligned(n) && bs[i].size >= 2 * HEADER + n
    requires end < WORDS && pool + 1 < WORDS
    ensures var o := bs[i].off; var o2 := o + HEADER + n; var next := NextOff(bs, i, end);
      && Cell(o2) + 3 < |h| && Cell(next) + 3 < |h| && o2 < end && next <= end
      && LinkedAt(SplitWords(h, o, o2, next, pool, end), Split(bs, i, n), k, pool, end)
  {
    SplitPlaces(bs, i, n, end);
    SplitIndex(bs, i, n);
    HeadersApart(bs, end, k, i);
    assert LinkedAt(h, bs, k, pool, end);
    hide Cell, Tiles, Split;
    var o, o2, next := bs[i].off, bs[i].off + HEADER + n, NextOff(bs, i, end);
    var c := Cell(bs[k].off);
    SplitWordsElsewhere(h, o, o2, next, pool, end, c);
    SplitWordsElsewhere(h, o, o2, next, pool, end, c + 1);
    SplitWordsElsewhere(h, o, o2, next, pool, end, c + 2);
  }

  lemma SplitPair(h: seq<word>, bs: seq<Block>, i: nat, n: nat, pool: nat, end: nat)
    requires Linked(h, bs, pool, end) && i < |bs| && Aligned(n) && bs[i].size >= 2 * HEADER + n
    requires end < WORDS && pool + 1 < WORDS
    ensures var o := bs[i].off; var o2 := o + HEADER + n; var next := NextOff(bs, i, end); var r := Split(bs, i, n);
      && Cell(o2) + 3 < |h| && Cell(next) + 3 < |h| && o2 < end && next <= end
      && var h' := SplitWords(h, o, o2, next, pool, end);
      |r| > i + 1 && LinkedAt(h', r, i, pool, end) && LinkedAt(h', r, i + 1, pool, end)
  {
    SplitPlaces(bs, i, n, end);
    SplitIndex(bs, i, n);
    assert LinkedAt(h, bs, i, pool, end);
    hide Cell, Tiles, Split;
  }

  lemma SplitAbove(h: seq<word>, bs: seq<Block>, i: nat, n: nat, pool: nat, end: nat, k: nat)
    requires Linked(h, bs, pool, end) && i < k < |bs| && Aligned(n) && bs[i].size >= 2 * HEADER + n
    requires end < WORDS && pool + 1 < WORDS
    ensures var o := bs[i].off; var o2 := o + HEADER + n; var next := NextOff(bs, i, end); var r := Split(bs, i, n);
      && Cell(o2) + 3 < |h| && Cell(next) + 3 < |h| && o2 < end && next <= end
      && |r| > k + 1 && LinkedAt(SplitWords(h, o, o2, next, pool, end), r, k + 1, pool, end)
  {
    SplitPlaces(bs, i, n, end);
    SplitIndex(bs, i, n);
    EndApart(bs, end, k);
    if k > i + 1 { HeadersApart(bs, end, i + 1, k); }
    assert LinkedAt(h, bs, k, pool, end);
    hide Cell, Tiles, Split;
    var o, o2, next := bs[i].off, bs[i].off + HEADER + n, NextOff(bs, i, end);
    var c := Cell(bs[k].off);
    SplitWordsElsewhere(h, o, o2, next, pool, end, c);
    SplitWordsElsewhere(h, o, o2, next, pool, end, c + 1);
    if k > i + 1 { SplitWordsElsewhere(h, o, o2, next, pool, end, c + 2); }
  }

  lemma LinkSplit(h: seq<word>, bs: seq<Block>, i: nat, n: nat, pool: nat, end: nat)
    requires Linked(h, bs, pool, end) && i < |bs| && Aligned(n) && bs[i].size >= 2 * HEADER + n
    requires end < WORDS && pool + 1 < WORDS
    ensures var o := bs[i].off; var o2 := o + HEADER + n; var next := NextOff(bs, i, end);
      && Cell(o) + 3 < |h| && Cell(o2) + 3 < |h| && Cell(next) + 3 < |h| && o2 < end && next <= end
      && Linked(SplitWords(h, o, o2, next, pool, end), Split(bs, i, n), pool, end)
  {
    hide Cell, Tiles, Split, SplitWords;
    SplitPlaces(bs, i, n, end);
    SplitTiles(bs, i, n, end);
    SplitIndex(bs, i, n);
    var o, o2, next := bs[i].off, bs[i].off + HEADER + n, NextOff(bs, i, end);
    var r := Split(bs, i, n);
    var h' := SplitWords(h, o, o2, next, pool, end);
    SplitPair(h, bs, i, n, pool, end);
    forall k | 0 <= k < |r| ensures LinkedAt(h', r, k, pool, end) {
      if k < i {
        SplitBelow(h, bs, i, n, pool, end, k);
      } else if k > i + 1 {
        SplitAbove(h, bs, i, n, pool, end, k - 1);
      }
    }
    SplitWordsElsewhere(h, o, o2, next, pool, end, Cell(end));
    SplitWordsElsewhere(h, o, o2, next, pool, end, Cell(end) + 1);
  }

  // The writes of a merge of the header at `o` with the one at `o1` behind it.
  function MergeWords(h: seq<word>, o: nat, o1: nat, next: nat): (r: seq<word>)
    requires Cell(o) + 1 < |h| && Cell(o1) < |h| && Cell(next) + 2 < |h| && o < WORDS && next < WORDS
    ensures |r| == |h|
  {
    h[Cell(o1) := 0][Cell(o) + 1 := next][Cell(next) + 2 := o]
  }

  lemma MergePlaces(bs: seq<Block>, i: nat, end: nat)
    requires Tiles(bs, 0, end) && i + 1 < |bs|
    ensures var o := bs[i].off; var o1 := bs[i + 1].off; var next := NextOff(bs, i + 1, end);
      && Cell(o) + 4 <= Cell(o1) && Cell(o1) + 4 <= Cell(next) && Cell(next) <= Cell(end) && o1 < end && next <= end
      && (i + 2 < |bs| ==> Cell(next) + 4 <= Cell(end))
  {
    HeadersApart(bs, end, i, i + 1);
    EndApart(bs, end, i + 1);
    Ordered(bs, 0, end, i, i + 1);
    if i + 2 < |bs| {
      HeadersApart(bs, end, i + 1, i + 2);
      EndApart(bs, end, i + 2);
      Ordered(bs, 0, end, i + 2, i + 2);
    }
  }

  lemma MergeAt(h: seq<word>, bs: seq<Block>, i: nat, pool: nat, end: nat, k: nat)
    requires Linked(h, bs, pool, end) && i + 1 < |bs| && !bs[i].used && !bs[i + 1].used && end < WORDS
    requires k < |MergeNext(bs, i)|
    ensures var o := bs[i].off; var o1 := bs[i + 1].off; var next := NextOff(bs, i + 1, end);
      && Cell(o1) + 3 < |h| && Cell(next) + 3 < |h| && Cell(o) + 3 < |h| && o1 < end && next <= end && o < end
      && LinkedAt(MergeWords(h, o, o1, next), MergeNext(bs, i), k, pool, end)
  {
    hide Tiles, MergeNext, Cell;
    MergePlaces(bs, i, end);
    MergeNextIndex(bs, i);
    Ordered(bs, 0, end, i, i + 1);
    var q := if k <= i then k else k + 1;
    assert LinkedAt(h, bs, q, pool, end);
    if k < i {
      HeadersApart(bs, end, k, i);
    } else if k == i {
      assert LinkedAt(h, bs, i + 1, pool, end);
    } else if k > i + 1 {
      HeadersApart(bs, end, i + 2, q);
    }
    EndApart(bs, end, q);
  }

  lemma LinkMerge(h: seq<word>, bs: seq<Block>, i: nat, pool: nat, end: nat)
    requires Linked(h, bs, pool, end) && i + 1 < |bs| && !bs[i].used && !bs[i + 1].used && end < WORDS
    ensures var o := bs[i].off; var o1 := bs[i + 1].off; var next := NextOff(bs, i + 1, end);
      && Cell(o) + 3 < |h| && Cell(o1) + 3 < |h| && Cell(next) + 3 < |h| && o < end && o1 < end && next <= end
      && Linked(MergeWords(h, o, o1, next), MergeNext(bs, i), pool, end)
  {
    var o, o1, next := bs[i].off, bs[i + 1].off, NextOff(bs, i + 1, end);
    MergePlaces(bs, i, end);
    MergeNextTiles(bs, i, end);
    Ordered(bs, 0, end, i, i + 1);
    hide Tiles, MergeNext, Cell;
    var r := MergeNext(bs, i);
    var h' := MergeWords(h, o, o1, next);
    forall k | 0 <= k < |r| ensures LinkedAt(h', r, k, pool, end) {
      MergeAt(h, bs, i, pool, end, k);
    }
  }

  /* ---------- payloads ---------- */

  // The payload words of a block.
  ghost function Body(h: seq<word>, b: Block): seq<word> {
    if Cell(b.off) + 4 <= Cell(b.off + b.size) <= |h| then h[Cell(b.off) + 4..Cell(b.off + b.size)] else []
  }

  // The payloads of `live` read the same in both.
  ghost predicate KeepsBodies(h: seq<word>, r: seq<word>, live: set<Block>) {
    |r| == |h| && forall b :: b in live ==> Body(r, b) == Body(h, b)
  }

  lemma KeepsTrans(a: seq<word>, b: seq<word>, c: seq<word>, x: set<Block>, y: set<Block>)
    requires KeepsBodies(a, b, x) && KeepsBodies(b, c, y) && x <= y
    ensures KeepsBodies(a, c, x)
  {
  }

  lemma KeepsLess(a: seq<word>, b: seq<word>, x: set<Block>, y: set<Block>)
    requires KeepsBodies(a, b, x) && y <= x
    ensures KeepsBodies(a, b, y)
  {
  }

  lemma KeepsBody(h: seq<word>, r: seq<word>, live: set<Block>, b: Block)
    requires KeepsBodies(h, r, live) && b in live && Cell(b.off) + 4 <= Cell(b.off + b.size) <= |h|
    ensures |r| == |h| && r[Cell(b.off) + 4..Cell(b.off + b.size)] == h[Cell(b.off) + 4..Cell(b.off + b.size)]
  {
    assert Body(r, b) == Body(h, b);
  }

  // A block lies wholly before or wholly behind another one.
  lemma BlocksApart(bs: seq<Block>, end: nat, k: nat, i: nat)
    requires Tiles(bs, 0, end) && k < |bs| && i < |bs| && k != i
    ensures Cell(bs[k].off + bs[k].size) <= Cell(bs[i].off) || Cell(bs[i].off + bs[i].size) <= Cell(bs[k].off)
  {
    if k < i { Ordered(bs, 0, end, k, i); } else { Ordered(bs, 0, end, i, k); }
  }

  // Words change only from the header of block `i` up to and including the header behind it.
  lemma LocalChangeKeepsBodies(h: seq<word>, r: seq<word>, bs: seq<Block>, end: nat, i: nat, live: set<Block>)
    requires Tiles(bs, 0, end) && i < |bs| && |h| == |r| == Cell(end) + 4 && live <= Live(bs) - {bs[i]}
    requires forall c :: 0 <= c < |h| && !(Cell(bs[i].off) <= c < Cell(NextOff(bs, i, end)) + 3) ==> r[c] == h[c]
    ensures KeepsBodies(h, r, live)
  {
    assert Joins(bs, i, end);
    forall b | b in live ensures Body(r, b) == Body(h, b) {
      assert b in Live(bs);
      var k :| 0 <= k < |bs| && bs[k] == b;
      Ordered(bs, 0, end, k, k);
      EndApart(bs, end, k);
      BlocksApart(bs, end, k, i);
      if i + 1 < k { BlocksApart(bs, end, k, i + 1); HeadersApart(bs, end, i + 1, k); }
      assert forall c :: Cell(b.off) + 4 <= c < Cell(b.off + b.size) ==> r[c] == h[c];
    }
  }

  lemma SplitWordsLocal(h: seq<word>, o: nat, o2: nat, next: nat, pool: nat, end: nat)
    requires Cell(o) + 4 <= Cell(o2) && Cell(o2) + 4 <= Cell(next) && Cell(next) + 2 < |h|
    requires o < WORDS && o2 < WORDS && next < WORDS && pool + 1 < WORDS
    ensures var r := SplitWords(h, o, o2, next, pool, end);
      && (forall c :: 0 <= c < |h| && !(Cell(o) <= c < Cell(next) + 3) ==> r[c] == h[c])
      && (forall c :: Cell(o) + 4 <= c < Cell(o2) ==> r[c] == h[c])
  {
    hide Cell;
    var r := SplitWords(h, o, o2, next, pool, end);
    forall c | 0 <= c < |h| && (!(Cell(o) <= c < Cell(next) + 3) || Cell(o) + 4 <= c < Cell(o2)) ensures r[c] == h[c] {
      SplitWordsElsewhere(h, o, o2, next, pool, end, c);
    }
  }

  // A split writes nothing before the new header but the header of the block itself.
  lemma SplitKeepsBodies(h: seq<word>, bs: seq<Block>, i: nat, n: nat, pool: nat, end: nat)
    requires Linked(h, bs, pool, end) && i < |bs| && Aligned(n) && bs[i].size >= 2 * HEADER + n
    requires end < WORDS && pool + 1 < WORDS
    ensures var o := bs[i].off; var o2 := o + HEADER + n; var next := NextOff(bs, i, end);
      && Cell(o) + 4 <= Cell(o2) && Cell(o2) + 3 < |h| && Cell(next) + 3 < |h| && o2 < end && next <= end
      && var r := SplitWords(h, o, o2, next, pool, end);
      KeepsBodies(h, r, Live(bs) - {bs[i]}) && r[Cell(o) + 4..Cell(o2)] == h[Cell(o) + 4..Cell(o2)]
  {
    hide Cell, Tiles, SplitWords;
    SplitPlaces(bs, i, n, end);
    var o, o2, next := bs[i].off, bs[i].off + HEADER + n, NextOff(bs, i, end);
    SplitWordsLocal(h, o, o2, next, pool, end);
    LocalChangeKeepsBodies(h, SplitWords(h, o, o2, next, pool, end), bs, end, i, Live(bs) - {bs[i]});
  }

  // The payload of block `k` avoids the words a merge at `i` writes.
  lemma BodyAvoidsMerge(bs: seq<Block>, i: nat, k: nat, end: nat, c: nat)
    requires Tiles(bs, 0, end) && i + 1 < |bs| && k < |bs| && k != i && k != i + 1
    requires Cell(bs[k].off) + 4 <= c < Cell(bs[k].off + bs[k].size)
    ensures c != Cell(bs[i].off) + 1 && c != Cell(bs[i + 1].off) && c != Cell(NextOff(bs, i + 1, end)) + 2
  {
    Ordered(bs, 0, end, k, k);
    MergePlaces(bs, i, end);
    BlocksApart(bs, end, k, i);
    BlocksApart(bs, end, k, i + 1);
    assert Joins(bs, i, end) && Joins(bs, i + 1, end);
    if i + 2 < k { HeadersApart(bs, end, i + 2, k); }
  }

  lemma MergeKeepsBodies(h: seq<word>, bs: seq<Block>, i: nat, pool: nat, end: nat)
    requires Linked(h, bs, pool, end) && i + 1 < |bs| && !bs[i].used && !bs[i + 1].used && end < WORDS
    ensures var o := bs[i].off; var o1 := bs[i + 1].off; var next := NextOff(bs, i + 1, end);
      && Cell(o) + 3 < |h| && Cell(o1) + 3 < |h| && Cell(next) + 3 < |h| && o < end && o1 < end && next <= end
      && KeepsBodies(h, MergeWords(h, o, o1, next), Live(bs))
  {
    var o, o1, next := bs[i].off, bs[i + 1].off, NextOff(bs, i + 1, end);
    MergePlaces(bs, i, end);
    Ordered(bs, 0, end, i, i + 1);
    var r := MergeWords(h, o, o1, next);
    hide Cell, Tiles;
    forall b | b in Live(bs) ensures Body(r, b) == Body(h, b) {
      var k :| 0 <= k < |bs| && bs[k].used && bs[k] == b;
      forall c | Cell(b.off) + 4 <= c < Cell(b.off + b.size) <= |h| ensures r[c] == h[c] {
        BodyAvoidsMerge(bs, i, k, end, c);
      }
    }
  }

  // A tag lies in no payload.
  lemma MarkKeepsBodies(h: seq<word>, bs: seq<Block>, i: nat, v: word, end: nat, live: set<Block>)
    requires Tiles(bs, 0, end) && i < |bs| && |h| == Cell(end) + 4 && live <= Live(bs)
    ensures Cell(bs[i].off) < |h| && KeepsBodies(h, h[Cell(bs[i].off) := v], live)
  {
    EndApart(bs, end, i);
    var r := h[Cell(bs[i].off) := v];
    forall b | b in live ensures Body(r, b) == Body(h, b) {
      assert b in Live(bs);
      var k :| 0 <= k < |bs| && bs[k] == b;
      EndApart(bs, end, k);
      Ordered(bs, 0, end, k, k);
      if k != i { BlocksApart(bs, end, k, i); HeadersApart(bs, end, if k < i then k else i, if k < i then i else k); }
      assert forall c :: Cell(b.off) + 4 <= c < Cell(b.off + b.size) ==> r[c] == h[c];
    }
  }

  // Writing inside the payload of block `i` disturbs no header and no other payload.
  lemma PayloadWrite(h: seq<word>, r: seq<word>, bs: seq<Block>, i: nat, pool: nat, end: nat)
    requires Linked(h, bs, pool, end) && i < |bs| && |r| == |h|
    requires forall c :: 0 <= c < |h| && !(Cell(bs[i].off) + 4 <= c < Cell(bs[i].off + bs[i].size)) ==> r[c] == h[c]
    ensures Linked(r, bs, pool, end)
    ensures KeepsBodies(h, r, Live(bs) - {bs[i]})
  {
    EndApart(bs, end, i);
    Ordered(bs, 0, end, i, i);
    forall k | 0 <= k < |bs| ensures LinkedAt(r, bs, k, pool, end) {
      assert LinkedAt(h, bs, k, pool, end);
      EndApart(bs, end, k);
      if k != i { BlocksApart(bs, end, k, i); }
      if k < i { HeadersApart(bs, end, k, i); }
    }
    forall b | b in Live(bs) - {bs[i]} ensures Body(r, b) == Body(h, b) {
      var k :| 0 <= k < |bs| && bs[k].used && bs[k] == b;
      BlocksApart(bs, end, k, i);
      BodyAway(h, r, b, Cell(bs[i].off) + 4, Cell(bs[i].off + bs[i].size));
    }
  }

  // A payload that ends before a changed stretch, or starts behind it, reads the same.
  lemma BodyAway(h: seq<word>, r: seq<word>, b: Block, lo: nat, hi: nat)
    requires |r| == |h| && forall c :: 0 <= c < |h| && !(lo <= c < hi) ==> r[c] == h[c]
    requires Cell(b.off + b.size) <= lo || hi <= Cell(b.off) + 4
    ensures Body(r, b) == Body(h, b)
  {
    hide Cell;
    if Cell(b.off) + 4 <= Cell(b.off + b.size) <= |h| {
      assert forall c :: Cell(b.off) + 4 <= c < Cell(b.off + b.size) ==> r[c] == h[c];
    }
  }

  // The first `bytes` bytes of the payload at `from` in `h` read the same at `to` in `r`.
  ghost predicate SamePayload(h: seq<word>, from: nat, r: seq<word>, to: nat, bytes: nat) {
    && Cell(from) + Cell(bytes) <= |h| && Cell(to) + Cell(bytes) <= |r|
    && r[Cell(to)..Cell(to) + Cell(bytes)] == h[Cell(from)..Cell(from) + Cell(bytes)]
  }

  lemma KeepsSelf(h: seq<word>, live: set<Block>)
    ensures KeepsBodies(h, h, live)
  {
  }

  lemma SelfPayload(h: seq<word>, b: Block, bytes: nat)
    requires Aligned(b.off) && bytes <= Payload(b) && Cell(b.off + b.size) <= |h|
    ensures SamePayload(h, b.off + HEADER, h, b.off + HEADER, bytes)
  {
  }

  lemma FrontPayload(h: seq<word>, r: seq<word>, o: nat, bytes: nat)
    requires |h| == |r| && Aligned(o) && Aligned(bytes) && Cell(o) + 4 <= Cell(o + HEADER + bytes) <= |h|
    requires r[Cell(o) + 4..Cell(o + HEADER + bytes)] == h[Cell(o) + 4..Cell(o + HEADER + bytes)]
    ensures SamePayload(h, o + HEADER, r, o + HEADER, bytes)
  {
  }

  // Payload words read from, or carried over to, a memory that keeps the block.
  lemma SourceKept(h0: seq<word>, h1: seq<word>, r: seq<word>, b: Block, to: nat, bytes: nat, x: set<Block>)
    requires KeepsBodies(h0, h1, x) && b in x && Aligned(b.off) && bytes <= Payload(b) && Cell(b.off + b.size) <= |h0|
    requires SamePayload(h1, b.off + HEADER, r, to, bytes)
    ensures SamePayload(h0, b.off + HEADER, r, to, bytes)
  {
    assert Cell(b.off + HEADER) == Cell(b.off) + 4 && Cell(b.off) + 4 + Cell(bytes) <= Cell(b.off + b.size);
    hide Cell;
    KeepsBody(h0, h1, x, b);
    PrefixOfSlice(h0, h1, Cell(b.off) + 4, Cell(b.off + b.size), Cell(bytes));
  }

  lemma TargetKept(h: seq<word>, h2: seq<word>, h3: seq<word>, from: nat, nb: Block, bytes: nat, y: set<Block>)
    requires KeepsBodies(h2, h3, y) && nb in y && Aligned(nb.off) && bytes <= Payload(nb) && Cell(nb.off + nb.size) <= |h2|
    requires SamePayload(h, from, h2, nb.off + HEADER, bytes)
    ensures SamePayload(h, from, h3, nb.off + HEADER, bytes)
  {
    assert Cell(nb.off + HEADER) == Cell(nb.off) + 4 && Cell(nb.off) + 4 + Cell(bytes) <= Cell(nb.off + nb.size);
    hide Cell;
    KeepsBody(h2, h3, y, nb);
    PrefixOfSlice(h2, h3, Cell(nb.off) + 4, Cell(nb.off + nb.size), Cell(bytes));
  }

  // A copy into `nb` followed by giving back `b` keeps what was copied and all other payloads.
  lemma MovedKept(h: seq<word>, h2: seq<word>, h3: seq<word>, from: nat, nb: Block, b: Block, bytes: nat, live: set<Block>)
    requires KeepsBodies(h, h2, live - {nb}) && KeepsBodies(h2, h3, live - {b})
    requires nb in live && nb != b && Aligned(nb.off) && bytes <= Payload(nb) && Cell(nb.off + nb.size) <= |h2|
    requires SamePayload(h, from, h2, nb.off + HEADER, bytes)
    ensures SamePayload(h, from, h3, nb.off + HEADER, bytes)
    ensures KeepsBodies(h, h3, live - {b, nb})
  {
    hide KeepsBodies, SamePayload, Cell, Aligned;
    TargetKept(h, h2, h3, from, nb, bytes, live - {b});
    KeepsLess(h, h2, live - {nb}, live - {b, nb});
    KeepsTrans(h, h2, h3, live - {b, nb}, live - {b});
  }

  lemma PrefixOfSlice(h: seq<word>, r: seq<word>, lo: nat, hi: nat, w: nat)
    requires lo + w <= hi <= |h| == |r| && r[lo..hi] == h[lo..hi]
    ensures r[lo..lo + w] == h[lo..lo + w]
  {
    assert r[lo..lo + w] == r[lo..hi][..w] && h[lo..lo + w] == h[lo..hi][..w];
  }
}
