// The byte ring of project/applications/abus/afifo.c and afifo.h as a value, and the byte queue it
// refines. The indices run freely through the 32-bit range and are masked only to address the buffer.
module RingModel {
  import opened Basics
  import opened Powers

  type byte = bv8

  datatype Ring = Ring(buf: seq<byte>, inn: nat, out: nat)

  // The difference of two unsigned 32-bit numbers.
  function Sub32(a: int, b: int): (d: nat)
    ensures d < WORD
  {
    (a - b) % WORD
  }

  function Add32(a: nat, b: nat): (d: nat)
    ensures d < WORD
  {
    (a + b) % WORD
  }

  function Used(r: Ring): nat {
    Sub32(r.inn, r.out)
  }

  // size - in + out, evaluated from the left in unsigned arithmetic.
  function Free(r: Ring): nat {
    Sub32(|r.buf| + r.out, r.inn)
  }

  ghost predicate Valid(r: Ring) {
    && (exists k: nat :: k <= 31 && |r.buf| == Pow2(k))
    && r.inn < WORD && r.out < WORD
    && Used(r) <= |r.buf|
  }

  function Mask(x: nat, size: nat): nat
    requires size > 0
  {
    And(x, size - 1)
  }

  // The queued bytes, oldest first.
  ghost function View(r: Ring): (q: seq<byte>)
    requires Valid(r)
    ensures |q| == Used(r)
  {
    MaskInRange(r);
    var p := Mask(r.out, |r.buf|);
    seq(Used(r), i requires 0 <= i < Used(r) => r.buf[Slot(p, i, |r.buf|)])
  }

  // memcpy(buf + at, d, |d|).
  function Overlay(buf: seq<byte>, at: nat, d: seq<byte>): (res: seq<byte>)
    requires at + |d| <= |buf|
    ensures |res| == |buf|
    ensures forall i :: 0 <= i < |buf| ==> res[i] == if at <= i < at + |d| then d[i - at] else buf[i]
  {
    buf[..at] + d + buf[at + |d|..]
  }

  lemma MaskInRange(r: Ring)
    requires Valid(r)
    ensures |r.buf| > 0
    ensures Mask(r.inn, |r.buf|) < |r.buf|
    ensures Mask(r.out, |r.buf|) < |r.buf|
  {
    var k: nat :| k <= 31 && |r.buf| == Pow2(k);
    MaskIsRemainder(r.inn, k);
    MaskIsRemainder(r.out, k);
  }

  // The remainder of x + n lies n places after the remainder of x, going round at size.
  lemma RemainderAdvances(x: nat, n: nat, size: nat)
    requires size > 0 && n <= size
    ensures (x + n) % size == if n < size then Slot(x % size, n, size) else x % size
  {
    var q, p := x / size, x % size;
    assert x == size * q + p;
    if p + n < size {
      DivUnique(x + n, size, q, p + n);
    } else {
      assert size * (q + 1) == size * q + size;
      DivUnique(x + n, size, q + 1, p + n - size);
    }
  }

  // Advancing an index by n places, wrapping at 32 bits, moves its masked position by n places.
  lemma MaskAdvances(x: nat, n: nat, k: nat)
    requires k <= 31 && n <= Pow2(k)
    ensures Mask(x, Pow2(k)) < Pow2(k)
    ensures n < Pow2(k) ==> Mask(Add32(x, n), Pow2(k)) == Slot(Mask(x, Pow2(k)), n, Pow2(k))
    ensures n == Pow2(k) ==> Mask(Add32(x, n), Pow2(k)) == Mask(x, Pow2(k))
  {
    hide Slot, Pow2, And;
    MaskIsRemainder(x, k);
    AddMasked(x, n, k);
    RemainderAdvances(x, n, Pow2(k));
  }

  lemma AddMasked(x: nat, n: nat, k: nat)
    requires k <= 31
    ensures Mask(Add32(x, n), Pow2(k)) == (x + n) % Pow2(k)
  {
    hide Pow2, And;
    MaskIsRemainder(Add32(x, n), k);
    WrapKeepsRemainder(x + n, k);
  }

  lemma PowersBelowWord(k: nat)
    requires k <= 31
    ensures Pow2(k) <= 0x8000_0000
  {
    Pow2Word();
    if k < 31 {
      Pow2Grows(k, 31);
    }
  }

  lemma HalfWord(r: Ring)
    requires Valid(r)
    ensures |r.buf| <= 0x8000_0000
  {
    var k: nat :| k <= 31 && |r.buf| == Pow2(k);
    PowersBelowWord(k);
  }

  // Unsigned subtraction and addition without the modulus.
  lemma Sub32Is(a: int, b: int)
    requires -WORD <= a - b < 2 * WORD
    ensures Sub32(a, b) == if a < b then a - b + WORD else if a - b < WORD then a - b else a - b - WORD
  {
  }

  lemma Add32Is(a: nat, b: nat)
    requires a + b < 2 * WORD
    ensures Add32(a, b) == if a + b < WORD then a + b else a + b - WORD
  {
  }

  // The index in leads the index out by the number of used bytes.
  lemma InLeadsOut(r: Ring)
    requires r.inn < WORD && r.out < WORD
    ensures Add32(r.out, Used(r)) == r.inn
  {
    hide Sub32, Add32;
    Sub32Is(r.inn, r.out);
    Add32Is(r.out, Used(r));
  }

  lemma FreeIsRest(r: Ring)
    requires Valid(r)
    ensures Free(r) == |r.buf| - Used(r)
  {
    hide Pow2, Sub32;
    HalfWord(r);
    Sub32Is(|r.buf| + r.out, r.inn);
    Sub32Is(r.inn, r.out);
  }

  // __afifo_in and __afifo_in_data.
  function In(r: Ring, data: seq<byte>): (res: (Ring, nat))
    requires |r.buf| > 0 && Mask(r.inn, |r.buf|) < |r.buf|
    requires Free(r) <= |r.buf|
  {
    var n := Min(|data|, Free(r));
    var p := Mask(r.inn, |r.buf|);
    var l := Min(n, |r.buf| - p);
    var head := Overlay(r.buf, p, data[..l]);
    (Ring(Overlay(head, 0, data[l..n]), Add32(r.inn, n), r.out), n)
  }

  // __afifo_out_data: the bytes copied out.
  function Peek(r: Ring, len: nat): (d: seq<byte>)
    requires |r.buf| > 0 && Mask(r.out, |r.buf|) < |r.buf|
    requires Used(r) <= |r.buf|
  {
    var n := Min(len, Used(r));
    var p := Mask(r.out, |r.buf|);
    var l := Min(n, |r.buf| - p);
    r.buf[p..p + l] + r.buf[..n - l]
  }

  // afifo_add_out.
  function AddOut(r: Ring, len: nat): (res: (Ring, nat)) {
    var n := Min(len, Used(r));
    (r.(out := Add32(r.out, n)), n)
  }

  // __afifo_out.
  function Out(r: Ring, len: nat): (res: (Ring, seq<byte>))
    requires |r.buf| > 0 && Mask(r.out, |r.buf|) < |r.buf|
    requires Used(r) <= |r.buf|
  {
    var n := Min(len, Used(r));
    var p := Mask(r.out, |r.buf|);
    var l := Min(n, |r.buf| - p);
    (r.(out := Add32(r.out, n)), r.buf[p..p + l] + r.buf[..n - l])
  }

  // afifo_add_in: bytes some other code has put into the buffer become part of the queue.
  function AddIn(r: Ring, len: nat): (res: (Ring, nat)) {
    var n := Min(len, Free(r));
    (r.(inn := Add32(r.inn, n)), n)
  }

  lemma AdvanceIn(r: Ring, n: nat)
    requires Valid(r) && n <= |r.buf| - Used(r)
    ensures Valid(r.(inn := Add32(r.inn, n)))
    ensures Used(r.(inn := Add32(r.inn, n))) == Used(r) + n
  {
    hide Pow2, Sub32, Add32;
    HalfWord(r);
    Add32Is(r.inn, n);
    Sub32Is(r.inn, r.out);
    Sub32Is(Add32(r.inn, n), r.out);
  }

  lemma AdvanceOut(r: Ring, n: nat)
    requires Valid(r) && n <= Used(r)
    ensures Valid(r.(out := Add32(r.out, n)))
    ensures Used(r.(out := Add32(r.out, n))) == Used(r) - n
  {
    hide Pow2, Sub32, Add32;
    Add32Is(r.out, n);
    Sub32Is(r.inn, r.out);
    Sub32Is(r.inn, Add32(r.out, n));
  }

  // The masked in index is the slot after the last queued byte.
  lemma InSlot(r: Ring)
    requires Valid(r)
    ensures |r.buf| > 0
    ensures Used(r) < |r.buf| ==>
              Mask(r.inn, |r.buf|) == Slot(Mask(r.out, |r.buf|), Used(r), |r.buf|)
  {
    var k: nat :| k <= 31 && |r.buf| == Pow2(k);
    InLeadsOut(r);
    MaskAdvances(r.out, Used(r), k);
  }

  lemma OutSlot(r: Ring, n: nat)
    requires Valid(r) && n <= Used(r)
    ensures |r.buf| > 0 && Mask(r.out, |r.buf|) < |r.buf|
    ensures n < |r.buf| ==>
              Mask(Add32(r.out, n), |r.buf|) == Slot(Mask(r.out, |r.buf|), n, |r.buf|)
  {
    var k: nat :| k <= 31 && |r.buf| == Pow2(k);
    MaskAdvances(r.out, n, k);
  }

  /** in appends the longest prefix of the data that fits and reports its length. */
  lemma InAppends(r: Ring, data: seq<byte>)
    requires Valid(r)
    ensures |r.buf| > 0 && Mask(r.inn, |r.buf|) < |r.buf| && Free(r) <= |r.buf|
    ensures var res := In(r, data);
            && Valid(res.0) && |res.0.buf| == |r.buf|
            && res.1 == Min(|data|, |r.buf| - |View(r)|)
            && View(res.0) == View(r) + data[..res.1]
  {
    hide Mask, Used, Free, Valid, Add32, Sub32, Slot, View, In, Overlay;
    MaskInRange(r);
    FreeIsRest(r);
    UsedFits(r);
    InShape(r, data);
    var res := In(r, data);
    var n := res.1;
    AdvanceIn(r, n);
    SameIndices(r.(inn := Add32(r.inn, n)), res.0);
    forall i | 0 <= i < |View(res.0)|
      ensures View(res.0)[i] == (View(r) + data[..n])[i]
    {
      ViewAt(res.0, i);
      if i < Used(r) {
        ViewAt(r, i);
      }
      InSlot(r);
      InBytes(r, data, Mask(r.out, |r.buf|), i);
    }
  }

  lemma InShape(r: Ring, data: seq<byte>)
    requires |r.buf| > 0 && Mask(r.inn, |r.buf|) < |r.buf| && Free(r) <= |r.buf|
    ensures var res := In(r, data);
            && res.1 == Min(|data|, Free(r)) && |res.0.buf| == |r.buf|
            && res.0.inn == Add32(r.inn, res.1) && res.0.out == r.out
  {
  }

  lemma ViewAt(r: Ring, i: nat)
    requires Valid(r) && i < |View(r)|
    ensures |r.buf| > 0 && Mask(r.out, |r.buf|) < |r.buf|
    ensures Slot(Mask(r.out, |r.buf|), i, |r.buf|) < |r.buf|
    ensures View(r)[i] == r.buf[Slot(Mask(r.out, |r.buf|), i, |r.buf|)]
  {
    hide Mask;
    MaskInRange(r);
  }

  // What the two copies of in leave at position j.
  lemma TwoPieces(buf: seq<byte>, p: nat, d: seq<byte>, l: nat, n: nat, j: nat)
    requires l <= n <= |d| && p + l <= |buf| && n - l <= p && j < |buf|
    ensures Overlay(Overlay(buf, p, d[..l]), 0, d[l..n])[j]
         == if p <= j < p + l then d[j - p] else if j < n - l then d[l + j] else buf[j]
  {
  }

  // The byte in slot i after p, once in has copied: an old byte before the used ones end, new after.
  lemma InBytes(r: Ring, data: seq<byte>, p: nat, i: nat)
    requires |r.buf| > 0 && Mask(r.inn, |r.buf|) < |r.buf| && Free(r) <= |r.buf|
    requires p < |r.buf| && Used(r) + Free(r) == |r.buf|
    requires Used(r) < |r.buf| ==> Mask(r.inn, |r.buf|) == Slot(p, Used(r), |r.buf|)
    requires i < Used(r) + In(r, data).1
    ensures Slot(p, i, |r.buf|) < |r.buf|
    ensures In(r, data).0.buf[Slot(p, i, |r.buf|)]
         == if i < Used(r) then r.buf[Slot(p, i, |r.buf|)] else data[i - Used(r)]
  {
    hide Mask, Used, Free, Add32, Overlay;
    var n := Min(|data|, Free(r));
    var at, size := Mask(r.inn, |r.buf|), |r.buf|;
    var l := Min(n, size - at);
    if n > 0 {
      TwoPieces(r.buf, at, data, l, n, Slot(p, i, size));
    } else {
      TwoPieces(r.buf, at, data, 0, 0, Slot(p, i, size));
    }
  }

  lemma UsedFits(r: Ring)
    requires Valid(r)
    ensures Used(r) <= |r.buf|
  {
  }

  // Validity and the number of used bytes depend on the indices and the size alone.
  lemma SameIndices(r: Ring, s: Ring)
    requires Valid(r) && r.inn == s.inn && r.out == s.out && |r.buf| == |s.buf|
    ensures Valid(s) && Used(s) == Used(r)
  {
  }

  /** peek copies the oldest bytes, oldest first, and as many as asked for or present. */
  lemma PeekIsPrefix(r: Ring, len: nat)
    requires Valid(r)
    ensures |r.buf| > 0 && Mask(r.out, |r.buf|) < |r.buf| && Used(r) <= |r.buf|
    ensures Peek(r, len) == View(r)[..Min(len, |View(r)|)]
  {
    hide Mask, Used, Valid;
    MaskInRange(r);
    UsedFits(r);
  }

  /** add_out drops the oldest bytes and nothing else. */
  lemma AddOutDrops(r: Ring, len: nat)
    requires Valid(r)
    ensures var res := AddOut(r, len);
            && Valid(res.0) && res.0.buf == r.buf
            && res.1 == Min(len, |View(r)|)
            && View(res.0) == View(r)[res.1..]
  {
    hide Mask, Used, Valid;
    MaskInRange(r);
    UsedFits(r);
    var res := AddOut(r, len);
    AdvanceOut(r, res.1);
    OutSlot(r, res.1);
  }

  /** peek followed by add_out is out. */
  lemma PeekThenAddOutIsOut(r: Ring, len: nat)
    requires Valid(r)
    ensures |r.buf| > 0 && Mask(r.out, |r.buf|) < |r.buf| && Used(r) <= |r.buf|
    ensures Out(r, len) == (AddOut(r, |Peek(r, len)|).0, Peek(r, len))
    ensures View(r) == Out(r, len).1 + (AddOutDrops(r, len); View(Out(r, len).0))
  {
    PeekIsPrefix(r, len);
    AddOutDrops(r, len);
  }

  /** Data written by hand at the in position and then announced by add_in is queued as in would
    * have queued it, provided it fits between that position and the end of the buffer. */
  lemma AddInQueuesWrittenBytes(r: Ring, data: seq<byte>)
    requires Valid(r) && |data| <= |r.buf| - Used(r)
    requires |r.buf| > 0 && Mask(r.inn, |r.buf|) + |data| <= |r.buf|
    ensures Free(r) <= |r.buf| && Mask(r.inn, |r.buf|) < |r.buf|
    ensures AddIn(r.(buf := Overlay(r.buf, Mask(r.inn, |r.buf|), data)), |data|) == In(r, data)
  {
    MaskInRange(r);
    FreeIsRest(r);
    var w := Overlay(r.buf, Mask(r.inn, |r.buf|), data);
    assert data[..|data|] == data;
    assert Overlay(w, 0, []) == w;
  }
}
