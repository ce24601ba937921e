// The ring object of project/applications/abus/afifo.c: a buffer updated in place and two indices.
module Afifos {
  import opened Basics
  import opened Powers
  import opened RingModel

  // What a call of afifo_alloc comes to. A BUG_ON whose condition holds loops for ever.
  datatype Allocated = Made(size: nat) | Null | Hangs | Undefined

  // memcpy(dst + at, src + from, n).
  method Memcpy(dst: array<byte>, at: nat, src: array<byte>, from: nat, n: nat)
    requires dst != src
    requires at + n <= dst.Length && from + n <= src.Length
    modifies dst
    ensures dst[..] == Overlay(old(dst[..]), at, src[from..from + n])
  {
    var i := 0;
    while i < n
      invariant i <= n
      invariant forall j :: 0 <= j < dst.Length ==>
                  dst[j] == if at <= j < at + i then src[from + j - at] else old(dst[j])
    {
      dst[at + i] := src[from + i];
      i := i + 1;
    }
  }

  // The size afifo_alloc ends up with, or the way it fails. The two flags say whether the two
  // allocations succeed.
  method AllocSize(request: nat, bufferFits: bool, structFits: bool) returns (res: Allocated)
    requires request < WORD
    ensures res.Made? <==> 1 <= request <= 0x4000_0000 && bufferFits && structFits
    ensures res.Made? ==> LeastPow2(res.size, request)
    ensures res.Undefined? <==> request == 0
    ensures res.Hangs? <==> request > 0x8000_0000 || (request > 0x4000_0000 && bufferFits)
  {
    var size := request;
    var isPow := IsPowerOf2(AsInt32(size));
    SignedPow2(size);
    if !isPow {
      if size > 0x8000_0000 {
        return Hangs;
      }
      if size == 0 {
        return Undefined;
      }
      size := RoundupPowOfTwo(size);
      RoundedSize(request, size);
    } else {
      PowIsLeast(size);
    }
    if !bufferFits {
      return Null;
    }
    isPow := IsPowerOf2(AsInt32(size));
    SignedPow2(size);
    if !isPow {
      return Hangs;
    }
    if !structFits {
      return Null;
    }
    return Made(size);
  }

  // The conversion of an unsigned argument to the int parameter of is_power_of_2.
  function AsInt32(x: nat): int
    requires x < WORD
  {
    if x < 0x8000_0000 then x else x - WORD
  }

  lemma SignedPow2(x: nat)
    requires x < WORD
    ensures IsPow2(AsInt32(x)) <==> IsPow2(x) && x <= 0x4000_0000
  {
    Pow2Word();
    assert Pow2(31) == 2 * Pow2(30);
    if x < 0x8000_0000 && IsPow2(x) {
      var k: nat :| x == Pow2(k);
      if k > 31 {
        Pow2Grows(31, k);
      } else if k < 30 {
        Pow2Grows(k, 30);
      }
    }
  }

  lemma PowIsLeast(size: nat)
    requires IsPow2(size)
    ensures LeastPow2(size, size)
  {
  }

  lemma RoundedSize(request: nat, size: nat)
    requires LeastPow2(size, request)
    ensures size <= 0x4000_0000 <==> request <= 0x4000_0000
  {
    Pow2Word();
    assert Pow2(31) == 2 * Pow2(30);
  }

  /** Some request in the documented range never gets a ring: one more than 2^30 bytes rounds up to
    * 2^31, which the int parameter of is_power_of_2 sees as negative. */
  lemma LargeRequestRounds()
    ensures LeastPow2(0x8000_0000, 0x4000_0001)
    ensures AsInt32(0x8000_0000) < 0
    ensures !IsPow2(AsInt32(0x8000_0000))
  {
    Pow2Word();
    assert Pow2(31) == 2 * Pow2(30);
    LeastAbove(0x4000_0001, 31);
    SignedPow2(0x8000_0000);
  }

  class Afifo {
    const buffer: array<byte>
    var inn: nat
    var out: nat

    ghost function Abs(): Ring
      reads this, buffer
    {
      RingModel.Ring(buffer[..], inn, out)
    }

    ghost predicate Ok()
      reads this, buffer
    {
      Valid(Abs())
    }

    constructor (size: nat)
      requires IsPow2(size) && size <= 0x8000_0000
      ensures Ok() && View(Abs()) == [] && buffer.Length == size && fresh(buffer)
    {
      buffer := new byte[size](_ => 0);
      inn, out := 0, 0;
      new;
      Pow2Word();
      var k: nat :| size == Pow2(k);
      if k > 31 {
        Pow2Grows(31, k);
      }
    }

    method GetUsed() returns (n: nat)
      requires Ok()
      ensures n == |View(Abs())| <= buffer.Length
    {
      n := Sub32(inn, out);
    }

    method GetFree() returns (n: nat)
      requires Ok()
      ensures n == buffer.Length - |View(Abs())|
    {
      var used := GetUsed();
      n := Sub32(buffer.Length, used);
      HalfWord(Abs());
    }

    method Put(data: array<byte>, len: nat) returns (n: nat)
      requires Ok() && data != buffer && len <= data.Length
      modifies this`inn, buffer
      ensures Ok()
      ensures n == Min(len, buffer.Length - |old(View(Abs()))|)
      ensures View(Abs()) == old(View(Abs())) + old(data[..n])
    {
      hide Valid, View, Mask, Free, Used, Overlay;
      ghost var r := Abs();
      InAppends(r, data[..len]);
      n := Min(len, Sub32(buffer.Length + out, inn));
      assert n == In(r, data[..len]).1 by { FreeDefined(r); }
      var p := Mask(inn, buffer.Length);
      var l := Min(n, buffer.Length - p);
      Memcpy(buffer, p, data, 0, l);
      Memcpy(buffer, 0, data, l, n - l);
      inn := Add32(inn, n);
      assert data[0..l] == data[..len][..l] && data[l..l + (n - l)] == data[..len][l..n];
      assert Abs() == In(r, data[..len]).0;
    }

    method Peek(data: array<byte>, len: nat) returns (n: nat)
      requires Ok() && data != buffer && len <= data.Length
      modifies data
      ensures n == Min(len, |View(Abs())|)
      ensures data[..] == Overlay(old(data[..]), 0, View(Abs())[..n])
    {
      hide Valid, View, Mask, Used, Overlay;
      ghost var r := Abs();
      PeekIsPrefix(r, len);
      n := Min(len, Sub32(inn, out));
      assert n == Min(len, Used(r)) by { UsedDefined(r); }
      var p := Mask(out, buffer.Length);
      var l := Min(n, buffer.Length - p);
      Memcpy(data, 0, buffer, p, l);
      Memcpy(data, l, buffer, 0, n - l);
      assert RingModel.Peek(r, len) == buffer[p..p + l] + buffer[0..n - l];
      OverlayTwice(old(data[..]), buffer[p..p + l], buffer[0..n - l]);
    }

    method AddOut(len: nat) returns (n: nat)
      requires Ok()
      modifies this`out
      ensures Ok()
      ensures n == Min(len, |old(View(Abs()))|)
      ensures View(Abs()) == old(View(Abs()))[n..]
    {
      hide Valid, View, Mask;
      AddOutDrops(Abs(), len);
      n := Min(len, Sub32(inn, out));
      out := Add32(out, n);
    }

    method AddIn(len: nat) returns (n: nat)
      requires Ok()
      modifies this`inn
      ensures Ok()
      ensures n == Min(len, buffer.Length - |old(View(Abs()))|)
      ensures Abs() == RingModel.AddIn(old(Abs()), len).0
      ensures |View(Abs())| == |old(View(Abs()))| + n
      ensures old(View(Abs())) <= View(Abs())
    {
      ghost var r := Abs();
      FreeIsRest(r);
      n := Min(len, Sub32(buffer.Length + out, inn));
      inn := Add32(inn, n);
      AdvanceIn(r, n);
    }

    method Take(data: array<byte>, len: nat) returns (n: nat)
      requires Ok() && data != buffer && len <= data.Length
      modifies this`out, data
      ensures Ok()
      ensures n == Min(len, |old(View(Abs()))|)
      ensures data[..] == Overlay(old(data[..]), 0, old(View(Abs()))[..n])
      ensures View(Abs()) == old(View(Abs()))[n..]
    {
      hide Valid, View, Mask, Used, Overlay;
      ghost var r := Abs();
      PeekIsPrefix(r, len);
      AddOutDrops(r, len);
      n := Min(len, Sub32(inn, out));
      assert n == Min(len, Used(r)) by { UsedDefined(r); }
      var p := Mask(out, buffer.Length);
      var l := Min(n, buffer.Length - p);
      Memcpy(data, 0, buffer, p, l);
      Memcpy(data, l, buffer, 0, n - l);
      assert RingModel.Peek(r, len) == buffer[p..p + l] + buffer[0..n - l];
      OverlayTwice(old(data[..]), buffer[p..p + l], buffer[0..n - l]);
      out := Add32(out, n);
      assert Abs() == RingModel.AddOut(r, len).0;
    }

    method Reset()
      requires Ok()
      modifies this`inn, this`out
      ensures Ok() && View(Abs()) == []
    {
      inn, out := 0, 0;
    }
  }

  lemma FreeDefined(r: Ring)
    ensures Free(r) == Sub32(|r.buf| + r.out, r.inn)
  {
  }

  lemma UsedDefined(r: Ring)
    ensures Used(r) == Sub32(r.inn, r.out)
  {
  }

  // Two copies one behind the other are one copy.
  lemma OverlayTwice(buf: seq<byte>, a: seq<byte>, b: seq<byte>)
    requires |a| + |b| <= |buf|
    ensures Overlay(Overlay(buf, 0, a), |a|, b) == Overlay(buf, 0, a + b)
  {
  }
}
