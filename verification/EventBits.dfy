// 32-bit event sets and the three C operators the event code applies to them.
module EventBits {
  type Bits = bv32

  function Both(x: Bits, y: Bits): Bits { x & y }

  function Either(x: Bits, y: Bits): Bits { x | y }

  // x & ~y.
  function Minus(x: Bits, y: Bits): Bits { x & !y }

  lemma MinusPart(r: Bits, n: Bits, b: Bits)
    requires Both(b, r) == b
    ensures Both(Minus(r, n), b) == Minus(b, n)
  {
    assert (r & !n) & b == (b & r) & !n;
  }

  lemma MinusChanges(n: Bits, b: Bits)
    ensures Minus(b, n) == b <==> Both(n, b) == 0
  {
  }

  /** Of the bits b of r, taking away n leaves all exactly when n has none of them. */
  lemma Cleared(r: Bits, n: Bits, b: Bits)
    requires Both(b, r) == b
    ensures Both(Minus(r, n), b) != b <==> Both(n, b) != 0
  {
    hide Minus, Both;
    MinusPart(r, n, b);
    MinusChanges(n, b);
  }

  lemma EitherHas(x: Bits, y: Bits, b: Bits)
    ensures Both(Either(x, y), b) != 0 <==> Both(x, b) != 0 || Both(y, b) != 0
  {
    assert (x | y) & b == (x & b) | (y & b);
    EitherEmpty(x & b, y & b);
  }

  lemma EitherEmpty(x: Bits, y: Bits)
    ensures x | y == 0 <==> x == 0 && y == 0
  {
  }

  lemma MinusWithin(x: Bits, n: Bits)
    ensures Both(Minus(x, n), x) == Minus(x, n)
  {
    hide Both, Minus;
    BothSelf(x);
    MinusPart(x, n, x);
  }

  lemma BothSelf(x: Bits)
    ensures Both(x, x) == x
  {
  }

  lemma MinusNone(x: Bits)
    ensures Minus(x, 0) == x
  {
  }

  lemma BothCommutes(x: Bits, y: Bits)
    ensures Both(x, y) == Both(y, x)
  {
  }

  /** The bits b are all in the common part exactly when they are all in both. */
  lemma AllInBoth(x: Bits, y: Bits, b: Bits)
    ensures Both(Both(x, y), b) == b <==> Both(x, b) == b && Both(y, b) == b
  {
    InBothLeft(x, y, b);
    InBothLeft(y, x, b);
    BothCommutes(x, y);
    InEach(x, y, b);
  }

  lemma InBothLeft(x: Bits, y: Bits, b: Bits)
    ensures Both(Both(x, y), b) == b ==> Both(x, b) == b
  {
  }

  lemma InEach(x: Bits, y: Bits, b: Bits)
    ensures Both(x, b) == b && Both(y, b) == b ==> Both(Both(x, y), b) == b
  {
    assert (x & y) & b == x & (y & b);
  }

  lemma NoneHas(b: Bits)
    ensures Both(0, b) == 0
  {
  }

  // What is there after taking bits away was there before.
  lemma MinusFewer(w: Bits, x: Bits, n: Bits)
    ensures Both(w, Minus(x, n)) == w ==> Both(w, x) == w
    ensures Both(w, x) == 0 ==> Both(w, Minus(x, n)) == 0
  {
    assert w & (x & !n) == (w & x) & !n;
  }
}
