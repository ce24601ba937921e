// Powers of two and bit masks: the helpers of project/applications/abus/afifo.c:29-43 and 71-108.
module Powers {
  const WORD := 0x1_0000_0000

  function Pow2(k: nat): (p: nat)
    ensures p > 0
  {
    if k == 0 then 1 else 2 * Pow2(k - 1)
  }

  ghost predicate IsPow2(n: int) {
    exists k: nat :: n == Pow2(k)
  }

  // The C operator & on unsigned numbers, bit by bit.
  function And(x: nat, y: nat): nat
    decreases x
  {
    if x == 0 || y == 0 then 0
    else (if x % 2 == 1 && y % 2 == 1 then 1 else 0) + 2 * And(x / 2, y / 2)
  }

  lemma AndStep(x: nat, y: nat)
    ensures And(x, y) == (if x % 2 == 1 && y % 2 == 1 then 1 else 0) + 2 * And(x / 2, y / 2)
  {
  }

  lemma {:induction false} Pow2Adds(a: nat, b: nat)
    ensures Pow2(a + b) == Pow2(a) * Pow2(b)
  {
    if a == 0 {
    } else {
      Pow2Adds(a - 1, b);
      assert Pow2(a + b) == 2 * Pow2(a - 1 + b);
    }
  }

  lemma {:induction false} Pow2Grows(a: nat, b: nat)
    requires a < b
    ensures Pow2(a) < Pow2(b)
    decreases b
  {
    if a + 1 < b {
      Pow2Grows(a, b - 1);
    }
  }

  lemma Pow2Word()
    ensures Pow2(32) == WORD
    ensures Pow2(31) == 0x8000_0000
  {
    assert Pow2(4) == 16;
    Pow2Adds(4, 4);
    Pow2Adds(8, 8);
    Pow2Adds(16, 16);
    assert Pow2(32) == 2 * Pow2(31);
  }

  lemma MulAtLeast(b: nat, d: nat)
    requires d > 0
    ensures b * d >= b
  {
    assert b * d == b + b * (d - 1);
  }

  // Quotient and remainder are determined by their defining equation.
  lemma DivUnique(x: int, b: int, q: int, r: int)
    requires 0 <= r < b && x == b * q + r
    ensures x % b == r && x / b == q
  {
    var q2, r2 := x / b, x % b;
    assert x == b * q2 + r2 && 0 <= r2 < b;
    assert b * (q - q2) == r2 - r;
    assert b * (q2 - q) == r - r2;
    if q > q2 {
      MulAtLeast(b, q - q2);
    } else if q < q2 {
      MulAtLeast(b, q2 - q);
    }
  }

  // Adding a multiple of the modulus does not change the remainder.
  lemma AddMultiple(x: int, b: int, y: int)
    requires b > 0
    ensures (x + b * y) % b == x % b
  {
    var q, r := x / b, x % b;
    assert x + b * y == b * (q + y) + r by {
      assert x == b * q + r;
    }
    DivUnique(x + b * y, b, q + y, r);
  }

  // Halving commutes with taking the remainder by a power of two.
  lemma HalfRemainder(x: nat, m: nat)
    requires m > 0
    ensures x % (2 * m) == x % 2 + 2 * ((x / 2) % m)
  {
    var h := x / 2;
    var q, r := h / m, h % m;
    assert h == m * q + r;
    assert x == (2 * m) * q + (x % 2 + 2 * r) by {
      assert (2 * m) * q == 2 * (m * q);
    }
    DivUnique(x, 2 * m, q, x % 2 + 2 * r);
  }

  lemma AndZero(x: nat, y: nat)
    requires x == 0 || y == 0
    ensures And(x, y) == 0
  {
  }

  lemma LowMask(m: nat)
    requires m > 0
    ensures (2 * m - 1) % 2 == 1 && (2 * m - 1) / 2 == m - 1
  {
  }

  /** Masking with size - 1 is the remainder by size, for a power of two. */
  lemma {:induction false} MaskIsRemainder(x: nat, k: nat)
    ensures And(x, Pow2(k) - 1) == x % Pow2(k)
    decreases k
  {
    hide And;
    if k == 0 {
      AndZero(x, 0);
    } else if x == 0 {
      AndZero(x, Pow2(k) - 1);
    } else {
      var m := Pow2(k - 1);
      MaskIsRemainder(x / 2, k - 1);
      MaskStep(x, m);
    }
  }

  lemma MaskStep(x: nat, m: nat)
    requires m > 0 && And(x / 2, m - 1) == (x / 2) % m
    ensures And(x, 2 * m - 1) == x % (2 * m)
  {
    hide And;
    HalfRemainder(x, m);
    LowMask(m);
    AndStep(x, 2 * m - 1);
  }

  lemma MulAssoc(a: int, b: int, c: int)
    ensures a * b * c == a * (b * c)
  {
  }

  lemma ProductRemainder(a: nat, w: nat, b: nat, c: nat)
    requires w == b * c && b > 0 && c > 0
    ensures w > 0 && (a % w) % b == a % b
  {
    MulAtLeast(b, c);
    var q, r := a / w, a % w;
    assert a == r + w * q;
    MulAssoc(b, c, q);
    AddMultiple(r, b, c * q);
  }

  /** The remainder by a power of two does not see the wrap of a 32-bit counter. */
  lemma WrapKeepsRemainder(a: nat, k: nat)
    requires k <= 32
    ensures (a % WORD) % Pow2(k) == a % Pow2(k)
  {
    hide Pow2;
    Pow2Adds(k, 32 - k);
    Pow2Word();
    ProductRemainder(a, WORD, Pow2(k), Pow2(32 - k));
  }

  // A power of two is unchanged by dropping one factor of two, and an odd number above one has none.
  lemma HalfIsPow2(n: int)
    requires n > 1
    ensures IsPow2(n) <==> n % 2 == 0 && IsPow2(n / 2)
  {
    if IsPow2(n) {
      var k: nat :| n == Pow2(k);
      assert n / 2 == Pow2(k - 1);
    }
    if n % 2 == 0 && IsPow2(n / 2) {
      var k: nat :| n / 2 == Pow2(k);
      assert n == Pow2(k + 1);
    }
  }

  method IsPowerOf2(m: int) returns (yes: bool)
    ensures yes <==> IsPow2(m)
  {
    if m <= 0 {
      return false;
    }
    assert 1 == Pow2(0);
    if m == 1 {
      return true;
    }
    var n := m;
    while n != 1
      invariant n >= 1
      invariant IsPow2(n) <==> IsPow2(m)
      decreases n
    {
      HalfIsPow2(n);
      if n % 2 == 0 {
        n := n / 2;
      } else {
        return false;
      }
    }
    return true;
  }

  // i is x shifted right until p of its values fall together.
  predicate Shifted(x: nat, i: nat, p: nat) {
    i * p <= x < (i + 1) * p
  }

  lemma ShiftOnce(x: nat, i: nat, p: nat)
    requires i > 0 && Shifted(x, i, p)
    ensures Shifted(x, i / 2, 2 * p)
    ensures p <= x
  {
    var h := i / 2;
    assert h * (2 * p) == (2 * h) * p;
    assert (h + 1) * (2 * p) == (2 * h + 2) * p;
    MulAtLeast(p, i);
    if i == 2 * h {
      assert (2 * h + 2) * p == (i + 1) * p + p;
    } else {
      assert (2 * h) * p == i * p - p;
    }
  }

  lemma ShiftedOut(x: nat, p: nat)
    ensures Shifted(x, 0, p) <==> x < p
  {
  }

  lemma FirstShift(x: nat)
    ensures Shifted(x, x / 2, Pow2(1))
  {
  }

  lemma BitsOfWord(x: nat, r: nat)
    requires x < WORD && r > 0 && Pow2(r - 1) <= x
    ensures r <= 32
  {
    if r > 32 {
      Pow2Word();
      if r > 33 {
        Pow2Grows(32, r - 1);
      }
    }
  }

  // One plus the position of the highest set bit; 0 for 0, where the source's position wraps from -1.
  method Fls(x: nat) returns (r: nat)
    requires x < WORD
    ensures x < Pow2(r)
    ensures x != 0 ==> r > 0 && Pow2(r - 1) <= x
    ensures x == 0 ==> r == 0
    ensures r <= 32
  {
    hide Shifted;
    var position: int;
    if x != 0 {
      var i := x / 2;
      position := 0;
      FirstShift(x);
      while i != 0
        invariant position >= 0 && i >= 0
        invariant Shifted(x, i, Pow2(position + 1))
        invariant Pow2(position) <= x
        decreases i
      {
        ShiftOnce(x, i, Pow2(position + 1));
        position := position + 1;
        i := i / 2;
      }
      ShiftedOut(x, Pow2(position + 1));
      BitsOfWord(x, position + 1);
    } else {
      position := -1;
    }
    r := position + 1;
  }

  // The least power of two that is not below n.
  ghost predicate LeastPow2(p: int, n: int) {
    IsPow2(p) && n <= p && forall k: nat :: n <= Pow2(k) ==> p <= Pow2(k)
  }

  lemma LeastAbove(n: nat, k: nat)
    requires n <= Pow2(k)
    requires k > 0 ==> Pow2(k - 1) < n
    ensures LeastPow2(Pow2(k), n)
  {
    forall j: nat | n <= Pow2(j)
      ensures Pow2(k) <= Pow2(j)
    {
      if j < k && j < k - 1 {
        Pow2Grows(j, k - 1);
      }
      if k < j {
        Pow2Grows(k, j);
      }
    }
  }

  // The result of 1 << fls(size - 1). For size 0 the subtraction wraps and the shift is by 32,
  // which C leaves undefined; that call is excluded here and reported by Afifo.Alloc.
  method RoundupPowOfTwo(size: nat) returns (r: nat)
    requires 1 <= size <= 0x8000_0000
    ensures LeastPow2(r, size)
    ensures r <= 0x8000_0000
  {
    var k := Fls(size - 1);
    r := Pow2(k);
    LeastAbove(size, k);
    Pow2Word();
    assert size <= Pow2(31);
  }
}
