/** Machine words as naturals: single bits, the bitwise operators of C, and
    the searches for the lowest set bit that the allocators rely on. */
module Bits {

  function Pow2(n: nat): (p: nat)
    ensures p >= 1
  {
    if n == 0 then 1 else 2 * Pow2(n - 1)
  }

  function Or(a: nat, b: nat): nat {
    if a == 0 then b
    else if b == 0 then a
    else 2 * Or(a / 2, b / 2) + (if a % 2 == 1 || b % 2 == 1 then 1 else 0)
  }

  /** Or with a word that lies entirely below a multiple of a power of two is addition. */
  lemma {:induction false} OrDisjoint(k: nat, b: nat, p: nat)
    requires b < Pow2(p)
    ensures Or(k * Pow2(p), b) == k * Pow2(p) + b
  {
    if p > 0 && k > 0 && b > 0 {
      var half := k * Pow2(p - 1);
      assert k * Pow2(p) == 2 * half;
      OrDisjoint(k, b / 2, p - 1);
    }
  }

  function Xor(a: nat, b: nat): nat {
    if a == 0 then b
    else if b == 0 then a
    else 2 * Xor(a / 2, b / 2) + (if a % 2 != b % 2 then 1 else 0)
  }

  lemma {:induction false} XorBelow(a: nat, b: nat, p: nat)
    requires a < Pow2(p) && b < Pow2(p)
    ensures Xor(a, b) < Pow2(p)
  {
    if p > 0 && a > 0 && b > 0 { XorBelow(a / 2, b / 2, p - 1); }
  }

  // ------------------------------------------------------------ bitmaps

  predicate Bit(m: nat, i: nat) {
    if i == 0 then m % 2 == 1 else Bit(m / 2, i - 1)
  }

  function And(a: nat, b: nat): nat {
    if a == 0 || b == 0 then 0
    else 2 * And(a / 2, b / 2) + (if a % 2 == 1 && b % 2 == 1 then 1 else 0)
  }

  /** a & ~b */
  function AndNot(a: nat, b: nat): nat {
    if a == 0 then 0
    else 2 * AndNot(a / 2, b / 2) + (if a % 2 == 1 && b % 2 == 0 then 1 else 0)
  }

  function Shr(m: nat, k: nat): nat {
    if k == 0 then m else Shr(m / 2, k - 1)
  }

  /** The word with only bit i: 1 << i. */
  lemma {:induction false} BitOfPow2(i: nat, j: nat)
    ensures Bit(Pow2(i), j) <==> i == j
  {
    if i > 0 && j > 0 { BitOfPow2(i - 1, j - 1); }
    if i == 0 && j > 0 { ZeroBits(j - 1); }
  }

  lemma {:induction false} ZeroBits(j: nat)
    ensures !Bit(0, j)
  {
    if j > 0 { ZeroBits(j - 1); }
  }

  lemma {:induction false} BitOfOr(a: nat, b: nat, j: nat)
    ensures Bit(Or(a, b), j) <==> Bit(a, j) || Bit(b, j)
  {
    ZeroBits(j);
    if a > 0 && b > 0 && j > 0 { BitOfOr(a / 2, b / 2, j - 1); }
  }

  lemma {:induction false} BitOfAnd(a: nat, b: nat, j: nat)
    ensures Bit(And(a, b), j) <==> Bit(a, j) && Bit(b, j)
  {
    ZeroBits(j);
    if a > 0 && b > 0 && j > 0 { BitOfAnd(a / 2, b / 2, j - 1); }
  }

  lemma {:induction false} BitOfAndNot(a: nat, b: nat, j: nat)
    ensures Bit(AndNot(a, b), j) <==> Bit(a, j) && !Bit(b, j)
  {
    ZeroBits(j);
    if a > 0 && j > 0 { BitOfAndNot(a / 2, b / 2, j - 1); }
  }

  lemma {:induction false} BitOfShr(m: nat, k: nat, j: nat)
    ensures Bit(Shr(m, k), j) <==> Bit(m, k + j)
  {
    if k > 0 { BitOfShr(m / 2, k - 1, j); }
  }

  /** Setting and clearing one bit, as bitmaps do. */
  function SetBit(m: nat, i: nat): (r: nat)
    ensures forall j: nat :: Bit(r, j) <==> Bit(m, j) || i == j
  {
    assert forall j: nat :: Bit(Or(m, Pow2(i)), j) <==> Bit(m, j) || i == j by {
      forall j: nat ensures Bit(Or(m, Pow2(i)), j) <==> Bit(m, j) || i == j {
        BitOfOr(m, Pow2(i), j);
        BitOfPow2(i, j);
      }
    }
    Or(m, Pow2(i))
  }

  function ClearBit(m: nat, i: nat): (r: nat)
    ensures forall j: nat :: Bit(r, j) <==> Bit(m, j) && i != j
  {
    assert forall j: nat :: Bit(AndNot(m, Pow2(i)), j) <==> Bit(m, j) && i != j by {
      forall j: nat ensures Bit(AndNot(m, Pow2(i)), j) <==> Bit(m, j) && i != j {
        BitOfAndNot(m, Pow2(i), j);
        BitOfPow2(i, j);
      }
    }
    AndNot(m, Pow2(i))
  }

  /** __ffs: the position of the lowest set bit. */
  function Lowest(m: nat): (i: nat)
    requires m > 0
    ensures Bit(m, i) && forall j: nat :: j < i ==> !Bit(m, j)
  {
    if m % 2 == 1 then 0
    else
      var i := Lowest(m / 2);
      assert forall j: nat :: j < i + 1 ==> !Bit(m, j) by {
        forall j: nat | j < i + 1 ensures !Bit(m, j) { if j > 0 { assert !Bit(m / 2, j - 1); } }
      }
      1 + i
  }

  lemma {:induction false} NonZeroHasBit(m: nat, j: nat)
    requires Bit(m, j)
    ensures m > 0
  {
    ZeroBits(j);
  }

  /** A word below 2^w has no bits from w on. */
  lemma {:induction false} NoHighBits(m: nat, w: nat, j: nat)
    requires m < Pow2(w) && j >= w
    ensures !Bit(m, j)
  {
    ZeroBits(j);
    if w > 0 { NoHighBits(m / 2, w - 1, j - 1); }
  }

  lemma {:induction false} OrBelow(a: nat, b: nat, w: nat)
    requires a < Pow2(w) && b < Pow2(w)
    ensures Or(a, b) < Pow2(w)
  {
    if w > 0 && a > 0 && b > 0 { OrBelow(a / 2, b / 2, w - 1); }
  }

  lemma {:induction false} AndNotBelow(a: nat, b: nat)
    ensures AndNot(a, b) <= a
  {
    if a > 0 { AndNotBelow(a / 2, b / 2); }
  }

  lemma {:induction false} Pow2Grows(i: nat, w: nat)
    requires i < w
    ensures 2 * Pow2(i) <= Pow2(w)
  {
    if i + 1 < w { Pow2Grows(i, w - 1); }
  }

  /** Two's complement negation of a w-bit word. */
  function Neg(x: nat, w: nat): nat
    requires x < Pow2(w)
  {
    if x == 0 then 0 else Pow2(w) - x
  }

  /** x & ~x == 0 in w bits; Pow2(w) - 1 - x is ~x. */
  lemma {:induction false} AndComplement(x: nat, w: nat)
    requires x < Pow2(w)
    ensures And(x, Pow2(w) - 1 - x) == 0
  {
    if w > 0 { AndComplement(x / 2, w - 1); }
  }

  /** x & -x isolates the lowest set bit. */
  lemma {:induction false} LeastBit(x: nat, w: nat)
    requires 0 < x < Pow2(w)
    ensures And(x, Neg(x, w)) == Pow2(Lowest(x))
  {
    if x % 2 == 1 {
      AndComplement(x / 2, w - 1);
      assert Neg(x, w) / 2 == Pow2(w - 1) - 1 - x / 2;
    } else {
      LeastBit(x / 2, w - 1);
      assert Neg(x, w) / 2 == Neg(x / 2, w - 1);
    }
  }

  /** y | -y has exactly the bits from the lowest set bit of y up. */
  lemma {:induction false} SameOrLeft(i: nat, w: nat, j: nat)
    requires i < w
    ensures Pow2(i) < Pow2(w)
    ensures Bit(Or(Pow2(i), Neg(Pow2(i), w)), j) <==> i <= j < w
  {
    Pow2Grows(i, w);
    var y := Pow2(i);
    BitOfOr(y, Neg(y, w), j);
    BitOfPow2(i, j);
    NegPow2(i, w, j);
  }

  lemma {:induction false} NegPow2(i: nat, w: nat, j: nat)
    requires i < w && Pow2(i) < Pow2(w)
    ensures Bit(Neg(Pow2(i), w), j) <==> i <= j < w
  {
    if i == 0 {
      assert Neg(Pow2(0), w) == Pow2(w) - 1;
      AllOnes(w, j);
    } else {
      Pow2Grows(i - 1, w - 1);
      assert Neg(Pow2(i), w) == 2 * Neg(Pow2(i - 1), w - 1);
      if j > 0 { NegPow2(i - 1, w - 1, j - 1); }
    }
  }

  lemma {:induction false} AllOnes(w: nat, j: nat)
    ensures Bit(Pow2(w) - 1, j) <==> j < w
  {
    if w == 0 { ZeroBits(j); }
    else if j > 0 { AllOnes(w - 1, j - 1); assert (Pow2(w) - 1) / 2 == Pow2(w - 1) - 1; }
  }

  lemma {:induction false} ShrDiv(m: nat, k: nat)
    ensures Shr(m, k) == m / Pow2(k)
  {
    if k > 0 {
      ShrDiv(m / 2, k - 1);
      DivDiv(m, Pow2(k - 1));
    }
  }

  /** Position of the highest bit: fls(x) - 1 in C. */
  function Log2(x: nat): nat
    requires x > 0
  {
    if x == 1 then 0 else 1 + Log2(x / 2)
  }

  lemma {:induction false} Log2Is(x: nat)
    requires x > 0
    ensures Pow2(Log2(x)) <= x < 2 * Pow2(Log2(x))
  {
    if x > 1 { Log2Is(x / 2); }
  }

  lemma {:induction false} Log2Unique(x: nat, k: nat)
    requires Pow2(k) <= x < 2 * Pow2(k)
    ensures Log2(x) == k
  {
    if k > 0 { Log2Unique(x / 2, k - 1); }
  }

  lemma {:induction false} Pow2Adds(i: nat, j: nat)
    ensures Pow2(i + j) == Pow2(i) * Pow2(j)
  {
    if i > 0 { Pow2Adds(i - 1, j); }
  }

  /** x & ~((1 << k) - 1) rounds x down to a multiple of 1 << k. */
  lemma {:induction false} MaskLow(x: nat, k: nat)
    ensures AndNot(x, Pow2(k) - 1) == x / Pow2(k) * Pow2(k)
  {
    hide AndNot;
    if k == 0 {
      AndNotZero(x);
    } else {
      var p := Pow2(k - 1);
      MaskLow(x / 2, k - 1);
      DivDiv(x, p);
      MaskStep(x, p);
      var q := x / (2 * p);
      TwiceTimes(q, p);
      assert AndNot(x / 2, p - 1) == q * p;
    }
  }

  lemma MaskStep(x: nat, p: nat)
    requires p > 0
    ensures AndNot(x, 2 * p - 1) == 2 * AndNot(x / 2, p - 1)
  {
    assert (2 * p - 1) / 2 == p - 1 && (2 * p - 1) % 2 == 1;
  }

  lemma TwiceTimes(q: nat, p: nat)
    ensures 2 * (q * p) == q * (2 * p)
  {
  }

  lemma {:induction false} AndNotZero(x: nat)
    ensures AndNot(x, 0) == x
  {
    if x > 0 { AndNotZero(x / 2); }
  }

  lemma DivDiv(m: nat, p: nat)
    requires p >= 1
    ensures m / 2 / p == m / (2 * p)
  {
    var q := m / 2 / p;
    assert q * p <= m / 2 < q * p + p;
    assert 2 * p * q <= m < 2 * p * q + 2 * p;
    DivUnique(m, 2 * p, q);
  }

  lemma DivUnique(m: nat, d: nat, q: nat)
    requires d >= 1 && d * q <= m < d * q + d
    ensures m / d == q
  {
    var r := m / d;
    assert d * r <= m < d * r + d;
    if r < q { MulStep(d, r, q); }
    if r > q { MulStep(d, q, r); }
  }

  lemma MulStep(d: nat, a: nat, b: nat)
    requires a < b
    ensures d * a + d <= d * b
  {
    if a + 1 < b { MulStep(d, a, b - 1); }
    assert d * (b - 1) + d == d * b;
  }

  lemma MulMono(a: nat, b: nat, w: nat)
    requires a <= b
    ensures a * w <= b * w
  {
  }

  lemma DivBounds(n: nat, s: nat)
    requires s > 0
    ensures n / s * s <= n < n / s * s + s
  {
  }

  lemma MultipleMod(q: nat, p: nat)
    requires p > 0
    ensures q * p % p == 0 && q * p / p == q
  {
    DivUnique(q * p, p, q);
  }

  lemma Regroup(m: nat, p: nat, q: nat)
    ensures m * (p * q) == (m * q) * p
  {
  }
}
