/** Bins of dlmalloc: which tree bin holds which chunk sizes, on a 64-bit size_t. */
module DlIndex {
  import opened Bits

  const NTREEBINS := 32
  const TREEBIN_SHIFT := 8
  const MIN_LARGE_SIZE := 0x100
  const SIZE_T_LIMIT := 0x1_0000_0000_0000_0000

  /** 32-bit arithmetic of the branch-free index computation. */
  function U32(x: int): nat { x % 0x1_0000_0000 }

  /** `((y - t) >> 16) & n` for n a power of two. */
  function Amount(y: int, t: int, n: nat): nat
    requires n >= 1
  {
    U32(y - t) / 0x10000 / n % 2 * n
  }

  /** `y << n` */
  function Shl32(y: int, n: nat): nat {
    U32(y * Pow2(n))
  }

  /** The variable K of compute_tree_index: masked subtractions find the shift that
      normalises X, and a last bit of the shifted value finishes the logarithm. */
  function LogK(x: nat): nat {
    var n0 := Amount(x, 0x100, 8);
    var y1 := Shl32(x, n0);
    var k1 := Amount(y1, 0x1000, 4);
    var y2 := Shl32(y1, k1);
    var k2 := Amount(y2, 0x4000, 2);
    var y3 := Shl32(y2, k2);
    U32(14 - (n0 + k1 + k2) + y3 / 0x8000)
  }

  /** compute_tree_index, the portable variant. */
  function ComputeTreeIndex(s: nat): nat {
    var x := s / 256;
    if x == 0 then 0
    else if x > 0xFFFF then NTREEBINS - 1
    else
      var k := LogK(x);
      2 * k + Shr(s, k + (TREEBIN_SHIFT - 1)) % 2
  }

  /** minsize_for_tree_index */
  function MinSize(i: nat): nat {
    Or(Pow2(i / 2 + TREEBIN_SHIFT), i % 2 * Pow2(i / 2 + TREEBIN_SHIFT - 1))
  }

  /** bit_for_tree_index */
  function BitForIndex(i: nat): nat {
    if i == NTREEBINS - 1 then 63 else i / 2 + TREEBIN_SHIFT - 2
  }

  /** leftshift_for_tree_index */
  function LeftShift(i: nat): nat
    requires i < NTREEBINS
  {
    if i == NTREEBINS - 1 then 0 else 63 - (i / 2 + TREEBIN_SHIFT - 2)
  }

  /** The sizes bin i is for. */
  predicate InBin(s: nat, i: nat) {
    i < NTREEBINS && MinSize(i) <= s && (i < NTREEBINS - 1 ==> s < MinSize(i + 1))
  }

  /** minsize is a power of two, or one and a half of it. */
  lemma MinSizeValue(i: nat)
    ensures MinSize(i) == (2 + i % 2) * Pow2(i / 2 + 7)
    ensures MinSize(i + 1) == MinSize(i) + Pow2(i / 2 + 7)
  {
    MinSizeSum(i);
    MinSizeSum(i + 1);
    if i % 2 == 1 { assert (i + 1) / 2 + 7 == i / 2 + 8; }
  }

  lemma MinSizeSum(i: nat)
    ensures MinSize(i) == (2 + i % 2) * Pow2(i / 2 + 7)
  {
    assert Pow2(i / 2 + 8) == 2 * Pow2(i / 2 + 7);
    OrDisjoint(1, i % 2 * Pow2(i / 2 + 7), i / 2 + 8);
  }

  /** Subtracting t borrows from the upper half exactly when y < t; the mask turns the
      borrow into a shift distance. */
  lemma Borrow(y: int, t: int, n: nat)
    requires 1 <= y <= 0xFFFF && ((t == 0x100 && n == 8) || (t == 0x1000 && n == 4) || (t == 0x4000 && n == 2))
    ensures Amount(y, t, n) == (if y < t then n else 0)
    ensures Shl32(y, Amount(y, t, n)) == if y >= t then y else if n == 8 then 256 * y else if n == 4 then 16 * y
      else 4 * y
  {
    hide Pow2, U32;
    Powers();
    UpperHalf(y, t);
    U32Small(y * Pow2(Amount(y, t, n)));
  }

  /** The upper half of a difference is all ones or all zeros. */
  lemma UpperHalf(y: int, t: int)
    requires 0 <= y <= 0xFFFF && 0 <= t <= 0xFFFF
    ensures U32(y - t) / 0x10000 == if y < t then 0xFFFF else 0
  {
    if y < t { assert U32(y - t) == 0x1_0000_0000 + y - t; }
  }

  lemma U32Small(x: int)
    requires 0 <= x < 0x1_0000_0000
    ensures U32(x) == x
  {
  }

  /** The normalisation: x shifted left until its top bit is bit 14 or 15. */
  lemma Normalise(x: nat) returns (n: nat, y3: int)
    requires 1 <= x <= 0xFFFF
    ensures 0x4000 <= y3 <= 0xFFFF && LogK(x) == 14 - n + y3 / 0x8000
    ensures (n, y3) in {(0, x), (2, 4 * x), (4, 16 * x), (6, 64 * x), (8, 256 * x), (10, 1024 * x),
                        (12, 4096 * x), (14, 16384 * x)}
  {
    hide Amount, Shl32, Pow2;
    Borrow(x, 0x100, 8);
    var y1: int := if x < 0x100 then x * 256 else x;
    Borrow(y1, 0x1000, 4);
    var y2: int := if y1 < 0x1000 then y1 * 16 else y1;
    Borrow(y2, 0x4000, 2);
    y3 := if y2 < 0x4000 then y2 * 4 else y2;
    n := (if x < 0x100 then 8 else 0) + (if y1 < 0x1000 then 4 else 0) + (if y2 < 0x4000 then 2 else 0);
  }

  /** The computed logarithm is the position of the highest bit of x. */
  lemma LogOfX(x: nat)
    requires 1 <= x <= 0xFFFF
    ensures LogK(x) <= 15 && Pow2(LogK(x)) <= x < 2 * Pow2(LogK(x))
  {
    hide LogK;
    var n, y3 := Normalise(x);
    Powers();
  }

  /** Bins do not overlap. */
  lemma BinsDisjoint(s: nat, i: nat, j: nat)
    requires InBin(s, i) && InBin(s, j)
    ensures i == j
  {
    hide MinSize;
    if j < i { MinSizeGrows(j + 1, i); }
    if i < j { MinSizeGrows(i + 1, j); }
  }

  /** The computed bin is the bin for the size. */
  lemma IndexInBin(s: nat)
    requires MIN_LARGE_SIZE <= s < SIZE_T_LIMIT
    ensures InBin(s, ComputeTreeIndex(s))
  {
    var x := s / 256;
    if x > 0xFFFF {
      TopBin();
    } else {
      hide LogK, Shr, MinSize, Pow2;
      LogOfX(x);
      OctaveBin(s, LogK(x));
    }
  }

  lemma OctaveBin(s: nat, k: nat)
    requires k <= 15 && Pow2(k) <= s / 256 < 2 * Pow2(k)
    ensures InBin(s, 2 * k + Shr(s, k + 7) % 2)
  {
    hide Shr, MinSize, Pow2;
    ShrDiv(s, k + 7);
    PowSum(k);
    HalfOfOctave(s, Pow2(k + 7));
    MinSizeValue(2 * k + Shr(s, k + 7) % 2);
  }

  /** ... and the only one. */
  lemma IndexUnique(s: nat, i: nat)
    requires MIN_LARGE_SIZE <= s < SIZE_T_LIMIT
    ensures InBin(s, i) <==> i == ComputeTreeIndex(s)
  {
    IndexInBin(s);
    if InBin(s, i) { BinsDisjoint(s, i, ComputeTreeIndex(s)); }
  }

  lemma PowSum(k: nat)
    ensures Pow2(k + 8) == 256 * Pow2(k) && Pow2(k + 7) == 128 * Pow2(k)
  {
    if k > 0 { PowSum(k - 1); } else { Powers(); }
  }

  /** Within an octave [2p, 4p), the bit below the top one tells the half. */
  lemma HalfOfOctave(s: nat, p: nat)
    requires p >= 1 && 2 * p <= s < 4 * p
    ensures s / p % 2 == if s < 3 * p then 0 else 1
  {
    if s < 3 * p { DivUnique(s, p, 2); } else { DivUnique(s, p, 3); }
  }

  lemma TopBin()
    ensures MinSize(31) == 0xC0_0000
  {
    MinSizeValue(31);
    PowSum(15);
    Powers();
  }

  lemma MinSizeGrows(i: nat, j: nat)
    requires i <= j
    ensures MinSize(i) <= MinSize(j)
  {
    if i < j {
      MinSizeGrows(i, j - 1);
      MinSizeValue(j - 1);
    }
  }

  /** A larger chunk never goes to a lower bin. */
  lemma IndexMonotone(s: nat, t: nat)
    requires MIN_LARGE_SIZE <= s <= t < SIZE_T_LIMIT
    ensures ComputeTreeIndex(s) <= ComputeTreeIndex(t) < NTREEBINS
  {
    hide ComputeTreeIndex, MinSize;
    IndexInBin(s);
    IndexInBin(t);
    var i, j := ComputeTreeIndex(s), ComputeTreeIndex(t);
    if j < i { MinSizeGrows(j + 1, i); }
  }

  lemma Powers()
    ensures Pow2(0) == 1 && Pow2(1) == 2 && Pow2(2) == 4 && Pow2(3) == 8 && Pow2(4) == 0x10 && Pow2(5) == 0x20
    ensures Pow2(6) == 0x40 && Pow2(7) == 0x80 && Pow2(8) == 0x100 && Pow2(9) == 0x200 && Pow2(10) == 0x400
    ensures Pow2(11) == 0x800 && Pow2(12) == 0x1000 && Pow2(13) == 0x2000 && Pow2(14) == 0x4000 && Pow2(15) == 0x8000
    ensures Pow2(16) == 0x10000
  {
  }
}
