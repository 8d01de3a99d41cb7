/** The tree bins of dlmalloc as bitwise tries in a memory of chunks: what it means to be
    well formed, and what follows about sizes along paths. */
module DlTrie {
  import opened Bits
  import opened DlIndex

  /** Addresses; 0 is the null pointer. */
  type Addr = nat

  /** The parent field of a tree chunk: null for the chained members of a ring, the bin for
      a root, else another tree chunk. */
  datatype Parent = NoParent | BinSlot(i: nat) | Above(a: Addr)

  /** A chunk header with the link fields that overlay its free space.  `size` and the two
      in-use bits are the parts of the head word. */
  datatype Chunk = Chunk(prevFoot: nat, size: nat, pinuse: bool, cinuse: bool,
                         fd: Addr, bk: Addr, child0: Addr, child1: Addr, parent: Parent, index: nat)
  {
    function Child(b: bool): Addr { if b then child1 else child0 }
    function SetChild(b: bool, a: Addr): Chunk { if b then this.(child1 := a) else this.(child0 := a) }
  }

  type Memory = map<Addr, Chunk>

  const NO_CHUNK := Chunk(0, 0, false, false, 0, 0, 0, 0, NoParent, 0)

  /** The chunk at an address, for specifications: total, with a dummy where there is none. */
  function At(mem: Memory, a: Addr): Chunk {
    if a in mem then mem[a] else NO_CHUNK
  }

  /** Place of a node: its bin and the branches from the root. */
  datatype Pos = Pos(bin: nat, bits: seq<bool>)

  // --------------------------------------------------------------- places

  function Height(i: nat): nat {
    if i == NTREEBINS - 1 then 64 else i / 2 + TREEBIN_SHIFT - 1
  }

  ghost predicate ValidPos(p: Pos) {
    p.bin < NTREEBINS && |p.bits| <= Height(p.bin)
  }

  function Width(p: Pos): nat
    requires ValidPos(p)
  {
    Pow2(Height(p.bin) - |p.bits|)
  }

  function Init(p: Pos): Pos
    requires p.bits != []
  {
    Pos(p.bin, p.bits[..|p.bits| - 1])
  }

  function Last(p: Pos): bool
    requires p.bits != []
  {
    p.bits[|p.bits| - 1]
  }

  function Down(p: Pos, b: bool): Pos { Pos(p.bin, p.bits + [b]) }

  /** Least size that belongs at or below a place. */
  function Lo(p: Pos): nat
    requires ValidPos(p)
    decreases |p.bits|
  {
    if p.bits == [] then (if p.bin == NTREEBINS - 1 then 0 else MinSize(p.bin))
    else Lo(Init(p)) + (if Last(p) then Width(p) else 0)
  }

  ghost predicate InRegion(s: nat, p: Pos) {
    ValidPos(p) && Lo(p) <= s < Lo(p) + Width(p)
  }

  lemma DownRegion(p: Pos, b: bool)
    requires ValidPos(p) && |p.bits| < Height(p.bin)
    ensures ValidPos(Down(p, b)) && Width(p) == 2 * Width(Down(p, b))
    ensures Lo(Down(p, b)) == Lo(p) + (if b then Width(Down(p, b)) else 0)
  {
    assert Init(Down(p, b)) == p;
  }

  /** Deeper places cover parts of what the places above them cover. */
  lemma {:induction false} RegionNested(p: Pos, q: Pos)
    requires ValidPos(q) && p.bin == q.bin && p.bits <= q.bits
    ensures ValidPos(p) && Lo(p) <= Lo(q) && Lo(q) + Width(q) <= Lo(p) + Width(p)
    decreases |q.bits|
  {
    if p.bits != q.bits {
      var r := Init(q);
      RegionNested(p, r);
      DownRegion(r, Last(q));
      assert Down(r, Last(q)) == q;
    }
  }

  lemma Pow64()
    ensures Pow2(64) == SIZE_T_LIMIT
  {
    PowAdd(32, 32);
    PowAdd(16, 16);
    Powers();
  }

  lemma {:induction false} PowAdd(a: nat, b: nat)
    ensures Pow2(a + b) == Pow2(a) * Pow2(b)
  {
    if a > 0 { PowAdd(a - 1, b); }
  }

  /** Each size of a bin belongs below its root. */
  lemma RootRegion(s: nat, i: nat)
    requires InBin(s, i) && s < SIZE_T_LIMIT
    ensures InRegion(s, Pos(i, []))
  {
    hide MinSize;
    if i == 31 { Pow64(); } else { MinSizeValue(i); }
  }

  // ------------------------------------------------- the shifted size as a key

  /** The loop variable that holds the bits of s still to be followed at p, left-justified. */
  ghost function Key(s: nat, p: Pos): int
    requires ValidPos(p)
  {
    (s - Lo(p)) * Pow2(64 - Height(p.bin) + |p.bits|)
  }

  lemma ScaleTimesWidth(p: Pos)
    requires ValidPos(p)
    ensures Width(p) * Pow2(64 - Height(p.bin) + |p.bits|) == SIZE_T_LIMIT
  {
    PowAdd(Height(p.bin) - |p.bits|, 64 - Height(p.bin) + |p.bits|);
    Pow64();
  }

  lemma ModShift(x: int, k: nat, r: nat, m: nat)
    requires m > 0 && r < m && x == k * m + r
    ensures x % m == r
  {
    DivUnique(x, m, k);
    assert m * k == k * m;
  }

  lemma MulLess(a: nat, w: nat, sc: nat)
    requires a < w && sc > 0
    ensures a * sc < w * sc
  {
    MulStep(sc, a, w);
  }

  /** S << leftshift_for_tree_index(I) in 64 bits. */
  lemma KeyStart(s: nat, i: nat)
    requires InBin(s, i) && s < SIZE_T_LIMIT
    ensures ValidPos(Pos(i, [])) && (s * Pow2(LeftShift(i))) % SIZE_T_LIMIT == Key(s, Pos(i, []))
  {
    hide MinSize, Pow2;
    if i == NTREEBINS - 1 {
      assert Pow2(0) == 1 by { Powers(); }
    } else {
      var p := Pos(i, []);
      ScaleTimesWidth(p);
      MinSizeValue(i);
      ShiftOut(s, 2 + i % 2, Width(p), Pow2(LeftShift(i)));
    }
  }

  lemma ShiftOut(s: nat, h: nat, w: nat, sc: nat)
    requires w * sc == SIZE_T_LIMIT && h * w <= s < h * w + w
    ensures (s * sc) % SIZE_T_LIMIT == (s - h * w) * sc
  {
    MulLess(s - h * w, w, sc);
    Distribute(h * w, s - h * w, sc);
    Reassoc(h, w, sc);
    ModShift(s * sc, h, (s - h * w) * sc, SIZE_T_LIMIT);
  }

  lemma Distribute(a: int, b: int, c: int)
    ensures (a + b) * c == a * c + b * c
  {
  }

  lemma Reassoc(a: int, b: int, c: int)
    ensures a * b * c == a * (b * c)
  {
  }

  /** The top bit of the key is the branch to take, and doubling the key moves it down. */
  lemma KeyStep(s: nat, p: Pos)
    requires InRegion(s, p) && |p.bits| < Height(p.bin)
    ensures 0 <= Key(s, p) < SIZE_T_LIMIT
    ensures var b := Key(s, p) / 0x8000_0000_0000_0000 % 2 == 1;
      InRegion(s, Down(p, b)) && 2 * Key(s, p) % SIZE_T_LIMIT == Key(s, Down(p, b))
  {
    hide Lo, Pow2;
    DownRegion(p, false);
    DownRegion(p, true);
    ScaleTimesWidth(p);
    PowAdd(1, 64 - Height(p.bin) + |p.bits|);
    Powers();
    KeyArithmetic(s - Lo(p), Width(Down(p, true)), Pow2(64 - Height(p.bin) + |p.bits|));
    SignArithmetic(Key(s, p));
    hide Width;
  }

  lemma SignArithmetic(k: int)
    requires 0 <= k < SIZE_T_LIMIT
    ensures k / 0x8000_0000_0000_0000 % 2 == 1 <==> k >= 0x8000_0000_0000_0000
    ensures 2 * k % SIZE_T_LIMIT == if k >= 0x8000_0000_0000_0000 then 2 * k - SIZE_T_LIMIT else 2 * k
  {
  }

  lemma KeyArithmetic(d: nat, half: nat, sc: nat)
    requires 2 * half * sc == SIZE_T_LIMIT && d < 2 * half
    ensures d * sc < SIZE_T_LIMIT
    ensures d < half ==> d * sc < 0x8000_0000_0000_0000 && 2 * (d * sc) == d * (2 * sc)
    ensures d >= half ==> d * sc >= 0x8000_0000_0000_0000 && 2 * (d * sc) - SIZE_T_LIMIT == (d - half) * (2 * sc)
  {
    assert half * sc == 0x8000_0000_0000_0000 by { Reassoc(2, half, sc); }
    if d < half {
      MulLess(d, half, sc);
    } else {
      Distribute(half, d - half, sc);
      MulLess(d - half, half, sc);
    }
  }

  /** Sizes of one bin agree above its resolved bit, and some sizes of the bin differ in it. */
  lemma ResolvedBit(s: nat, t: nat, i: nat)
    requires InBin(s, i) && InBin(t, i) && s < SIZE_T_LIMIT && t < SIZE_T_LIMIT
    ensures LeftShift(i) + BitForIndex(i) == 63
    ensures s / Pow2(BitForIndex(i) + 1) == t / Pow2(BitForIndex(i) + 1)
    ensures InBin(MinSize(i), i) && InBin(MinSize(i) + Pow2(BitForIndex(i)), i)
    ensures MinSize(i) + Pow2(BitForIndex(i)) < SIZE_T_LIMIT
  {
    hide MinSize;
    MinSizeValue(i);
    if i == NTREEBINS - 1 {
      Pow64();
      TopBin();
    } else {
      var half := Pow2(i / 2 + 6);
      assert Pow2(i / 2 + 7) == 2 * half;
      BelowTopBin(i);
      hide Pow2;
      SameOctave(s, 2 + i % 2, half);
      SameOctave(t, 2 + i % 2, half);
    }
  }

  lemma BelowTopBin(i: nat)
    requires i < NTREEBINS - 1
    ensures MinSize(i) + Pow2(i / 2 + 6) < SIZE_T_LIMIT
  {
    hide MinSize, Pow2;
    MinSizeValue(i);
    MinSizeGrows(i + 1, NTREEBINS - 1);
    TopBin();
    assert Pow2(i / 2 + 7) == 2 * Pow2(i / 2 + 6) by { PowAdd(1, i / 2 + 6); Powers(); }
  }

  /** The left shift of bin i brings its resolved bit to the sign position. */
  lemma LeftShiftPlaces(s: nat, i: nat)
    requires InBin(s, i) && s < SIZE_T_LIMIT
    ensures s * Pow2(LeftShift(i)) % SIZE_T_LIMIT >= 0x8000_0000_0000_0000 <==> s / Pow2(BitForIndex(i)) % 2 == 1
  {
    hide MinSize, Pow2;
    if i == NTREEBINS - 1 {
      TopShift(s);
    } else {
      MinSizeValue(i);
      HalfOctave(i);
      ShiftedBit(s, 2 + i % 2, Pow2(BitForIndex(i)), Pow2(LeftShift(i)));
    }
  }

  lemma TopShift(s: nat)
    requires s < SIZE_T_LIMIT
    ensures s * Pow2(0) % SIZE_T_LIMIT >= 0x8000_0000_0000_0000 <==> s / Pow2(63) % 2 == 1
  {
    hide Pow2;
    Pow64();
    PowAdd(1, 63);
    Powers();
  }

  lemma HalfOctave(i: nat)
    requires i < NTREEBINS - 1
    ensures Pow2(i / 2 + 7) == 2 * Pow2(BitForIndex(i)) && 2 * Pow2(BitForIndex(i)) * Pow2(LeftShift(i)) == SIZE_T_LIMIT
  {
    hide Pow2;
    PowAdd(1, BitForIndex(i));
    PowAdd(BitForIndex(i) + 1, LeftShift(i));
    Powers();
    Pow64();
  }

  lemma ShiftedBit(s: nat, h: nat, half: nat, sc: nat)
    requires half >= 1 && 2 * half * sc == SIZE_T_LIMIT && h * (2 * half) <= s < h * (2 * half) + 2 * half
    ensures s * sc % SIZE_T_LIMIT >= 0x8000_0000_0000_0000 <==> s / half % 2 == 1
  {
    ShiftOut(s, h, 2 * half, sc);
    KeyArithmetic(s - h * (2 * half), half, sc);
    HalfBit(s, h, half);
  }

  lemma HalfBit(s: nat, h: nat, half: nat)
    requires half >= 1 && h * (2 * half) <= s < h * (2 * half) + 2 * half
    ensures s / half % 2 == 1 <==> s - h * (2 * half) >= half
  {
    assert h * (2 * half) == half * (2 * h);
    if s - h * (2 * half) >= half {
      DivUnique(s, half, 2 * h + 1);
    } else {
      DivUnique(s, half, 2 * h);
    }
  }

  lemma SameOctave(s: nat, h: nat, half: nat)
    requires half >= 1 && h * (2 * half) <= s < h * (2 * half) + 2 * half
    ensures s / (2 * half) == h
  {
    DivUnique(s, 2 * half, h);
  }
}
