/** Best fit over all tree bins: the searches of tmalloc_large and tmalloc_small. */
module DlFit {
  import opened Bits
  import opened DlIndex
  import opened DlTrie
  import opened DlForest
  import opened DlBins
  import opened DlTreeOps

  // ------------------------------------------------------------ bin maps

  const WORD := 0x1_0000_0000

  function LeftBits(x: nat): nat
    requires x < WORD
  {
    var y := 2 * x % WORD;
    Or(y, (WORD - y) % WORD)
  }

  function LeastBitOf(x: nat): nat
    requires x < WORD
  {
    And(x, (WORD - x) % WORD)
  }

  /** `Y >> (n - lg) & n` for n = 1 << lg. */
  function HighStep(y: nat, n: nat, lg: nat): nat {
    if lg <= n then Shr(Shr(y, n - lg), lg) % 2 * n else 0
  }

  /** The five steps of compute_bit2idx, for shift distances 16, 8, 4, 2 and 1. */
  function BitSearch(y: nat, lg: nat): nat
    decreases lg
  {
    var k := HighStep(y, Pow2(lg), lg);
    if lg == 0 then k + Shr(y, k) else k + BitSearch(Shr(y, k), lg - 1)
  }

  /** compute_bit2idx, the portable variant. */
  function Bit2Idx(x: nat): nat
    requires 1 <= x
  {
    BitSearch(x - 1, 4)
  }

  lemma Pow32()
    ensures Pow2(32) == WORD
  {
    PowAdd(16, 16);
    Powers();
  }

  lemma LeftBitsOf(idx: nat, j: nat)
    requires idx < 32
    ensures Pow2(idx) < WORD
    ensures Bit(LeftBits(Pow2(idx)), j) <==> idx < j < 32
  {
    hide Bit, Or;
    Pow32();
    Pow2Grows(idx, 32);
    assert 2 * Pow2(idx) == Pow2(idx + 1);
    hide Pow2;
    if idx == 31 {
      assert LeftBits(Pow2(31)) == Or(0, 0) == 0 by { OrZero(); }
      ZeroBits(j);
    } else {
      Pow2Grows(idx + 1, 32);
      SameOrLeft(idx + 1, 32, j);
    }
  }

  lemma OrZero()
    ensures Or(0, 0) == 0
  {
  }

  /** Least set bit of a map, and its index. */
  lemma LeastIndex(m: nat)
    requires 0 < m < WORD
    ensures LeastBitOf(m) >= 1 && Bit2Idx(LeastBitOf(m)) == Lowest(m) && Lowest(m) < 32
  {
    hide And, Bit2Idx, Bit, Pow2;
    Pow32();
    LeastBit(m, 32);
    if Lowest(m) >= 32 { NoHighBits(m, 32, Lowest(m)); }
    Bit2IdxOfPow2(Lowest(m));
  }

  lemma BelowPow(y: nat, k: nat)
    requires y == Pow2(k) - 1
    ensures k > 0 ==> y % 2 == 1 && y / 2 == Pow2(k - 1) - 1
  {
  }

  lemma {:induction false} ShrOnes(k: nat, n: nat)
    requires n <= k
    ensures Shr(Pow2(k) - 1, n) == Pow2(k - n) - 1
  {
    if n > 0 { BelowPow(Pow2(k) - 1, k); ShrOnes(k - 1, n - 1); }
  }

  lemma {:induction false} MaskOnes(k: nat, n: nat)
    ensures Shr(Pow2(k) - 1, n) % 2 == if n < k then 1 else 0
  {
    if n <= k {
      ShrOnes(k, n);
    } else {
      ShrOnes(k, k);
      ShrMore(Pow2(k) - 1, k, n);
    }
  }

  lemma {:induction false} ShrMore(m: nat, a: nat, b: nat)
    requires a <= b && Shr(m, a) == 0
    ensures Shr(m, b) == 0
  {
    if a > 0 { ShrMore(m / 2, a - 1, b - 1); }
    else if b > 0 { ShrMore(m / 2, 0, b - 1); }
  }

  lemma {:induction false} ShrShr(m: nat, a: nat, b: nat)
    ensures Shr(Shr(m, a), b) == Shr(m, a + b)
  {
    if a > 0 { ShrShr(m / 2, a - 1, b); }
  }

  /** One step of the search: it subtracts n from the exponent when that exceeds n. */
  lemma StepOnPow2(i: nat, n: nat, lg: nat)
    requires lg <= n
    ensures HighStep(Pow2(i) - 1, n, lg) == (if i > n then n else 0)
    ensures Shr(Pow2(i) - 1, HighStep(Pow2(i) - 1, n, lg)) == Pow2(if i > n then i - n else i) - 1
  {
    ShrShr(Pow2(i) - 1, n - lg, lg);
    MaskOnes(i, n);
    if i > n { ShrOnes(i, n); } else { ShrOnes(i, 0); }
  }

  lemma {:induction false} LgBelow(lg: nat)
    ensures lg <= Pow2(lg)
  {
    if lg > 0 { LgBelow(lg - 1); }
  }

  lemma {:induction false} SearchFinds(i: nat, lg: nat)
    requires i <= 2 * Pow2(lg)
    ensures BitSearch(Pow2(i) - 1, lg) == i
  {
    hide HighStep, Shr;
    LgBelow(lg);
    StepOnPow2(i, Pow2(lg), lg);
    var i' := if i > Pow2(lg) then i - Pow2(lg) else i;
    if lg == 0 { Powers(); } else { SearchFinds(i', lg - 1); }
  }

  lemma Bit2IdxOfPow2(i: nat)
    requires i < 32
    ensures Bit2Idx(Pow2(i)) == i
  {
    Powers();
    SearchFinds(i, 4);
  }

  // ------------------------------------------------------------- best fit

  /** Unsigned subtraction of size_t. */
  function Sub(a: nat, b: nat): nat { (a - b) % SIZE_T_LIMIT }

  /** v is the best node found so far for a request of nb bytes, null if none fits; rsize is
      what it leaves over, or -nb. */
  ghost predicate Best(mem: Memory, path: Paths, nb: nat, v: Addr, rsize: nat) {
    if v == 0 then rsize == SIZE_T_LIMIT - nb
    else v in path && v in mem && At(mem, v).size >= nb && rsize == At(mem, v).size - nb
  }

  /** Node m need not be considered any more: too small, or no better than v. */
  ghost predicate Settled(mem: Memory, nb: nat, v: Addr, rsize: nat, m: Addr) {
    At(mem, m).size < nb || (v != 0 && rsize + nb <= At(mem, m).size)
  }

  /** The test `trem < rsize` on wrapped differences improves v exactly when t fits better. */
  lemma WrappedTest(mem: Memory, path: Paths, nb: nat, v: Addr, rsize: nat, t: Addr)
    requires Best(mem, path, nb, v, rsize) && 0 < nb < SIZE_T_LIMIT && At(mem, t).size < SIZE_T_LIMIT
    requires v != 0 ==> At(mem, v).size < SIZE_T_LIMIT
    ensures Sub(At(mem, t).size, nb) < rsize <==> At(mem, t).size >= nb && (v == 0 || At(mem, t).size < At(mem, v).size)
    ensures At(mem, t).size >= nb ==> Sub(At(mem, t).size, nb) == At(mem, t).size - nb
  {
  }

  method Consider(mem: Memory, nb: nat, v0: Addr, rsize0: nat, t: Addr, ghost bins: seq<Addr>, ghost tmap: nat,
      ghost path: Paths)
    returns (v: Addr, rsize: nat)
    requires TreesOk(mem, bins, tmap, path) && Best(mem, path, nb, v0, rsize0) && 0 < nb < SIZE_T_LIMIT
    requires t in path && t in mem
    ensures Best(mem, path, nb, v, rsize) && Settled(mem, nb, v, rsize, t)
    ensures forall m :: Settled(mem, nb, v0, rsize0, m) ==> Settled(mem, nb, v, rsize, m)
    ensures mem[t].size >= nb || v0 != 0 ==> v != 0
    ensures (v == v0 && rsize == rsize0) || v == t
    ensures (rsize == 0 ==> v != 0) && (v0 != 0 && rsize0 == 0 ==> v != 0 && rsize == 0)
  {
    hide InRegion, InBin;
    assert Placed(At(mem, t), path[t]);
    if v0 != 0 { assert Placed(At(mem, v0), path[v0]); }
    NodesPresent(mem, bins, tmap, path);
    WrappedTest(mem, path, nb, v0, rsize0, t);
    v, rsize := v0, rsize0;
    var trem := Sub(mem[t].size, nb);
    if trem < rsize {
      rsize := trem;
      v := t;
    }
  }

  /** leftmost_child */
  function LeftmostChild(c: Chunk): Addr {
    if c.child0 != 0 then c.child0 else c.child1
  }

  /** Below t, everything but t itself lies below its leftmost child or is larger than it. */
  lemma LeftmostStep(mem: Memory, bins: seq<Addr>, tmap: nat, path: Paths, t: Addr, m: Addr)
    requires TreesOk(mem, bins, tmap, path) && t in path && Below(path, m, t) && m != t
    ensures var c := LeftmostChild(At(mem, t));
      c != 0 && c in path && c in mem && |path[t].bits| < |path[c].bits|
        && (Below(path, m, c) || At(mem, c).size < At(mem, m).size)
  {
    hide InRegion, InBin, ValidPos;
    NodesPresent(mem, bins, tmap, path);
    BelowChild(mem, bins, path, m, t);
    assert ChildLinked(mem, path, t, false) && ChildLinked(mem, path, t, true);
    assert At(mem, t).Child(false) == At(mem, t).child0 && At(mem, t).Child(true) == At(mem, t).child1;
    var b := path[m].bits[|path[t].bits|];
    if b && At(mem, t).child0 != 0 {
      BelowRegion(mem, path, At(mem, t).child0, At(mem, t).child0);
      BelowRegion(mem, path, m, At(mem, t).child1);
      ChildDepth(mem, bins, tmap, path, t, true);
      HalvesOrdered(path[t], At(mem, At(mem, t).child0).size, At(mem, m).size);
    }
  }

  lemma ChildDepth(mem: Memory, bins: seq<Addr>, tmap: nat, path: Paths, t: Addr, b: bool)
    requires TreesOk(mem, bins, tmap, path) && t in path && At(mem, t).Child(b) != 0
    ensures ValidPos(path[t]) && |path[t].bits| < Height(path[t].bin)
  {
    ChildBelow(mem, bins, tmap, path, t, t, b);
    assert Placed(At(mem, t), path[t]);
  }

  lemma DepthBound(mem: Memory, bins: seq<Addr>, tmap: nat, path: Paths, t: Addr)
    requires TreesOk(mem, bins, tmap, path) && t in path
    ensures |path[t].bits| <= Height(path[t].bin) && t in mem && t != 0
  {
    assert Placed(At(mem, t), path[t]);
  }

  lemma LeftmostLink(mem: Memory, bins: seq<Addr>, tmap: nat, path: Paths, t: Addr)
    requires TreesOk(mem, bins, tmap, path) && t in path && LeftmostChild(At(mem, t)) != 0
    ensures var c := LeftmostChild(At(mem, t));
      c in path && c in mem && path[c].bin == path[t].bin && |path[c].bits| == |path[t].bits| + 1
    ensures Below(path, LeftmostChild(At(mem, t)), t)
  {
    hide InRegion, InBin;
    NodesPresent(mem, bins, tmap, path);
    assert ChildLinked(mem, path, t, false) && ChildLinked(mem, path, t, true);
    assert At(mem, t).Child(false) == At(mem, t).child0 && At(mem, t).Child(true) == At(mem, t).child1;
  }

  /** Still to be settled when the walk stands at t: only what lies below t or is no smaller. */
  ghost predicate Pending(mem: Memory, path: Paths, nb: nat, v: Addr, rsize: nat, t: Addr, m: Addr) {
    Settled(mem, nb, v, rsize, m) || (t != 0 && (Below(path, m, t) || At(mem, t).size <= At(mem, m).size))
  }

  /** Either the fit is exact already, or all that lies below t is large enough. */
  ghost predicate FitsBelow(mem: Memory, path: Paths, nb: nat, t: Addr, v: Addr, rsize: nat) {
    (v != 0 && rsize == 0) || t == 0 || forall m :: Below(path, m, t) ==> At(mem, m).size >= nb
  }

  /** `while (t != 0) { ...; t = leftmost_child(t); }` settles everything that was pending. */
  method LeftmostWalk(mem: Memory, nb: nat, t0: Addr, v0: Addr, rsize0: nat, ghost bins: seq<Addr>, ghost tmap: nat,
      ghost path: Paths)
    returns (v: Addr, rsize: nat)
    requires TreesOk(mem, bins, tmap, path) && Best(mem, path, nb, v0, rsize0) && 0 < nb < SIZE_T_LIMIT
    requires t0 != 0 ==> t0 in path
    requires forall m :: m in path ==> Pending(mem, path, nb, v0, rsize0, t0, m)
    requires FitsBelow(mem, path, nb, t0, v0, rsize0)
    ensures Best(mem, path, nb, v, rsize) && forall m :: m in path ==> Settled(mem, nb, v, rsize, m)
  {
    hide TreesOk, Best;
    var t := t0;
    v, rsize := v0, rsize0;
    if t != 0 { DepthBound(mem, bins, tmap, path, t); }
    while t != 0
      invariant t != 0 ==> t in path && t in mem && |path[t].bits| <= Height(path[t].bin) && Below(path, t, t0)
      invariant Best(mem, path, nb, v, rsize) && (v0 != 0 && rsize0 == 0 ==> v != 0 && rsize == 0)
      invariant forall m :: m in path ==> Pending(mem, path, nb, v, rsize, t, m)
      decreases if t == 0 then 0 else 1 + Height(path[t].bin) - |path[t].bits|
    {
      ghost var vOld, rOld := v, rsize;
      v, rsize := Consider(mem, nb, v, rsize, t, bins, tmap, path);
      var c := LeftmostChild(mem[t]);
      forall m | m in path ensures Pending(mem, path, nb, v, rsize, c, m) {
        assert Pending(mem, path, nb, vOld, rOld, t, m);
        if v != 0 && rsize == 0 { ExactFit(mem, path, nb, v, rsize, c); }
        else if Below(path, m, t) && m != t { LeftmostStep(mem, bins, tmap, path, t, m); }
      }
      if c != 0 {
        LeftmostLink(mem, bins, tmap, path, t);
        DepthBound(mem, bins, tmap, path, c);
      }
      t := c;
    }
  }

  // ------------------------------------------------ the walk along the request

  /** rst is the deepest untaken right subtree: it lies to the right of everything at t. */
  ghost predicate Right(path: Paths, rst: Addr, i: nat, hi: nat) {
    rst != 0 ==> rst in path && path[rst].bin == i && ValidPos(path[rst]) && Lo(path[rst]) >= hi
  }

  /** Still to be settled: below t, below rst, or beyond the region of rst. */
  ghost predicate Open(mem: Memory, path: Paths, nb: nat, v: Addr, rsize: nat, t: Addr, rst: Addr, m: Addr) {
    || Settled(mem, nb, v, rsize, m)
    || (t != 0 && Below(path, m, t))
    || (rst != 0 && rst in path && ValidPos(path[rst])
          && (Below(path, m, rst) || At(mem, m).size >= Lo(path[rst]) + Width(path[rst])))
  }

  /** The deepest untaken right subtree after a step from t along the request. */
  function NextRst(c: Chunk, b: bool, rst: Addr): Addr {
    if c.child1 != 0 && c.child1 != c.Child(b) then c.child1 else rst
  }

  /** One step of the walk: the branch of the request, and the right subtree it leaves behind. */
  lemma WalkStep(mem: Memory, bins: seq<Addr>, tmap: nat, path: Paths, nb: nat, t: Addr, rst: Addr)
    requires TreesOk(mem, bins, tmap, path) && t in path && InRegion(nb, path[t]) && At(mem, t).size != nb
    requires Right(path, rst, path[t].bin, Lo(path[t]) + Width(path[t]))
    ensures |path[t].bits| < Height(path[t].bin)
    ensures var b := SignBit(Key(nb, path[t])); var c := At(mem, t).Child(b);
      && Right(path, NextRst(At(mem, t), b, rst), path[t].bin, nb + 1)
      && InRegion(nb, Down(path[t], b))
      && (c != 0 ==> c in path && c in mem && path[c] == Down(path[t], b))
      && (c != 0 ==> 2 * Key(nb, path[t]) % SIZE_T_LIMIT == Key(nb, path[c]))
      && (c != 0 ==> Right(path, NextRst(At(mem, t), b, rst), path[t].bin, Lo(path[c]) + Width(path[c])))
  {
    hide Key, InBin;
    LeafRegion(mem, bins, tmap, path, t, nb);
    DownRegion(path[t], false);
    DownRegion(path[t], true);
    assert ChildLinked(mem, path, t, false) && ChildLinked(mem, path, t, true);
    NodesPresent(mem, bins, tmap, path);
    assert At(mem, t).Child(false) == At(mem, t).child0 && At(mem, t).Child(true) == At(mem, t).child1;
    SidesDiffer(mem, bins, tmap, path, t);
  }

  lemma SidesDiffer(mem: Memory, bins: seq<Addr>, tmap: nat, path: Paths, t: Addr)
    requires TreesOk(mem, bins, tmap, path) && t in path
    ensures At(mem, t).child0 != 0 ==> At(mem, t).child0 != At(mem, t).child1
  {
    hide InRegion, InBin;
    assert At(mem, t).Child(false) == At(mem, t).child0;
    if At(mem, t).child0 != 0 { ChildBelow(mem, bins, tmap, path, t, t, false); }
    assert ChildLinked(mem, path, t, false) && ChildLinked(mem, path, t, true);
    assert At(mem, t).Child(true) == At(mem, t).child1;
    assert Last(Down(path[t], false)) != Last(Down(path[t], true));
  }

  /** What was open at t is open after the step, once t itself has been considered. */
  lemma OpenStep(mem: Memory, bins: seq<Addr>, tmap: nat, path: Paths, nb: nat, v: Addr, rsize: nat, t: Addr,
      rst: Addr, m: Addr)
    requires TreesOk(mem, bins, tmap, path) && t in path && InRegion(nb, path[t]) && At(mem, t).size != nb
    requires Right(path, rst, path[t].bin, Lo(path[t]) + Width(path[t]))
    requires m in path && path[m].bin == path[t].bin && Settled(mem, nb, v, rsize, t)
    requires Open(mem, path, nb, v, rsize, t, rst, m)
    ensures var b := SignBit(Key(nb, path[t]));
      Open(mem, path, nb, v, rsize, At(mem, t).Child(b), NextRst(At(mem, t), b, rst), m)
  {
    hide Key, InBin;
    WalkStep(mem, bins, tmap, path, nb, t, rst);
    LeafRegion(mem, bins, tmap, path, t, nb);
    var b := SignBit(Key(nb, path[t]));
    var rt := At(mem, t).child1;
    if Below(path, m, t) && m != t {
      BelowChild(mem, bins, path, m, t);
      var d := path[m].bits[|path[t].bits|];
      assert ChildLinked(mem, path, t, d);
      BelowRegion(mem, path, m, At(mem, t).Child(d));
      if !d && b { HalvesOrdered(path[t], At(mem, m).size, nb); }
    } else if !Settled(mem, nb, v, rsize, m) && rst != 0 && rt != 0 && !b {
      RightBeyond(mem, bins, tmap, path, nb, t, rst, m);
    }
  }

  /** The old right subtree, and all that lies beyond it, is beyond the right child of t. */
  lemma RightBeyond(mem: Memory, bins: seq<Addr>, tmap: nat, path: Paths, nb: nat, t: Addr, rst: Addr, m: Addr)
    requires TreesOk(mem, bins, tmap, path) && t in path && |path[t].bits| < Height(path[t].bin) && ValidPos(path[t])
    requires Right(path, rst, path[t].bin, Lo(path[t]) + Width(path[t])) && rst != 0 && At(mem, t).child1 != 0
    requires Below(path, m, rst) || At(mem, m).size >= Lo(path[rst]) + Width(path[rst])
    ensures var rt := At(mem, t).child1;
      rt in path && ValidPos(path[rt]) && At(mem, m).size >= Lo(path[rt]) + Width(path[rt])
  {
    hide InBin;
    if Below(path, m, rst) { BelowRegion(mem, path, m, rst); }
    assert ChildLinked(mem, path, t, true);
    assert At(mem, t).Child(true) == At(mem, t).child1;
    DownRegion(path[t], true);
  }

  /** `for (;;)` in tmalloc_large: down the tree of the request's own bin. */
  method Walk(mem: Memory, bins: seq<Addr>, nb: nat, idx: nat, ghost tmap: nat, ghost path: Paths)
    returns (t: Addr, v: Addr, rsize: nat)
    requires TreesOk(mem, bins, tmap, path) && InBin(nb, idx) && 0 < nb < SIZE_T_LIMIT && Bit(tmap, idx)
    ensures Best(mem, path, nb, v, rsize) && (v != 0 ==> v in path && path[v].bin == idx)
    ensures t != 0 ==> t in path && path[t].bin == idx
    ensures FitsBelow(mem, path, nb, t, v, rsize)
    ensures forall m :: m in path && path[m].bin == idx ==> Pending(mem, path, nb, v, rsize, t, m)
  {
    hide TreesOk, InBin, InRegion, Key, Best, Open, Right, Below, Settled, Pending, Lo, Width, FitsBelow, LeftShift;
    Entry(mem, bins, tmap, path, nb, idx);
    RootOpen(mem, bins, tmap, path, nb, idx);
    DepthBound(mem, bins, tmap, path, bins[idx]);
    t := bins[idx];
    v, rsize := 0, Sub(0, nb);
    var sizebits := nb * Pow2(LeftShift(idx)) % SIZE_T_LIMIT;
    var rst := 0;
    while true
      invariant t in path && t in mem && path[t].bin == idx && InRegion(nb, path[t]) && ValidPos(path[t])
      invariant sizebits == Key(nb, path[t]) && Right(path, rst, idx, Lo(path[t]) + Width(path[t]))
      invariant Best(mem, path, nb, v, rsize) && rsize > 0 && (v != 0 ==> v in path && path[v].bin == idx)
      invariant forall m :: m in path && path[m].bin == idx ==> Open(mem, path, nb, v, rsize, t, rst, m)
      decreases Height(idx) - |path[t].bits|
    {
      ghost var v0, r0 := v, rsize;
      v, rsize := Consider(mem, nb, v, rsize, t, bins, tmap, path);
      forall m | m in path && path[m].bin == idx ensures Open(mem, path, nb, v, rsize, t, rst, m) {
        StillOpen(mem, path, nb, v0, r0, v, rsize, t, rst, m);
      }
      if rsize == 0 {
        ExactFit(mem, path, nb, v, rsize, t);
        break;
      }
      NotExact(mem, path, nb, v, rsize, t);
      WalkStep(mem, bins, tmap, path, nb, t, rst);
      forall m | m in path && path[m].bin == idx
        ensures Open(mem, path, nb, v, rsize, At(mem, t).Child(SignBit(sizebits)),
          NextRst(At(mem, t), SignBit(sizebits), rst), m)
      {
        OpenStep(mem, bins, tmap, path, nb, v, rsize, t, rst, m);
      }
      var rt := mem[t].child1;
      var c := mem[t].Child(SignBit(sizebits));
      if rt != 0 && rt != c {
        rst := rt;
      }
      if c == 0 {
        t := rst;
        RestBelow(mem, bins, tmap, path, nb, v, rsize, rst, idx);
        break;
      }
      t := c;
      sizebits := 2 * sizebits % SIZE_T_LIMIT;
      InRegionValid(nb, path[t]);
    }
  }

  lemma RootOpen(mem: Memory, bins: seq<Addr>, tmap: nat, path: Paths, nb: nat, idx: nat)
    requires TreesOk(mem, bins, tmap, path) && idx < |bins| && bins[idx] in path && path[bins[idx]].bin == idx
      && 0 < nb < SIZE_T_LIMIT
    ensures Sub(0, nb) > 0 && Best(mem, path, nb, 0, Sub(0, nb)) && bins[idx] in mem
    ensures ValidPos(path[bins[idx]]) && Right(path, 0, idx, Lo(path[bins[idx]]) + Width(path[bins[idx]]))
    ensures forall m :: m in path && path[m].bin == idx ==> Open(mem, path, nb, 0, Sub(0, nb), bins[idx], 0, m)
  {
    hide InRegion, InBin;
    DepthBound(mem, bins, tmap, path, bins[idx]);
    assert Placed(At(mem, bins[idx]), path[bins[idx]]);
    forall m | m in path && path[m].bin == idx ensures Below(path, m, bins[idx]) {
      BelowRoot(mem, bins, path, m);
    }
  }

  lemma StillOpen(mem: Memory, path: Paths, nb: nat, v0: Addr, r0: nat, v: Addr, rsize: nat, t: Addr, rst: Addr,
      m: Addr)
    requires Open(mem, path, nb, v0, r0, t, rst, m)
    requires forall m :: Settled(mem, nb, v0, r0, m) ==> Settled(mem, nb, v, rsize, m)
    ensures Open(mem, path, nb, v, rsize, t, rst, m)
  {
    hide Settled, Below;
  }

  /** A remainder of zero settles every node. */
  lemma ExactFit(mem: Memory, path: Paths, nb: nat, v: Addr, rsize: nat, t: Addr)
    requires rsize == 0 && v != 0
    ensures FitsBelow(mem, path, nb, t, v, rsize) && forall m :: m in path ==> Pending(mem, path, nb, v, rsize, t, m)
  {
  }

  lemma NotExact(mem: Memory, path: Paths, nb: nat, v: Addr, rsize: nat, t: Addr)
    requires Best(mem, path, nb, v, rsize) && Settled(mem, nb, v, rsize, t) && rsize > 0
    ensures At(mem, t).size != nb
  {
  }

  /** With the request's branch exhausted, rst holds the least sizes above the request. */
  lemma RestBelow(mem: Memory, bins: seq<Addr>, tmap: nat, path: Paths, nb: nat, v: Addr, rsize: nat, rst: Addr,
      idx: nat)
    requires TreesOk(mem, bins, tmap, path) && Right(path, rst, idx, nb + 1)
    requires forall m :: m in path && path[m].bin == idx ==> Open(mem, path, nb, v, rsize, 0, rst, m)
    ensures FitsBelow(mem, path, nb, rst, v, rsize) && (rst != 0 ==> rst in path && path[rst].bin == idx)
    ensures forall m :: m in path && path[m].bin == idx ==> Pending(mem, path, nb, v, rsize, rst, m)
  {
    hide InBin;
    if rst != 0 {
      forall m | Below(path, m, rst) ensures At(mem, m).size > nb { BelowRegion(mem, path, m, rst); }
      BelowRegion(mem, path, rst, rst);
    }
  }

  // ------------------------------------------------------------- whole search

  /** Chunks of a lower bin are smaller. */
  lemma BinOrder(mem: Memory, bins: seq<Addr>, tmap: nat, path: Paths, m: Addr, n: Addr)
    requires TreesOk(mem, bins, tmap, path) && m in path && n in path && path[m].bin < path[n].bin
    ensures At(mem, m).size < At(mem, n).size
  {
    hide InRegion, MinSize;
    assert Placed(At(mem, m), path[m]) && Placed(At(mem, n), path[n]);
    MinSizeGrows(path[m].bin + 1, path[n].bin);
  }

  /** A request compared with the chunks of other bins. */
  lemma RequestOrder(mem: Memory, bins: seq<Addr>, tmap: nat, path: Paths, nb: nat, idx: nat, m: Addr)
    requires TreesOk(mem, bins, tmap, path) && InBin(nb, idx) && m in path
    ensures path[m].bin < idx ==> At(mem, m).size < nb
    ensures path[m].bin > idx ==> nb < At(mem, m).size
    ensures path[m].bin < NTREEBINS == |bins| && bins[path[m].bin] != 0 && Below(path, m, bins[path[m].bin])
    ensures Bit(tmap, path[m].bin)
  {
    hide InRegion, MinSize, Bit;
    NodesPresent(mem, bins, tmap, path);
    assert Placed(At(mem, m), path[m]);
    if path[m].bin < idx { MinSizeGrows(path[m].bin + 1, idx); }
    if path[m].bin > idx { MinSizeGrows(idx + 1, path[m].bin); }
    BelowRoot(mem, bins, path, m);
  }

  /** What is pending in the request's own bin is all that is pending, if that bin offers anything. */
  lemma OwnBinDecides(mem: Memory, bins: seq<Addr>, tmap: nat, path: Paths, nb: nat, idx: nat, t: Addr, v: Addr,
      rsize: nat, m: Addr)
    requires TreesOk(mem, bins, tmap, path) && InBin(nb, idx) && Best(mem, path, nb, v, rsize) && m in path
    requires (v != 0 ==> v in path && path[v].bin == idx) && (t != 0 ==> t in path && path[t].bin == idx)
    requires path[m].bin == idx ==> Pending(mem, path, nb, v, rsize, t, m)
    ensures t != 0 || v != 0 ==> Pending(mem, path, nb, v, rsize, t, m)
    ensures t == 0 && v == 0 && path[m].bin <= idx ==> Settled(mem, nb, v, rsize, m)
  {
    hide InBin, InRegion;
    RequestOrder(mem, bins, tmap, path, nb, idx, m);
    if path[m].bin > idx {
      if v != 0 { BinOrder(mem, bins, tmap, path, v, m); }
      if t != 0 { BinOrder(mem, bins, tmap, path, t, m); }
    }
  }

  /** The root of the lowest bin above idx is below or before every larger chunk. */
  lemma NextBinDecides(mem: Memory, bins: seq<Addr>, tmap: nat, path: Paths, nb: nat, idx: nat, i: nat, rsize: nat,
      m: Addr)
    requires TreesOk(mem, bins, tmap, path) && InBin(nb, idx) && idx < i < NTREEBINS && Bit(tmap, i) && m in path
    requires forall j: nat :: idx < j < i ==> !Bit(tmap, j)
    requires path[m].bin <= idx ==> Settled(mem, nb, 0, rsize, m)
    ensures bins[i] in path && path[bins[i]].bin == i && Pending(mem, path, nb, 0, rsize, bins[i], m)
    ensures Below(path, m, bins[i]) ==> At(mem, m).size >= nb
  {
    hide InBin, InRegion, Bit;
    RequestOrder(mem, bins, tmap, path, nb, idx, m);
    if path[m].bin > i { BinOrder(mem, bins, tmap, path, bins[i], m); }
  }

  /** A node that fits at least as well as every other node fits best among all chunks. */
  lemma BestOfAll(mem: Memory, bins: seq<Addr>, tmap: nat, f: Forest, nb: nat, v: Addr, rsize: nat)
    requires BinsOk(mem, bins, tmap, f) && Best(mem, f.path, nb, v, rsize)
    requires forall m :: m in f.path ==> Settled(mem, nb, v, rsize, m)
    ensures v == 0 ==> forall c :: c in f.own ==> At(mem, c).size < nb
    ensures v != 0 ==> forall c :: c in f.own && At(mem, c).size >= nb ==> At(mem, v).size <= At(mem, c).size
  {
    hide TreesOk, RingsOk;
    forall c | c in f.own ensures f.own[c] in f.path && At(mem, c).size == At(mem, f.own[c]).size {
      MemberFacts(mem, f, c);
    }
  }

  /** The bin to continue in when the request's own bin has nothing: the lowest marked one above. */
  method NextBin(tmap: nat, idx: nat) returns (found: bool, i: nat)
    requires tmap < WORD && idx < 32
    ensures found ==> idx < i < 32 && Bit(tmap, i) && forall j: nat :: idx < j < i ==> !Bit(tmap, j)
    ensures !found ==> forall j: nat :: idx < j < 32 ==> !Bit(tmap, j)
  {
    hide LeftBits, And, Bit, Bit2Idx, LeastBitOf;
    LeftBitsOf(idx, 0);
    var leftbits := And(LeftBits(Pow2(idx)), tmap);
    forall j: nat ensures Bit(leftbits, j) <==> idx < j < 32 && Bit(tmap, j) {
      LeftBitsOf(idx, j);
      BitOfAnd(LeftBits(Pow2(idx)), tmap, j);
    }
    found, i := false, 0;
    if leftbits != 0 {
      AndBelow(LeftBits(Pow2(idx)), tmap);
      LeastIndex(leftbits);
      found := true;
      i := Bit2Idx(LeastBitOf(leftbits));
    } else {
      forall j: nat | idx < j < 32 ensures !Bit(tmap, j) { ZeroBits(j); }
    }
  }

  lemma {:induction false} AndBelow(a: nat, b: nat)
    ensures And(a, b) <= b
  {
    if a > 0 && b > 0 { AndBelow(a / 2, b / 2); }
  }

  lemma BinsParts(mem: Memory, bins: seq<Addr>, tmap: nat, f: Forest)
    requires BinsOk(mem, bins, tmap, f)
    ensures TreesOk(mem, bins, tmap, f.path) && RingsOk(mem, f) && |bins| == NTREEBINS && tmap < WORD
    ensures 0 !in f.path
  {
    hide RingsOk;
    Pow32();
    NodesPresent(mem, bins, tmap, f.path);
  }

  /** Before the search, and for an empty bin. */
  lemma EmptyBin(mem: Memory, bins: seq<Addr>, tmap: nat, path: Paths, nb: nat, idx: nat)
    requires TreesOk(mem, bins, tmap, path) && idx < NTREEBINS && 0 < nb < SIZE_T_LIMIT
    ensures Sub(0, nb) == SIZE_T_LIMIT - nb && Best(mem, path, nb, 0, Sub(0, nb))
    ensures bins[idx] != 0 ==> Bit(tmap, idx)
    ensures bins[idx] == 0 ==> forall m :: m in path ==> path[m].bin != idx
  {
    hide InRegion, InBin, Bit;
    NodesPresent(mem, bins, tmap, path);
    forall m | m in path && path[m].bin == idx ensures bins[idx] != 0 { BelowRoot(mem, bins, path, m); }
  }

  lemma MarkedRoot(mem: Memory, bins: seq<Addr>, tmap: nat, path: Paths, i: nat)
    requires TreesOk(mem, bins, tmap, path) && i < NTREEBINS && Bit(tmap, i)
    ensures |bins| == NTREEBINS && bins[i] != 0 && bins[i] in path
  {
  }

  lemma SettledPending(mem: Memory, path: Paths, nb: nat, v: Addr, rsize: nat, t: Addr, m: Addr)
    requires Settled(mem, nb, v, rsize, m)
    ensures Pending(mem, path, nb, v, rsize, t, m)
  {
  }

  /** The search of tmalloc_large: over all bins, a chunk of least size that holds nb bytes, or
      null when there is none. */
  method BestFit(mem: Memory, bins: seq<Addr>, tmap: nat, nb: nat, ghost f: Forest) returns (v: Addr, rsize: nat)
    requires BinsOk(mem, bins, tmap, f) && MIN_LARGE_SIZE <= nb < SIZE_T_LIMIT
    ensures v == 0 ==> rsize == SIZE_T_LIMIT - nb && forall c :: c in f.own ==> At(mem, c).size < nb
    ensures v != 0 ==> v in f.path && v in f.own && At(mem, v).size == nb + rsize
    ensures v != 0 ==> forall c :: c in f.own && At(mem, c).size >= nb ==> At(mem, v).size <= At(mem, c).size
  {
    BinsParts(mem, bins, tmap, f);
    ghost var path := f.path;
    var idx := ComputeTreeIndex(nb);
    IndexInBin(nb);
    hide BinsOk, TreesOk, InBin, ComputeTreeIndex, Pending, Settled, Bit, Below;
    v, rsize := 0, Sub(0, nb);
    var t := bins[idx];
    EmptyBin(mem, bins, tmap, path, nb, idx);
    if t != 0 {
      t, v, rsize := Walk(mem, bins, nb, idx, tmap, path);
    }
    forall m | m in path
      ensures t != 0 || v != 0 ==> Pending(mem, path, nb, v, rsize, t, m)
      ensures t == 0 && v == 0 && path[m].bin <= idx ==> Settled(mem, nb, v, rsize, m)
    {
      OwnBinDecides(mem, bins, tmap, path, nb, idx, t, v, rsize, m);
    }
    if t == 0 && v == 0 {
      var found, i := NextBin(tmap, idx);
      if found {
        t := bins[i];
        forall m | m in path
          ensures Pending(mem, path, nb, v, rsize, t, m) && (Below(path, m, t) ==> At(mem, m).size >= nb) && t in path
        {
          NextBinDecides(mem, bins, tmap, path, nb, idx, i, rsize, m);
        }
        MarkedRoot(mem, bins, tmap, path, i);
      } else {
        forall m | m in path ensures Pending(mem, path, nb, v, rsize, t, m) {
          RequestOrder(mem, bins, tmap, path, nb, idx, m);
          SettledPending(mem, path, nb, v, rsize, t, m);
        }
      }
    }
    v, rsize := LeftmostWalk(mem, nb, t, v, rsize, bins, tmap, path);
    BestOfAll(mem, bins, tmap, f, nb, v, rsize);
    if v != 0 { NodesOwnThemselves(mem, f, v); }
  }

  /** The search of tmalloc_small: the least chunk of all, for a request below every tree size. */
  method LeastChunk(mem: Memory, bins: seq<Addr>, tmap: nat, nb: nat, ghost f: Forest) returns (v: Addr, rsize: nat)
    requires BinsOk(mem, bins, tmap, f) && 0 < nb <= MIN_LARGE_SIZE && tmap != 0
    ensures v in f.path && v in f.own && At(mem, v).size == nb + rsize
    ensures forall c :: c in f.own ==> At(mem, v).size <= At(mem, c).size
  {
    hide BinsOk, TreesOk, InBin, Pending, Settled, Bit, Below, Best, FitsBelow, Bit2Idx, LeastBitOf, RingsOk;
    BinsParts(mem, bins, tmap, f);
    ghost var path := f.path;
    LeastIndex(tmap);
    AllFit(mem, bins, tmap, f, nb);
    var i := Bit2Idx(LeastBitOf(tmap));
    MarkedRoot(mem, bins, tmap, path, i);
    var t := bins[i];
    DepthBound(mem, bins, tmap, path, t);
    FirstBest(mem, bins, tmap, path, nb, t);
    v, rsize := t, mem[t].size - nb;
    var c := LeftmostChild(mem[t]);
    if c != 0 { LeftmostLink(mem, bins, tmap, path, t); }
    forall m | m in path ensures Pending(mem, path, nb, v, rsize, c, m) && At(mem, m).size >= nb {
      LowestBinFirst(mem, bins, tmap, path, nb, i, t, m);
    }
    AllLarge(mem, path, nb, c, v, rsize);
    v, rsize := LeftmostWalk(mem, nb, c, v, rsize, bins, tmap, path);
    SomeBest(mem, path, nb, t, v, rsize);
    BestOfAll(mem, bins, tmap, f, nb, v, rsize);
    NodesOwnThemselves(mem, f, v);
  }

  lemma AllLarge(mem: Memory, path: Paths, nb: nat, t: Addr, v: Addr, rsize: nat)
    requires forall m :: m in path ==> At(mem, m).size >= nb
    ensures FitsBelow(mem, path, nb, t, v, rsize)
  {
  }

  lemma FirstBest(mem: Memory, bins: seq<Addr>, tmap: nat, path: Paths, nb: nat, t: Addr)
    requires TreesOk(mem, bins, tmap, path) && t in path && t in mem && 0 < nb <= MIN_LARGE_SIZE
    ensures mem[t].size >= nb && Best(mem, path, nb, t, mem[t].size - nb) && t != 0
  {
    hide InRegion, MinSize;
    NodesPresent(mem, bins, tmap, path);
    assert Placed(At(mem, t), path[t]);
    MinSizeGrows(0, path[t].bin);
    LowestMinSize();
  }

  lemma LowestMinSize()
    ensures MinSize(0) == MIN_LARGE_SIZE
  {
    MinSizeValue(0);
    Powers();
  }

  lemma LowestBinFirst(mem: Memory, bins: seq<Addr>, tmap: nat, path: Paths, nb: nat, i: nat, t: Addr, m: Addr)
    requires TreesOk(mem, bins, tmap, path) && 0 < nb <= MIN_LARGE_SIZE && i < NTREEBINS == |bins| && t == bins[i]
      && t in path && m in path && t in mem
    requires forall j: nat :: j < i ==> !Bit(tmap, j)
    ensures mem[t].size >= nb && Pending(mem, path, nb, t, mem[t].size - nb, LeftmostChild(mem[t]), m)
      && At(mem, m).size >= nb
  {
    hide InRegion, InBin, Bit;
    FirstBest(mem, bins, tmap, path, nb, t);
    BelowRoot(mem, bins, path, m);
    NodesPresent(mem, bins, tmap, path);
    FirstBest(mem, bins, tmap, path, nb, m);
    assert Placed(At(mem, m), path[m]);
    if path[m].bin > i { BinOrder(mem, bins, tmap, path, t, m); }
    else if m != t { LeftmostStep(mem, bins, tmap, path, t, m); }
  }

  lemma SomeBest(mem: Memory, path: Paths, nb: nat, t: Addr, v: Addr, rsize: nat)
    requires t in path && Best(mem, path, nb, v, rsize) && At(mem, t).size >= nb
    requires forall m :: m in path ==> Settled(mem, nb, v, rsize, m)
    ensures v != 0 && v in path && v in mem && At(mem, v).size == nb + rsize
  {
    assert Settled(mem, nb, v, rsize, t);
  }

  lemma AllFit(mem: Memory, bins: seq<Addr>, tmap: nat, f: Forest, nb: nat)
    requires BinsOk(mem, bins, tmap, f) && 0 < nb <= MIN_LARGE_SIZE
    ensures forall c :: c in f.own ==> At(mem, c).size >= nb
  {
    hide TreesOk, RingsOk;
    NodesPresent(mem, bins, tmap, f.path);
    forall c | c in f.own ensures At(mem, c).size >= nb {
      MemberFacts(mem, f, c);
      FirstBest(mem, bins, tmap, f.path, nb, f.own[c]);
    }
  }
}
