/** The boundary-tag heap of dlmalloc in one segment: chunks, bins, dv and top. */
module DlHeap {
  import opened Tiling
  import opened DlIndex
  import opened DlTrie
  import opened DlForest
  import opened DlBins
  import opened DlTreeOps
  import opened DlSmall

  /** The malloc state with the ghost view of tiling, trees and small bins. */
  datatype State = State(mem: Memory, t: Tiles, tbins: seq<Addr>, tmap: nat, f: Forest, smap: nat,
      smalls: seq<seq<Addr>>,
                         dv: Addr, dvsize: nat, top: Addr, topsize: nat)

  // ------------------------------------------------------------- invariants

  /** The head of a chunk states its size. */
  ghost predicate HeadAt(s: State, a: Addr)
    requires a in s.t.ext
  {
    a in s.mem && s.mem[a].size == s.t.ext[a]
  }

  /** The flags and the foot in a chunk agree with the chunk before it, and the two are not
      both free. */
  ghost predicate EdgeAt(s: State, b: Addr) {
    if b in s.t.firsts then At(s.mem, b).pinuse
    else b in s.t.pred && s.t.pred[b] in s.t.ext && var p := s.t.pred[b];
      && (At(s.mem, b).pinuse <==> At(s.mem, p).cinuse)
      && (!At(s.mem, p).cinuse ==> At(s.mem, b).prevFoot == s.t.ext[p])
      && (At(s.mem, p).cinuse || At(s.mem, b).cinuse || b == s.top) && (b == s.top ==> At(s.mem, p).cinuse)
  }

  ghost predicate LooseEdge(s: State, loose: set<Addr>, b: Addr) {
    b in loose || (b !in s.t.firsts && b in s.t.pred && s.t.pred[b] in loose)
  }

  ghost predicate HeadsOk(s: State, loose: set<Addr>) {
    && (forall a {:trigger HeadAt(s, a)} :: a in s.t.ext && a !in loose ==> HeadAt(s, a))
    && (forall a {:trigger a in s.t.ext} :: a in s.t.ext ==> a in s.mem)
    && (forall b {:trigger EdgeAt(s, b)} :: b in s.t.ext && !LooseEdge(s, loose, b) ==> EdgeAt(s, b))
  }

  ghost predicate ShapeAt(s: State, a: Addr)
    requires a in s.t.ext
  {
    && a >= HEAP_START && s.t.ext[a] % 8 == 0 && a % 8 == 0 && (a == s.top || s.t.ext[a] >= MIN_CHUNK_SIZE)
    && (a == s.top <==> !s.t.HasNext(a)) && s.t.End(a) < SIZE_T_LIMIT
  }

  /** The chunks tile the segment; top is the last one. */
  ghost predicate ShapeOk(s: State) {
    && Tiled(s.t) && s.top in s.t.ext
    && (forall a {:trigger ShapeAt(s, a)} :: a in s.t.ext ==> ShapeAt(s, a))
  }

  ghost predicate SpecialOk(s: State, loose: set<Addr>) {
    && (s.top in loose || (!At(s.mem, s.top).cinuse && s.topsize == At(s.mem, s.top).size))
    && (s.dv == 0 <==> s.dvsize == 0)
    && (s.dv != 0 ==>
      s.dv in s.t.ext && s.dv != s.top
      && (s.dv in loose || (!At(s.mem, s.dv).cinuse && s.dvsize == At(s.mem, s.dv).size)))
  }

  /** A free chunk that should be in a bin. */
  ghost predicate Binnable(s: State, off: set<Addr>, a: Addr) {
    a in s.t.ext && !At(s.mem, a).cinuse && a != s.top && a != s.dv && a !in off
  }

  /** Each such chunk is in the one bin for its size, and nothing else is in any bin. */
  ghost predicate BinnedAt(s: State, off: set<Addr>, a: Addr) {
    && (a in s.f.own <==> Binnable(s, off, a) && !IsSmall(s.t.ext[a]))
    && (forall i: nat {:trigger s.smalls[i]} :: i < |s.smalls| ==>
      (a in s.smalls[i] <==> Binnable(s, off, a) && SmallIndex(s.t.ext[a]) == i))
  }

  ghost predicate BinnedOk(s: State, off: set<Addr>) {
    forall a {:trigger BinnedAt(s, off, a)} :: BinnedAt(s, off, a)
  }

  /** `loose`: chunks whose heads, and whose successors' flags, need not be right yet;
      `off`: free chunks that are in no bin for now. */
  ghost predicate HeapOk(s: State, loose: set<Addr>, off: set<Addr>) {
    && ShapeOk(s) && HeadsOk(s, loose) && SpecialOk(s, loose) && loose <= off
    && SmallOk(s.mem, s.smap, s.smalls) && BinsOk(s.mem, s.tbins, s.tmap, s.f) && BinnedOk(s, off)
  }

  /** Chunks in use, with their sizes. */
  ghost function Live(s: State): map<Addr, nat> {
    map a | a in s.t.ext && At(s.mem, a).cinuse :: s.t.ext[a]
  }

  // ------------------------------------------------------------- slack steps

  /** A chunk in no bin may be worked on. */
  lemma Loosen(s: State, loose: set<Addr>, off: set<Addr>, x: Addr)
    requires HeapOk(s, loose, off) && x in s.t.ext && (x in off || At(s.mem, x).cinuse || x == s.top || x == s.dv)
    ensures HeapOk(s, loose + {x}, off + {x})
  {
    hide ShapeOk, SmallOk, BinsOk, HeadAt, EdgeAt;
    forall a ensures BinnedAt(s, off + {x}, a) { assert BinnedAt(s, off, a); }
    forall b | b in s.t.ext && !LooseEdge(s, loose + {x}, b) ensures EdgeAt(s, b) { assert !LooseEdge(s, loose, b); }
  }

  /** The head of x and both edges at x are right again. */
  lemma Settle(s: State, loose: set<Addr>, off: set<Addr>, x: Addr)
    requires HeapOk(s, loose, off) && x in s.t.ext && HeadAt(s, x)
    requires LooseEdge(s, loose - {x}, x) || EdgeAt(s, x)
    requires s.t.HasNext(x) ==> LooseEdge(s, loose - {x}, s.t.End(x)) || EdgeAt(s, s.t.End(x))
    requires x == s.top ==> !At(s.mem, x).cinuse && s.topsize == At(s.mem, x).size
    requires x == s.dv ==> !At(s.mem, x).cinuse && s.dvsize == At(s.mem, x).size
    ensures HeapOk(s, loose - {x}, off)
  {
    hide SmallOk, BinsOk, HeadAt, EdgeAt, BinnedOk, Tiled;
    forall b | b in s.t.ext && !LooseEdge(s, loose - {x}, b) ensures EdgeAt(s, b) {
      if b !in s.t.firsts { PredFacts(s.t, b); }
      if LooseEdge(s, loose, b) { assert b == x || b == s.t.End(x); }
    }
  }

  /** What is in use, top, or dv is never in a bin. */
  lemma Unneeded(s: State, loose: set<Addr>, off: set<Addr>, x: Addr)
    requires HeapOk(s, loose, off) && x !in loose && (x !in s.t.ext || At(s.mem, x).cinuse || x == s.top || x == s.dv)
    ensures HeapOk(s, loose, off - {x})
  {
    hide ShapeOk, SmallOk, BinsOk, HeadsOk, SpecialOk;
    forall a ensures BinnedAt(s, off - {x}, a) { assert BinnedAt(s, off, a); }
  }

  // ------------------------------------------------------------------ stores

  /** A store to a chunk in no bin leaves the bins alone. */
  lemma BinsFrame(s: State, x: Addr, c: Chunk)
    requires SmallOk(s.mem, s.smap, s.smalls) && BinsOk(s.mem, s.tbins, s.tmap, s.f) && x !in s.f.own
      && !InSmalls(s.smalls, x) && x >= HEAP_START
    ensures SmallOk(s.mem[x := c], s.smap, s.smalls) && BinsOk(s.mem[x := c], s.tbins, s.tmap, s.f)
  {
    hide TreesOk, RingsOk, SmallBinOk;
    OutsideTrees(s.mem, s.f, x);
    NodesPresent(s.mem, s.tbins, s.tmap, s.f.path);
    TreeFrame(s.mem, s.mem[x := c], s.tbins, s.tmap, s.f.path);
    RingsFrame(s.mem, s.f, x, c);
    SmallFrame(s.mem, s.mem[x := c], s.smap, s.smalls);
  }

  lemma RingsFrame(mem: Memory, f: Forest, x: Addr, c: Chunk)
    requires RingsOk(mem, f) && x !in f.own
    ensures RingsOk(mem[x := c], f)
  {
    forall n | n in f.ring ensures RingOf(mem[x := c], f.ring[n], n) {
      NodesOwnThemselves(mem, f, n);
      forall d | d in f.ring[n] ensures d in mem { NeighbourIn(mem, f.ring[n], d); }
      RingFrame(mem, mem[x := c], f.ring[n], n);
    }
  }

  lemma NotBinned(s: State, loose: set<Addr>, off: set<Addr>, x: Addr)
    requires HeapOk(s, loose, off) && (x in off || x !in s.t.ext || At(s.mem, x).cinuse || x == s.top || x == s.dv)
    ensures x !in s.f.own && !InSmalls(s.smalls, x)
  {
    hide ShapeOk, SmallOk, BinsOk, HeadsOk, SpecialOk;
    assert BinnedAt(s, off, x);
  }

  /** Any store to a loose chunk. */
  lemma StoreLoose(s: State, loose: set<Addr>, off: set<Addr>, x: Addr, c: Chunk)
    requires HeapOk(s, loose, off) && x in loose && x in s.t.ext
    ensures HeapOk(s.(mem := s.mem[x := c]), loose, off)
  {
    hide SmallOk, BinsOk, Tiled;
    var s' := s.(mem := s.mem[x := c]);
    NotBinned(s, loose, off, x);
    assert ShapeAt(s, x);
    BinsFrame(s, x, c);
    forall a | a in s'.t.ext ensures ShapeAt(s', a) { assert ShapeAt(s, a); }
    forall a | a in s'.t.ext && a !in loose ensures HeadAt(s', a) { assert HeadAt(s, a); }
    forall b | b in s'.t.ext && !LooseEdge(s', loose, b) ensures EdgeAt(s', b) {
      assert !LooseEdge(s, loose, b) && EdgeAt(s, b);
    }
    forall a ensures BinnedAt(s', off, a) { assert BinnedAt(s, off, a); }
  }

  /** The flag and the foot behind a loose chunk. */
  lemma StoreNext(s: State, loose: set<Addr>, off: set<Addr>, x: Addr, n: Addr, pinuse: bool, foot: nat)
    requires HeapOk(s, loose, off) && x in loose && x in s.t.ext && s.t.HasNext(x) && s.t.End(x) == n && n in s.mem
    requires n in off || At(s.mem, n).cinuse || n == s.top || n == s.dv
    ensures HeapOk(s.(mem := s.mem[n := s.mem[n].(pinuse := pinuse, prevFoot := foot)]), loose, off)
  {
    hide SmallOk, BinsOk, Tiled;
    var c := s.mem[n].(pinuse := pinuse, prevFoot := foot);
    var s' := s.(mem := s.mem[n := c]);
    NextFacts(s.t, x);
    NotBinned(s, loose, off, n);
    assert ShapeAt(s, n);
    BinsFrame(s, n, c);
    forall a | a in s'.t.ext ensures ShapeAt(s', a) { assert ShapeAt(s, a); }
    forall a | a in s'.t.ext && a !in loose ensures HeadAt(s', a) { assert HeadAt(s, a); }
    forall b | b in s'.t.ext && !LooseEdge(s', loose, b) ensures EdgeAt(s', b) {
      assert !LooseEdge(s, loose, b) && EdgeAt(s, b);
    }
    forall a ensures BinnedAt(s', off, a) { assert BinnedAt(s, off, a); }
  }
}
