/** Splitting, merging and rebinning chunks of the dlmalloc heap, on the state as a value. */
module DlSteps {
  import opened Bits
  import opened Tiling
  import opened DlIndex
  import opened DlTrie
  import opened DlForest
  import opened DlRing
  import opened Lists
  import opened DlBins
  import opened DlTreeOps
  import opened DlSmall
  import opened DlHeap

  // ------------------------------------------------------------------ split

  /** Chunk x cut after n bytes; c is what memory holds at the cut.  The top stays last. */
  function SplitState(s: State, x: Addr, n: nat, c: Chunk): State
    requires x in s.t.ext && 0 < n < s.t.ext[x]
  {
    s.(t := Split(s.t, x, n), mem := s.mem[x + n := c], top := if x == s.top then x + n else s.top)
  }

  lemma SplitShape(s: State, x: Addr, n: nat, c: Chunk)
    requires ShapeOk(s) && x in s.t.ext && MIN_CHUNK_SIZE <= n < s.t.ext[x] && n % 8 == 0
    requires x == s.top || s.t.ext[x] - n >= MIN_CHUNK_SIZE
    ensures ShapeOk(SplitState(s, x, n, c))
  {
    hide Split, Tiled, ShapeAt;
    var s' := SplitState(s, x, n, c);
    CutFacts(s.t, x, n);
    SplitTiled(s.t, x, n);
    assert ShapeAt(s, x);
    forall a | a in s'.t.ext ensures ShapeAt(s', a) { SplitShapeAt(s, x, n, c, a); }
    assert s'.top in s'.t.ext by { if x != s.top { SplitKeepsBlocks(s.t, x, n, s.top); } }
  }

  lemma SplitShapeAt(s: State, x: Addr, n: nat, c: Chunk, a: Addr)
    requires ShapeOk(s) && x in s.t.ext && MIN_CHUNK_SIZE <= n < s.t.ext[x] && n % 8 == 0
    requires x == s.top || s.t.ext[x] - n >= MIN_CHUNK_SIZE
    requires a in SplitState(s, x, n, c).t.ext
    ensures ShapeAt(SplitState(s, x, n, c), a)
  {
    hide Tiled;
    var e := x + n;
    CutFacts(s.t, x, n);
    SplitTiled(s.t, x, n);
    hide Split;
    assert ShapeAt(s, x);
    if a != x && a != e {
      SplitMember(s.t, x, n, a);
      assert ShapeAt(s, a);
      CutOthers(s.t, x, n, a);
    } else {
      Multiples(x, n, s.t.ext[x]);
    }
  }

  lemma SplitMember(t: Tiles, x: Addr, n: nat, a: Addr)
    requires x in t.ext && 0 < n < t.ext[x] && a in Split(t, x, n).ext && a != x && a != x + n
    ensures a in t.ext
  {
  }

  lemma Multiples(x: nat, n: nat, z: nat)
    requires x % 8 == 0 && n % 8 == 0 && z % 8 == 0
    ensures (x + n) % 8 == 0 && (z - n) % 8 == 0
  {
  }

  lemma SplitHeads(s: State, loose: set<Addr>, x: Addr, n: nat, c: Chunk)
    requires Tiled(s.t) && HeadsOk(s, loose) && x in loose && x in s.t.ext && 0 < n < s.t.ext[x] && x + n !in s.t.ext
    requires x != s.top || !s.t.HasNext(x)
    ensures HeadsOk(SplitState(s, x, n, c), loose + {x + n})
  {
    hide Tiled;
    var s', e := SplitState(s, x, n, c), x + n;
    CutFacts(s.t, x, n);
    forall a | a in s'.t.ext && a !in loose + {e} ensures HeadAt(s', a) { assert HeadAt(s, a); }
    forall b | b in s'.t.ext && !LooseEdge(s', loose + {e}, b) ensures EdgeAt(s', b) {
      CutOthers(s.t, x, n, b);
      assert !LooseEdge(s, loose, b) && EdgeAt(s, b);
      if b !in s.t.firsts { PredFacts(s.t, b); }
    }
  }

  /** The bins do not see the cut. */
  lemma SplitBins(s: State, off: set<Addr>, x: Addr, n: nat, c: Chunk)
    requires BinnedOk(s, off) && x in off && x in s.t.ext && 0 < n < s.t.ext[x] && x + n !in s.t.ext
    ensures BinnedOk(SplitState(s, x, n, c), off + {x + n})
    ensures x + n !in s.f.own && !InSmalls(s.smalls, x + n)
  {
    var s', e := SplitState(s, x, n, c), x + n;
    assert BinnedAt(s, off, e);
    forall a ensures BinnedAt(s', off + {e}, a) { assert BinnedAt(s, off, a) && BinnedAt(s, off, s.top); }
  }

  lemma SplitOk(s: State, loose: set<Addr>, off: set<Addr>, x: Addr, n: nat, c: Chunk)
    requires HeapOk(s, loose, off) && x in loose && x in s.t.ext && MIN_CHUNK_SIZE <= n < s.t.ext[x] && n % 8 == 0
    requires x == s.top || s.t.ext[x] - n >= MIN_CHUNK_SIZE
    ensures x + n !in s.t.ext && HeapOk(SplitState(s, x, n, c), loose + {x + n}, off + {x + n})
  {
    hide ShapeOk, HeadsOk, SmallOk, BinsOk, BinnedOk, Split, Tiled;
    var e := x + n;
    SplitTop(s, x);
    SplitTiled(s.t, x, n);
    SplitShape(s, x, n, c);
    SplitHeads(s, loose, x, n, c);
    SplitBins(s, off, x, n, c);
    BinsFrame(s, e, c);
    if s.dv != 0 { SplitKeepsBlocks(s.t, x, n, s.dv); }
  }

  lemma SplitTop(s: State, x: Addr)
    requires ShapeOk(s) && x in s.t.ext
    ensures Tiled(s.t) && x >= HEAP_START && s.top in s.t.ext && (x == s.top <==> !s.t.HasNext(x)) && x % 8 == 0
      && s.t.ext[x] % 8 == 0
    ensures x != s.top ==> s.t.ext[x] >= MIN_CHUNK_SIZE
    ensures s.t.End(x) < SIZE_T_LIMIT
  {
    assert ShapeAt(s, x);
  }

  // ------------------------------------------------------------------ merge

  /** Chunk x absorbs the one behind it, which may be the top. */
  function MergeState(s: State, x: Addr): State
    requires x in s.t.ext && s.t.End(x) in s.t.ext
  {
    s.(t := Merge(s.t, x), top := if s.t.End(x) == s.top then x else s.top)
  }

  lemma MergeOthers(t: Tiles, x: Addr, a: Addr)
    requires Tiled(t) && x in t.ext && t.HasNext(x) && t.End(x) in t.ext && a in t.ext && a != x && a != t.End(x)
    ensures var m := Merge(t, x);
      && a in m.ext && m.ext[a] == t.ext[a] && m.End(a) == t.End(a) && (m.HasNext(a) <==> t.HasNext(a))
      && (a in m.firsts <==> a in t.firsts)
      && (a !in t.firsts ==> a in t.pred && t.pred[a] in t.ext && a in m.pred && m.pred[a] == if t.pred[a] == t.End(x)
        then x else t.pred[a])
  {
    NextFacts(t, x);
    NextFacts(t, t.End(x));
    if a !in t.firsts { PredFacts(t, a); }
  }

  lemma MergeFacts(t: Tiles, x: Addr)
    requires Tiled(t) && x in t.ext && t.HasNext(x) && t.End(x) in t.ext
    ensures var m := Merge(t, x); var y := t.End(x);
      && y != x && x in m.ext && m.ext[x] == t.ext[x] + t.ext[y] && m.End(x) == t.End(y)
      && (m.HasNext(x) <==> t.HasNext(y)) && y !in m.ext
      && (x in m.firsts <==> x in t.firsts) && (x in t.pred && x !in t.firsts ==> x in m.pred && m.pred[x] == t.pred[x])
  {
    NextFacts(t, x);
    NextFacts(t, t.End(x));
  }

  lemma MergeShape(s: State, x: Addr)
    requires ShapeOk(s) && x in s.t.ext && s.t.HasNext(x) && s.t.End(x) in s.t.ext
    ensures ShapeOk(MergeState(s, x))
  {
    hide Tiled, Merge, ShapeAt;
    var s', y := MergeState(s, x), s.t.End(x);
    MergeTiled(s.t, x);
    MergeFacts(s.t, x);
    assert s'.top in s'.t.ext by { if s.top != y { if s.top != x { MergeOthers(s.t, x, s.top); } } }
    forall a | a in s'.t.ext ensures ShapeAt(s', a) { MergeShapeAt(s, x, a); }
  }

  lemma MergeShapeAt(s: State, x: Addr, a: Addr)
    requires ShapeOk(s) && x in s.t.ext && s.t.HasNext(x) && s.t.End(x) in s.t.ext && a in Merge(s.t, x).ext
    ensures ShapeAt(MergeState(s, x), a)
  {
    hide Tiled;
    var y := s.t.End(x);
    MergeFacts(s.t, x);
    assert ShapeAt(s, x) && ShapeAt(s, y);
    if a != x {
      assert a in s.t.ext && a != y;
      MergeOthers(s.t, x, a);
      assert ShapeAt(s, a);
    }
  }

  lemma MergeHeads(s: State, loose: set<Addr>, x: Addr)
    requires Tiled(s.t) && HeadsOk(s, loose) && x in loose && x in s.t.ext && s.t.HasNext(x) && s.t.End(x) in s.t.ext
    requires s.t.End(x) == s.top ==> !s.t.HasNext(s.top)
    ensures HeadsOk(MergeState(s, x), loose - {s.t.End(x)})
  {
    hide Tiled, Merge;
    var s', y := MergeState(s, x), s.t.End(x);
    MergeFacts(s.t, x);
    NextFacts(s.t, y);
    forall a | a in s'.t.ext ensures a in s'.mem && (a !in loose ==> HeadAt(s', a)) {
      if a != x { MergeMember(s.t, x, a); MergeOthers(s.t, x, a); }
      if a !in loose { assert HeadAt(s, a); }
    }
    forall b | b in s'.t.ext && !LooseEdge(s', loose - {y}, b) ensures EdgeAt(s', b) {
      assert b != x;
      MergeMember(s.t, x, b);
      MergeOthers(s.t, x, b);
      assert !LooseEdge(s, loose, b) && EdgeAt(s, b);
      if b !in s.t.firsts { PredFacts(s.t, b); if s.t.pred[b] != x { MergeOthers(s.t, x, s.t.pred[b]); } }
    }
  }

  lemma MergeMember(t: Tiles, x: Addr, a: Addr)
    requires x in t.ext && t.End(x) in t.ext && a in Merge(t, x).ext && a != x
    ensures a in t.ext && a != t.End(x)
  {
  }

  lemma MergeBins(s: State, off: set<Addr>, x: Addr)
    requires BinnedOk(s, off) && x in off && x in s.t.ext && s.t.End(x) in s.t.ext
    requires s.t.End(x) != x && (s.t.End(x) in off || s.t.End(x) == s.top)
    ensures BinnedOk(MergeState(s, x), off - {s.t.End(x)})
  {
    var s', y := MergeState(s, x), s.t.End(x);
    forall a ensures BinnedAt(s', off - {y}, a) { assert BinnedAt(s, off, a) && BinnedAt(s, off, y); }
  }

  lemma MergeOk(s: State, loose: set<Addr>, off: set<Addr>, x: Addr)
    requires HeapOk(s, loose, off) && x in loose && x in s.t.ext && s.t.HasNext(x)
    requires s.t.End(x) in off || s.t.End(x) == s.top
    requires s.t.End(x) != s.dv && (s.t.End(x) == s.top ==> x != s.dv)
    ensures s.t.End(x) in s.t.ext && s.t.End(x) != x
      && HeapOk(MergeState(s, x), loose - {s.t.End(x)}, off - {s.t.End(x)})
  {
    hide ShapeOk, HeadsOk, SmallOk, BinsOk, BinnedOk, Merge, Tiled;
    var y := s.t.End(x);
    SplitTop(s, x);
    NextFacts(s.t, x);
    SplitTop(s, y);
    MergeFacts(s.t, x);
    MergeShape(s, x);
    MergeHeads(s, loose, x);
    MergeBins(s, off, x);
    if s.dv != 0 && s.dv != x { MergeOthers(s.t, x, s.dv); }
  }

  // --------------------------------------------------------------------- dv

  /** A free chunk outside the bins may become the dv, and the old one a chunk outside them. */
  lemma SetDv(s: State, loose: set<Addr>, off: set<Addr>, d: Addr, z: nat)
    requires HeapOk(s, loose, off) && (s.dv != 0 ==> s.dv in off) && (d == 0 <==> z == 0)
    requires d != 0 ==>
      d in s.t.ext && d in off && d != s.top && (d in loose || (!At(s.mem, d).cinuse && z == At(s.mem, d).size))
    ensures HeapOk(s.(dv := d, dvsize := z), loose, off)
  {
    hide ShapeOk, HeadsOk, SmallOk, BinsOk;
    var s' := s.(dv := d, dvsize := z);
    assert ShapeOk(s') by { ShapeSame(s, s'); }
    assert HeadsOk(s', loose) by { HeadsSame(s, s', loose); }
    NoZero(s);
    forall a ensures BinnedAt(s', off, a) { assert BinnedAt(s, off, a); }
  }

  lemma NoZero(s: State)
    requires ShapeOk(s)
    ensures 0 !in s.t.ext
  {
    assert 0 in s.t.ext ==> ShapeAt(s, 0);
  }

  lemma ShapeSame(s: State, s': State)
    requires ShapeOk(s) && s'.t == s.t && s'.top == s.top
    ensures ShapeOk(s')
  {
    hide Tiled;
    forall a | a in s'.t.ext ensures ShapeAt(s', a) { assert ShapeAt(s, a); }
  }

  /** Heads and flags are all that matters for the boundary tags. */
  lemma HeadsSame(s: State, s': State, loose: set<Addr>)
    requires HeadsOk(s, loose) && s'.t == s.t && s'.top == s.top && s'.mem.Keys == s.mem.Keys
    requires forall c :: c in s.mem ==> SameHeap(s.mem[c], s'.mem[c])
    ensures HeadsOk(s', loose)
  {
    forall a | a in s'.t.ext && a !in loose ensures HeadAt(s', a) { assert HeadAt(s, a); }
    forall b | b in s'.t.ext && !LooseEdge(s', loose, b) ensures EdgeAt(s', b) {
      assert !LooseEdge(s, loose, b) && EdgeAt(s, b);
    }
  }

  /** The dv may leave the bins' account before it is used otherwise. */
  lemma Spare(s: State, loose: set<Addr>, off: set<Addr>, x: Addr)
    requires HeapOk(s, loose, off) && (x == s.dv || x == s.top)
    ensures HeapOk(s, loose, off + {x})
  {
    hide ShapeOk, HeadsOk, SmallOk, BinsOk, SpecialOk;
    forall a ensures BinnedAt(s, off + {x}, a) { assert BinnedAt(s, off, a); }
  }

  // ---------------------------------------------------------- bins and heap

  /** Nothing but links of free chunks and of the bin headers changed: what the boundary tags
      say stands. */
  ghost predicate Relinked(s: State, s': State) {
    && (forall c {:trigger At(s'.mem, c)} :: c >= HEAP_START && !(c in s.t.ext && !At(s.mem, c).cinuse) ==>
      At(s'.mem, c) == At(s.mem, c))
    && s'.t == s.t && s'.dv == s.dv && s'.dvsize == s.dvsize && s'.top == s.top && s'.topsize == s.topsize
    && s'.mem.Keys == s.mem.Keys && (forall c :: c in s.mem ==> SameHeap(s.mem[c], s'.mem[c]))
  }

  /** What is in a bin is free. */
  lemma BinnedFree(s: State, off: set<Addr>)
    requires BinnedOk(s, off)
    ensures forall c :: c in s.f.own ==> c in s.t.ext && !At(s.mem, c).cinuse
    ensures forall i: nat, c :: i < |s.smalls| && c in s.smalls[i] ==> c in s.t.ext && !At(s.mem, c).cinuse
  {
    forall c: Addr ensures c in s.f.own ==> c in s.t.ext && !At(s.mem, c).cinuse { assert BinnedAt(s, off, c); }
    forall i: nat, c: Addr | i < |s.smalls| && c in s.smalls[i] ensures c in s.t.ext && !At(s.mem, c).cinuse {
      assert BinnedAt(s, off, c);
    }
  }

  lemma RelinkedOk(s: State, s': State, loose: set<Addr>)
    requires ShapeOk(s) && HeadsOk(s, loose) && SpecialOk(s, loose) && Relinked(s, s')
    ensures ShapeOk(s') && HeadsOk(s', loose) && SpecialOk(s', loose)
    ensures Live(s') == Live(s)
    ensures forall a {:trigger At(s'.mem, a)} :: At(s'.mem, a).cinuse == At(s.mem, a).cinuse
  {
    ShapeSame(s, s');
    HeadsSame(s, s', loose);
    hide ShapeOk, HeadsOk;
  }

  /** The trees do not see other chunks. */
  lemma TreesFrame(mem: Memory, mem': Memory, bins: seq<Addr>, tmap: nat, f: Forest)
    requires BinsOk(mem, bins, tmap, f) && mem'.Keys == mem.Keys
      && (forall c :: c in f.own && c in mem ==> mem'[c] == mem[c])
    ensures BinsOk(mem', bins, tmap, f)
  {
    hide TreesOk, RingsOk;
    OwnsNodes(mem, bins, tmap, f);
    NodesPresent(mem, bins, tmap, f.path);
    TreeFrame(mem, mem', bins, tmap, f.path);
    RingsKept(mem, mem', f);
  }

  lemma RingsKept(mem: Memory, mem': Memory, f: Forest)
    requires RingsOk(mem, f) && mem'.Keys == mem.Keys && (forall c :: c in f.own && c in mem ==> mem'[c] == mem[c])
    ensures RingsOk(mem', f)
  {
    forall n | n in f.ring ensures RingOf(mem', f.ring[n], n) {
      NodesOwnThemselves(mem, f, n);
      forall d | d in f.ring[n] ensures d in mem && d in f.own { NeighbourIn(mem, f.ring[n], d); }
      RingFrame(mem, mem', f.ring[n], n);
    }
  }

  /** Tree chunks are in the heap, and not in the small bins. */
  lemma Places(s: State, off: set<Addr>)
    requires ShapeOk(s) && BinnedOk(s, off) && |s.smalls| == NSMALLBINS
    ensures forall a :: a in s.f.own ==> a >= HEAP_START && a in s.t.ext && forall i: nat :: i < NSMALLBINS ==>
      a !in s.smalls[i]
    ensures forall i: nat, a :: i < NSMALLBINS && a in s.smalls[i] ==> a !in s.f.own && a in s.t.ext
  {
    hide Tiled;
    forall a: Addr ensures a in s.f.own ==> a >= HEAP_START && a in s.t.ext && forall i: nat :: i < NSMALLBINS ==>
      a !in s.smalls[i]
    {
      assert BinnedAt(s, off, a);
      if a in s.f.own { assert ShapeAt(s, a); }
    }
    forall i: nat, a: Addr | i < NSMALLBINS && a in s.smalls[i] ensures a !in s.f.own && a in s.t.ext {
      assert BinnedAt(s, off, a);
    }
  }

  // ------------------------------------------------------------- small bins

  /** Chunk p, the j-th of small bin i, is taken out. */
  function SmallUnlinked(s: State, i: nat, j: nat): State
    requires i < |s.smalls| && j < |s.smalls[i]|
  {
    if |s.smalls[i]| == 1 then s.(smap := ClearBit(s.smap, i), smalls := s.smalls[i := []])
    else s.(mem := LeaveMem(s.mem, s.smalls[i][j]), smalls := s.smalls[i := Without(s.smalls[i], j)])
  }

  lemma SmallUnlinkOk(s: State, loose: set<Addr>, off: set<Addr>, i: nat, j: nat)
    requires HeapOk(s, loose, off) && i < NSMALLBINS && j < |s.smalls[i]|
    ensures var s' := SmallUnlinked(s, i, j);
      Relinked(s, s') && HeapOk(s', loose, off + {s.smalls[i][j]}) && Live(s') == Live(s)
  {
    hide ShapeOk, HeadsOk, BinsOk, Bit, ClearBit, LeaveMem, SpecialOk;
    var p, s' := s.smalls[i][j], SmallUnlinked(s, i, j);
    UnlinkSmallOk(s.mem, s.smap, s.smalls, i, j);
    Places(s, off);
    BinnedFree(s, off);
    HeadersApart(i, i);
    hide SmallOk;
    TreesFrame(s.mem, s'.mem, s.tbins, s.tmap, s.f);
    RelinkedOk(s, s', loose);
    SmallUnlinkBinned(s, off, i, j);
  }

  lemma SmallUnlinkBinned(s: State, off: set<Addr>, i: nat, j: nat)
    requires BinnedOk(s, off) && SmallOk(s.mem, s.smap, s.smalls) && i < NSMALLBINS && j < |s.smalls[i]|
    requires forall a {:trigger At(SmallUnlinked(s, i, j).mem, a)} ::
      At(SmallUnlinked(s, i, j).mem, a).cinuse == At(s.mem, a).cinuse
    ensures BinnedOk(SmallUnlinked(s, i, j), off + {s.smalls[i][j]})
  {
    hide Bit, ClearBit, LeaveMem, Cycle;
    var p, s', l := s.smalls[i][j], SmallUnlinked(s, i, j), s.smalls[i];
    assert SmallBinOk(s.mem, s.smap, s.smalls, i) && p in l;
    TailDistinct(s.mem, SmallBinAt(i), l);
    WithoutMembers(l, j);
    assert |l| == 1 ==> Without(l, j) == [];
    hide Without;
    forall a ensures BinnedAt(s', off + {p}, a) {
      assert BinnedAt(s, off, a) && BinnedAt(s, off, p);
      assert At(s'.mem, a).cinuse == At(s.mem, a).cinuse;
    }
  }

  lemma TailDistinct(mem: Memory, b: Addr, l: seq<Addr>)
    requires Cycle(mem, [b] + l)
    ensures Distinct(l)
  {
    var r := [b] + l;
    forall j, k | 0 <= j < k < |l| ensures l[j] != l[k] { assert r[j + 1] != r[k + 1]; }
  }

  /** Chunk p at the front of the small bin for its size. */
  function SmallInserted(s: State, p: Addr, z: nat): State
    requires SmallIndex(z) < |s.smalls|
  {
    var i := SmallIndex(z);
    var b := SmallBinAt(i);
    s.(mem := InsertMem(s.mem, b, if Bit(s.smap, i) then At(s.mem, b).fd else b, p), smap := MarkBit(s.smap, i),
      smalls := s.smalls[i := [p] + s.smalls[i]])
  }

  /** A free chunk in the heap that is in no bin. */
  ghost predicate Waiting(s: State, loose: set<Addr>, off: set<Addr>, p: Addr) {
    p in s.t.ext && p in off && p !in loose && !At(s.mem, p).cinuse && p != s.top && p != s.dv
  }

  lemma SmallInsertOk(s: State, loose: set<Addr>, off: set<Addr>, p: Addr)
    requires HeapOk(s, loose, off) && Waiting(s, loose, off, p) && IsSmall(s.t.ext[p])
    ensures var s' := SmallInserted(s, p, s.t.ext[p]);
      Relinked(s, s') && HeapOk(s', loose, off - {p}) && Live(s') == Live(s)
  {
    hide ShapeOk, BinsOk, Bit, MarkBit, InsertMem, SpecialOk;
    var i, s' := SmallIndex(s.t.ext[p]), SmallInserted(s, p, s.t.ext[p]);
    SplitTop(s, p);
    NotBinned(s, loose, off, p);
    InsertSmallOk(s.mem, s.smap, s.smalls, i, p);
    Places(s, off);
    BinnedFree(s, off);
    HeadersApart(i, i);
    RelinkedOk(s, s', loose);
    hide SmallOk, HeadsOk;
    TreesFrame(s.mem, s'.mem, s.tbins, s.tmap, s.f);
    forall a ensures BinnedAt(s', off - {p}, a) {
      assert BinnedAt(s, off, a);
      assert At(s'.mem, a).cinuse == At(s.mem, a).cinuse;
    }
  }

  // -------------------------------------------------------------- tree bins

  /** The tree part of the state replaced. */
  function WithTrees(s: State, mem: Memory, tbins: seq<Addr>, tmap: nat, f: Forest): State {
    s.(mem := mem, tbins := tbins, tmap := tmap, f := f)
  }

  lemma TreeUnlinkOk(s: State, s': State, loose: set<Addr>, off: set<Addr>, x: Addr)
    requires HeapOk(s, loose, off) && x in s.f.own && s' == WithTrees(s, s'.mem, s'.tbins, s'.tmap, s'.f)
    requires BinsOk(s'.mem, s'.tbins, s'.tmap, s'.f) && s'.f.own.Keys == s.f.own.Keys - {x}
      && LinksOnly(s.mem, s'.mem, s.f.own.Keys)
    ensures HeapOk(s', loose, off + {x}) && Relinked(s, s') && Live(s') == Live(s)
  {
    hide ShapeOk, HeadsOk, BinsOk, SpecialOk;
    BinnedFree(s, off);
    RelinkedOk(s, s', loose);
    SmallsFar(s, s', loose, off, s.f.own.Keys);
    Places(s, off);
    hide SmallOk, LinksOnly;
    forall a ensures BinnedAt(s', off + {x}, a) {
      assert BinnedAt(s, off, a) && (a in s'.f.own <==> a in s.f.own && a != x);
      assert At(s'.mem, a).cinuse == At(s.mem, a).cinuse;
    }
  }

  /** What happens in the trees does not touch the small bins. */
  lemma SmallsFar(s: State, s': State, loose: set<Addr>, off: set<Addr>, touched: set<Addr>)
    requires HeapOk(s, loose, off) && LinksOnly(s.mem, s'.mem, touched) && s'.smap == s.smap && s'.smalls == s.smalls
    requires forall a :: a in touched ==> a in s.f.own || (a in off && a in s.t.ext)
    ensures SmallOk(s'.mem, s'.smap, s'.smalls)
  {
    hide BinsOk, HeadsOk, SpecialOk, Tiled, SmallBinOk;
    Places(s, off);
    forall a | a in touched ensures a >= HEAP_START && (forall i: nat :: i < NSMALLBINS ==> a !in s.smalls[i]) {
      assert BinnedAt(s, off, a);
      if a in s.t.ext { assert ShapeAt(s, a); }
    }
    SmallFrame(s.mem, s'.mem, s.smap, s.smalls);
  }

  lemma TreeInsertOk(s: State, s': State, loose: set<Addr>, off: set<Addr>, x: Addr)
    requires HeapOk(s, loose, off) && Waiting(s, loose, off, x) && !IsSmall(s.t.ext[x])
      && s' == WithTrees(s, s'.mem, s'.tbins, s'.tmap, s'.f)
    requires BinsOk(s'.mem, s'.tbins, s'.tmap, s'.f) && s'.f.own.Keys == s.f.own.Keys + {x}
      && LinksOnly(s.mem, s'.mem, s.f.own.Keys + {x})
    ensures HeapOk(s', loose, off - {x}) && Relinked(s, s') && Live(s') == Live(s)
  {
    hide ShapeOk, HeadsOk, BinsOk, SpecialOk;
    BinnedFree(s, off);
    RelinkedOk(s, s', loose);
    SmallsFar(s, s', loose, off, s.f.own.Keys + {x});
    hide SmallOk, LinksOnly;
    forall a ensures BinnedAt(s', off - {x}, a) {
      assert BinnedAt(s, off, a) && (a in s'.f.own <==> a in s.f.own || a == x);
      assert At(s'.mem, a).cinuse == At(s.mem, a).cinuse;
    }
  }
}
