/** TLSF: what growing, cutting, merging and releasing do to the heap, store by store. */
module TlsfSteps {
  import opened Tiling
  import opened FreeLists
  import opened HeapMem
  import opened FreeIndex
  import opened BoundaryTags
  import opened Coalesce
  import opened TlsfMap
  import opened TlsfHeap

  function Loose(a: Addr): Slack { Slack({a}, {a}, {}) }

  // ----------------------------------------------------------------- growth

  function NewRegion(g: Regions, lo: Addr, len: nat, last: Addr): Regions {
    Regions(g.len[lo := len], g.home[lo := lo][last := lo])
  }

  /** Headers of the two blocks of a new region: all of it free, and the sentinel. */
  function FirstHdr(len: nat): Hdr
    requires len >= 2 * BHDR_OVERHEAD
  {
    Hdr(len - 2 * BHDR_OVERHEAD, 0, true, false)
  }

  function Sentinel(first: Addr): Hdr { Hdr(0, first, false, true) }

  ghost function WithRegion(h: Heap, lo: Addr, len: nat, named: bool := true): Heap
    requires len >= 2 * BHDR_OVERHEAD + MIN_BLOCK_SIZE
  {
    var h1 := AddBlock(Tl(named), h, lo, len, FirstHdr(len));
    SplitHdr(Tl(named), h1, lo, len - BHDR_OVERHEAD, Sentinel(lo))
  }

  lemma GrowStep(h: Heap, g: Regions, lo: Addr, len: nat, named: bool := true)
    requires Ready(h, g, Slack({}, {}, {}), named) && FreshRegion(h.t, lo, len) && lo > 0
    requires len % MEM_ALIGN == 0 && 2 * BHDR_OVERHEAD + MIN_BLOCK_SIZE <= len <= TOO_LARGE + MEM_ALIGN
    ensures var last := lo + len - BHDR_OVERHEAD; var h' := WithRegion(h, lo, len, named);
      && Ready(h', NewRegion(g, lo, len, last), Slack({lo}, {}, {}), named) && UsedKept(Tl(named), h, h', {last})
      && lo !in h.t.ext && last !in h.t.ext && lo in h'.t.ext && last in h'.t.ext
      && At(h', lo) == FirstHdr(len) && At(h', last) == Sentinel(lo)
      && (forall b :: b in h'.t.ext ==> b == lo || b == last || (b in h.t.ext && At(h', b) == At(h, b)))
    ensures lo !in g.len
  {
    hide HeapOk, At, PutHdr, Regioned, Split, AddRegion, UsedKept, FlagAt;
    var last := lo + len - BHDR_OVERHEAD;
    var h1, h2 := AddBlock(Tl(named), h, lo, len, FirstHdr(len)), WithRegion(h, lo, len, named);
    GrowFirst(h, g, lo, len, named);
    GrowSecond(h, h1, lo, len, named);
    NewBlockShape(h.t, lo, len);
    NewBlocksOnly(h.t, lo, len);
    UsedKeptTrans(Tl(named), h, h1, h2, {lo}, {lo, last});
    UsedKeptFree(Tl(named), h, h2, {lo} + {lo, last}, lo);
    assert {lo} + {lo, last} - {lo} == {last};
    RegionRegioned(h, g, h1, h2, lo, len);
  }

  lemma NewBlocksOnly(t: Tiles, lo: Addr, len: nat)
    requires len > BHDR_OVERHEAD
    ensures lo in AddRegion(t, lo, len).ext && 0 < len - BHDR_OVERHEAD < AddRegion(t, lo, len).ext[lo]
    ensures forall b {:trigger b in Split(AddRegion(t, lo, len), lo, len - BHDR_OVERHEAD).ext} ::
      b in Split(AddRegion(t, lo, len), lo, len - BHDR_OVERHEAD).ext ==>
      b == lo || b == lo + len - BHDR_OVERHEAD || b in t.ext
  {
  }

  lemma GrowFirst(h: Heap, g: Regions, lo: Addr, len: nat, named: bool := true)
    requires Ready(h, g, Slack({}, {}, {}), named) && FreshRegion(h.t, lo, len) && lo > 0
      && 2 * BHDR_OVERHEAD + MIN_BLOCK_SIZE <= len
    ensures var h1 := AddBlock(Tl(named), h, lo, len, FirstHdr(len));
      && HeapOk(Tl(named), h1, Slack({lo}, {lo}, {lo})) && lo !in h.t.ext && At(h1, lo) == FirstHdr(len)
      && UsedKept(Tl(named), h, h1, {lo})
      && (forall b :: b in h.t.ext ==> At(h1, b) == At(h, b)) && h1.t == AddRegion(h.t, lo, len) && h1.x == h.x
    ensures Tiled(h.t) && lo !in g.len && lo !in h.x.place && lo + len - BHDR_OVERHEAD !in h.t.ext
  {
    hide HeapOk, At, PutHdr, Split, AddRegion, UsedKept, FlagAt;
    var none := Slack({}, {}, {});
    HeapParts(Tl(named), h, none);
    AddBlockOk(Tl(named), h, none, lo, len, FirstHdr(len));
    assert Slack({} + {lo}, {} + {lo}, {} + {lo}) == Slack({lo}, {lo}, {lo});
    FirstsAreBlocks(h.t);
    assert ListedAt(Tl(named), h, {}, lo);
  }

  lemma GrowSecond(h: Heap, h1: Heap, lo: Addr, len: nat, named: bool := true)
    requires len % MEM_ALIGN == 0 && 2 * BHDR_OVERHEAD + MIN_BLOCK_SIZE <= len
    requires h1 == AddBlock(Tl(named), h, lo, len, FirstHdr(len)) && h1.t == AddRegion(h.t, lo, len) && h1.x == h.x
    requires HeapOk(Tl(named), h1, Slack({lo}, {lo}, {lo})) && At(h1, lo) == FirstHdr(len) && lo !in h1.x.place
    ensures var last := lo + len - BHDR_OVERHEAD;
      var h2 := SplitHdr(Tl(named), h1, lo, len - BHDR_OVERHEAD, Sentinel(lo));
      && HeapOk(Tl(named), h2, Slack({lo}, {}, {})) && UsedKept(Tl(named), h1, h2, {lo, last})
      && h2 == WithRegion(h, lo, len, named)
      && At(h2, lo) == FirstHdr(len) && At(h2, last) == Sentinel(lo) && lo in h2.t.ext && last in h2.t.ext
      && Tiled(h1.t) && (forall b :: b in h1.t.ext ==> At(h2, b) == At(h1, b))
      && h2.t == Split(h1.t, lo, len - BHDR_OVERHEAD)
  {
    hide HeapOk, At, PutHdr, Split, AddRegion, UsedKept, FlagAt, AddBlock;
    var last := lo + len - BHDR_OVERHEAD;
    var d1 := Slack({lo}, {lo}, {lo});
    NewBlockShape(h.t, lo, len);
    HeapParts(Tl(named), h1, d1);
    LastIsNew(h1, lo, len);
    SplitOk(Tl(named), h1, d1, lo, len - BHDR_OVERHEAD, Sentinel(lo));
    assert SplitSlack(d1, lo, last) == Slack({lo, last}, {lo, last}, {lo}) by {
      assert {lo} + {lo, last} == {lo, last} && {lo} + {lo} == {lo};
    }
    CutFacts(h1.t, lo, len - BHDR_OVERHEAD);
    RegionSettles(h1, SplitHdr(Tl(named), h1, lo, len - BHDR_OVERHEAD, Sentinel(lo)), lo, len, named);
  }

  lemma LastIsNew(h1: Heap, lo: Addr, len: nat)
    requires len > BHDR_OVERHEAD
    ensures lo + len - BHDR_OVERHEAD !in {lo} + {lo} + {lo}
  {
  }

  lemma NewBlockShape(t: Tiles, lo: Addr, len: nat)
    ensures forall b :: b in t.ext ==> b in AddRegion(t, lo, len).ext
    ensures var s := AddRegion(t, lo, len);
      lo in s.ext && s.ext[lo] == len && lo in s.firsts && s.End(lo) == lo + len && lo + len in s.ends && !s.HasNext(lo)
  {
  }

  /** Both new headers agree with each other. */
  lemma RegionSettles(h1: Heap, h2: Heap, lo: Addr, len: nat, named: bool := true)
    requires len % MEM_ALIGN == 0 && 2 * BHDR_OVERHEAD + MIN_BLOCK_SIZE <= len && lo in h1.t.ext && h1.t.ext[lo] == len
    requires Tiled(h1.t) && lo in h1.t.firsts && !h1.t.HasNext(lo) && h2.t == Split(h1.t, lo, len - BHDR_OVERHEAD)
    requires HeapOk(Tl(named), h2, Slack({lo, lo + len - BHDR_OVERHEAD}, {lo, lo + len - BHDR_OVERHEAD}, {lo}))
    requires At(h2, lo) == FirstHdr(len) && At(h2, lo + len - BHDR_OVERHEAD) == Sentinel(lo)
    ensures HeapOk(Tl(named), h2, Slack({lo}, {}, {}))
  {
    hide HeapOk, At, Split, Tiled;
    var last := lo + len - BHDR_OVERHEAD;
    var d2, d3, d4 := Slack({lo, last}, {lo, last}, {lo}), Slack({lo}, {lo}, {lo}), Slack({lo}, {}, {});
    CutFacts(h1.t, lo, len - BHDR_OVERHEAD);
    RoundSum(len - 2 * BHDR_OVERHEAD, 0, 0);
    Settle(Tl(named), h2, d2, last, d3);
    Settle(Tl(named), h2, d3, lo, d4);
  }

  lemma RegionRegioned(h: Heap, g: Regions, h1: Heap, h2: Heap, lo: Addr, len: nat)
    requires Regioned(h, g) && Tiled(h.t) && lo !in h.t.ext && lo + len - BHDR_OVERHEAD !in h.t.ext && lo !in g.len
    requires len % MEM_ALIGN == 0 && 2 * BHDR_OVERHEAD + MIN_BLOCK_SIZE <= len <= TOO_LARGE + MEM_ALIGN
      && FreshRegion(h.t, lo, len)
    requires h1.t == AddRegion(h.t, lo, len) && Tiled(h1.t) && h2.t == Split(h1.t, lo, len - BHDR_OVERHEAD)
    requires At(h2, lo) == FirstHdr(len) && At(h2, lo + len - BHDR_OVERHEAD) == Sentinel(lo)
    requires forall b :: b in h.t.ext ==> At(h2, b) == At(h, b)
    ensures Regioned(h2, NewRegion(g, lo, len, lo + len - BHDR_OVERHEAD))
  {
    hide At, Tiled, Split, AddRegion, FreshRegion;
    var last := lo + len - BHDR_OVERHEAD;
    var g' := NewRegion(g, lo, len, last);
    NewBlockShape(h.t, lo, len);
    CutFacts(h1.t, lo, len - BHDR_OVERHEAD);
    forall b | b in h2.t.ext ensures InRegion(h2, g', b) {
      if b != lo && b != last {
        NewBlocks(h.t, lo, len, b);
        KeptRegion(h, g, h1, h2, lo, len, b);
      }
    }
    NewFirsts(h.t, lo, len);
    NewEnds(h, g, lo, len);
  }

  lemma NewEnds(h: Heap, g: Regions, lo: Addr, len: nat)
    requires Regioned(h, g) && lo !in g.len && BHDR_OVERHEAD < len
    ensures lo in AddRegion(h.t, lo, len).ext && AddRegion(h.t, lo, len).ext[lo] == len
    ensures EndsOk(Split(AddRegion(h.t, lo, len), lo, len - BHDR_OVERHEAD).ends, g.len[lo := len])
  {
    hide At;
    var ends', len' := Split(AddRegion(h.t, lo, len), lo, len - BHDR_OVERHEAD).ends, g.len[lo := len];
    forall e | e in ends' ensures exists r :: r in len' && r + len'[r] == e {
      if e == lo + len {
        assert len'[lo] == len;
      } else {
        var r :| r in g.len && r + g.len[r] == e;
        assert len'[r] == g.len[r];
      }
    }
  }

  lemma KeptRegion(h: Heap, g: Regions, h1: Heap, h2: Heap, lo: Addr, len: nat, b: Addr)
    requires Regioned(h, g) && Tiled(h.t) && lo !in h.t.ext && lo + len - BHDR_OVERHEAD !in h.t.ext && lo !in g.len
    requires 2 * BHDR_OVERHEAD + MIN_BLOCK_SIZE <= len && FreshRegion(h.t, lo, len)
    requires h1.t == AddRegion(h.t, lo, len) && Tiled(h1.t) && h2.t == Split(h1.t, lo, len - BHDR_OVERHEAD)
      && lo in h1.t.ext && h1.t.ext[lo] == len
    requires b in h.t.ext && b in h2.t.ext && At(h2, b) == At(h, b)
    ensures InRegion(h2, NewRegion(g, lo, len, lo + len - BHDR_OVERHEAD), b)
  {
    hide At, Tiled, Split, AddRegion, FreshRegion;
    assert InRegion(h, g, b);
    OldBlock(h.t, lo, len, b);
    CutOthers(h1.t, lo, len - BHDR_OVERHEAD, b);
  }

  lemma NewFirsts(t: Tiles, lo: Addr, len: nat)
    ensures AddRegion(t, lo, len).firsts == t.firsts + {lo}
  {
  }

  lemma NewBlocks(t: Tiles, lo: Addr, len: nat, b: Addr)
    requires BHDR_OVERHEAD < len && b != lo && b != lo + len - BHDR_OVERHEAD
    requires b in Split(AddRegion(t, lo, len), lo, len - BHDR_OVERHEAD).ext
    ensures b in t.ext
  {
  }

  lemma OldBlock(t: Tiles, lo: Addr, len: nat, b: Addr)
    requires Tiled(t) && b in t.ext && b != lo && FreshRegion(t, lo, len) && len > 0
    ensures var s := AddRegion(t, lo, len);
      && b in s.ext && s.ext[b] == t.ext[b] && (s.HasNext(b) <==> t.HasNext(b)) && (b in s.firsts <==> b in t.firsts)
      && (b !in t.firsts ==>
        b in t.pred && t.pred[b] in t.ext && b in s.pred && s.pred[b] == t.pred[b] && t.pred[b] != lo)
      && t.End(b) != lo + len
  {
    NextFacts(t, b);
    if b !in t.firsts { PredFacts(t, b); }
  }

  // ------------------------------------------------------------- allocation

  lemma RemainderRoom(h: Heap, g: Regions, a: Addr, size: nat)
    requires Ready(h, g, Slack({a}, {}, {})) && a in h.t.ext && At(h, a).free
    requires At(h, a).size >= size + BHDR_OVERHEAD + MIN_BLOCK_SIZE
    ensures BHDR_OVERHEAD + size < h.t.ext[a] && a in g.home && h.t.ext[a] == BHDR_OVERHEAD + At(h, a).size
    ensures At(h, a).size % MEM_ALIGN == 0 && h.t.HasNext(a)
  {
    hide HeapOk, At, Regioned;
    BlockFacts(h, g, Slack({a}, {}, {}), a);
    HomeOf(h, g, a);
  }

  lemma RemainderStep(h: Heap, g: Regions, a: Addr, size: nat)
    requires Ready(h, g, Slack({a}, {}, {})) && a in h.t.ext && At(h, a).free && size % MEM_ALIGN == 0
    requires At(h, a).size >= size + BHDR_OVERHEAD + MIN_BLOCK_SIZE
    requires BHDR_OVERHEAD + size < h.t.ext[a] == BHDR_OVERHEAD + At(h, a).size && a in g.home
    requires At(h, a).size % MEM_ALIGN == 0 && h.t.HasNext(a)
    ensures var e := a + BHDR_OVERHEAD + size; var c := Hdr(At(h, a).size - size - BHDR_OVERHEAD, a, true, false);
      var h' := SplitHdr(Tl(), h, a, BHDR_OVERHEAD + size, c);
      && Ready(h', SplitHome(g, a, e), Slack({a, e}, {a, e}, {a})) && UsedKept(Tl(), h, h', {a})
      && Cut(Tl(), h, h', a, size)
      && Renamable(Tl(), h', a, e) && h'.t.HasNext(e)
  {
    hide HeapOk, At, Regioned, PutHdr, Split, UsedKept, Renamable, Tiled;
    var c := Hdr(At(h, a).size - size - BHDR_OVERHEAD, a, true, false);
    RemainderNumbers(At(h, a).size, size);
    RemainderCut(Tl(), h, a, size);
    var h' := SplitHdr(Tl(), h, a, BHDR_OVERHEAD + size, c);
    CutRenamable(Tl(), h, h', a, size);
    RemainderRegioned(h, g, h', a, size, c);
  }

  lemma RemainderNumbers(total: nat, size: nat)
    requires total % MEM_ALIGN == 0 && size % MEM_ALIGN == 0 && total >= size + BHDR_OVERHEAD + MIN_BLOCK_SIZE
    ensures total % 4 == 0 && size % 4 == 0
    ensures var rest := total - size - BHDR_OVERHEAD; rest % MEM_ALIGN == 0 && rest >= MIN_BLOCK_SIZE
  {
    var x, y := total / 16, size / 16;
    assert total == 16 * x && size == 16 * y;
    assert total - size - 16 == 16 * (x - y - 1);
    assert total == 4 * (4 * x) && size == 4 * (4 * y);
  }

  lemma RemainderRegioned(h: Heap, g: Regions, h': Heap, a: Addr, size: nat, c: Hdr)
    requires Ready(h, g, Slack({a}, {}, {})) && a in h.t.ext && h.t.HasNext(a) && a in g.home
      && BHDR_OVERHEAD + size < h.t.ext[a]
    requires c.size % MEM_ALIGN == 0 && c.size >= MIN_BLOCK_SIZE && c == At(h', a + BHDR_OVERHEAD + size)
    requires h' == SplitHdr(Tl(), h, a, BHDR_OVERHEAD + size, c) && Cut(Tl(), h, h', a, size)
    ensures Regioned(h', SplitHome(g, a, a + BHDR_OVERHEAD + size))
  {
    hide HeapOk, At, Regioned, PutHdr, Split, Tiled;
    ReadyTiled(h, g, Slack({a}, {}, {}));
    SplitTiled(h.t, a, BHDR_OVERHEAD + size);
    SplitRegioned(h, g, a, BHDR_OVERHEAD + size, c);
  }

  lemma HomeOf(h: Heap, g: Regions, a: Addr)
    requires Regioned(h, g) && a in h.t.ext
    ensures a in g.home && g.home[a] in g.len
  {
    hide At;
    assert InRegion(h, g, a);
  }

  /** The successor of the rest is told its name before the rest is listed. */
  lemma RenameStep(h: Heap, g: Regions, a: Addr, e: Addr)
    requires Ready(h, g, Slack({a, e}, {a, e}, {a})) && Renamable(Tl(), h, a, e) && h.t.HasNext(e)
    ensures var nb := h.t.End(e); var c := At(h, nb).(prev := e); var h' := StoreHdr(Tl(), h, nb, c);
      && Ready(h', g, Slack({a, e}, {a}, {a})) && UsedKept(Tl(), h, h', {}) && SameHdrsBut(h, h', nb)
  {
    hide HeapOk, At, Regioned, PutHdr, SameHdrsBut, UsedKept;
    var nb := h.t.End(e);
    BlockFacts(h, g, Slack({a, e}, {a, e}, {a}), nb);
    RenameOk(Tl(), h, {a, e}, a, e, nb);
    ReadyStore(h, g, Slack({a, e}, {a, e}, {a}), nb, At(h, nb).(prev := e), Slack({a, e}, {a}, {a}));
  }

  /** The store that hands out block a. */
  lemma UseStep(h: Heap, g: Regions, a: Addr, c: Hdr, named: bool := true)
    requires Ready(h, g, Slack({a}, {a}, {a}), named) && Carved(Tl(named), h, a, Hdr(c.size, 0, false, false))
      && !c.free
    requires c == At(h, a).(size := c.size, free := false) && c.size % MEM_ALIGN == 0 && c.size >= MIN_BLOCK_SIZE
      && h.t.HasNext(a)
    ensures var h' := StoreHdr(Tl(named), h, a, c);
      Ready(h', g, Slack({}, {}, {}), named) && UsedKept(Tl(named), h, h', {a}) && At(h', a) == c && IsUsed(h', a)
  {
    hide HeapOk, HdrAt, Regioned, PutHdr, SameHdrsBut, UsedKept, FlagAt;
    UseOk(Tl(named), h, a, c);
    ReadyStore(h, g, Slack({a}, {a}, {a}), a, c, Slack({}, {}, {}), named);
  }

  /** Without a cut: the successor no longer follows a free block. */
  lemma WholeStep(h: Heap, g: Regions, a: Addr, named: bool := true)
    requires Ready(h, g, Slack({a}, {}, {}), named) && a in h.t.ext && At(h, a).free
    ensures h.t.HasNext(a) && h.t.End(a) in h.t.ext
    ensures var nb := h.t.End(a); var c := At(h, nb).(prevFree := false); var h' := StoreHdr(Tl(named), h, nb, c);
      && Ready(h', g, Slack({a}, {a}, {a}), named) && UsedKept(Tl(named), h, h', {}) && At(h', a) == At(h, a)
      && Carved(Tl(named), h', a, Hdr(At(h, a).size, 0, false, false))
  {
    hide HeapOk, At, PutHdr, UsedKept, Regioned, FlagAt, SameHdrsBut, Carved;
    var d := Slack({a}, {a}, {a});
    BlockFacts(h, g, Slack({a}, {}, {}), a, named);
    TakenFlags(Tl(named), h, a);
    var nb := h.t.End(a);
    var c := At(h, nb).(prevFree := false);
    BlockFacts(h, g, Slack({a}, {}, {}), nb, named);
    Loosen(Tl(named), h, Slack({a}, {}, {}), a, d);
    ClearOk(h, a, nb, c, named);
    ReadyStore(h, g, d, nb, c, d, named);
    var h' := StoreHdr(Tl(named), h, nb, c);
    WholeFlag(h, h', a, nb, named);
    WholeCarved(h, h', a, named);
  }

  lemma WholeCarved(h: Heap, h': Heap, a: Addr, named: bool)
    requires a in h.t.ext && h.t.HasNext(a) && h.t.End(a) in h.t.ext && h.t.End(a) > a && h'.t == h.t
      && SameHdrsBut(h, h', h.t.End(a))
    requires At(h, a).size % MEM_ALIGN == 0 && h.t.ext[a] == BHDR_OVERHEAD + At(h, a).size
      && FlagAt(Tl(named), h', a, {})
    requires !At(h', h.t.End(a)).prevFree && (named ==> At(h', h.t.End(a)).prev == a)
    ensures At(h', a) == At(h, a) && Carved(Tl(named), h', a, Hdr(At(h, a).size, 0, false, false))
  {
    hide At, FlagAt;
    FourDividesToo(At(h, a).size);
  }

  lemma ClearOk(h: Heap, a: Addr, nb: Addr, c: Hdr, named: bool := true)
    requires HeapOk(Tl(named), h, Slack({a}, {a}, {a})) && a in h.t.ext && h.t.HasNext(a) && h.t.End(a) == nb
      && nb in h.t.ext && nb != a
    requires c == At(h, nb).(prevFree := false) && !c.free
    ensures var h' := StoreHdr(Tl(named), h, nb, c);
      && HeapOk(Tl(named), h', Slack({a}, {a}, {a})) && UsedKept(Tl(named), h, h', {}) && At(h', nb) == c
      && SameHdrsBut(h, h', nb)
  {
    hide IndexOk, Tiled, At, FlagsOk, PutHdr, KeptAt, Roomy;
    var d := Slack({a}, {a}, {a});
    Neighbours(Tl(named), h, d, a);
    StoreFrame(Tl(named), h, nb, c);
    assert ListedAt(Tl(named), h, {a}, nb);
    if h.t.HasNext(nb) { NextFlag(Tl(named), h, d, nb, c, {a}); }
    StoreOk(Tl(named), h, d, nb, c, d);
    StoreKeeps(Tl(named), h, nb, c);
  }

  lemma WholeFlag(h: Heap, h': Heap, a: Addr, nb: Addr, named: bool := true)
    requires HeapOk(Tl(named), h, Slack({a}, {}, {})) && a in h.t.ext && nb in h.t.ext && h'.t == h.t && a < nb
    requires FlagAt(Tl(named), h, a, {}) && SameHdrsBut(h, h', nb)
    ensures FlagAt(Tl(named), h', a, {})
  {
    hide At, HeapOk, FlagAt;
    Neighbours(Tl(named), h, Slack({a}, {}, {}), a);
    if a !in h.t.firsts { assert At(h', h.t.pred[a]) == At(h, h.t.pred[a]); }
    FlagSame(Tl(named), h, h', a, {});
  }

  // ---------------------------------------------------------------- release

  /** The block is marked free before anything else. */
  lemma MarkFreeStep(h: Heap, g: Regions, a: Addr, named: bool := true)
    requires Ready(h, g, Slack({}, {}, {}), named) && IsUsed(h, a) && At(h, a).size > 0
    ensures var c := At(h, a).(free := true); var h' := StoreHdr(Tl(named), h, a, c);
      && Ready(h', g, Loose(a), named) && UsedKept(Tl(named), h, h', {a}) && At(h', a) == c && SameHdrsBut(h, h', a)
  {
    hide IndexOk, Tiled, At, FlagsOk, PutHdr, KeptAt, Roomy, Regioned;
    var d, c := Slack({}, {}, {}), At(h, a).(free := true);
    BlockFacts(h, g, d, a, named);
    assert ListedAt(Tl(named), h, {}, a);
    StoreFrame(Tl(named), h, a, c);
    OwnFlag(Tl(named), h, d, a, c, {a});
    if h.t.HasNext(a) { NextFlag(Tl(named), h, d, a, c, {a}); }
    StoreOk(Tl(named), h, d, a, c, Loose(a));
    ReadyStore(h, g, d, a, c, Loose(a), named);
  }

  lemma SwallowStep(h: Heap, g: Regions, a: Addr, b: Addr, loose: set<Addr>, named: bool := true)
    requires Ready(h, g, Slack({a, b}, loose, {}), named) && loose <= {a, b}
    requires a in h.t.ext && h.t.HasNext(a) && h.t.End(a) == b && b in h.t.ext && h.t.HasNext(b)
    ensures Ready(Swallow(Tl(named), h, a), g, Loose(a), named)
      && UsedKept(Tl(named), h, Swallow(Tl(named), h, a), {a, b})
    ensures At(Swallow(Tl(named), h, a), a) == At(h, a).(size := At(h, a).size + At(h, b).size + BHDR_OVERHEAD)
    ensures SameHdrsBut(MergeBlocks(h, a), Swallow(Tl(named), h, a), a)
  {
    hide HeapOk, At, PutHdr, Regioned, SameHdrsBut, UsedKept, Swallow, MergeBlocks, Tiled;
    ReadyTiled(h, g, Slack({a, b}, loose, {}), named);
    BlockFacts(h, g, Slack({a, b}, loose, {}), a, named);
    BlockFacts(h, g, Slack({a, b}, loose, {}), b, named);
    FourDivides(At(h, a).size);
    FourDivides(At(h, b).size);
    SwallowOk(Tl(named), h, Slack({a, b}, loose, {}), a, b);
    MergeRegioned(h, g, a);
    SwallowRegioned(h, g, a, b, named);
    SwallowCounts(h, a, named);
  }

  lemma FourDivides(n: nat)
    requires n % MEM_ALIGN == 0
    ensures n % 4 == 0
  {
  }

  lemma SwallowCounts(h: Heap, a: Addr, named: bool := true)
    requires Counts(h) && a in h.t.ext && h.t.End(a) in h.t.ext
    ensures Counts(Swallow(Tl(named), h, a))
  {
  }

  lemma SwallowRegioned(h: Heap, g: Regions, a: Addr, b: Addr, named: bool := true)
    requires a in h.t.ext && h.t.End(a) == b && b in h.t.ext && a != b && Regioned(MergeBlocks(h, a), g)
      && h.t.HasNext(b)
    requires At(h, a).size % MEM_ALIGN == 0 && At(h, b).size % MEM_ALIGN == 0
    requires At(Swallow(Tl(named), h, a), a) == At(h, a).(size := At(h, a).size + At(h, b).size + BHDR_OVERHEAD)
    requires SameHdrsBut(MergeBlocks(h, a), Swallow(Tl(named), h, a), a)
    ensures Regioned(Swallow(Tl(named), h, a), g)
  {
    hide HdrAt, PutHdr, Regioned;
    StoreRegioned(MergeBlocks(h, a), g, a, At(h, a).(size := At(h, a).size + At(h, b).size + BHDR_OVERHEAD), named);
  }

  /** What is known before the merge with a free successor. */
  lemma NextIsFree(h: Heap, g: Regions, a: Addr, b: Addr, named: bool := true)
    requires Ready(h, g, Loose(a), named) && a in h.t.ext && h.t.HasNext(a) && h.t.End(a) == b && b in h.t.ext
      && At(h, b).free
    ensures b != a && h.t.HasNext(b) && h.t.End(b) in h.t.ext && !At(h, h.t.End(b)).free
  {
    hide HeapOk, At, Regioned;
    BlockFacts(h, g, Loose(a), a, named);
    BlockFacts(h, g, Loose(a), b, named);
    Neighbours(Tl(named), h, Loose(a), b);
  }

  /** After the merge with the successor the next block is in use. */
  lemma NextMerged(h: Heap, a: Addr, b: Addr, named: bool := true)
    requires Tiled(h.t) && a in h.t.ext && h.t.HasNext(a) && h.t.End(a) == b && b in h.t.ext && h.t.HasNext(b)
    requires SameHdrsBut(MergeBlocks(h, a), Swallow(Tl(named), h, a), a)
    requires h.t.End(b) in h.t.ext && !At(h, h.t.End(b)).free
    ensures var h' := Swallow(Tl(named), h, a);
      a in h'.t.ext && h'.t.HasNext(a) && h'.t.End(a) in h'.t.ext && !At(h', h'.t.End(a)).free
  {
    hide Tiled, PutHdr, HdrAt;
    var h', c := Swallow(Tl(named), h, a), h.t.End(b);
    NextFacts(h.t, a);
    NextFacts(h.t, b);
    assert c in MergeBlocks(h, a).t.ext && c != a && h'.t.End(a) == c;
    assert At(h', c) == At(MergeBlocks(h, a), c);
  }

  /** What the header of a block tells about its predecessor. */
  lemma PrevFacts(h: Heap, g: Regions, a: Addr)
    requires Ready(h, g, Loose(a)) && a in h.t.ext
    ensures At(h, a).prev == 0 <==> a in h.t.firsts
    ensures a in h.t.firsts ==> !At(h, a).prevFree && a in g.home && g.home[a] == a && a in g.len
    ensures a !in h.t.firsts ==> var p := At(h, a).prev;
      && a in h.t.pred && p == h.t.pred[a] && p in h.t.ext && p < a && h.t.HasNext(p) && h.t.End(p) == a
      && (At(h, a).prevFree <==> At(h, p).free)
      && p in g.home && a in g.home && g.home[p] == g.home[a]
      && (At(h, p).free ==> p !in h.t.firsts ==> p in h.t.pred && !At(h, h.t.pred[p]).free)
  {
    hide HeapOk, At, Regioned;
    HeapParts(Tl(), h, Loose(a));
    Neighbours(Tl(), h, Loose(a), a);
    RegionOf(h, g, a);
    if a !in h.t.firsts {
      var p: nat := h.t.pred[a];
      Neighbours(Tl(), h, Loose(a), p);
    }
  }

  lemma RegionOf(h: Heap, g: Regions, a: Addr)
    requires Regioned(h, g) && a in h.t.ext
    ensures InRegion(h, g, a)
    ensures a in h.t.firsts <==> a in g.len
  {
    hide At;
  }

  /** The successor is told the name of the merged block. */
  lemma PrevHdrStep(h: Heap, g: Regions, a: Addr)
    requires Ready(h, g, Loose(a)) && a in h.t.ext && h.t.HasNext(a) && h.t.End(a) in h.t.ext
    ensures var nb := h.t.End(a); var c := At(h, nb).(prev := a); var h' := StoreHdr(Tl(), h, nb, c);
      Ready(h', g, Loose(a)) && UsedKept(Tl(), h, h', {}) && SameHdrsBut(h, h', nb) && At(h', nb) == c
  {
    hide IndexOk, Tiled, At, FlagsOk, PutHdr, KeptAt, Roomy, Regioned;
    var nb := h.t.End(a);
    var c := At(h, nb).(prev := a);
    BlockFacts(h, g, Loose(a), a);
    BlockFacts(h, g, Loose(a), nb);
    Neighbours(Tl(), h, Loose(a), a);
    assert ListedAt(Tl(), h, {a}, nb);
    StoreFrame(Tl(), h, nb, c);
    if h.t.HasNext(nb) { NextFlag(Tl(), h, Loose(a), nb, c, {a}); }
    StoreOk(Tl(), h, Loose(a), nb, c, Loose(a));
    StoreKeeps(Tl(), h, nb, c);
    ReadyStore(h, g, Loose(a), nb, c, Loose(a));
  }

  /** The successor learns that the merged block is free. */
  lemma SealStep(h: Heap, g: Regions, a: Addr, named: bool := true)
    requires Ready(h, g, Slack({}, {a}, {}), named) && a in h.t.ext && h.t.HasNext(a) && h.t.End(a) in h.t.ext
    requires BetweenUsed(h, a) && At(h, a).free
    ensures var nb := h.t.End(a); var c := At(h, nb).(prevFree := true, prev := a);
      var h' := StoreHdr(Tl(named), h, nb, c);
      Ready(h', g, Slack({}, {}, {}), named) && UsedKept(Tl(named), h, h', {}) && At(h', a) == At(h, a)
  {
    hide HeapOk, Tiled, At, PutHdr, KeptAt, Regioned, UsedKept;
    var nb := h.t.End(a);
    BlockFacts(h, g, Slack({}, {a}, {}), a, named);
    BlockFacts(h, g, Slack({}, {a}, {}), nb, named);
    SealOk(Tl(named), h, a, nb);
    ReadyStore(h, g, Slack({}, {a}, {}), nb, At(h, nb).(prevFree := true, prev := a), Slack({}, {}, {}), named);
  }

  /** A region that is one free block and its sentinel is given back whole. */
  ghost function WithoutRegion(h: Heap, a: Addr): Heap
    requires a in h.t.ext && h.t.End(a) in h.t.ext
  {
    DropBlock(MergeBlocks(h, a), a)
  }

  lemma ReleaseStep(h: Heap, g: Regions, a: Addr)
    requires Ready(h, g, Loose(a)) && a in h.t.ext && a in h.t.firsts && h.t.HasNext(a) && h.t.End(a) in h.t.ext
    requires At(h, h.t.End(a)).size == 0
    ensures var last := h.t.End(a);
      && a in g.len && g.len[a] == h.t.ext[a] + h.t.ext[last]
      && Ready(WithoutRegion(h, a), Regions(g.len - {a}, g.home), Slack({}, {}, {}))
      && UsedKept(Tl(), h, WithoutRegion(h, a), {a, last})
      && a !in WithoutRegion(h, a).t.ext && last !in WithoutRegion(h, a).t.ext
  {
    hide HeapOk, HdrAt, Regioned, UsedKept, Merge, DropRegion;
    var last := h.t.End(a);
    var h1, h2 := MergeBlocks(h, a), WithoutRegion(h, a);
    LastFacts(h, g, a, last);
    MergeOk(Tl(), h, Loose(a), a);
    assert MergeSlack(Loose(a), a, last) == Slack({a}, {a}, {a}) by {
      assert {a} + {a} - {last} == {a};
      assert {} + {a} - {last} == {a};
    }
    MergedWhole(h.t, a);
    DropBlockOk(Tl(), h1, Slack({a}, {a}, {a}), a);
    assert {a} - {a} == {};
    UsedKeptTrans(Tl(), h, h1, h2, {a, last}, {a});
    assert {a, last} + {a} == {a, last};
    ReleasedRegioned(h, g, a);
  }

  lemma LastFacts(h: Heap, g: Regions, a: Addr, last: Addr)
    requires Ready(h, g, Loose(a)) && a in h.t.ext && a in h.t.firsts && h.t.HasNext(a) && h.t.End(a) == last
      && last in h.t.ext
    requires At(h, last).size == 0
    ensures a != last && !h.t.HasNext(last) && a !in h.x.place && last !in h.x.place && Tiled(h.t)
    ensures a in g.len && g.len[a] == h.t.ext[a] + h.t.ext[last] && 0 !in h.t.ext
  {
    hide HeapOk, HdrAt, Regioned;
    HeapParts(Tl(), h, Loose(a));
    BlockFacts(h, g, Loose(a), a);
    BlockFacts(h, g, Loose(a), last);
    assert ListedAt(Tl(), h, {a}, a) && ListedAt(Tl(), h, {a}, last);
    RegionOf(h, g, a);
    RegionOf(h, g, last);
    NextFacts(h.t, a);
  }

  lemma MergedWhole(t: Tiles, a: Addr)
    requires Tiled(t) && a in t.ext && t.HasNext(a) && t.End(a) in t.ext && !t.HasNext(t.End(a))
    ensures a in Merge(t, a).ext && (a in Merge(t, a).firsts <==> a in t.firsts) && !Merge(t, a).HasNext(a)
      && t.End(a) != a
  {
    NextFacts(t, a);
  }

  lemma ReleasedRegioned(h: Heap, g: Regions, a: Addr)
    requires Tiled(h.t) && Regioned(h, g) && a in h.t.ext && a in h.t.firsts && h.t.HasNext(a) && h.t.End(a) in h.t.ext
      && !h.t.HasNext(h.t.End(a))
    ensures Regioned(WithoutRegion(h, a), Regions(g.len - {a}, g.home))
    ensures a !in WithoutRegion(h, a).t.ext && h.t.End(a) !in WithoutRegion(h, a).t.ext
  {
    hide HdrAt, Tiled;
    var h', last := WithoutRegion(h, a), h.t.End(a);
    NextFacts(h.t, a);
    RegionOf(h, g, a);
    RegionOf(h, g, last);
    forall b | b in h'.t.ext ensures InRegion(h', Regions(g.len - {a}, g.home), b) {
      assert InRegion(h, g, b);
      if b !in h.t.firsts { PredFacts(h.t, b); }
      NextFacts(h.t, b);
      BlocksDisjoint(h.t, a, b);
      BlocksDisjoint(h.t, last, b);
    }
    EndsLeft(h.t.ends, h'.t.ends, g.len, a);
  }

  lemma EndsLeft(ends: set<Addr>, ends': set<Addr>, len: map<Addr, nat>, a: Addr)
    requires EndsOk(ends, len) && a in len && ends' == ends - {a + len[a]}
    ensures EndsOk(ends', len - {a})
  {
    var len' := len - {a};
    forall e | e in ends' ensures exists r :: r in len' && r + len'[r] == e {
      var r :| r in len && r + len[r] == e;
      assert r in len';
    }
  }
}
