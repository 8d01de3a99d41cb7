/** The TLSF heap: regions of linked blocks, each closed by a used block of size 0. */
module TlsfHeap {
  import opened Bits
  import opened Tiling
  import opened FreeLists
  import opened TwoLevel
  import opened HeapMem
  import opened BoundaryTags
  import opened Coalesce
  import opened TlsfMap

  /** prev_hdr and size take 16 bytes, the two list pointers behind them another 16. */
  function Y(): Layout { Layout(BHDR_OVERHEAD, MIN_BLOCK_SIZE) }

  /** Headers name their predecessors by address: every header does in the kernel port
      (`named`), only that behind a free block in the original. */
  ghost function Tl(named: bool := true): Rules {
    Rules(Y(), MIN_BLOCK_SIZE, (size: nat) => ClassIndex(size), (p: nat) => p, named, MAX_SLI)
  }

  /** The regions held, by start, with their lengths; and the region of each block. */
  datatype Regions = Regions(len: map<Addr, nat>, home: map<Addr, Addr>)

  ghost predicate InRegion(h: Heap, g: Regions, a: Addr)
    requires a in h.t.ext
  {
    && a in g.home && g.home[a] in g.len && g.home[a] <= a && h.t.End(a) <= g.home[a] + g.len[g.home[a]]
    && (if a in h.t.firsts then g.home[a] == a
      else a in h.t.pred && h.t.pred[a] in g.home && g.home[h.t.pred[a]] == g.home[a])
    && At(h, a).size % MEM_ALIGN == 0
    && (if h.t.HasNext(a) then At(h, a).size >= MIN_BLOCK_SIZE
        else At(h, a).size == 0 && !At(h, a).free && h.t.End(a) == g.home[a] + g.len[g.home[a]])
  }

  ghost predicate Regioned(h: Heap, g: Regions) {
    && h.t.firsts == g.len.Keys
    && (forall a {:trigger InRegion(h, g, a)} :: a in h.t.ext ==> InRegion(h, g, a))
    && (forall lo {:trigger g.len[lo]} :: lo in g.len ==> g.len[lo] <= TOO_LARGE + MEM_ALIGN)
    && EndsOk(h.t.ends, g.len)
  }

  /** Tilings end where regions do. */
  ghost predicate EndsOk(ends: set<Addr>, len: map<Addr, nat>) {
    forall e {:trigger e in ends} :: e in ends ==> exists lo :: lo in len && lo + len[lo] == e
  }

  ghost predicate Counts(h: Heap) {
    |h.heads| == |h.x.lists| == REAL_FLI * MAX_SLI && |h.sl| == REAL_FLI
  }

  ghost predicate Ready(h: Heap, g: Regions, d: Slack, named: bool := true) {
    HeapOk(Tl(named), h, d) && Counts(h) && Regioned(h, g)
  }

  ghost predicate Relisted(h: Heap, h': Heap, named: bool := true) {
    && h'.t == h.t && (forall b {:trigger At(h', b)} :: b in h.t.ext ==> At(h', b) == At(h, b))
    && UsedKept(Tl(named), h, h', {})
  }

  lemma ReadyTiled(h: Heap, g: Regions, d: Slack, named: bool := true)
    requires Ready(h, g, d, named)
    ensures Tiled(h.t) && 0 !in h.t.ext
  {
  }

  /** What the invariant says of one block, and the block behind it. */
  lemma BlockFacts(h: Heap, g: Regions, d: Slack, a: Addr, named: bool := true)
    requires Ready(h, g, d, named) && a in h.t.ext
    ensures At(h, a).size % MEM_ALIGN == 0 && (a !in d.open ==> h.t.ext[a] == BHDR_OVERHEAD + At(h, a).size)
    ensures h.t.HasNext(a) <==> At(h, a).size > 0
    ensures At(h, a).free ==> At(h, a).size >= MIN_BLOCK_SIZE
    ensures h.t.ext[a] > 0 && (a !in d.open ==> At(h, a).size < TOO_LARGE)
    ensures h.t.HasNext(a) ==> h.t.End(a) in h.t.ext && h.t.End(a) > a
  {
    hide At, HeapOk, Regioned;
    HeapParts(Tl(named), h, d);
    assert h.t.ext[a] > 0 && a in h.m.hdr && (a in d.open || h.t.ext[a] == BHDR_OVERHEAD + Round4(At(h, a).size)) by {
      HdrOf(h, d, a, named);
    }
    NextFacts(h.t, a);
    InRegionFacts(h, g, a);
    hide InRegion, Tiled;
    FourDividesToo(At(h, a).size);
    if h.t.HasNext(a) {
      HdrOf(h, d, h.t.End(a), named);
      InRegionNext(h, g, a);
    }
  }

  lemma HdrOf(h: Heap, d: Slack, a: Addr, named: bool)
    requires HdrsOk(Tl(named), h, d.open) && a in h.t.ext
    ensures a in h.m.hdr && h.t.ext[a] >= BHDR_OVERHEAD
      && (a in d.open || h.t.ext[a] == BHDR_OVERHEAD + Round4(At(h, a).size))
  {
  }

  lemma FourDividesToo(n: nat)
    requires n % MEM_ALIGN == 0
    ensures Round4(n) == n
  {
  }

  lemma InRegionFacts(h: Heap, g: Regions, a: Addr)
    requires Regioned(h, g) && a in h.t.ext
    ensures InRegion(h, g, a) && (h.t.HasNext(a) ==> At(h, a).size >= MIN_BLOCK_SIZE)
      && (!h.t.HasNext(a) ==> At(h, a).size == 0 && !At(h, a).free)
    ensures At(h, a).size % MEM_ALIGN == 0
  {
    hide At;
  }

  /** A block that is not the last leaves room for a header behind it. */
  lemma InRegionNext(h: Heap, g: Regions, a: Addr)
    requires Regioned(h, g) && a in h.t.ext && h.t.HasNext(a)
    requires var n := h.t.End(a);
      n in h.t.ext && h.t.ext[n] >= BHDR_OVERHEAD && n !in h.t.firsts && n in h.t.pred && h.t.pred[n] == a
    ensures h.t.ext[a] + BHDR_OVERHEAD <= TOO_LARGE + MEM_ALIGN
  {
    hide At;
    assert InRegion(h, g, a) && InRegion(h, g, h.t.End(a));
  }

  // ----------------------------------------------- what keeps the regions

  lemma RelistedRegioned(h: Heap, h': Heap, g: Regions)
    requires Regioned(h, g) && h'.t == h.t && forall b :: b in h.t.ext ==> At(h', b) == At(h, b)
    ensures Regioned(h', g)
  {
    hide At;
    forall a | a in h'.t.ext ensures InRegion(h', g, a) { assert InRegion(h, g, a); }
  }

  lemma StoreRegioned(h: Heap, g: Regions, a: Addr, c: Hdr, named: bool := true)
    requires Regioned(h, g) && a in h.t.ext && c.size % MEM_ALIGN == 0
    requires if h.t.HasNext(a) then c.size >= MIN_BLOCK_SIZE else c.size == 0 && !c.free
    requires At(StoreHdr(Tl(named), h, a, c), a) == c && SameHdrsBut(h, StoreHdr(Tl(named), h, a, c), a)
    ensures Regioned(StoreHdr(Tl(named), h, a, c), g)
  {
    hide At, PutHdr;
    var h' := StoreHdr(Tl(named), h, a, c);
    forall b | b in h'.t.ext ensures InRegion(h', g, b) {
      assert InRegion(h, g, b);
      if b != a { assert At(h', b) == At(h, b); }
    }
  }

  lemma ReadyStore(h: Heap, g: Regions, d: Slack, a: Addr, c: Hdr, d': Slack, named: bool := true)
    requires Ready(h, g, d, named) && a in h.t.ext && HeapOk(Tl(named), StoreHdr(Tl(named), h, a, c), d')
      && c.size % MEM_ALIGN == 0
    requires if h.t.HasNext(a) then c.size >= MIN_BLOCK_SIZE else c.size == 0 && !c.free
    requires At(StoreHdr(Tl(named), h, a, c), a) == c && SameHdrsBut(h, StoreHdr(Tl(named), h, a, c), a)
    ensures Ready(StoreHdr(Tl(named), h, a, c), g, d', named)
  {
    hide HeapOk, Regioned, At, PutHdr, SameHdrsBut;
    StoreRegioned(h, g, a, c, named);
  }

  function SplitHome(g: Regions, a: Addr, e: Addr): Regions
    requires a in g.home
  {
    g.(home := g.home[e := g.home[a]])
  }

  lemma SplitRegioned(h: Heap, g: Regions, a: Addr, n: nat, c: Hdr, named: bool := true)
    requires Tiled(h.t) && Regioned(h, g) && a in h.t.ext && 0 < n < h.t.ext[a] && a in g.home && a + n !in h.t.ext
    requires c.size % MEM_ALIGN == 0 && c.size >= MIN_BLOCK_SIZE && h.t.HasNext(a)
    requires var h' := SplitHdr(Tl(named), h, a, n, c);
      At(h', a + n) == c && (forall b :: b in h.t.ext ==> At(h', b) == At(h, b)) && Tiled(h'.t)
    ensures Regioned(SplitHdr(Tl(named), h, a, n, c), SplitHome(g, a, a + n))
  {
    hide At, PutHdr, Tiled, Split;
    var h', g' := SplitHdr(Tl(named), h, a, n, c), SplitHome(g, a, a + n);
    assert InRegion(h, g, a);
    CutFacts(h.t, a, n);
    forall b | b in h'.t.ext ensures InRegion(h', g', b) {
      if b != a + n && b != a {
        SplitBlocks(h.t, a, n, b);
        assert InRegion(h, g, b);
        CutOthers(h.t, a, n, b);
      }
    }
  }

  lemma SplitBlocks(t: Tiles, a: Addr, n: nat, b: Addr)
    requires a in t.ext && 0 < n < t.ext[a] && b in Split(t, a, n).ext && b != a + n
    ensures b in t.ext
  {
  }

  lemma MergeRegioned(h: Heap, g: Regions, a: Addr)
    requires Tiled(h.t) && Regioned(h, g) && a in h.t.ext && h.t.HasNext(a) && h.t.End(a) in h.t.ext
      && h.t.HasNext(h.t.End(a))
    ensures Regioned(MergeBlocks(h, a), g)
  {
    hide HdrAt, Tiled;
    var h', b := MergeBlocks(h, a), h.t.End(a);
    NextFacts(h.t, a);
    NextFacts(h.t, b);
    assert InRegion(h, g, a) && InRegion(h, g, b);
    forall c | c in h'.t.ext ensures InRegion(h', g, c) {
      assert InRegion(h, g, c);
      if c !in h.t.firsts { PredFacts(h.t, c); }
    }
  }

  // ------------------------------------------------------------- list steps

  /** The class of a block that has a list. */
  lemma ClassOf(size: nat)
    requires size < TOO_LARGE
    ensures MappingInsert(size).0 < REAL_FLI && MappingInsert(size).1 < MAX_SLI
    ensures Flat(MappingInsert(size).0, MappingInsert(size).1, MAX_SLI) == ClassIndex(size) < REAL_FLI * MAX_SLI
  {
    InsertInRange(size);
  }

  lemma ListStep(h: Heap, g: Regions, d: Slack, a: Addr, f: nat, s: nat, named: bool := true)
    requires Ready(h, g, d, named) && a in h.t.ext && a in d.off && a !in d.open && At(h, a).free
      && (f, s) == MappingInsert(At(h, a).size)
    ensures f < REAL_FLI && s < MAX_SLI && Flat(f, s, MAX_SLI) < REAL_FLI * MAX_SLI
    ensures Ready(Listed(Tl(named), h, a, f, s), g, d.(off := d.off - {a}), named)
      && Relisted(h, Listed(Tl(named), h, a, f, s), named)
  {
    hide HeapOk, At, Flat, SetBit, Regioned, MappingInsert;
    BlockFacts(h, g, d, a, named);
    ClassOf(At(h, a).size);
    BoundaryTags.ListOk(Tl(named), h, d, a, f, s);
    RelistedRegioned(h, Listed(Tl(named), h, a, f, s), g);
  }

  /** The list of a free block, and its place there. */
  lemma FindListed(h: Heap, g: Regions, d: Slack, a: Addr, named: bool := true) returns (j: nat)
    requires Ready(h, g, d, named) && a in h.t.ext && a !in d.off && At(h, a).free
    ensures a in h.x.place && h.x.place[a] == ClassIndex(At(h, a).size) && a != 0 && a in h.m.link
    ensures var (f, s) := MappingInsert(At(h, a).size);
      f < REAL_FLI && s < MAX_SLI && Flat(f, s, MAX_SLI) == h.x.place[a] < REAL_FLI * MAX_SLI
    ensures var l := h.x.lists[h.x.place[a]];
      && j < |l| && l[j] == a && (h.heads[h.x.place[a]] == a <==> j == 0)
      && (h.m.link[a].prev == 0 <==> j == 0) && (h.m.link[a].next == 0 <==> j + 1 == |l|)
      && (h.m.link[a].prev != 0 ==>
        h.m.link[a].prev in h.x.place && h.m.link[a].prev in h.t.ext && h.m.link[a].prev != a)
      && (h.m.link[a].next != 0 ==>
        h.m.link[a].next in h.x.place && h.m.link[a].next in h.t.ext && h.m.link[a].next != h.m.link[a].prev)
  {
    hide FlagsOk, HdrsOk, Regioned, ListsOk, MapsOk, Tiled, Flat, Log2, Shr;
    assert ListedAt(Tl(named), h, d.off, a);
    BlockFacts(h, g, d, a, named);
    ClassOf(At(h, a).size);
    j := ListedFacts(h.m.link, h.heads, h.x.lists, h.x.place, a);
    assert ListedAt(Tl(named), h, d.off, h.m.link[a].prev) && ListedAt(Tl(named), h, d.off, h.m.link[a].next);
  }

  lemma UnlistStep(h: Heap, g: Regions, d: Slack, a: Addr, f: nat, s: nat, j: nat, named: bool := true)
    requires Ready(h, g, d, named) && a in h.x.place && a in h.t.ext && f < REAL_FLI && s < MAX_SLI
    requires h.x.place[a] == Flat(f, s, MAX_SLI) < REAL_FLI * MAX_SLI
    requires j < |h.x.lists[h.x.place[a]]| && h.x.lists[h.x.place[a]][j] == a
    ensures Ready(Unlisted(Tl(named), h, a, f, s, j), g, d.(off := d.off + {a}), named)
      && Relisted(h, Unlisted(Tl(named), h, a, f, s, j), named)
  {
    hide HeapOk, At, Flat, ClearBit, Regioned;
    UnlistOk(Tl(named), h, d, a, f, s, j);
    RelistedRegioned(h, Unlisted(Tl(named), h, a, f, s, j), g);
  }

  lemma UnlistedRoom(h: Heap, g: Regions, d: Slack, a: Addr, named: bool := true)
    requires Ready(h, g, d, named) && a in h.t.ext && a in d.off
    ensures a !in h.x.place
  {
    assert ListedAt(Tl(named), h, d.off, a);
  }

  /** Scrubbing the link of a block that is off its list. */
  lemma ScratchStep(h: Heap, g: Regions, d: Slack, a: Addr, l: Link, named: bool := true)
    requires Ready(h, g, d, named) && a in h.t.ext && a in d.off && h.t.ext[a] >= BHDR_OVERHEAD + MIN_BLOCK_SIZE
    ensures var h' := h.(m := PutLink(h.m, a, l, Y()));
      && Ready(h', g, d, named) && h'.t == h.t && (forall b :: b in h.t.ext ==> At(h', b) == At(h, b))
      && UsedKept(Tl(named), h, h', {a})
      && (At(h, a).free ==> Relisted(h, h', named))
  {
    hide HeapOk, At, Regioned, PutLink, UsedKept;
    UnlistedRoom(h, g, d, a, named);
    ScratchOk(Tl(named), h, d, a, l);
    var h' := h.(m := PutLink(h.m, a, l, Y()));
    RelistedRegioned(h, h', g);
    if At(h, a).free {
      UsedKeptFree(Tl(named), h, h', {a}, a);
      assert {a} - {a} == {};
    }
  }

  lemma RelistedTrans(h: Heap, h1: Heap, h2: Heap, named: bool := true)
    requires Relisted(h, h1, named) && Relisted(h1, h2, named)
    ensures Relisted(h, h2, named)
  {
    hide At, UsedKept;
    var none: set<Addr> := {};
    UsedKeptTrans(Tl(named), h, h1, h2, none, none);
    assert none + none == none;
    forall b | b in h.t.ext ensures At(h2, b) == At(h, b) { assert At(h1, b) == At(h, b); }
  }

  /** Two link stores in different blocks can be made in either order. */
  lemma LinkStoresCommute<H>(m: Mem<H>, t: Tiles, a: Addr, la: Link, b: Addr, lb: Link)
    requires Tiled(t) && a in t.ext && b in t.ext && a != b
    requires t.ext[a] >= BHDR_OVERHEAD + MIN_BLOCK_SIZE && t.ext[b] >= BHDR_OVERHEAD + MIN_BLOCK_SIZE
    ensures PutLink(PutLink(m, a, la, Y()), b, lb, Y()) == PutLink(PutLink(m, b, lb, Y()), a, la, Y())
    ensures b in m.link ==> LinkAt(PutLink(m, a, la, Y()).link, b) == LinkAt(m.link, b)
  {
    hide Tiled, PutLink;
    BlocksDisjoint(t, a, b);
    ApartCommute(m, a, la, b, lb);
  }

  lemma ApartCommute<H>(m: Mem<H>, a: Addr, la: Link, b: Addr, lb: Link)
    requires a + 32 <= b || b + 32 <= a
    ensures PutLink(PutLink(m, a, la, Y()), b, lb, Y()) == PutLink(PutLink(m, b, lb, Y()), a, la, Y())
    ensures b in m.link ==> LinkAt(PutLink(m, a, la, Y()).link, b) == LinkAt(m.link, b)
  {
    hide PutLink;
    var ma, mb := PutLink(m, a, la, Y()), PutLink(m, b, lb, Y());
    var m1, m2 := PutLink(ma, b, lb, Y()), PutLink(mb, a, la, Y());
    PutLinkIs(m, a, la);
    PutLinkIs(m, b, lb);
    PutLinkIs(ma, b, lb);
    PutLinkIs(mb, a, la);
    assert m1.hdr == m2.hdr;
    assert m1.link == m2.link;
    assert m1.data == m2.data;
  }

  /** A link store point by point. */
  lemma PutLinkIs<H>(m: Mem<H>, a: Addr, l: Link)
    ensures var m' := PutLink(m, a, l, Y());
      && (forall x {:trigger x in m'.hdr} :: x in m'.hdr <==> x in m.hdr && (x <= a || a + 32 <= x))
      && (forall x {:trigger m'.hdr[x]} :: x in m'.hdr ==> m'.hdr[x] == m.hdr[x])
      && (forall x {:trigger x in m'.link} :: x in m'.link <==> x == a || (x in m.link && (x + 16 <= a || a + 16 <= x)))
      && (forall x {:trigger m'.link[x]} :: x in m'.link ==> m'.link[x] == if x == a then l else m.link[x])
      && (forall x {:trigger x in m'.data} :: x in m'.data <==> x in m.data && (x < a + 16 || a + 32 <= x))
      && (forall x {:trigger m'.data[x]} :: x in m'.data ==> m'.data[x] == m.data[x])
  {
  }
}
