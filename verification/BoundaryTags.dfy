/** Heaps of blocks with headers that describe the block and its physical predecessor, and
    with the free blocks on segregated lists.  Both xvmalloc and TLSF are of this kind. */
module BoundaryTags {
  import opened Bits
  import opened Tiling
  import opened FreeLists
  import opened TwoLevel
  import opened HeapMem
  import opened FreeIndex

  /** Block header: size of the payload, a name for the physical predecessor, and the flags. */
  datatype Hdr = Hdr(size: nat, prev: nat, free: bool, prevFree: bool)

  /** What distinguishes one allocator from another: sizes of header and link, the least size
      of a listed block, the list for a size, how a header names a predecessor, whether it does
      so for every block or only behind a free one, and the word width of the bitmaps. */
  datatype Rules = Rules(y: Layout, minList: nat, index: nat -> nat, name: nat -> nat, always: bool, w: nat)

  datatype Heap = Heap(m: Mem<Hdr>, heads: seq<Addr>, fl: nat, sl: seq<nat>, t: Tiles, x: Index)

  /** Blocks with which an operation is not finished: off the lists for now; with successors
      that need not agree with them yet; with headers that do not state their extents yet. */
  datatype Slack = Slack(off: set<Addr>, loose: set<Addr>, open: set<Addr>)

  function Round4(n: nat): nat { (n + 3) / 4 * 4 }

  function HdrAt(m: Mem<Hdr>, a: Addr): Hdr {
    if a in m.hdr then m.hdr[a] else Hdr(0, 0, false, false)
  }

  function At(h: Heap, a: Addr): Hdr { HdrAt(h.m, a) }

  /** The flags of block a agree with its predecessor, and the two are not both free. */
  ghost predicate FlagAt(r: Rules, h: Heap, a: Addr, loose: set<Addr>)
  {
    if a in h.t.firsts then !At(h, a).prevFree && (r.always ==> At(h, a).prev == 0)
    else a in h.t.pred && var p := h.t.pred[a];
      || p in loose
      || (&& (At(h, a).prevFree <==> At(h, p).free)
          && (r.always || At(h, a).prevFree ==> At(h, a).prev == r.name(p))
          && (a in loose || !(At(h, a).free && At(h, p).free)))
  }

  ghost predicate FlagsOk(r: Rules, h: Heap, loose: set<Addr>) {
    forall a {:trigger FlagAt(r, h, a, loose)} :: a in h.t.ext ==> FlagAt(r, h, a, loose)
  }

  /** Headers state the extents of the tiling. */
  ghost predicate HdrsOk(r: Rules, h: Heap, open: set<Addr>) {
    forall a {:trigger a in h.t.ext} :: a in h.t.ext ==>
      a in h.m.hdr && h.t.ext[a] >= r.y.hs && (a in open || h.t.ext[a] == r.y.hs + Round4(At(h, a).size))
  }

  ghost predicate Listable(r: Rules, c: Hdr) { c.free && c.size >= r.minList }

  /** Exactly the free blocks that are large enough are listed, each where its size says. */
  ghost predicate ListedAt(r: Rules, h: Heap, off: set<Addr>, a: Addr) {
    && (a in h.x.place <==> a in h.t.ext && a !in off && Listable(r, At(h, a)))
    && (a in h.x.place ==> h.x.place[a] == r.index(At(h, a).size))
  }

  ghost predicate ListedOk(r: Rules, h: Heap, off: set<Addr>) {
    forall a {:trigger ListedAt(r, h, off, a)} :: ListedAt(r, h, off, a)
  }

  ghost predicate RulesOk(r: Rules) { r.y.hs > 0 && r.minList >= r.y.ls && r.w > 0 }

  ghost predicate HeapOk(r: Rules, h: Heap, d: Slack) {
    && RulesOk(r) && Tiled(h.t) && HdrsOk(r, h, d.open) && FlagsOk(r, h, d.loose) && ListedOk(r, h, d.off)
    && d.open <= d.off && IndexOk(h.m.link, h.heads, h.fl, h.sl, h.x, r.w) && 0 !in h.t.ext
    && Roomy(h.t, h.x.place, r.y)
  }

  // ---------------------------------------------------------- live payloads

  predicate IsUsed(h: Heap, u: Addr) { u in h.t.ext && !At(h, u).free }

  ghost predicate UsedSame(r: Rules, h: Heap, h': Heap, u: Addr)
    requires u in h.t.ext
  {
    && u in h'.t.ext && h'.t.ext[u] == h.t.ext[u] && At(h', u).size == At(h, u).size && !At(h', u).free
    && BytesKept(h.m, h'.m, h.t, u, r.y)
  }

  ghost predicate KeptAt(r: Rules, h: Heap, h': Heap, u: Addr) {
    if IsUsed(h, u) then UsedSame(r, h, h', u) else !IsUsed(h', u)
  }

  /** Every used block but those in `except` is still there, with its size and its bytes, and
      no other block is used. */
  ghost predicate UsedKept(r: Rules, h: Heap, h': Heap, except: set<Addr>) {
    forall u {:trigger KeptAt(r, h, h', u)} :: u !in except ==> KeptAt(r, h, h', u)
  }

  /** The used blocks and the sizes they were requested with. */
  function Live(h: Heap): map<Addr, nat> {
    map a | a in h.t.ext && !At(h, a).free :: At(h, a).size
  }

  lemma LiveAt(r: Rules, h: Heap, h': Heap, e: set<Addr>, u: Addr)
    requires UsedKept(r, h, h', e) && u !in e
    ensures u in Live(h) <==> u in Live(h')
    ensures u in Live(h) ==> Live(h')[u] == Live(h)[u]
  {
    assert KeptAt(r, h, h', u);
  }

  lemma LiveSame(r: Rules, h: Heap, h': Heap)
    requires UsedKept(r, h, h', {})
    ensures Live(h') == Live(h)
  {
    hide Live, UsedKept;
    forall u ensures (u in Live(h) <==> u in Live(h')) && (u in Live(h) ==> Live(h')[u] == Live(h)[u]) {
      LiveAt(r, h, h', {}, u);
    }
  }

  lemma LiveGains(r: Rules, h: Heap, h': Heap, a: Addr)
    requires UsedKept(r, h, h', {a}) && IsUsed(h', a)
    ensures Live(h') == Live(h)[a := At(h', a).size]
  {
    hide UsedKept, At;
    forall u | u != a ensures (u in Live(h) <==> u in Live(h')) && (u in Live(h) ==> Live(h')[u] == Live(h)[u]) {
      LiveAt(r, h, h', {a}, u);
    }
  }

  lemma LiveLoses(r: Rules, h: Heap, h': Heap, a: Addr)
    requires UsedKept(r, h, h', {a}) && !IsUsed(h', a)
    ensures Live(h') == Live(h) - {a}
  {
    hide UsedKept, At;
    forall u | u != a ensures (u in Live(h) <==> u in Live(h')) && (u in Live(h) ==> Live(h')[u] == Live(h)[u]) {
      LiveAt(r, h, h', {a}, u);
    }
  }

  lemma UsedKeptTrans(r: Rules, h: Heap, h1: Heap, h2: Heap, e: set<Addr>, e': set<Addr>)
    requires UsedKept(r, h, h1, e) && UsedKept(r, h1, h2, e')
    ensures UsedKept(r, h, h2, e + e')
  {
    forall u | u !in e + e' ensures KeptAt(r, h, h2, u) {
      assert KeptAt(r, h, h1, u) && KeptAt(r, h1, h2, u);
    }
  }

  lemma UsedKeptRefl(r: Rules, h: Heap)
    ensures UsedKept(r, h, h, {})
  {
    forall u ensures KeptAt(r, h, h, u) { }
  }

  lemma UsedKeptMore(r: Rules, h: Heap, h': Heap, e: set<Addr>, e': set<Addr>)
    requires UsedKept(r, h, h', e) && e <= e'
    ensures UsedKept(r, h, h', e')
  {
    hide KeptAt;
  }

  /** Blocks outside e are the same blocks with the same headers. */
  ghost predicate Outside(h: Heap, h': Heap, e: set<Addr>) {
    forall b {:trigger b in h.t.ext} {:trigger b in h'.t.ext} :: b !in e ==>
      && (b in h.t.ext <==> b in h'.t.ext)
      && (b in h.t.ext ==> h'.t.ext[b] == h.t.ext[b] && At(h', b) == At(h, b))
  }

  lemma OutsideKept(r: Rules, h: Heap, h': Heap, e: set<Addr>)
    requires Outside(h, h', e)
    requires forall u {:trigger BytesKept(h.m, h'.m, h.t, u, r.y)} :: u in h.t.ext && u !in e ==>
      BytesKept(h.m, h'.m, h.t, u, r.y)
    ensures UsedKept(r, h, h', e)
  {
    hide BytesKept, At;
    forall u | u !in e ensures KeptAt(r, h, h', u) {
      if u in h.t.ext { assert BytesKept(h.m, h'.m, h.t, u, r.y); }
    }
  }

  lemma OutsideListed(r: Rules, h: Heap, h': Heap, e: set<Addr>, off: set<Addr>, off': set<Addr>)
    requires Outside(h, h', e) && ListedOk(r, h, off) && h'.x == h.x
    requires forall b {:trigger b in off} {:trigger b in off'} :: b !in e ==> (b in off <==> b in off')
    requires forall b {:trigger b in h.x.place} :: b in e ==> b !in h.x.place && (b in off' || b !in h'.t.ext)
    ensures ListedOk(r, h', off')
  {
    hide At;
    forall b ensures ListedAt(r, h', off', b) { assert ListedAt(r, h, off, b); }
  }

  // ------------------------------------------------------- storing a header

  ghost predicate SameBut(s: set<Addr>, s': set<Addr>, a: Addr) {
    forall b {:trigger b in s} {:trigger b in s'} :: b != a ==> (b in s <==> b in s')
  }

  function StoreHdr(r: Rules, h: Heap, a: Addr, c: Hdr): Heap {
    h.(m := PutHdr(h.m, a, c, r.y))
  }

  /** A header store is justified by what it does to the block and to its successor. */
  lemma StoreOk(r: Rules, h: Heap, d: Slack, a: Addr, c: Hdr, d': Slack)
    requires HeapOk(r, h, d) && a in h.t.ext
    requires SameBut(d.off, d'.off, a) && SameBut(d.loose, d'.loose, a) && SameBut(d.open, d'.open, a)
      && d'.open <= d'.off
    requires a in d'.open || h.t.ext[a] == r.y.hs + Round4(c.size)
    requires a in h.x.place <==> a !in d'.off && Listable(r, c)
    requires a in h.x.place ==> h.x.place[a] == r.index(c.size)
    requires FlagAt(r, StoreHdr(r, h, a, c), a, d'.loose)
    requires h.t.HasNext(a) ==> FlagAt(r, StoreHdr(r, h, a, c), h.t.End(a), d'.loose)
    ensures HeapOk(r, StoreHdr(r, h, a, c), d')
    ensures At(StoreHdr(r, h, a, c), a) == c && forall b :: b in h.t.ext && b != a ==>
      At(StoreHdr(r, h, a, c), b) == At(h, b)
    ensures UsedKept(r, h, StoreHdr(r, h, a, c), {a})
  {
    hide FlagAt, IndexOk, PutHdr, Tiled, BytesKept;
    var h' := StoreHdr(r, h, a, c);
    StoreFrame(r, h, a, c);
    StoreLinks(r, h, a, c);
    StoreFlags(r, h, a, c, d.loose, d'.loose);
    forall b ensures ListedAt(r, h', d'.off, b) { assert ListedAt(r, h, d.off, b); }
    OutsideKept(r, h, h', {a});
  }

  lemma StoreFrame(r: Rules, h: Heap, a: Addr, c: Hdr)
    requires Tiled(h.t) && Roomy(h.t, h.x.place, r.y) && a in h.t.ext && HdrsPresent(h)
    ensures At(StoreHdr(r, h, a, c), a) == c && forall b :: b in h.t.ext && b != a ==>
      At(StoreHdr(r, h, a, c), b) == At(h, b)
    ensures OthersKept(h.m, StoreHdr(r, h, a, c).m, h.t, a, r.y) && HdrsPresent(StoreHdr(r, h, a, c))
  {
    hide PutHdr, Tiled;
    PutHdrFrame(h.m, h.t, h.x.place, a, c, r.y);
  }

  /** A store that changes neither size nor use keeps every live payload, that of a included. */
  lemma StoreKeeps(r: Rules, h: Heap, a: Addr, c: Hdr)
    requires Tiled(h.t) && Roomy(h.t, h.x.place, r.y) && a in h.t.ext && HdrsPresent(h)
    requires c.size == At(h, a).size && c.free == At(h, a).free
    ensures UsedKept(r, h, StoreHdr(r, h, a, c), {})
  {
    hide PutHdr, Tiled, BytesKept;
    PutHdrFrame(h.m, h.t, h.x.place, a, c, r.y);
    forall u ensures KeptAt(r, h, StoreHdr(r, h, a, c), u) {
      if u in h.t.ext { assert BytesKept(h.m, StoreHdr(r, h, a, c).m, h.t, u, r.y); }
    }
  }

  lemma StoreLinks(r: Rules, h: Heap, a: Addr, c: Hdr)
    requires IndexOk(h.m.link, h.heads, h.fl, h.sl, h.x, r.w) && Tiled(h.t) && Roomy(h.t, h.x.place, r.y)
      && a in h.t.ext
    ensures IndexOk(StoreHdr(r, h, a, c).m.link, h.heads, h.fl, h.sl, h.x, r.w)
  {
    hide MapsOk, PutHdr, ListsOk, Tiled;
    PutHdrFrame(h.m, h.t, h.x.place, a, c, r.y);
    LinksSame(h.m, StoreHdr(r, h, a, c).m, h.heads, h.x, 0);
  }

  /** The lists do not change when the links of the listed blocks do not. */
  lemma LinksSame<H>(m: Mem<H>, m': Mem<H>, heads: seq<Addr>, x: Index, a: Addr)
    requires ListsOk(m.link, heads, x.lists, x.place) && LinksKept(m, m', x.place, a) && (a == 0 || a !in x.place)
    ensures ListsOk(m'.link, heads, x.lists, x.place)
  {
    hide ListsOk;
    forall b | b in x.place ensures b in m.link && b != 0 { var j := ListedFacts(m.link, heads, x.lists, x.place, b); }
    ListsFrame(m.link, m'.link, heads, x.lists, x.place);
  }

  lemma StoreFlags(r: Rules, h: Heap, a: Addr, c: Hdr, loose: set<Addr>, loose': set<Addr>)
    requires Tiled(h.t) && Roomy(h.t, h.x.place, r.y) && FlagsOk(r, h, loose) && a in h.t.ext && HdrsPresent(h)
    requires SameBut(loose, loose', a)
    requires FlagAt(r, StoreHdr(r, h, a, c), a, loose')
    requires h.t.HasNext(a) ==> FlagAt(r, StoreHdr(r, h, a, c), h.t.End(a), loose')
    ensures FlagsOk(r, StoreHdr(r, h, a, c), loose')
  {
    hide PutHdr, Tiled, At;
    StoreFrame(r, h, a, c);
    forall b | b in h.t.ext ensures FlagAt(r, StoreHdr(r, h, a, c), b, loose') {
      assert FlagAt(r, h, b, loose);
      if b !in h.t.firsts { PredFacts(h.t, b); }
    }
  }

  ghost predicate HdrsPresent(h: Heap) { forall a :: a in h.t.ext ==> a in h.m.hdr }

  /** A store that leaves the flags and the name of the predecessor alone. */
  lemma OwnFlag(r: Rules, h: Heap, d: Slack, a: Addr, c: Hdr, loose': set<Addr>)
    requires HeapOk(r, h, d) && a in h.t.ext && SameBut(d.loose, loose', a)
    requires c.prevFree == At(h, a).prevFree && c.prev == At(h, a).prev
    requires a in loose' || (c.free ==> At(h, a).free && a !in d.loose)
    ensures FlagAt(r, StoreHdr(r, h, a, c), a, loose')
  {
    hide PutHdr, Tiled, At, IndexOk, ListedOk;
    StoreFrame(r, h, a, c);
    assert FlagAt(r, h, a, d.loose);
    if a !in h.t.firsts { PredFacts(h.t, a); }
  }

  /** A store that leaves the block as free or as used as it was. */
  lemma NextFlag(r: Rules, h: Heap, d: Slack, a: Addr, c: Hdr, loose': set<Addr>)
    requires HeapOk(r, h, d) && a in h.t.ext && h.t.HasNext(a) && SameBut(d.loose, loose', a)
    requires a in loose' || (c.free == At(h, a).free && a !in d.loose)
    ensures FlagAt(r, StoreHdr(r, h, a, c), h.t.End(a), loose')
  {
    hide PutHdr, Tiled, At, IndexOk, ListedOk;
    StoreFrame(r, h, a, c);
    NextFacts(h.t, a);
    assert FlagAt(r, h, h.t.End(a), d.loose);
  }

  /** The flags of a block depend on its header and that of its predecessor only. */
  lemma FlagSame(r: Rules, h: Heap, h': Heap, a: Addr, loose: set<Addr>)
    requires FlagAt(r, h, a, loose) && (a in h.t.firsts <==> a in h'.t.firsts)
    requires a !in h.t.firsts ==>
      a in h'.t.pred && h'.t.pred[a] == h.t.pred[a] && At(h', h.t.pred[a]) == At(h, h.t.pred[a])
    requires At(h', a) == At(h, a)
    ensures FlagAt(r, h', a, loose)
  {
  }

  /** A block that was free and is free, or is gone, needs no exception. */
  lemma UsedKeptFree(r: Rules, h: Heap, h': Heap, e: set<Addr>, x: Addr)
    requires UsedKept(r, h, h', e) && !IsUsed(h, x) && !IsUsed(h', x)
    ensures UsedKept(r, h, h', e - {x})
  {
    forall u | u !in e - {x} ensures KeptAt(r, h, h', u) {
      if u != x { assert u !in e; }
    }
  }

  /** A change of slack for block a that its header and its neighbours justify. */
  lemma Settle(r: Rules, h: Heap, d: Slack, a: Addr, d': Slack)
    requires HeapOk(r, h, d) && a in h.t.ext
    requires SameBut(d.off, d'.off, a) && SameBut(d.loose, d'.loose, a) && SameBut(d.open, d'.open, a)
      && d'.open <= d'.off
    requires a in d'.open || h.t.ext[a] == r.y.hs + Round4(At(h, a).size)
    requires (a in d.off <==> a in d'.off) || !Listable(r, At(h, a))
    requires FlagAt(r, h, a, d'.loose)
    requires h.t.HasNext(a) ==> FlagAt(r, h, h.t.End(a), d'.loose)
    ensures HeapOk(r, h, d')
  {
    hide IndexOk, Tiled, At;
    forall b | b in h.t.ext ensures FlagAt(r, h, b, d'.loose) {
      assert FlagAt(r, h, b, d.loose);
      if b !in h.t.firsts { PredFacts(h.t, b); }
    }
    forall b ensures ListedAt(r, h, d'.off, b) { assert ListedAt(r, h, d.off, b); }
  }

  /** What the flags of a block and of its successor say. */
  lemma Neighbours(r: Rules, h: Heap, d: Slack, a: Addr)
    requires HeapOk(r, h, d) && a in h.t.ext
    ensures h.t.ext[a] > 0 && FlagAt(r, h, a, d.loose)
    ensures a !in h.t.firsts ==>
      a in h.t.pred && h.t.pred[a] in h.t.ext && h.t.pred[a] < a && h.t.HasNext(h.t.pred[a])
      && h.t.End(h.t.pred[a]) == a
    ensures h.t.HasNext(a) ==> var b := h.t.End(a);
      b in h.t.ext && b !in h.t.firsts && b in h.t.pred && h.t.pred[b] == a && FlagAt(r, h, b, d.loose)
  {
    hide IndexOk, HdrsOk, ListedOk, FlagAt;
    NextFacts(h.t, a);
    if a !in h.t.firsts { PredFacts(h.t, a); }
  }

  // --------------------------------------------- changing the tiling

  /** Cut block a after n bytes and write a header for the rest. */
  function SplitHdr(r: Rules, h: Heap, a: Addr, n: nat, c: Hdr): Heap
    requires a in h.t.ext && 0 < n < h.t.ext[a]
  {
    h.(m := PutHdr(h.m, a + n, c, r.y), t := Split(h.t, a, n))
  }

  function SplitSlack(d: Slack, a: Addr, e: Addr): Slack { Slack(d.off + {a, e}, d.loose + {a, e}, d.open + {a}) }

  lemma SplitOk(r: Rules, h: Heap, d: Slack, a: Addr, n: nat, c: Hdr)
    requires HeapOk(r, h, d) && a in h.t.ext && a !in h.x.place
    requires r.y.hs <= n && n + r.y.hs <= h.t.ext[a] && h.t.ext[a] == n + r.y.hs + Round4(c.size)
    requires a + n !in d.off + d.open + d.loose
    ensures HeapOk(r, SplitHdr(r, h, a, n, c), SplitSlack(d, a, a + n))
    ensures a + n !in h.t.ext && At(SplitHdr(r, h, a, n, c), a + n) == c
    ensures forall b :: b in h.t.ext ==> At(SplitHdr(r, h, a, n, c), b) == At(h, b)
    ensures UsedKept(r, h, SplitHdr(r, h, a, n, c), {a, a + n})
  {
    hide FlagAt, IndexOk, PutHdr, Tiled, BytesKept, At, ListedAt, UsedKept, FlagsOk, HdrsOk, Roomy, Outside;
    var h' := SplitHdr(r, h, a, n, c);
    var d' := SplitSlack(d, a, a + n);
    SplitTiled(h.t, a, n);
    FirstsAreBlocks(h.t);
    HaveHdrs(r, h, d.open);
    SplitFrame(r, h, a, n, c);
    SplitFlags(r, h, d.loose, a, n, c);
    SplitShape(r, h, d.open, a, n, c);
    assert ListedAt(r, h, d.off, a + n) && ListedAt(r, h, d.off, a);
    SplitListed(r, h, d, a, n, c);
    OutsideKept(r, h, h', {a, a + n});
  }

  lemma HaveHdrs(r: Rules, h: Heap, open: set<Addr>)
    requires HdrsOk(r, h, open)
    ensures HdrsPresent(h)
  {
  }

  lemma SplitListed(r: Rules, h: Heap, d: Slack, a: Addr, n: nat, c: Hdr)
    requires a in h.t.ext && 0 < n < h.t.ext[a] && Outside(h, SplitHdr(r, h, a, n, c), {a, a + n})
    requires ListedOk(r, h, d.off) && a !in h.x.place && a + n !in h.t.ext
    ensures ListedOk(r, SplitHdr(r, h, a, n, c), d.off + {a, a + n})
  {
    hide At, Outside, PutHdr, Split;
    assert ListedAt(r, h, d.off, a + n);
    OutsideListed(r, h, SplitHdr(r, h, a, n, c), {a, a + n}, d.off, d.off + {a, a + n});
  }

  lemma SplitShape(r: Rules, h: Heap, open: set<Addr>, a: Addr, n: nat, c: Hdr)
    requires a in h.t.ext && r.y.hs <= n && n + r.y.hs <= h.t.ext[a] && h.t.ext[a] == n + r.y.hs + Round4(c.size)
    requires r.y.hs > 0 && HdrsOk(r, h, open) && Roomy(h.t, h.x.place, r.y) && a !in h.x.place && a + n !in h.t.ext
    requires var h' := SplitHdr(r, h, a, n, c);
      && At(h', a + n) == c && a + n in h'.m.hdr
      && forall b :: b in h.t.ext ==> b in h'.m.hdr && At(h', b) == At(h, b)
    ensures HdrsOk(r, SplitHdr(r, h, a, n, c), open + {a}) && Roomy(Split(h.t, a, n), h.x.place, r.y)
    ensures Outside(h, SplitHdr(r, h, a, n, c), {a, a + n})
  {
    hide PutHdr, At;
  }

  lemma FirstsAreBlocks(t: Tiles)
    requires Tiled(t)
    ensures t.firsts <= t.ext.Keys
  {
  }

  lemma SplitFrame(r: Rules, h: Heap, a: Addr, n: nat, c: Hdr)
    requires Tiled(h.t) && Roomy(h.t, h.x.place, r.y) && HdrsPresent(h)
      && IndexOk(h.m.link, h.heads, h.fl, h.sl, h.x, r.w)
    requires a in h.t.ext && a !in h.x.place && r.y.hs <= n && n + r.y.hs <= h.t.ext[a]
    ensures At(SplitHdr(r, h, a, n, c), a + n) == c && a + n in SplitHdr(r, h, a, n, c).m.hdr
    ensures forall b :: b in h.t.ext ==>
      b in SplitHdr(r, h, a, n, c).m.hdr && At(SplitHdr(r, h, a, n, c), b) == At(h, b)
    ensures OthersKept(h.m, SplitHdr(r, h, a, n, c).m, h.t, a, r.y)
    ensures IndexOk(SplitHdr(r, h, a, n, c).m.link, h.heads, h.fl, h.sl, h.x, r.w)
  {
    hide PutHdr, Tiled, ListsOk, MapsOk;
    PutInnerHdrFrame(h.m, h.t, h.x.place, a, n, c, r.y);
    LinksSame(h.m, SplitHdr(r, h, a, n, c).m, h.heads, h.x, a);
  }

  lemma SplitFlags(r: Rules, h: Heap, loose: set<Addr>, a: Addr, n: nat, c: Hdr)
    requires Tiled(h.t) && FlagsOk(r, h, loose)
    requires a in h.t.ext && r.y.hs <= n && n + r.y.hs <= h.t.ext[a] && r.y.hs > 0 && a + n !in h.t.ext
    requires a + n !in h.t.firsts
    requires forall b :: b in h.t.ext ==> At(SplitHdr(r, h, a, n, c), b) == At(h, b)
    ensures FlagsOk(r, SplitHdr(r, h, a, n, c), loose + {a, a + n})
  {
    hide PutHdr, Tiled, At;
    var h' := SplitHdr(r, h, a, n, c);
    forall b | b in h'.t.ext ensures FlagAt(r, h', b, loose + {a, a + n}) {
      NextFacts(h.t, a);
      if b != a + n {
        assert FlagAt(r, h, b, loose);
        if b !in h.t.firsts { PredFacts(h.t, b); }
      }
    }
  }

  /** Regard block a and its successor as one block. */
  function MergeBlocks(h: Heap, a: Addr): Heap
    requires a in h.t.ext && h.t.End(a) in h.t.ext
  {
    h.(t := Merge(h.t, a))
  }

  function MergeSlack(d: Slack, a: Addr, b: Addr): Slack {
    Slack(d.off + {a} - {b}, d.loose + {a} - {b}, d.open + {a} - {b})
  }

  lemma MergeOk(r: Rules, h: Heap, d: Slack, a: Addr)
    requires HeapOk(r, h, d) && a in h.t.ext && h.t.HasNext(a) && h.t.End(a) in h.t.ext
    requires a !in h.x.place && h.t.End(a) !in h.x.place
    ensures HeapOk(r, MergeBlocks(h, a), MergeSlack(d, a, h.t.End(a)))
    ensures UsedKept(r, h, MergeBlocks(h, a), {a, h.t.End(a)})
  {
    hide FlagAt, IndexOk, Tiled, BytesKept, HdrAt;
    var h' := MergeBlocks(h, a);
    var b := h.t.End(a);
    var d' := MergeSlack(d, a, b);
    MergeTiled(h.t, a);
    NextFacts(h.t, a);
    MergeFlags(r, h, d.loose, a);
    OutsideListed(r, h, h', {a, b}, d.off, d'.off);
    SameBytes(r, h);
    OutsideKept(r, h, h', {a, b});
  }

  lemma SameBytes(r: Rules, h: Heap)
    ensures forall u {:trigger BytesKept(h.m, h.m, h.t, u, r.y)} :: u in h.t.ext ==> BytesKept(h.m, h.m, h.t, u, r.y)
  {
  }

  lemma MergeFlags(r: Rules, h: Heap, loose: set<Addr>, a: Addr)
    requires Tiled(h.t) && FlagsOk(r, h, loose)
    requires a in h.t.ext && h.t.HasNext(a) && h.t.End(a) in h.t.ext && h.t.End(a) != a
    ensures FlagsOk(r, MergeBlocks(h, a), loose + {a} - {h.t.End(a)})
  {
    hide Tiled, HdrAt;
    var h' := MergeBlocks(h, a);
    var b := h.t.End(a);
    forall c | c in h'.t.ext ensures FlagAt(r, h', c, loose + {a} - {b}) {
      assert FlagAt(r, h, c, loose);
      NextFacts(h.t, a);
      NextFacts(h.t, b);
      if c !in h.t.firsts { PredFacts(h.t, c); }
    }
  }

  /** A new region holding one block. */
  function AddBlock(r: Rules, h: Heap, lo: Addr, len: nat, c: Hdr): Heap {
    h.(m := PutHdr(h.m, lo, c, r.y), t := AddRegion(h.t, lo, len))
  }

  ghost predicate FreshRegion(t: Tiles, lo: Addr, len: nat) {
    && (forall a :: a in t.ext ==> a + t.ext[a] <= lo || lo + len <= a)
    && (forall e :: e in t.ends ==> e <= lo || lo + len < e)
  }

  lemma AddBlockOk(r: Rules, h: Heap, d: Slack, lo: Addr, len: nat, c: Hdr)
    requires HeapOk(r, h, d) && FreshRegion(h.t, lo, len) && lo > 0 && len >= r.y.hs
    requires !c.prevFree && (r.always ==> c.prev == 0)
    ensures var d' := Slack(d.off + {lo}, d.loose + {lo}, d.open + {lo}); HeapOk(r, AddBlock(r, h, lo, len, c), d')
    ensures lo !in h.t.ext && At(AddBlock(r, h, lo, len, c), lo) == c
    ensures forall b :: b in h.t.ext ==> At(AddBlock(r, h, lo, len, c), b) == At(h, b)
    ensures UsedKept(r, h, AddBlock(r, h, lo, len, c), {lo})
  {
    hide FlagAt, IndexOk, PutHdr, Tiled, BytesKept, At, ListedAt, UsedKept, FlagsOk, HdrsOk, Roomy, Outside;
    var h' := AddBlock(r, h, lo, len, c);
    AddRegionTiled(h.t, lo, len);
    HaveHdrs(r, h, d.open);
    AddFrame(r, h, lo, len, c);
    AddFlags(r, h, d.loose, lo, len, c);
    AddShape(r, h, d, lo, len, c);
    OutsideKept(r, h, h', {lo});
  }

  lemma AddShape(r: Rules, h: Heap, d: Slack, lo: Addr, len: nat, c: Hdr)
    requires HdrsOk(r, h, d.open) && Roomy(h.t, h.x.place, r.y) && ListedOk(r, h, d.off) && lo !in h.t.ext
      && len >= r.y.hs
    requires var h' := AddBlock(r, h, lo, len, c);
      lo in h'.m.hdr && forall b :: b in h.t.ext ==> b in h'.m.hdr && At(h', b) == At(h, b)
    ensures HdrsOk(r, AddBlock(r, h, lo, len, c), d.open + {lo}) && Roomy(AddRegion(h.t, lo, len), h.x.place, r.y)
    ensures Outside(h, AddBlock(r, h, lo, len, c), {lo}) && ListedOk(r, AddBlock(r, h, lo, len, c), d.off + {lo})
  {
    hide PutHdr, At;
    assert ListedAt(r, h, d.off, lo);
    OutsideListed(r, h, AddBlock(r, h, lo, len, c), {lo}, d.off, d.off + {lo});
  }

  lemma AddFrame(r: Rules, h: Heap, lo: Addr, len: nat, c: Hdr)
    requires Tiled(h.t) && Roomy(h.t, h.x.place, r.y) && HdrsPresent(h)
      && IndexOk(h.m.link, h.heads, h.fl, h.sl, h.x, r.w)
    requires FreshRegion(h.t, lo, len) && len >= r.y.hs
    ensures At(AddBlock(r, h, lo, len, c), lo) == c && lo in AddBlock(r, h, lo, len, c).m.hdr && lo !in h.t.ext
    ensures forall b :: b in h.t.ext ==>
      b in AddBlock(r, h, lo, len, c).m.hdr && At(AddBlock(r, h, lo, len, c), b) == At(h, b)
    ensures OthersKept(h.m, AddBlock(r, h, lo, len, c).m, h.t, lo, r.y)
    ensures IndexOk(AddBlock(r, h, lo, len, c).m.link, h.heads, h.fl, h.sl, h.x, r.w)
  {
    hide Tiled, ListsOk, MapsOk;
    var m' := AddBlock(r, h, lo, len, c).m;
    assert LinksKept(h.m, m', h.x.place, lo);
    LinksSame(h.m, m', h.heads, h.x, lo);
  }

  lemma AddFlags(r: Rules, h: Heap, loose: set<Addr>, lo: Addr, len: nat, c: Hdr)
    requires Tiled(h.t) && FlagsOk(r, h, loose) && lo !in h.t.ext && At(AddBlock(r, h, lo, len, c), lo) == c
    requires !c.prevFree && (r.always ==> c.prev == 0)
    requires forall b :: b in h.t.ext ==> At(AddBlock(r, h, lo, len, c), b) == At(h, b)
    ensures FlagsOk(r, AddBlock(r, h, lo, len, c), loose + {lo})
  {
    hide PutHdr, Tiled, At;
    var h' := AddBlock(r, h, lo, len, c);
    forall b | b in h'.t.ext ensures FlagAt(r, h', b, loose + {lo}) {
      if b != lo {
        assert FlagAt(r, h, b, loose);
        if b !in h.t.firsts { PredFacts(h.t, b); }
      }
    }
  }

  /** Give up a region that consists of one block. */
  function DropBlock(h: Heap, lo: Addr): Heap
    requires lo in h.t.ext
  {
    h.(t := DropRegion(h.t, lo))
  }

  lemma DropBlockOk(r: Rules, h: Heap, d: Slack, lo: Addr)
    requires HeapOk(r, h, d) && lo in h.t.ext && lo in h.t.firsts && !h.t.HasNext(lo) && lo !in h.x.place
    ensures HeapOk(r, DropBlock(h, lo), Slack(d.off - {lo}, d.loose - {lo}, d.open - {lo}))
    ensures UsedKept(r, h, DropBlock(h, lo), {lo})
  {
    hide FlagAt, IndexOk, Tiled, BytesKept, HdrAt;
    var h' := DropBlock(h, lo);
    DropRegionTiled(h.t, lo);
    OutsideListed(r, h, h', {lo}, d.off, d.off - {lo});
    DropFlags(r, h, d.loose, lo);
    SameBytes(r, h);
    OutsideKept(r, h, h', {lo});
  }

  lemma DropFlags(r: Rules, h: Heap, loose: set<Addr>, lo: Addr)
    requires Tiled(h.t) && FlagsOk(r, h, loose) && lo in h.t.ext && lo in h.t.firsts && !h.t.HasNext(lo)
    ensures FlagsOk(r, DropBlock(h, lo), loose - {lo})
  {
    hide Tiled, HdrAt;
    forall b | b in DropBlock(h, lo).t.ext ensures FlagAt(r, DropBlock(h, lo), b, loose - {lo}) {
      assert FlagAt(r, h, b, loose);
      if b !in h.t.firsts { PredFacts(h.t, b); }
    }
  }

  // ------------------------------------------------------------- free lists

  function Listed(r: Rules, h: Heap, a: Addr, f: nat, s: nat): Heap
    requires Flat(f, s, r.w) < |h.heads| && Flat(f, s, r.w) < |h.x.lists| && f < |h.sl|
  {
    var i := Flat(f, s, r.w);
    h.(m := PushMem(h.m, h.heads[i], a, r.y), heads := h.heads[i := a], fl := SetBit(h.fl, f),
       sl := h.sl[f := SetBit(h.sl[f], s)], x := PushIndex(h.x, i, a))
  }

  lemma ListOk(r: Rules, h: Heap, d: Slack, a: Addr, f: nat, s: nat)
    requires HeapOk(r, h, d) && a in h.t.ext && a in d.off && a !in d.open && Listable(r, At(h, a))
    requires f < |h.sl| && s < r.w && r.index(At(h, a).size) == Flat(f, s, r.w) < |h.x.lists| == |h.heads|
    ensures HeapOk(r, Listed(r, h, a, f, s), d.(off := d.off - {a}))
    ensures forall b :: b in h.t.ext ==> At(Listed(r, h, a, f, s), b) == At(h, b)
    ensures UsedKept(r, h, Listed(r, h, a, f, s), {})
  {
    hide FlagAt, IndexOk, Tiled, PushMem, Flat;
    var h' := Listed(r, h, a, f, s);
    assert ListedAt(r, h, d.off, a);
    PushOk(h.m, h.t, h.x, h.heads, h.fl, h.sl, r.w, f, s, a, r.y);
    forall b ensures ListedAt(r, h', d.off - {a}, b) { assert ListedAt(r, h, d.off, b); }
    IndexOnlyHeap(r, h, h', d.off, d.loose, a);
  }

  /** What list operations leave alone. */
  lemma IndexOnlyHeap(r: Rules, h: Heap, h': Heap, off: set<Addr>, loose: set<Addr>, a: Addr)
    requires IndexOnly(h.m, h'.m, h.t, h.x.place, a, r.y) && h'.t == h.t && HdrsPresent(h) && FlagsOk(r, h, loose)
    requires ListedOk(r, h, off) && (a in h.t.ext ==> At(h, a).free) && Tiled(h.t)
    ensures forall b :: b in h.t.ext ==> b in h'.m.hdr && At(h', b) == At(h, b)
    ensures UsedKept(r, h, h', {}) && FlagsOk(r, h', loose) && HdrsPresent(h')
  {
    hide BytesKept, Tiled;
    forall u ensures KeptAt(r, h, h', u) {
      assert ListedAt(r, h, off, u);
      if u in h.t.ext { assert u !in h.x.place && u != a ==> BytesKept(h.m, h'.m, h.t, u, r.y); }
    }
    SameFlags(r, h, h', loose);
  }

  lemma SameFlags(r: Rules, h: Heap, h': Heap, loose: set<Addr>)
    requires h'.t == h.t && FlagsOk(r, h, loose) && Tiled(h.t)
    requires forall b :: b in h.t.ext ==> At(h', b) == At(h, b)
    ensures FlagsOk(r, h', loose)
  {
    hide At, Tiled;
    forall b | b in h.t.ext ensures FlagAt(r, h', b, loose) {
      assert FlagAt(r, h, b, loose);
      if b !in h.t.firsts { PredFacts(h.t, b); }
    }
  }

  function Unlisted(r: Rules, h: Heap, a: Addr, f: nat, s: nat, j: nat): Heap
    requires a in h.x.place && h.x.place[a] < |h.x.lists| == |h.heads| && j < |h.x.lists[h.x.place[a]]| && f < |h.sl|
  {
    var i := h.x.place[a];
    var maps := DropMaps(h.fl, h.sl, f, s, |h.x.lists[i]| == 1);
    h.(m := CloseMem(h.m, a, r.y), heads := DropHeads(h.heads, i, LinkAt(h.m.link, a).next, j),
       fl := maps.0, sl := maps.1, x := DropIndex(h.x, a, j))
  }

  lemma UnlistOk(r: Rules, h: Heap, d: Slack, a: Addr, f: nat, s: nat, j: nat)
    requires HeapOk(r, h, d) && a in h.x.place && a in h.t.ext
    requires f < |h.sl| && s < r.w && h.x.place[a] == Flat(f, s, r.w) < |h.x.lists| == |h.heads|
    requires j < |h.x.lists[h.x.place[a]]| && h.x.lists[h.x.place[a]][j] == a
    ensures HeapOk(r, Unlisted(r, h, a, f, s, j), d.(off := d.off + {a}))
    ensures forall b :: b in h.t.ext ==> At(Unlisted(r, h, a, f, s, j), b) == At(h, b)
    ensures UsedKept(r, h, Unlisted(r, h, a, f, s, j), {})
  {
    hide FlagAt, IndexOk, Tiled, CloseMem, Flat, DropMaps, DropHeads;
    var h' := Unlisted(r, h, a, f, s, j);
    assert ListedAt(r, h, d.off, a);
    DropOk(h.m, h.t, h.x, h.heads, h.fl, h.sl, r.w, f, s, a, j, r.y);
    forall b ensures ListedAt(r, h', d.off + {a}, b) { assert ListedAt(r, h, d.off, b); }
    IndexOnlyHeap(r, h, h', d.off, d.loose, a);
  }

  // ------------------------------------------- stores behind the headers

  /** Stores that change no header and keep the lists keep the heap. */
  lemma SameHeaders(r: Rules, h: Heap, h': Heap, d: Slack, e: set<Addr>)
    requires HeapOk(r, h, d) && h' == h.(m := h'.m)
    requires forall b :: b in h.t.ext && b in h.m.hdr ==> b in h'.m.hdr && h'.m.hdr[b] == h.m.hdr[b]
    requires ListsOk(h'.m.link, h.heads, h.x.lists, h.x.place)
    requires forall u {:trigger BytesKept(h.m, h'.m, h.t, u, r.y)} :: u in h.t.ext && u !in e ==>
      BytesKept(h.m, h'.m, h.t, u, r.y)
    ensures HeapOk(r, h', d) && UsedKept(r, h, h', e)
    ensures forall b :: b in h.t.ext ==> At(h', b) == At(h, b)
  {
    hide FlagAt, ListsOk, MapsOk, Tiled, BytesKept;
    SameFlags(r, h, h', d.loose);
    forall b ensures ListedAt(r, h', d.off, b) { assert ListedAt(r, h, d.off, b); }
    OutsideKept(r, h, h', e);
  }

  /** Writing the link of a block that is not listed. */
  lemma ScratchOk(r: Rules, h: Heap, d: Slack, a: Addr, l: Link)
    requires HeapOk(r, h, d) && a in h.t.ext && a !in h.x.place && h.t.ext[a] >= r.y.hs + r.y.ls
    ensures var h' := h.(m := PutLink(h.m, a, l, r.y));
      HeapOk(r, h', d) && UsedKept(r, h, h', {a}) && forall b :: b in h.t.ext ==> At(h', b) == At(h, b)
  {
    hide HeapOk, PutLink;
    var h' := h.(m := PutLink(h.m, a, l, r.y));
    assert Tiled(h.t) && Roomy(h.t, h.x.place, r.y) by { HeapParts(r, h, d); }
    PutLinkFrame(h.m, h.t, h.x.place, a, l, r.y);
    HeapParts(r, h, d);
    LinksSame(h.m, h'.m, h.heads, h.x, a);
    SameHeaders(r, h, h', d, {a});
  }

  /** Writing the link of a listed block as it is. */
  lemma RelinkOk(r: Rules, h: Heap, d: Slack, a: Addr)
    requires HeapOk(r, h, d) && a in h.x.place
    ensures var h' := h.(m := PutLink(h.m, a, LinkAt(h.m.link, a), r.y));
      && HeapOk(r, h', d) && UsedKept(r, h, h', {}) && (forall b :: b in h.t.ext ==> At(h', b) == At(h, b))
      && LinkAt(h'.m.link, a) == LinkAt(h.m.link, a)
  {
    hide HeapOk, PutLink, ListsOk, BytesKept, MapsOk, Tiled;
    HeapParts(r, h, d);
    assert ListedAt(r, h, d.off, a);
    var l := LinkAt(h.m.link, a);
    var h' := h.(m := PutLink(h.m, a, l, r.y));
    PutLinkFrame(h.m, h.t, h.x.place, a, l, r.y);
    forall b | b in h.x.place ensures b in h.m.link {
      var j := ListedFacts(h.m.link, h.heads, h.x.lists, h.x.place, b);
    }
    ListsFrame(h.m.link, h'.m.link, h.heads, h.x.lists, h.x.place);
    SameHeaders(r, h, h', d, {a});
    forall u ensures KeptAt(r, h, h', u) {
      if u == a { assert !IsUsed(h, a) && !IsUsed(h', a); } else { assert KeptAt(r, h, h', u); }
    }
  }

  lemma HeapParts(r: Rules, h: Heap, d: Slack)
    requires HeapOk(r, h, d)
    ensures RulesOk(r) && Tiled(h.t) && Roomy(h.t, h.x.place, r.y) && HdrsOk(r, h, d.open) && FlagsOk(r, h, d.loose)
      && ListedOk(r, h, d.off)
    ensures ListsOk(h.m.link, h.heads, h.x.lists, h.x.place) && MapsOk(h.fl, h.sl, h.x.lists, r.w) && 0 !in h.t.ext
  {
  }

  /** The first n bytes of the payload of a used block. */
  ghost predicate Holds(r: Rules, h: Heap, a: Addr, bytes: seq<byte>) {
    IsUsed(h, a) && Readable(h.m.data, a + r.y.hs, |bytes|) && Read(h.m.data, a + r.y.hs, |bytes|) == bytes
  }

  /** The owner of a used block writes its payload. */
  lemma WriteOk(r: Rules, h: Heap, d: Slack, a: Addr, bytes: seq<byte>)
    requires HeapOk(r, h, d) && IsUsed(h, a) && r.y.hs + |bytes| <= h.t.ext[a]
    ensures var h' := h.(m := PutBytes(h.m, a + r.y.hs, bytes, r.y));
      && HeapOk(r, h', d) && UsedKept(r, h, h', {a}) && (forall b :: b in h.t.ext ==> At(h', b) == At(h, b))
      && Holds(r, h', a, bytes)
  {
    hide HeapOk, PutBytes;
    HeapParts(r, h, d);
    assert ListedAt(r, h, d.off, a);
    var h' := h.(m := PutBytes(h.m, a + r.y.hs, bytes, r.y));
    PutBytesFrame(h.m, h.t, h.x.place, a, bytes, r.y);
    PutBytesRead(h.m, a + r.y.hs, bytes, r.y);
    LinksSame(h.m, h'.m, h.heads, h.x, a);
    SameHeaders(r, h, h', d, {a});
  }

  /** What a used block holds, it holds after every operation on other blocks. */
  lemma HoldsKept(r: Rules, h: Heap, h': Heap, e: set<Addr>, a: Addr, bytes: seq<byte>)
    requires UsedKept(r, h, h', e) && a !in e && Holds(r, h, a, bytes) && r.y.hs + |bytes| <= h.t.ext[a]
    ensures Holds(r, h', a, bytes)
  {
    assert KeptAt(r, h, h', a);
    ReadSame(h.m.data, h'.m.data, a + r.y.hs, |bytes|);
  }
}
