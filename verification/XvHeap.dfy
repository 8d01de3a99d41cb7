/** The heap of xvmalloc: pages cut into blocks with four-byte headers. */
module XvHeap {
  import opened Bits
  import opened Tiling
  import opened FreeLists
  import opened TwoLevel
  import opened HeapMem
  import opened FreeIndex
  import opened BoundaryTags
  import opened Coalesce
  import opened XvIndex

  /** A header takes XV_ALIGN bytes.  Four bytes of padding and the link record of 24, whose
      pointers are aligned to 8, follow; the padding counts as part of the record here. */
  function Y(): Layout { Layout(XV_ALIGN, 28) }

  /** The header names a free predecessor by its offset in the page. */
  ghost function Xv(): Rules {
    Rules(Y(), XV_MIN_ALLOC_SIZE, (size: nat) => GetIndexForInsert(size), (p: nat) => p % PAGE, false, BITS_PER_LONG)
  }

  /** The two bytes that hold the offset of the predecessor and both flags. */
  function PackPrev(offset: nat, free: bool, prevFree: bool): nat {
    Or(offset, Or(if free then Pow2(0) else 0, if prevFree then Pow2(1) else 0))
  }

  /** The flags of a header do not disturb the offset kept in the same field. */
  lemma PrevFieldKeepsApart(offset: nat, free: bool, prevFree: bool)
    requires offset % XV_ALIGN == 0
    ensures Bit(PackPrev(offset, free, prevFree), 0) <==> free
    ensures Bit(PackPrev(offset, free, prevFree), 1) <==> prevFree
    ensures forall j: nat :: j >= 2 ==> (Bit(PackPrev(offset, free, prevFree), j) <==> Bit(offset, j))
  {
    hide Bit, Or, Pow2;
    var f, p := if free then Pow2(0) else 0, if prevFree then Pow2(1) else 0;
    LowBitsClear(offset);
    forall j: nat ensures Bit(PackPrev(offset, free, prevFree), j) <==>
      Bit(offset, j) || (free && j == 0) || (prevFree && j == 1)
    {
      BitOfOr(offset, Or(f, p), j);
      BitOfOr(f, p, j);
      ZeroBits(j);
      BitOfPow2(0, j);
      BitOfPow2(1, j);
    }
  }

  lemma LowBitsClear(offset: nat)
    requires offset % 4 == 0
    ensures !Bit(offset, 0) && !Bit(offset, 1)
  {
    assert Bit(offset, 1) == Bit(offset / 2, 0);
  }

  // ------------------------------------------------------------------ pages

  ghost predicate InPage(h: Heap, a: Addr, pages: set<nat>)
    requires a in h.t.ext
  {
    && a % 4 == 0 && a / PAGE in pages && a % PAGE + h.t.ext[a] <= PAGE && h.t.ext[a] % 4 == 0
    && (if At(h, a).free then At(h, a).size % 4 == 0 else At(h, a).size > 0)
  }

  /** The regions are the pages held. */
  ghost predicate Paged(h: Heap, pages: set<nat>) {
    && 0 !in pages
    && (forall a {:trigger InPage(h, a, pages)} :: a in h.t.ext ==> InPage(h, a, pages))
    && (forall a {:trigger a in h.t.firsts} :: a in h.t.firsts <==> a % PAGE == 0 && a / PAGE in pages)
    && (forall e {:trigger e in h.t.ends} :: e in h.t.ends <==>
      e % PAGE == 0 && e >= PAGE && (e - PAGE) / PAGE in pages)
  }

  ghost predicate Counts(h: Heap) {
    |h.heads| == |h.x.lists| == NUM_FREE_LISTS && |h.sl| == MAX_FLI
  }

  ghost predicate Ready(h: Heap, pages: set<nat>, d: Slack) {
    HeapOk(Xv(), h, d) && Counts(h) && Paged(h, pages)
  }

  ghost predicate SameHdrs(h: Heap, h': Heap) {
    h'.t == h.t && forall b {:trigger At(h', b)} :: b in h.t.ext ==> At(h', b) == At(h, b)
  }

  /** Only lists changed. */
  ghost predicate Relisted(h: Heap, h': Heap) { SameHdrs(h, h') && UsedKept(Xv(), h, h', {}) }

  lemma SameHdrsPaged(h: Heap, h': Heap, pages: set<nat>)
    requires Paged(h, pages) && SameHdrs(h, h')
    ensures Paged(h', pages)
  {
    hide At;
    forall a | a in h'.t.ext ensures InPage(h', a, pages) { assert InPage(h, a, pages) && At(h', a) == At(h, a); }
  }

  lemma ReadyTiled(h: Heap, pages: set<nat>, d: Slack)
    requires Ready(h, pages, d)
    ensures Tiled(h.t) && 0 !in h.t.ext
  {
  }

  lemma UsedSize(h: Heap, pages: set<nat>, a: Addr)
    requires Paged(h, pages) && a in h.t.ext
    ensures if At(h, a).free then At(h, a).size % 4 == 0 else At(h, a).size > 0
  {
    hide At;
    assert InPage(h, a, pages);
  }

  /** Where a block ends tells whether another one follows. */
  lemma LastInPage(h: Heap, pages: set<nat>, a: Addr)
    requires Paged(h, pages) && a in h.t.ext && h.t.ext[a] > 0
    ensures h.t.HasNext(a) <==> a % PAGE + h.t.ext[a] != PAGE
    ensures (a + h.t.ext[a]) / PAGE == a / PAGE || !h.t.HasNext(a)
  {
    hide At;
    assert InPage(h, a, pages);
    EndArith(a, h.t.ext[a]);
    var e := h.t.End(a);
    if a % PAGE + h.t.ext[a] == PAGE { assert (e - PAGE) / PAGE == a / PAGE; }
  }

  lemma EndArith(a: nat, n: nat)
    requires 0 < n && a % PAGE + n <= PAGE
    ensures (a + n) % PAGE == 0 <==> a % PAGE + n == PAGE
    ensures a % PAGE + n == PAGE ==> a + n >= PAGE && (a + n - PAGE) / PAGE == a / PAGE
    ensures a % PAGE + n < PAGE ==> (a + n) / PAGE == a / PAGE && (a + n) % PAGE == a % PAGE + n
  {
    var q, m := a / PAGE, a % PAGE;
    assert a == q * PAGE + m;
    if m + n == PAGE {
      assert a + n == (q + 1) * PAGE;
    } else {
      assert a + n == q * PAGE + (m + n);
    }
  }

  lemma StorePaged(h: Heap, pages: set<nat>, a: Addr, c: Hdr)
    requires Paged(h, pages) && a in h.t.ext && (if c.free then c.size % 4 == 0 else c.size > 0)
    requires var h' := StoreHdr(Xv(), h, a, c);
      At(h', a) == c && forall b :: b in h.t.ext && b != a ==> At(h', b) == At(h, b)
    ensures Paged(StoreHdr(Xv(), h, a, c), pages)
  {
    hide At, PutHdr;
    var h' := StoreHdr(Xv(), h, a, c);
    forall b | b in h'.t.ext ensures InPage(h', b, pages) { assert InPage(h, b, pages); }
  }

  lemma SplitPaged(h: Heap, pages: set<nat>, a: Addr, n: nat, c: Hdr)
    requires Paged(h, pages) && a in h.t.ext && 0 < n < h.t.ext[a] && n % 4 == 0 && c.size % 4 == 0 && c.free
    requires var h' := SplitHdr(Xv(), h, a, n, c);
      At(h', a + n) == c && forall b :: b in h.t.ext ==> At(h', b) == At(h, b)
    ensures Paged(SplitHdr(Xv(), h, a, n, c), pages)
  {
    hide At, PutHdr;
    var h' := SplitHdr(Xv(), h, a, n, c);
    assert InPage(h, a, pages);
    SplitArith(a, n, h.t.ext[a]);
    forall b | b in h'.t.ext ensures InPage(h', b, pages) {
      if b != a + n { assert InPage(h, b, pages); }
    }
  }

  lemma SplitArith(a: nat, n: nat, ext: nat)
    requires a % 4 == 0 && n % 4 == 0 && ext % 4 == 0 && 0 < n < ext && a % PAGE + ext <= PAGE
    ensures (a + n) % 4 == 0 && (ext - n) % 4 == 0 && (a + n) / PAGE == a / PAGE && (a + n) % PAGE + (ext - n) <= PAGE
  {
    EndArith(a, n);
  }

  lemma MergePaged(h: Heap, pages: set<nat>, a: Addr)
    requires Tiled(h.t) && Paged(h, pages) && a in h.t.ext && h.t.HasNext(a) && h.t.End(a) in h.t.ext
    ensures Paged(MergeBlocks(h, a), pages)
  {
    hide HdrAt, Tiled;
    var h', b := MergeBlocks(h, a), h.t.End(a);
    NextFacts(h.t, a);
    LastInPage(h, pages, a);
    EndArith(a, h.t.ext[a]);
    assert InPage(h, a, pages) && InPage(h, b, pages);
    forall c | c in h'.t.ext ensures InPage(h', c, pages) { assert InPage(h, c, pages); }
  }

  /** A page that is not held overlaps no block. */
  lemma NewPageFresh(h: Heap, pages: set<nat>, page: nat)
    requires Tiled(h.t) && Paged(h, pages) && page !in pages
    ensures FreshRegion(h.t, page * PAGE, PAGE)
  {
    hide At, Tiled;
    forall a | a in h.t.ext ensures a + h.t.ext[a] <= page * PAGE || page * PAGE + PAGE <= a {
      assert InPage(h, a, pages);
      NextFacts(h.t, a);
      EndArith(a, h.t.ext[a]);
      assert a == a / PAGE * PAGE + a % PAGE;
    }
    forall e | e in h.t.ends ensures e <= page * PAGE || page * PAGE + PAGE < e {
      assert e == (e - PAGE) / PAGE * PAGE + PAGE;
    }
  }

  lemma AddPaged(h: Heap, pages: set<nat>, page: nat, c: Hdr)
    requires Paged(h, pages) && page !in pages && page != 0 && c.size % 4 == 0 && c.free
    requires var h' := AddBlock(Xv(), h, page * PAGE, PAGE, c);
      At(h', page * PAGE) == c && page * PAGE !in h.t.ext && forall b :: b in h.t.ext ==> At(h', b) == At(h, b)
    ensures Paged(AddBlock(Xv(), h, page * PAGE, PAGE, c), pages + {page})
  {
    hide At, PutHdr;
    var h' := AddBlock(Xv(), h, page * PAGE, PAGE, c);
    var lo := page * PAGE;
    assert lo / PAGE == page && lo % PAGE == 0;
    forall b | b in h'.t.ext ensures InPage(h', b, pages + {page}) {
      if b != lo { assert InPage(h, b, pages); }
    }
    forall a ensures a in h'.t.firsts <==> a % PAGE == 0 && a / PAGE in pages + {page} {
      assert a % PAGE == 0 && a / PAGE == page ==> a == lo;
    }
    forall e ensures e in h'.t.ends <==> e % PAGE == 0 && e >= PAGE && (e - PAGE) / PAGE in pages + {page} {
      assert e % PAGE == 0 && e >= PAGE && (e - PAGE) / PAGE == page ==> e == lo + PAGE;
      assert (lo + PAGE) % PAGE == 0 && (lo + PAGE - PAGE) / PAGE == page;
    }
  }

  lemma DropPaged(h: Heap, pages: set<nat>, a: Addr)
    requires Tiled(h.t) && Paged(h, pages) && a in h.t.ext && h.t.ext[a] == PAGE
    ensures a % PAGE == 0 && a in h.t.firsts && !h.t.HasNext(a)
    ensures Paged(DropBlock(h, a), pages - {a / PAGE})
  {
    hide HdrAt, Tiled;
    var page := a / PAGE;
    assert InPage(h, a, pages);
    LastInPage(h, pages, a);
    EndArith(a, PAGE);
    var h' := DropBlock(h, a);
    assert a == page * PAGE;
    forall b | b in h'.t.ext ensures InPage(h', b, pages - {page}) {
      assert InPage(h, b, pages);
      NextFacts(h.t, b);
      BlocksDisjoint(h.t, a, b);
      EndArith(b, h.t.ext[b]);
    }
    forall b ensures b in h'.t.firsts <==> b % PAGE == 0 && b / PAGE in pages - {page} {
      assert b % PAGE == 0 && b / PAGE == page ==> b == a;
    }
    forall e ensures e in h'.t.ends <==> e % PAGE == 0 && e >= PAGE && (e - PAGE) / PAGE in pages - {page} {
      assert e % PAGE == 0 && e >= PAGE && (e - PAGE) / PAGE == page ==> e == a + PAGE;
    }
  }

  // ------------------------------------------------------------ list steps

  lemma ListIndex(size: nat) returns (f: nat, s: nat)
    ensures f == GetIndexForInsert(size) / BITS_PER_LONG && s == GetIndexForInsert(size) % BITS_PER_LONG
    ensures f < MAX_FLI && s < BITS_PER_LONG && Flat(f, s, BITS_PER_LONG) == GetIndexForInsert(size) < NUM_FREE_LISTS
  {
    InsertIndexInRange(size);
    f, s := GetIndexForInsert(size) / BITS_PER_LONG, GetIndexForInsert(size) % BITS_PER_LONG;
  }

  lemma ListStep(h: Heap, pages: set<nat>, d: Slack, a: Addr, f: nat, s: nat)
    requires Ready(h, pages, d) && a in h.t.ext && a in d.off && a !in d.open && Listable(Xv(), At(h, a))
    requires f < MAX_FLI && s < BITS_PER_LONG
      && Flat(f, s, BITS_PER_LONG) == GetIndexForInsert(At(h, a).size) < NUM_FREE_LISTS
    ensures Ready(Listed(Xv(), h, a, f, s), pages, d.(off := d.off - {a})) && Relisted(h, Listed(Xv(), h, a, f, s))
  {
    hide HeapOk, At, Flat, SetBit, Paged, GetIndexForInsert;
    BoundaryTags.ListOk(Xv(), h, d, a, f, s);
    SameHdrsPaged(h, Listed(Xv(), h, a, f, s), pages);
  }

  /** The list of a listed block, and its place there. */
  lemma FindListed(h: Heap, pages: set<nat>, d: Slack, a: Addr) returns (f: nat, s: nat, j: nat)
    requires Ready(h, pages, d) && a in h.x.place
    ensures a in h.t.ext && At(h, a).free && At(h, a).size >= XV_MIN_ALLOC_SIZE
    ensures f == GetIndexForInsert(At(h, a).size) / BITS_PER_LONG
      && s == GetIndexForInsert(At(h, a).size) % BITS_PER_LONG
    ensures f < MAX_FLI && s < BITS_PER_LONG
      && Flat(f, s, BITS_PER_LONG) == h.x.place[a] == GetIndexForInsert(At(h, a).size) < NUM_FREE_LISTS
    ensures var l := h.x.lists[h.x.place[a]]; j < |l| && l[j] == a && (h.heads[h.x.place[a]] == a <==> j == 0)
    ensures a != 0 && a in h.m.link
    ensures var l := h.x.lists[h.x.place[a]];
      (h.m.link[a].prev == 0 <==> j == 0) && (h.m.link[a].next == 0 <==> j + 1 == |l|)
  {
    hide FlagsOk, HdrsOk, Paged, ListsOk, MapsOk, Tiled, GetIndexForInsert, Flat;
    assert ListedAt(Xv(), h, d.off, a);
    f, s := ListIndex(At(h, a).size);
    j := ListedFacts(h.m.link, h.heads, h.x.lists, h.x.place, a);
  }

  lemma UnlistStep(h: Heap, pages: set<nat>, d: Slack, a: Addr, f: nat, s: nat, j: nat)
    requires Ready(h, pages, d) && a in h.x.place && a in h.t.ext && f < MAX_FLI && s < BITS_PER_LONG
    requires h.x.place[a] == Flat(f, s, BITS_PER_LONG) < NUM_FREE_LISTS
    requires j < |h.x.lists[h.x.place[a]]| && h.x.lists[h.x.place[a]][j] == a
    ensures Ready(Unlisted(Xv(), h, a, f, s, j), pages, d.(off := d.off + {a}))
      && Relisted(h, Unlisted(Xv(), h, a, f, s, j))
  {
    hide HeapOk, At, Flat, ClearBit, Paged, GetIndexForInsert;
    UnlistOk(Xv(), h, d, a, f, s, j);
    SameHdrsPaged(h, Unlisted(Xv(), h, a, f, s, j), pages);
  }

  lemma RelinkStep(h: Heap, pages: set<nat>, d: Slack, a: Addr)
    requires Ready(h, pages, d) && a in h.x.place
    ensures var h' := h.(m := PutLink(h.m, a, LinkAt(h.m.link, a), Y()));
      Ready(h', pages, d) && Relisted(h, h') && LinkAt(h'.m.link, a) == LinkAt(h.m.link, a)
  {
    hide HeapOk, At, Paged, PutLink;
    RelinkOk(Xv(), h, d, a);
    SameHdrsPaged(h, h.(m := PutLink(h.m, a, LinkAt(h.m.link, a), Y())), pages);
  }

  lemma RelistedTrans(h: Heap, h1: Heap, h2: Heap)
    requires Relisted(h, h1) && Relisted(h1, h2)
    ensures Relisted(h, h2)
  {
    hide At, UsedKept;
    var none: set<Addr> := {};
    UsedKeptTrans(Xv(), h, h1, h2, none, none);
    assert none + none == none;
    forall b | b in h.t.ext ensures At(h2, b) == At(h, b) { assert At(h1, b) == At(h, b); }
  }

  // ------------------------------------------------------- allocation steps

  lemma ReadyStore(h: Heap, pages: set<nat>, d: Slack, a: Addr, c: Hdr, d': Slack)
    requires Ready(h, pages, d) && a in h.t.ext && HeapOk(Xv(), StoreHdr(Xv(), h, a, c), d')
    requires At(StoreHdr(Xv(), h, a, c), a) == c && SameHdrsBut(h, StoreHdr(Xv(), h, a, c), a)
    requires if c.free then c.size % 4 == 0 else c.size > 0
    ensures Ready(StoreHdr(Xv(), h, a, c), pages, d')
  {
    hide HeapOk, At, Paged, PutHdr;
    StorePaged(h, pages, a, c);
  }

  /** The head of the list that the search stopped at can serve the request. */
  lemma FoundFits(h: Heap, pages: set<nat>, d: Slack, size: nat, i: nat)
    requires Ready(h, pages, d) && size <= XV_MAX_ALLOC_SIZE && First(h.x.lists, GetIndex(size), i)
      && i < NUM_FREE_LISTS && d.open == {}
    ensures h.heads[i] in h.x.place && h.x.place[h.heads[i]] == i && h.heads[i] in h.t.ext
    ensures At(h, h.heads[i]).free && At(h, h.heads[i]).size >= size
  {
    hide Paged, FlagsOk, HdrsOk, MapsOk, ListsOk, GetIndex, GetIndexForInsert, Tiled;
    HeadFacts(h.m.link, h.heads, h.x.lists, h.x.place, i);
    var a := h.heads[i];
    assert ListedAt(Xv(), h, d.off, a);
    BlockSize(h, pages, d, a);
    IndexFits(size, At(h, a).size);
  }

  /** A block lies in a page, behind a header. */
  lemma BlockSize(h: Heap, pages: set<nat>, d: Slack, a: Addr)
    requires Ready(h, pages, d) && a in h.t.ext && a !in d.open
    ensures At(h, a).size <= XV_MAX_ALLOC_SIZE
  {
    hide HeapOk, At, Paged;
    ExtentOf(h, d, a);
    assert InPage(h, a, pages) by { InPageOf(h, pages, a); }
  }

  lemma InPageOf(h: Heap, pages: set<nat>, a: Addr)
    requires Paged(h, pages) && a in h.t.ext
    ensures InPage(h, a, pages)
  {
    hide At;
  }

  // ------------------------------------------------------------- which block

  /** Some free block is large enough for the request. */
  ghost predicate HasFree(h: Heap, size: nat) {
    exists a :: a in h.t.ext && At(h, a).free && At(h, a).size >= Need(size)
  }

  /** Block a is such a block, and by eights no other is smaller. */
  ghost predicate GoodFit(h: Heap, a: Addr, size: nat) {
    && a in h.t.ext && At(h, a).free && At(h, a).size >= Need(size)
    && forall b :: b in h.t.ext && At(h, b).free && At(h, b).size >= Need(size) ==>
      At(h, a).size / FL_DELTA <= At(h, b).size / FL_DELTA
  }

  /** A free block that is large enough is on a list that the search reaches. */
  lemma FreeIsListed(h: Heap, pages: set<nat>, b: Addr, size: nat)
    requires Ready(h, pages, Slack({}, {}, {})) && b in h.t.ext && At(h, b).free && size <= XV_MAX_ALLOC_SIZE
    requires At(h, b).size >= Need(size)
    ensures XV_MIN_ALLOC_SIZE <= At(h, b).size <= XV_MAX_ALLOC_SIZE && b in h.x.place
      && h.x.place[b] == GetIndexForInsert(At(h, b).size) >= GetIndex(size) && NonEmpty(h.x.lists, h.x.place[b])
  {
    hide FlagsOk, HdrsOk, Paged, MapsOk, Tiled, GetIndexForInsert, GetIndex;
    assert ListedAt(Xv(), h, {}, b);
    NeedAtLeast(size);
    BlockSize(h, pages, Slack({}, {}, {}), b);
    IndexFits(size, At(h, b).size);
  }

  lemma NeedAtLeast(size: nat)
    ensures Need(size) >= XV_MIN_ALLOC_SIZE
  {
    SearchIs(size);
  }

  /** The block that the search leads to is a good fit. */
  lemma FoundGoodFit(h: Heap, pages: set<nat>, size: nat, i: nat)
    requires Ready(h, pages, Slack({}, {}, {})) && size <= XV_MAX_ALLOC_SIZE && i < NUM_FREE_LISTS
    requires First(h.x.lists, GetIndex(size), i) && |h.heads| == NUM_FREE_LISTS
    ensures GoodFit(h, h.heads[i], size)
  {
    hide Ready, At, GetIndexForInsert, GetIndex, Need;
    FoundFits(h, pages, Slack({}, {}, {}), size, i);
    var a := h.heads[i];
    HeadListed(h, pages, a, size);
    forall b | b in h.t.ext && At(h, b).free && At(h, b).size >= Need(size)
      ensures At(h, a).size / FL_DELTA <= At(h, b).size / FL_DELTA
    {
      FreeIsListed(h, pages, b, size);
      IndexOrder(At(h, a).size, At(h, b).size);
    }
  }

  lemma HeadListed(h: Heap, pages: set<nat>, a: Addr, size: nat)
    requires Ready(h, pages, Slack({}, {}, {})) && a in h.x.place && size <= XV_MAX_ALLOC_SIZE
    requires h.x.place[a] >= GetIndex(size)
    ensures a in h.t.ext && At(h, a).free && XV_MIN_ALLOC_SIZE <= At(h, a).size <= XV_MAX_ALLOC_SIZE
    ensures h.x.place[a] == GetIndexForInsert(At(h, a).size) && At(h, a).size >= Need(size)
  {
    hide FlagsOk, HdrsOk, Paged, MapsOk, ListsOk, Tiled, GetIndexForInsert, GetIndex;
    assert ListedAt(Xv(), h, {}, a);
    BlockSize(h, pages, Slack({}, {}, {}), a);
    IndexFits(size, At(h, a).size);
  }

  /** The search for a request succeeds exactly if some free block is large enough for it. */
  lemma FitsExactly(h: Heap, pages: set<nat>, size: nat)
    requires Ready(h, pages, Slack({}, {}, {})) && size <= XV_MAX_ALLOC_SIZE
    ensures !NoneFrom(h.x.lists, GetIndex(size)) <==> HasFree(h, size)
  {
    hide Ready, At, GetIndexForInsert, GetIndex, Need;
    if HasFree(h, size) {
      var b :| b in h.t.ext && At(h, b).free && At(h, b).size >= Need(size);
      FreeIsListed(h, pages, b, size);
    }
    if !NoneFrom(h.x.lists, GetIndex(size)) {
      var i: nat :| i >= GetIndex(size) && NonEmpty(h.x.lists, i);
      var a := ListHead(h, pages, i);
      HeadListed(h, pages, a, size);
    }
  }

  lemma ListHead(h: Heap, pages: set<nat>, i: nat) returns (a: Addr)
    requires Ready(h, pages, Slack({}, {}, {})) && NonEmpty(h.x.lists, i)
    ensures a in h.x.place && h.x.place[a] == i
  {
    hide FlagsOk, HdrsOk, ListedOk, Paged, MapsOk, ListsOk, Tiled;
    HeadFacts(h.m.link, h.heads, h.x.lists, h.x.place, i);
    a := h.heads[i];
  }

  /** With a whole page on the lists the search cannot fail for what the lists can serve. */
  lemma PageIsFound(h: Heap, pages: set<nat>, a: Addr, size: nat)
    requires Ready(h, pages, Slack({}, {}, {})) && a in h.t.ext && At(h, a) == Hdr(PAGE - XV_ALIGN, 0, true, false)
    requires 1 <= size <= 4088
    ensures !NoneFrom(h.x.lists, GetIndex(size))
  {
    hide Paged, FlagsOk, HdrsOk, MapsOk, Tiled, GetIndex, GetIndexForInsert;
    assert ListedAt(Xv(), h, {}, a);
    PageFits(size);
    assert NonEmpty(h.x.lists, h.x.place[a]);
  }

  /** The search starts beyond the last list. */
  lemma BeyondLast(h: Heap, size: nat)
    requires Counts(h) && 4088 < size <= XV_MAX_ALLOC_SIZE
    ensures NoneFrom(h.x.lists, GetIndex(size))
  {
    SearchIndexInRange(size);
  }

  /** What is known of a free block taken off its list. */
  lemma TakenFacts(h: Heap, pages: set<nat>, a: Addr)
    requires Ready(h, pages, Slack({a}, {}, {})) && a in h.t.ext && At(h, a).free
    ensures h.t.ext[a] == XV_ALIGN + At(h, a).size && At(h, a).size % 4 == 0 && a !in h.x.place
    ensures h.t.HasNext(a) <==> a % PAGE + h.t.ext[a] != PAGE
  {
    hide HeapOk, At, Paged;
    ReadyTiled(h, pages, Slack({a}, {}, {}));
    NextFacts(h.t, a);
    LastInPage(h, pages, a);
    ExtentOf(h, Slack({a}, {}, {}), a);
    UsedSize(h, pages, a);
  }

  lemma ExtentOf(h: Heap, d: Slack, a: Addr)
    requires HeapOk(Xv(), h, d) && a in h.t.ext && a !in d.open
    ensures h.t.ext[a] == XV_ALIGN + Round4(At(h, a).size) && (a in d.off ==> a !in h.x.place)
  {
    hide At, Tiled, IndexOk, FlagsOk;
    assert ListedAt(Xv(), h, d.off, a);
  }

  /** The remainder behind an allocation gets a header of its own. */
  lemma RemainderStep(h: Heap, pages: set<nat>, a: Addr, size: nat)
    requires Ready(h, pages, Slack({a}, {}, {})) && a in h.t.ext && At(h, a).free && size % 4 == 0
      && At(h, a).size >= size + XV_ALIGN
    ensures var e := a + XV_ALIGN + size; var c := Hdr(At(h, a).size - size - XV_ALIGN, a % PAGE, true, false);
      && 0 < XV_ALIGN + size < h.t.ext[a] && e % PAGE == a % PAGE + XV_ALIGN + size
      && (var h' := SplitHdr(Xv(), h, a, XV_ALIGN + size, c);
        Ready(h', pages, Slack({a, e}, {a, e}, {a})) && UsedKept(Xv(), h, h', {a}) && Cut(Xv(), h, h', a, size))
  {
    hide HeapOk, At, Paged, PutHdr, Split, UsedKept;
    TakenFacts(h, pages, a);
    RemainderCut(Xv(), h, a, size);
    SplitPaged(h, pages, a, XV_ALIGN + size, Hdr(At(h, a).size - size - XV_ALIGN, a % PAGE, true, false));
    CutOffset(h, pages, a, XV_ALIGN + size);
  }

  lemma CutOffset(h: Heap, pages: set<nat>, a: Addr, n: nat)
    requires Paged(h, pages) && a in h.t.ext && 0 < n < h.t.ext[a]
    ensures (a + n) % PAGE == a % PAGE + n
  {
    hide At;
    assert InPage(h, a, pages);
    EndArith(a, n);
  }

  /** After the cut and the insertion of the remainder the successor is told its name. */
  lemma RenameStep(h: Heap, pages: set<nat>, a: Addr, e: Addr)
    requires Ready(h, pages, Slack({a}, {a, e}, {a})) && a in h.t.ext && e in h.t.ext && h.t.HasNext(a)
      && h.t.End(a) == e
    requires h.t.HasNext(e) && h.t.End(e) in h.t.ext && At(h, h.t.End(e)).prevFree && !At(h, h.t.End(e)).free
      && At(h, e).free
    requires h.t.End(e) != a
    ensures var nb := h.t.End(e); var h' := StoreHdr(Xv(), h, nb, At(h, nb).(prev := e % PAGE));
      && Ready(h', pages, Slack({a}, {a}, {a})) && UsedKept(Xv(), h, h', {}) && SameHdrsBut(h, h', nb)
      && At(h', nb) == At(h, nb).(prev := e % PAGE)
  {
    hide HeapOk, At, Paged, PutHdr, SameHdrsBut, UsedKept;
    var nb := h.t.End(e);
    UsedSize(h, pages, nb);
    RenameOk(Xv(), h, {a}, a, e, nb);
    ReadyStore(h, pages, Slack({a}, {a, e}, {a}), nb, At(h, nb).(prev := e % PAGE), Slack({a}, {a}, {a}));
  }
}
