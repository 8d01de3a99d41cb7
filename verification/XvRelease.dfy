/** xvmalloc: what releasing a block does to the heap, stage by stage. */
module XvRelease {
  import opened Tiling
  import opened FreeLists
  import opened HeapMem
  import opened FreeIndex
  import opened BoundaryTags
  import opened Coalesce
  import opened XvIndex
  import opened XvHeap

  /** Block a is being released: off the lists, and not yet in accord with its successor. */
  function Loose(a: Addr): Slack { Slack({a}, {a}, {}) }

  /** The size is rounded up to what the block really holds. */
  lemma RoundUpStep(h: Heap, pages: set<nat>, a: Addr)
    requires Ready(h, pages, Slack({}, {}, {})) && IsUsed(h, a)
    ensures var c := At(h, a).(size := AlignUp(At(h, a).size, XV_ALIGN)); var h' := StoreHdr(Xv(), h, a, c);
      && Ready(h', pages, Loose(a)) && UsedKept(Xv(), h, h', {a}) && At(h', a) == c && FlagAt(Xv(), h', a, {})
  {
    hide IndexOk, Tiled, At, FlagsOk, PutHdr, KeptAt, Roomy, Paged;
    var d, c := Slack({}, {}, {}), At(h, a).(size := AlignUp(At(h, a).size, XV_ALIGN));
    assert ListedAt(Xv(), h, {}, a);
    StoreFrame(Xv(), h, a, c);
    OwnFlag(Xv(), h, d, a, c, {a});
    OwnFlag(Xv(), h, d, a, c, {});
    if h.t.HasNext(a) { NextFlag(Xv(), h, d, a, c, {a}); }
    RoundTwice(At(h, a).size);
    UsedSize(h, pages, a);
    StoreOk(Xv(), h, d, a, c, Loose(a));
    ReadyStore(h, pages, d, a, c, Loose(a));
  }

  lemma RoundTwice(n: nat)
    ensures Round4(AlignUp(n, XV_ALIGN)) == Round4(n) == AlignUp(n, XV_ALIGN)
  {
  }

  lemma SwallowStep(h: Heap, pages: set<nat>, a: Addr, b: Addr, loose: set<Addr>)
    requires Ready(h, pages, Slack({a, b}, loose, {})) && loose <= {a, b}
    requires a in h.t.ext && h.t.HasNext(a) && h.t.End(a) == b && b in h.t.ext
    requires At(h, a).size % 4 == 0 && At(h, b).size % 4 == 0
    ensures Ready(Swallow(Xv(), h, a), pages, Loose(a)) && UsedKept(Xv(), h, Swallow(Xv(), h, a), {a, b})
    ensures At(Swallow(Xv(), h, a), a) == At(h, a).(size := At(h, a).size + At(h, b).size + XV_ALIGN)
    ensures SameHdrsBut(MergeBlocks(h, a), Swallow(Xv(), h, a), a)
  {
    hide HeapOk, At, PutHdr, Paged, SameHdrsBut, UsedKept;
    HeapParts(Xv(), h, Slack({a, b}, loose, {}));
    SwallowOk(Xv(), h, Slack({a, b}, loose, {}), a, b);
    MergePaged(h, pages, a);
    MergedStore(h, pages, a, b);
  }

  lemma MergedStore(h: Heap, pages: set<nat>, a: Addr, b: Addr)
    requires a in h.t.ext && h.t.End(a) == b && b in h.t.ext && a != b && Paged(MergeBlocks(h, a), pages)
    requires At(h, a).size % 4 == 0 && At(h, b).size % 4 == 0
    requires At(Swallow(Xv(), h, a), a) == At(h, a).(size := At(h, a).size + At(h, b).size + XV_ALIGN)
    requires SameHdrsBut(MergeBlocks(h, a), Swallow(Xv(), h, a), a)
    ensures Paged(Swallow(Xv(), h, a), pages)
  {
    hide HdrAt, PutHdr, Paged;
    StorePaged(MergeBlocks(h, a), pages, a, At(h, a).(size := At(h, a).size + At(h, b).size + XV_ALIGN));
  }

  /** What is known before the merge with the successor. */
  lemma NextIsFree(h: Heap, pages: set<nat>, a: Addr, b: Addr)
    requires Ready(h, pages, Loose(a)) && a in h.t.ext && h.t.HasNext(a) && h.t.End(a) == b && b in h.t.ext
      && At(h, b).free
    ensures b != a && At(h, b).size % 4 == 0
    ensures At(h, b).size >= XV_MIN_ALLOC_SIZE <==> b in h.x.place
    ensures b in h.x.place ==> h.x.place[b] == GetIndexForInsert(At(h, b).size) < NUM_FREE_LISTS
    ensures h.t.HasNext(b) ==> h.t.End(b) in h.t.ext && !At(h, h.t.End(b)).free
  {
    hide IndexOk, At, Tiled, GetIndexForInsert;
    Neighbours(Xv(), h, Loose(a), a);
    Neighbours(Xv(), h, Loose(a), b);
    assert InPage(h, b, pages) && ListedAt(Xv(), h, {a}, b);
    InsertIndexInRange(At(h, b).size);
  }

  /** After the merge with the successor: the next block is in use, nothing changed before a. */
  lemma NextMerged(h: Heap, a: Addr, b: Addr)
    requires Tiled(h.t) && a in h.t.ext && h.t.HasNext(a) && h.t.End(a) == b && b in h.t.ext
    requires SameHdrsBut(MergeBlocks(h, a), Swallow(Xv(), h, a), a)
    requires At(Swallow(Xv(), h, a), a) == At(h, a).(size := At(Swallow(Xv(), h, a), a).size)
    requires FlagAt(Xv(), h, a, {}) && (h.t.HasNext(b) ==> h.t.End(b) in h.t.ext && !At(h, h.t.End(b)).free)
    ensures var h' := Swallow(Xv(), h, a);
      && a in h'.t.ext && FlagAt(Xv(), h', a, {})
      && (h'.t.HasNext(a) ==> h'.t.End(a) in h'.t.ext && !At(h', h'.t.End(a)).free)
  {
    hide Tiled, PutHdr, HdrAt;
    var h' := Swallow(Xv(), h, a);
    NextFacts(h.t, a);
    NextFacts(h.t, b);
    if h.t.HasNext(b) {
      var c := h.t.End(b);
      assert c in MergeBlocks(h, a).t.ext && c != a && h'.t.End(a) == c;
      assert At(h', c) == At(MergeBlocks(h, a), c);
    }
    if a !in h.t.firsts {
      PredFacts(h.t, a);
      assert At(h', h.t.pred[a]) == At(MergeBlocks(h, a), h.t.pred[a]);
    }
  }

  /** What is known before the merge into the predecessor. */
  lemma PrevIsFree(h: Heap, pages: set<nat>, a: Addr)
    requires Ready(h, pages, Loose(a)) && a in h.t.ext && FlagAt(Xv(), h, a, {}) && At(h, a).prevFree && !At(h, a).free
    ensures a / PAGE * PAGE + At(h, a).prev in h.t.ext
    ensures var p := a / PAGE * PAGE + At(h, a).prev;
      && p < a && p / PAGE == a / PAGE && h.t.HasNext(p) && h.t.End(p) == a && At(h, p).free && At(h, p).size % 4 == 0
      && (At(h, p).size >= XV_MIN_ALLOC_SIZE <==> p in h.x.place)
      && (p in h.x.place ==> h.x.place[p] == GetIndexForInsert(At(h, p).size) < NUM_FREE_LISTS)
      && (p !in h.t.firsts ==> p in h.t.pred && !At(h, h.t.pred[p]).free)
      && p + At(h, p).size + XV_ALIGN == a
  {
    hide IndexOk, At, Tiled, GetIndexForInsert, Paged, FlagsOk, FlagAt, HdrsOk, Roomy;
    PrevNamed(h, pages, a);
    var p := a / PAGE * PAGE + At(h, a).prev;
    assert ListedAt(Xv(), h, {a}, p);
    InsertIndexInRange(At(h, p).size);
  }

  /** The header names the block in front, as long as that is free. */
  lemma PrevNamed(h: Heap, pages: set<nat>, a: Addr)
    requires Ready(h, pages, Loose(a)) && a in h.t.ext && FlagAt(Xv(), h, a, {}) && At(h, a).prevFree && !At(h, a).free
    ensures var p := a / PAGE * PAGE + At(h, a).prev;
      && p in h.t.ext && p < a && p / PAGE == a / PAGE && h.t.HasNext(p) && h.t.End(p) == a && At(h, p).free
      && At(h, p).size % 4 == 0
      && (p !in h.t.firsts ==> p in h.t.pred && !At(h, h.t.pred[p]).free)
      && p + At(h, p).size + XV_ALIGN == a
  {
    hide IndexOk, At, Tiled, Paged, FlagsOk, ListedOk;
    Neighbours(Xv(), h, Loose(a), a);
    var p: nat := h.t.pred[a];
    Neighbours(Xv(), h, Loose(a), p);
    PrevAddress(h, pages, a, p);
  }

  lemma PrevAddress(h: Heap, pages: set<nat>, a: Addr, p: Addr)
    requires Paged(h, pages) && a in h.t.ext && p in h.t.ext && h.t.ext[p] > 0 && h.t.HasNext(p) && h.t.End(p) == a
      && At(h, p).free
    ensures p / PAGE == a / PAGE && p == a / PAGE * PAGE + p % PAGE && At(h, p).size % 4 == 0
  {
    hide At;
    LastInPage(h, pages, p);
    assert InPage(h, p, pages);
  }

  /** The predecessor is in use: nothing to merge. */
  lemma PrevIsUsed(h: Heap, pages: set<nat>, a: Addr)
    requires a in h.t.ext && FlagAt(Xv(), h, a, {}) && !At(h, a).prevFree
    requires h.t.HasNext(a) ==> h.t.End(a) in h.t.ext && !At(h, h.t.End(a)).free
    ensures BetweenUsed(h, a)
  {
    hide HdrAt;
  }

  // ------------------------------------------------------------- the finish

  /** The released block is marked free. */
  lemma MarkFreeStep(h: Heap, pages: set<nat>, a: Addr)
    requires Ready(h, pages, Loose(a)) && a in h.t.ext && At(h, a).size % 4 == 0 && BetweenUsed(h, a)
    ensures var c := At(h, a).(free := true); var h' := StoreHdr(Xv(), h, a, c);
      && Ready(h', pages, Loose(a)) && UsedKept(Xv(), h, h', {a}) && At(h', a) == c && BetweenUsed(h', a)
  {
    hide IndexOk, Tiled, At, FlagsOk, PutHdr, KeptAt, Roomy, Paged;
    var c := At(h, a).(free := true);
    var h' := StoreHdr(Xv(), h, a, c);
    assert ListedAt(Xv(), h, {a}, a);
    Neighbours(Xv(), h, Loose(a), a);
    StoreFrame(Xv(), h, a, c);
    OwnFlag(Xv(), h, Loose(a), a, c, {a});
    if h.t.HasNext(a) { NextFlag(Xv(), h, Loose(a), a, c, {a}); }
    StoreOk(Xv(), h, Loose(a), a, c, Loose(a));
    ReadyStore(h, pages, Loose(a), a, c, Loose(a));
  }

  lemma SealStep(h: Heap, pages: set<nat>, a: Addr, nb: Addr)
    requires Ready(h, pages, Slack({}, {a}, {})) && a in h.t.ext && h.t.HasNext(a) && h.t.End(a) == nb && nb in h.t.ext
    requires BetweenUsed(h, a) && At(h, a).free
    ensures var c := At(h, nb).(prevFree := true, prev := a % PAGE); var h' := StoreHdr(Xv(), h, nb, c);
      Ready(h', pages, Slack({}, {}, {})) && UsedKept(Xv(), h, h', {}) && At(h', a) == At(h, a)
  {
    hide HeapOk, Tiled, At, PutHdr, KeptAt, Paged, UsedKept;
    HeapParts(Xv(), h, Slack({}, {a}, {}));
    NextFacts(h.t, a);
    UsedSize(h, pages, nb);
    SealOk(Xv(), h, a, nb);
    ReadyStore(h, pages, Slack({}, {a}, {}), nb, At(h, nb).(prevFree := true, prev := a % PAGE), Slack({}, {}, {}));
  }

  /** A block as long as a page is all of it. */
  lemma ReleaseStep(h: Heap, pages: set<nat>, a: Addr)
    requires Ready(h, pages, Loose(a)) && a in h.t.ext && At(h, a).size == PAGE - XV_ALIGN
    ensures a / PAGE in pages && a % PAGE == 0
    ensures Ready(DropBlock(h, a), pages - {a / PAGE}, Slack({}, {}, {})) && UsedKept(Xv(), h, DropBlock(h, a), {a})
  {
    hide IndexOk, Tiled, At, FlagsOk, KeptAt, Paged;
    assert ListedAt(Xv(), h, {a}, a);
    DropPaged(h, pages, a);
    PageOf(h, pages, a);
    DropBlockOk(Xv(), h, Loose(a), a);
    assert {a} - {a} == {};
    assert Slack({a} - {a}, {a} - {a}, {} - {a}) == Slack({}, {}, {});
  }

  lemma PageOf(h: Heap, pages: set<nat>, a: Addr)
    requires Paged(h, pages) && a in h.t.ext
    ensures a / PAGE in pages && a % 4 == 0 && a % PAGE + h.t.ext[a] <= PAGE
  {
    hide At;
    assert InPage(h, a, pages);
  }
}
