/** TLSF: which free block serves a request. */
module TlsfFit {
  import opened Bits
  import opened FreeLists
  import opened TwoLevel
  import opened BoundaryTags
  import opened TlsfMap
  import opened TlsfHeap

  /** Block b is free and holds need bytes, and no free block that does is smaller by more than a
      thirty-second. */
  ghost predicate NearFit(h: Heap, b: Addr, need: nat) {
    && b in h.t.ext && At(h, b).free && At(h, b).size >= need
    && forall a {:trigger At(h, a)} :: a in h.t.ext && At(h, a).free && At(h, a).size >= need ==>
      32 * (At(h, b).size - At(h, a).size) <= At(h, a).size
  }

  /** No free block but r holds need bytes. */
  ghost predicate OnlyLast(h: Heap, need: nat, r: Addr) {
    forall a {:trigger At(h, a)} :: a in h.t.ext && At(h, a).free && a != r ==> At(h, a).size < need
  }

  ghost predicate AllLess(h: Heap, need: nat) {
    forall a {:trigger At(h, a)} :: a in h.t.ext && At(h, a).free ==> At(h, a).size < need
  }

  /** The free blocks of h' other than r were free in h, with the same sizes. */
  ghost predicate FreeBefore(h: Heap, h': Heap, r: Addr) {
    forall a {:trigger At(h', a)} :: a in h'.t.ext && At(h', a).free && a != r ==>
      a in h.t.ext && At(h, a).free && At(h, a).size == At(h', a).size
  }

  lemma RoomOnlyThere(h: Heap, h': Heap, need: nat, r: Addr)
    requires AllLess(h, need) && FreeBefore(h, h', r)
    ensures OnlyLast(h', need, r)
  {
    hide At;
    forall a | a in h'.t.ext && At(h', a).free && a != r ensures At(h', a).size < need {
      assert At(h, a).size == At(h', a).size;
    }
  }

  lemma NearOnly(h: Heap, b: Addr, need: nat, r: Addr)
    requires NearFit(h, b, need) && OnlyLast(h, need, r)
    ensures b == r
  {
    hide At;
  }

  /** Sizes of a class differ by less than a thirty-second. */
  lemma ClassWidth(a: nat, b: nat)
    requires ClassIndex(b) <= ClassIndex(a) && a % MEM_ALIGN == 0 && b % MEM_ALIGN == 0
    ensures 32 * (b - a) <= a
  {
    hide Log2, Pow2, Shr, Flat;
    if a < b {
      IndexMonotone(a, b);
      InsertBelow(a);
      InsertBelow(b);
      FlatUnique(MappingInsert(a).0, MappingInsert(a).1, MappingInsert(b).0, MappingInsert(b).1, MAX_SLI);
      if a >= SMALL_BLOCK {
        LargeFacts(a);
        LargeFacts(b);
        SameQuotient(a, b, Pow2(Log2(a) - MAX_LOG2_SLI));
      } else if b >= SMALL_BLOCK {
        LargeFacts(b);
      }
    }
  }

  lemma InsertBelow(r: nat)
    ensures MappingInsert(r).1 < MAX_SLI
  {
    hide Log2, Pow2, Shr;
    if r >= SMALL_BLOCK { LargeFacts(r); }
  }

  lemma SameQuotient(a: nat, b: nat, p: nat)
    requires p > 0 && a / p == b / p >= MAX_SLI && a <= b
    ensures 32 * (b - a) <= a
  {
    DivBounds(a, p);
    DivBounds(b, p);
    MulMono(MAX_SLI, a / p, p);
  }

  /** The head of the first list with blocks, from that of the request on, is such a block. */
  lemma FoundNear(h: Heap, g: Regions, size0: nat, b: Addr, i: nat, named: bool := true)
    requires Ready(h, g, Slack({}, {}, {}), named) && size0 <= LARGEST_REQUEST
    requires First(h.x.lists, Flat(MappingSearch(Request(size0)).1, MappingSearch(Request(size0)).2, MAX_SLI), i)
    requires b in h.t.ext && At(h, b).free && i == ClassIndex(At(h, b).size)
      && At(h, b).size >= MappingSearch(Request(size0)).0
    ensures NearFit(h, b, MappingSearch(Request(size0)).0)
  {
    hide Ready, HdrAt, MappingSearch, ClassIndex, Request, Flat;
    forall a | a in h.t.ext && At(h, a).free && At(h, a).size >= MappingSearch(Request(size0)).0
      ensures 32 * (At(h, b).size - At(h, a).size) <= At(h, a).size
    {
      ListedFrom(h, g, size0, a, named);
      BlockFacts(h, g, Slack({}, {}, {}), a, named);
      BlockFacts(h, g, Slack({}, {}, {}), b, named);
      ClassWidth(At(h, a).size, At(h, b).size);
    }
  }

  lemma ListedFrom(h: Heap, g: Regions, size0: nat, a: Addr, named: bool)
    requires Ready(h, g, Slack({}, {}, {}), named) && size0 <= LARGEST_REQUEST
    requires a in h.t.ext && At(h, a).free && At(h, a).size >= MappingSearch(Request(size0)).0
    ensures Flat(MappingSearch(Request(size0)).1, MappingSearch(Request(size0)).2, MAX_SLI) <= ClassIndex(At(h, a).size)
    ensures NonEmpty(h.x.lists, ClassIndex(At(h, a).size))
  {
    hide Regioned, HdrAt, FlagsOk, HdrsOk, ListsOk, MapsOk, MappingSearch, ClassIndex, Request, Flat;
    var j := FindListed(h, g, Slack({}, {}, {}), a, named);
    RequestIs(size0);
    GoodFit(Request(size0), At(h, a).size);
  }

  /** Where there are no such lists, there is no such block. */
  lemma NoneListed(h: Heap, g: Regions, size0: nat, named: bool := true)
    requires Ready(h, g, Slack({}, {}, {}), named) && size0 <= LARGEST_REQUEST
    requires NoneFrom(h.x.lists, Flat(MappingSearch(Request(size0)).1, MappingSearch(Request(size0)).2, MAX_SLI))
    ensures AllLess(h, MappingSearch(Request(size0)).0)
  {
    hide Ready, HdrAt, MappingSearch, ClassIndex, Request, Flat, NonEmpty;
    forall a | a in h.t.ext && At(h, a).free ensures At(h, a).size < MappingSearch(Request(size0)).0 {
      if At(h, a).size >= MappingSearch(Request(size0)).0 { ListedFrom(h, g, size0, a, named); }
    }
  }
}
