/** zsmalloc: handles, and the free list threaded through a new zspage. */
module ZsInit {
  import opened Bits
  import opened ZsLayout

  type Pfn = nat
  type Handle = nat

  // ----------------------------------------------------------------- handles

  /** A page frame number and an object index in one word; no page gives the null handle. */
  function ObjLocationToHandle(page: Pfn, objIdx: nat): Handle {
    if page == 0 then 0 else Or(page * Pow2(OBJ_INDEX_BITS), objIdx % Pow2(OBJ_INDEX_BITS))
  }

  function ObjHandleToLocation(handle: Handle): (Pfn, nat) {
    (Shr(handle, OBJ_INDEX_BITS), handle % Pow2(OBJ_INDEX_BITS))
  }

  lemma IndexRange()
    ensures Pow2(OBJ_INDEX_BITS) == INDEX_RANGE
  {
    hide Pow2;
    assert Pow2(5) == 32 by { Pow2Small(); }
    Pow2Adds(5, 5);
    Pow2Adds(10, 10);
    Pow2Adds(10, 20);
  }

  lemma Pow2Small()
    ensures Pow2(5) == 32
  {
    assert Pow2(2) == 4;
  }

  /** Decoding a handle gives back what was encoded. */
  lemma HandleRoundTrip(page: Pfn, objIdx: nat)
    requires page > 0 && objIdx < INDEX_RANGE
    ensures ObjLocationToHandle(page, objIdx) == page * INDEX_RANGE + objIdx > 0
    ensures ObjHandleToLocation(ObjLocationToHandle(page, objIdx)) == (page, objIdx)
  {
    hide Or, Shr, Pow2;
    IndexRange();
    OrDisjoint(page, objIdx, OBJ_INDEX_BITS);
    ShrDiv(page * INDEX_RANGE + objIdx, OBJ_INDEX_BITS);
  }

  // ------------------------------------------------------------------- slots

  /** A zspage: its pages, in order, with the page size and the size of its objects. */
  datatype Shape = Shape(pages: seq<Pfn>, p: nat, s: nat) {
    predicate Ok() {
      && InRange(p, s) && |pages| >= 1
      && (forall q :: 0 <= q < |pages| ==> pages[q] > 0)
      && (forall q, r :: 0 <= q < r < |pages| ==> pages[q] != pages[r])
    }
  }

  function SlotCount(z: Shape): nat requires z.Ok() { Slots(z.p, z.s, |z.pages|) }

  function ObjectCount(z: Shape): nat requires z.Ok() { Objects(z.p, z.s, |z.pages|) }

  function PageOfSlot(z: Shape, j: nat): (q: nat)
    requires z.Ok() && j < SlotCount(z)
    ensures q < |z.pages|
  {
    PageInRange(z.p, z.s, |z.pages|, j);
    PageOf(z.p, z.s, j)
  }

  function IndexOfSlot(z: Shape, j: nat): (i: nat)
    requires z.Ok() && j < SlotCount(z)
  {
    Located(z.p, z.s, j);
    j - First(z.p, z.s, PageOfSlot(z, j))
  }

  /** The handle of slot j, null beyond the last slot. */
  function HandleOf(z: Shape, j: nat): Handle
    requires z.Ok()
  {
    if j < SlotCount(z) then ObjLocationToHandle(z.pages[PageOfSlot(z, j)], IndexOfSlot(z, j)) else 0
  }

  /** Where slot j begins in memory. */
  function AddrOf(z: Shape, j: nat): nat
    requires z.Ok() && j < SlotCount(z)
  {
    Located(z.p, z.s, j);
    z.pages[PageOfSlot(z, j)] * z.p + (j * z.s - PageOfSlot(z, j) * z.p)
  }

  /** Slots have different addresses, in their own pages. */
  lemma AddrUnique(z: Shape, j: nat, k: nat)
    requires z.Ok() && j < SlotCount(z) && k < SlotCount(z)
    ensures AddrOf(z, j) / z.p == z.pages[PageOfSlot(z, j)]
    ensures j != k ==> AddrOf(z, j) != AddrOf(z, k)
  {
    hide PageOf, First;
    Located(z.p, z.s, j);
    Located(z.p, z.s, k);
    var q, r := PageOfSlot(z, j), PageOfSlot(z, k);
    DivUnique(AddrOf(z, j), z.p, z.pages[q]);
    DivUnique(AddrOf(z, k), z.p, z.pages[r]);
    if j < k { MulMono(j + 1, k, z.s); }
    if k < j { MulMono(k + 1, j, z.s); }
  }

  /** Handles of different slots differ, and none is null. */
  lemma HandleUnique(z: Shape, j: nat, k: nat)
    requires z.Ok() && j < SlotCount(z) && k < SlotCount(z)
    ensures HandleOf(z, j) != 0
    ensures ObjHandleToLocation(HandleOf(z, j)) == (z.pages[PageOfSlot(z, j)], IndexOfSlot(z, j))
    ensures j != k ==> HandleOf(z, j) != HandleOf(z, k)
  {
    hide PageOf, First, ObjHandleToLocation, ObjLocationToHandle;
    IndexSmall(z, j);
    IndexSmall(z, k);
    HandleRoundTrip(z.pages[PageOfSlot(z, j)], IndexOfSlot(z, j));
    HandleRoundTrip(z.pages[PageOfSlot(z, k)], IndexOfSlot(z, k));
  }

  lemma IndexSmall(z: Shape, j: nat)
    requires z.Ok() && j < SlotCount(z)
    ensures IndexOfSlot(z, j) < INDEX_RANGE
  {
    hide PageOf, First, StartIn;
    Located(z.p, z.s, j);
    QuotientAtMost(z.p, z.s);
  }

  lemma QuotientAtMost(p: nat, s: nat)
    requires s > 0
    ensures p / s <= p
  {
    var q := p / s;
    DivBounds(p, s);
    TimesAtLeast(q, s);
  }

  lemma TimesAtLeast(q: nat, s: nat)
    requires s > 0
    ensures q <= q * s
  {
  }

  /** The i-th object of page q, as slot. */
  lemma SlotAt(z: Shape, q: nat, i: nat)
    requires z.Ok() && q < |z.pages| && StartIn(z.p, z.s, q) + i * z.s < z.p
    ensures var j := First(z.p, z.s, q) + i;
      && j < SlotCount(z) && PageOfSlot(z, j) == q && IndexOfSlot(z, j) == i
      && AddrOf(z, j) == z.pages[q] * z.p + (StartIn(z.p, z.s, q) + i * z.s)
      && HandleOf(z, j) == ObjLocationToHandle(z.pages[q], i)
  {
    hide First, PageOf, ObjLocationToHandle;
    var j := First(z.p, z.s, q) + i;
    LocatedAt(z.p, z.s, q, i);
    PageInRange(z.p, z.s, |z.pages|, j);
    Located(z.p, z.s, j);
  }

  function LinkAt(links: map<nat, Handle>, a: nat): Handle { if a in links then links[a] else 0 }

  /** The free list runs through the first n slots in order. */
  ghost predicate Threaded(z: Shape, links: map<nat, Handle>, n: nat)
    requires z.Ok()
  {
    n <= SlotCount(z) && forall j: nat {:trigger AddrOf(z, j)} :: j < n ==>
      LinkAt(links, AddrOf(z, j)) == HandleOf(z, j + 1)
  }

  ghost predicate OthersKept(z: Shape, links: map<nat, Handle>, links': map<nat, Handle>)
    requires z.Ok()
  {
    forall a: nat {:trigger LinkAt(links', a)} :: a / z.p !in z.pages ==> LinkAt(links', a) == LinkAt(links, a)
  }

  /** Every page but the first records where its first object starts. */
  ghost predicate IndexedUpTo(z: Shape, index: map<Pfn, nat>, n: nat)
    requires z.Ok()
  {
    forall q: nat {:trigger z.pages[q]} :: 1 <= q < n && q < |z.pages| ==>
      z.pages[q] in index && index[z.pages[q]] == StartIn(z.p, z.s, q)
  }

  lemma ThreadNext(z: Shape, links: map<nat, Handle>, j: nat, h: Handle)
    requires z.Ok() && Threaded(z, links, j) && j < SlotCount(z) && h == HandleOf(z, j + 1)
    ensures Threaded(z, links[AddrOf(z, j) := h], j + 1) && OthersKept(z, links, links[AddrOf(z, j) := h])
  {
    hide HandleOf, AddrOf;
    forall k: nat | k < j + 1 ensures LinkAt(links[AddrOf(z, j) := h], AddrOf(z, k)) == HandleOf(z, k + 1) {
      AddrUnique(z, j, k);
    }
    AddrUnique(z, j, j);
  }

  // -------------------------------------------------------------- the method

  /** Records in each page where its objects start, and threads the free list through all slots. */
  method InitZspage(z: Shape, index0: map<Pfn, nat>, links0: map<nat, Handle>)
    returns (index: map<Pfn, nat>, links: map<nat, Handle>)
    requires z.Ok() && ExactOnlyAtEnd(z.p, z.s, |z.pages|)
    ensures IndexedUpTo(z, index, |z.pages|) && Threaded(z, links, SlotCount(z)) && OthersKept(z, links0, links)
    ensures forall a :: a !in z.pages || a == z.pages[0] ==>
      (a in index <==> a in index0) && (a in index ==> index[a] == index0[a])
  {
    hide First, HandleOf, AddrOf, Threaded, OthersKept, ObjLocationToHandle;
    index, links := index0, links0;
    var off, q := 0, 0;
    StartOfAll(z, links0);
    while q < |z.pages|
      invariant q <= |z.pages| && (q < |z.pages| ==> off == StartIn(z.p, z.s, q) < z.p)
      invariant IndexedUpTo(z, index, q) && Threaded(z, links, First(z.p, z.s, q)) && OthersKept(z, links0, links)
      invariant forall a :: a !in z.pages || a == z.pages[0] ==>
        (a in index <==> a in index0) && (a in index ==> index[a] == index0[a])
    {
      var page := z.pages[q];
      if q != 0 {
        index := index[page := off];
      }
      ghost var links1 := links;
      off, links := InitPage(z, q, off, links);
      KeptTrans(z, links0, links1, links);
      q := q + 1;
    }
  }

  /** Byte n * s behind byte off. */
  function Pos(off: nat, n: nat, s: nat): nat { off + n * s }

  /** Whole objects between byte off and the end of a page. */
  function ObjsFrom(p: nat, off: nat, s: nat): nat
    requires off <= p && s > 0
  {
    (p - off) / s
  }

  function NextOff(p: nat, off: nat, s: nat): nat
    requires p > 0
  {
    (off + s) % p
  }

  /** The links in one page. */
  method InitPage(z: Shape, q: nat, off0: nat, links0: map<nat, Handle>) returns (off: nat, links: map<nat, Handle>)
    requires z.Ok() && ExactOnlyAtEnd(z.p, z.s, |z.pages|) && q < |z.pages| && off0 == StartIn(z.p, z.s, q) < z.p
    requires Threaded(z, links0, First(z.p, z.s, q))
    ensures Threaded(z, links, First(z.p, z.s, q + 1)) && OthersKept(z, links0, links)
    ensures q + 1 < |z.pages| ==> off == StartIn(z.p, z.s, q + 1) < z.p
  {
    hide First, HandleOf, AddrOf, Threaded, OthersKept, ObjLocationToHandle, StartIn, Cursor, Pos, ObjsFrom, NextOff,
      ExactOnlyAtEnd;
    off, links := off0, links0;
    ghost var f := First(z.p, z.s, q);
    WordsOf(z, q);
    var link: nat := off / ZS_ALIGN;
    var objsOnPage := ObjsFrom(z.p, off, z.s);
    CursorStart(z, off0, objsOnPage);
    KeptRefl(z, links0);
    var i := 1;
    ghost var c: nat := 0;
    while i <= objsOnPage
      invariant 1 <= i <= objsOnPage + 1 && Cursor(z, off0, objsOnPage, i, off, c, link)
      invariant Threaded(z, links, f + c) && OthersKept(z, links0, links)
    {
      CursorStep(z, off0, objsOnPage, i, off, c, link);
      off := off + z.s;
      if off < z.p {
        links := StoreLink(z, q, c, link, ObjLocationToHandle(z.pages[q], i), links0, links);
        link := link + z.s / ZS_ALIGN;
        c := c + 1;
      }
      i := i + 1;
    }
    CursorEnd(z, off0, objsOnPage, i, off, c, link);
    PageDone(z, q, off0, objsOnPage, off, c);
    var nextPage := if q + 1 < |z.pages| then z.pages[q + 1] else 0;
    NextHandle(z, q, f + c, nextPage);
    links := StoreLink(z, q, c, link, ObjLocationToHandle(nextPage, 0), links0, links);
    off := NextOff(z.p, off, z.s);
  }

  /** The state of the loop over the objects of a page: the link of the c-th is next. */
  ghost predicate Cursor(z: Shape, off0: nat, objs: nat, i: nat, off: nat, c: nat, link: nat) {
    && 1 <= i <= objs + 1 && off == Pos(off0, i - 1, z.s) <= z.p
    && Pos(off0, objs, z.s) <= z.p < Pos(off0, objs, z.s) + z.s
    && c + (if off < z.p then 1 else 2) == i && link * ZS_ALIGN == Pos(off0, c, z.s) < z.p
  }

  lemma PosNext(off: nat, n: nat, s: nat)
    ensures Pos(off, n + 1, s) == Pos(off, n, s) + s && Pos(off, 0, s) == off
  {
  }

  lemma PosMono(off: nat, m: nat, n: nat, s: nat)
    requires m <= n
    ensures Pos(off, m, s) <= Pos(off, n, s)
  {
    MulMono(m, n, s);
  }

  lemma ObjsFacts(p: nat, off: nat, s: nat)
    requires off <= p && s > 0
    ensures Pos(off, ObjsFrom(p, off, s), s) <= p < Pos(off, ObjsFrom(p, off, s), s) + s
  {
    DivBounds(p - off, s);
  }

  lemma CursorStart(z: Shape, off0: nat, objs: nat)
    requires z.Ok() && off0 < z.p && off0 % ZS_ALIGN == 0 && objs == ObjsFrom(z.p, off0, z.s)
    ensures Cursor(z, off0, objs, 1, off0, 0, off0 / ZS_ALIGN)
  {
    hide Pos, ObjsFrom;
    ObjsFacts(z.p, off0, z.s);
    PosNext(off0, 0, z.s);
  }

  lemma CursorStep(z: Shape, off0: nat, objs: nat, i: nat, off: nat, c: nat, link: nat)
    requires z.Ok() && i <= objs && Cursor(z, off0, objs, i, off, c, link)
    ensures link * ZS_ALIGN == Pos(off0, c, z.s) < z.p
    ensures off + z.s < z.p ==>
      c + 1 == i && Pos(off0, c + 1, z.s) < z.p && Cursor(z, off0, objs, i + 1, off + z.s, c + 1, link + z.s / ZS_ALIGN)
    ensures off + z.s >= z.p ==> Cursor(z, off0, objs, i + 1, off + z.s, c, link)
  {
    hide Pos;
    PosNext(off0, i - 1, z.s);
    PosNext(off0, c, z.s);
    PosMono(off0, i, objs, z.s);
    WholeWords(z);
  }

  lemma WholeWords(z: Shape)
    requires z.Ok()
    ensures z.s / ZS_ALIGN * ZS_ALIGN == z.s
  {
  }

  lemma CursorEnd(z: Shape, off0: nat, objs: nat, i: nat, off: nat, c: nat, link: nat)
    requires z.Ok() && i == objs + 1 && Cursor(z, off0, objs, i, off, c, link)
    ensures link * ZS_ALIGN == Pos(off0, c, z.s) < z.p && off == Pos(off0, objs, z.s) <= z.p < off + z.s
    ensures if off < z.p then c == objs else c + 1 == objs
  {
    hide Pos;
  }

  /** The link of the c-th slot of page q. */
  method StoreLink(z: Shape, q: nat, ghost c: nat, link: nat, h: Handle, ghost links0: map<nat, Handle>,
      links1: map<nat, Handle>)
    returns (links: map<nat, Handle>)
    requires z.Ok() && q < |z.pages| && link * ZS_ALIGN == Pos(StartIn(z.p, z.s, q), c, z.s) < z.p
    requires Threaded(z, links1, First(z.p, z.s, q) + c) && OthersKept(z, links0, links1)
    requires h == HandleOf(z, First(z.p, z.s, q) + c + 1)
      || (Pos(StartIn(z.p, z.s, q), c + 1, z.s) < z.p && h == ObjLocationToHandle(z.pages[q], c + 1))
    ensures Threaded(z, links, First(z.p, z.s, q) + c + 1) && OthersKept(z, links0, links)
  {
    hide First, HandleOf, AddrOf, Threaded, OthersKept, ObjLocationToHandle, StartIn, Pos;
    PosIs(StartIn(z.p, z.s, q), c, z.s);
    PosIs(StartIn(z.p, z.s, q), c + 1, z.s);
    SlotAt(z, q, c);
    if Pos(StartIn(z.p, z.s, q), c + 1, z.s) < z.p { SlotAt(z, q, c + 1); }
    ThreadNext(z, links1, First(z.p, z.s, q) + c, h);
    links := links1[z.pages[q] * z.p + ZS_ALIGN * link := h];
    KeptTrans(z, links0, links1, links);
  }

  lemma PosIs(off: nat, n: nat, s: nat)
    ensures Pos(off, n, s) == off + n * s
  {
  }

  lemma StartOfAll(z: Shape, links: map<nat, Handle>)
    requires z.Ok()
    ensures StartIn(z.p, z.s, 0) == 0 && First(z.p, z.s, 0) == 0 && Threaded(z, links, 0) && OthersKept(z, links, links)
    ensures First(z.p, z.s, |z.pages|) == SlotCount(z)
  {
    FirstIs(z.p, z.s, 0, 0);
  }

  lemma KeptRefl(z: Shape, links: map<nat, Handle>)
    requires z.Ok()
    ensures OthersKept(z, links, links)
  {
  }

  lemma KeptTrans(z: Shape, l0: map<nat, Handle>, l1: map<nat, Handle>, l2: map<nat, Handle>)
    requires z.Ok() && OthersKept(z, l0, l1) && OthersKept(z, l1, l2)
    ensures OthersKept(z, l0, l2)
  {
    forall a: nat | a / z.p !in z.pages ensures LinkAt(l2, a) == LinkAt(l0, a) {
      assert LinkAt(l1, a) == LinkAt(l0, a);
    }
  }

  /** Objects start at whole words. */
  lemma WordsOf(z: Shape, q: nat)
    requires z.Ok()
    ensures StartIn(z.p, z.s, q) % ZS_ALIGN == 0
  {
    hide First;
    FirstFacts(z.p, z.s, q);
    var f, a, b := First(z.p, z.s, q), z.s / 8, z.p / 8;
    assert z.s == 8 * a && z.p == 8 * b;
    assert f * z.s - q * z.p == 8 * (f * a - q * b) by { Words(f, a, q, b); }
  }

  lemma Words(f: nat, a: nat, q: nat, b: nat)
    ensures f * (8 * a) - q * (8 * b) == 8 * (f * a - q * b)
  {
  }

  /** At the end of a page: either the last slot crosses into the next page, or the page, then
      the last one, is filled exactly. */
  lemma PageDone(z: Shape, q: nat, off0: nat, objs: nat, off: nat, c: nat)
    requires z.Ok() && ExactOnlyAtEnd(z.p, z.s, |z.pages|) && q < |z.pages| && off0 == StartIn(z.p, z.s, q) < z.p
    requires off == Pos(off0, objs, z.s) <= z.p < off + z.s
    requires if off < z.p then c == objs else c + 1 == objs
    ensures First(z.p, z.s, q + 1) == First(z.p, z.s, q) + c + 1
    ensures q + 1 < |z.pages| ==> NextOff(z.p, off, z.s) == StartIn(z.p, z.s, q + 1) < z.p
  {
    hide First, NextOff, ExactOnlyAtEnd;
    FirstFacts(z.p, z.s, q);
    var f := First(z.p, z.s, q);
    Spread(f, objs, z.s);
    NextProduct(q, z.p);
    if off < z.p {
      NextProduct(f + objs, z.s);
      FirstIs(z.p, z.s, q + 1, f + objs + 1);
      WrapOnce(z.p, off, z.s);
    } else {
      FirstIs(z.p, z.s, q + 1, f + objs);
      EvenFit(z, q + 1, f + objs);
    }
  }

  lemma NextProduct(q: nat, p: nat)
    ensures (q + 1) * p == q * p + p
  {
  }

  lemma WrapOnce(p: nat, off: nat, s: nat)
    requires off < p < off + s && s <= p
    ensures NextOff(p, off, s) == off + s - p
  {
    DivUnique(off + s, p, 1);
  }

  /** A page boundary between whole objects can only be the end of the zspage. */
  lemma EvenFit(z: Shape, q: nat, j: nat)
    requires z.Ok() && ExactOnlyAtEnd(z.p, z.s, |z.pages|) && q >= 1 && q * z.p == j * z.s
    ensures q >= |z.pages|
  {
    MultipleMod(j, z.s);
    assert q * z.p % z.s == 0;
  }

  lemma Spread(f: nat, n: nat, s: nat)
    ensures (f + n) * s == f * s + n * s
  {
  }

  lemma NextHandle(z: Shape, q: nat, j: nat, nextPage: Pfn)
    requires z.Ok() && q < |z.pages| && First(z.p, z.s, q + 1) == j + 1
    requires nextPage == if q + 1 < |z.pages| then z.pages[q + 1] else 0
    requires q + 1 < |z.pages| ==> StartIn(z.p, z.s, q + 1) < z.p
    ensures HandleOf(z, j + 1) == ObjLocationToHandle(nextPage, 0)
  {
    hide First;
    if q + 1 < |z.pages| { SlotAt(z, q + 1, 0); }
  }

  /** Why the choice of the number of pages matters: after an exact fit the recurrence for the
      start of the next page would skip a whole object. */
  lemma ExactFitWouldSkip(p: nat, s: nat, q: nat)
    requires InRange(p, s) && s < p && q >= 1 && q * p % s == 0
    ensures StartIn(p, s, q) == 0 && NextOff(p, p, s) == s
  {
    assert q * p == q * p / s * s;
    FirstIs(p, s, q, q * p / s);
    DivUnique(p + s, p, 1);
  }
}
