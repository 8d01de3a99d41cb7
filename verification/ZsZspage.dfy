/** zsmalloc: one zspage, its free list and its bookkeeping. */
module ZsZspage {
  import opened Bits
  import opened ZsLayout
  import opened ZsInit

  const PAGE_SIZE: nat := 4096
  const ZS_MAX_ALLOC_SIZE: nat := PAGE_SIZE
  const ZS_SIZE_CLASS_DELTA: nat := 16
  const ZS_SIZE_CLASSES: nat := (ZS_MAX_ALLOC_SIZE - ZS_MIN_ALLOC_SIZE) / ZS_SIZE_CLASS_DELTA + 1
  const FULLNESS_THRESHOLD_FRAC: nat := 4
  const POISON_INUSE: nat := 0x5a5a_5a5a_5a5a_5a5a

  datatype Fullness = AlmostFull | AlmostEmpty | Empty | Full

  /** What the kernel keeps for each page of a zspage. */
  datatype PageInfo = PageInfo(first: bool, firstPage: Pfn, index: nat, freelist: Handle, inuse: nat, objects: nat,
                               classIdx: nat, fullness: Fullness)

  function SizeOfClass(i: nat): nat { ZS_MIN_ALLOC_SIZE + i * ZS_SIZE_CLASS_DELTA }

  function GetSizeClassIndex(size: nat): nat {
    if size > ZS_MIN_ALLOC_SIZE then (size - ZS_MIN_ALLOC_SIZE + ZS_SIZE_CLASS_DELTA - 1) / ZS_SIZE_CLASS_DELTA else 0
  }

  /** The class of a request is the smallest that is large enough. */
  lemma ClassFits(size: nat)
    requires 1 <= size <= ZS_MAX_ALLOC_SIZE
    ensures var i := GetSizeClassIndex(size);
      i < ZS_SIZE_CLASSES && size <= SizeOfClass(i) <= ZS_MAX_ALLOC_SIZE && (i > 0 ==> SizeOfClass(i - 1) < size)
  {
  }

  lemma ClassInRange(i: nat)
    requires i < ZS_SIZE_CLASSES
    ensures InRange(PAGE_SIZE, SizeOfClass(i))
  {
    assert SizeOfClass(i) == 8 * (4 + 2 * i);
  }

  function GetFullnessGroup(inuse: nat, objects: nat): Fullness {
    if inuse == 0 then Empty
    else if inuse == objects then Full
    else if inuse <= objects / FULLNESS_THRESHOLD_FRAC then AlmostEmpty
    else AlmostFull
  }

  // ------------------------------------------------------------ one zspage

  /** Ghost view: the class, the pages, the slots on the free list in order, the objects in use. */
  datatype Zspage = Zspage(cls: nat, pages: seq<Pfn>, free: seq<nat>, used: set<nat>)

  function ShapeOf(z: Zspage): Shape { Shape(z.pages, PAGE_SIZE, SizeOfClass(z.cls)) }

  /** The free list is the objects not in use, followed by the slot cut off by the end, if any. */
  ghost predicate FreeOk(n: nat, m: nat, free: seq<nat>, used: set<nat>) {
    && (forall i :: 0 <= i < |free| ==> free[i] < m)
    && (forall i, k :: 0 <= i < k < |free| ==> free[i] != free[k])
    && (forall j {:trigger j in used} :: j in used ==> j < n)
    && (forall j: nat {:trigger j in free} {:trigger j in used} :: j < m ==> (j in free <==> j !in used))
    && |free| + |used| == m && n <= m <= n + 1 && (m == n + 1 ==> |free| > 0 && free[|free| - 1] == n)
  }

  function HandleAt(z: Zspage, i: nat): Handle
    requires ShapeOf(z).Ok()
  {
    if i < |z.free| then HandleOf(ShapeOf(z), z.free[i]) else 0
  }

  ghost predicate Linked(z: Zspage, links: map<nat, Handle>)
    requires ShapeOf(z).Ok()
  {
    forall i: nat {:trigger z.free[i]} :: i < |z.free| ==>
      z.free[i] < SlotCount(ShapeOf(z)) && LinkAt(links, AddrOf(ShapeOf(z), z.free[i])) == HandleAt(z, i + 1)
  }

  /** The pages of a zspage know their head and where their objects start. */
  ghost predicate PagesOk(z: Zspage, info: map<Pfn, PageInfo>)
    requires ShapeOf(z).Ok()
  {
    forall q: nat {:trigger z.pages[q]} :: q < |z.pages| ==>
      && z.pages[q] in info && (info[z.pages[q]].first <==> q == 0)
      && (q > 0 ==>
        info[z.pages[q]].firstPage == z.pages[0] && info[z.pages[q]].index == StartIn(PAGE_SIZE, SizeOfClass(z.cls), q))
  }

  ghost predicate ZspageOk(z: Zspage, info: map<Pfn, PageInfo>, links: map<nat, Handle>) {
    && z.cls < ZS_SIZE_CLASSES && ShapeOf(z).Ok() && ExactOnlyAtEnd(PAGE_SIZE, SizeOfClass(z.cls), |z.pages|)
    && PagesOk(z, info) && Linked(z, links) && FreeOk(ObjectCount(ShapeOf(z)), SlotCount(ShapeOf(z)), z.free, z.used)
    && info[z.pages[0]].freelist == HandleAt(z, 0) && info[z.pages[0]].inuse == |z.used|
    && info[z.pages[0]].objects == ObjectCount(ShapeOf(z)) && info[z.pages[0]].classIdx == z.cls
  }

  /** The first slot of a zspage that is not full is a whole object. */
  lemma FirstFree(n: nat, m: nat, free: seq<nat>, used: set<nat>)
    requires FreeOk(n, m, free, used) && |used| < n
    ensures |free| > 0 && free[0] < n && free[0] !in used
  {
    assert free[0] in free;
  }

  lemma TakeFree(n: nat, m: nat, free: seq<nat>, used: set<nat>)
    requires FreeOk(n, m, free, used) && |used| < n && |free| > 0
    ensures FreeOk(n, m, free[1..], used + {free[0]}) && |used + {free[0]}| == |used| + 1
  {
    FirstFree(n, m, free, used);
    var j0 := free[0];
    forall j: nat | j < m ensures j in free[1..] <==> j !in used + {j0} {
      assert j in free <==> j !in used;
      if j in free && j != j0 { var i :| 0 <= i < |free| && free[i] == j; assert free[1..][i - 1] == j; }
    }
  }

  lemma PutFree(n: nat, m: nat, free: seq<nat>, used: set<nat>, j0: nat)
    requires FreeOk(n, m, free, used) && j0 in used
    ensures FreeOk(n, m, [j0] + free, used - {j0}) && |used - {j0}| == |used| - 1
  {
    forall j: nat | j < m ensures j in [j0] + free <==> j !in used - {j0} {
      assert j in free <==> j !in used;
    }
  }

  /** A zspage sees only its own pages. */
  lemma ZspageFrame(z: Zspage, info: map<Pfn, PageInfo>, links: map<nat, Handle>, info': map<Pfn, PageInfo>,
      links': map<nat, Handle>)
    requires ZspageOk(z, info, links)
    requires forall p :: p in z.pages ==> p in info' && info'[p] == info[p]
    requires forall a: nat {:trigger LinkAt(links', a)} :: a / PAGE_SIZE in z.pages ==>
      LinkAt(links', a) == LinkAt(links, a)
    ensures ZspageOk(z, info', links')
  {
    hide SlotCount, ObjectCount, HandleOf, AddrOf, FreeOk, ExactOnlyAtEnd, SizeOfClass;
    forall i: nat | i < |z.free| ensures z.free[i] < SlotCount(ShapeOf(z))
      && LinkAt(links', AddrOf(ShapeOf(z), z.free[i])) == HandleAt(z, i + 1)
    {
      assert z.free[i] < SlotCount(ShapeOf(z));
      AddrUnique(ShapeOf(z), z.free[i], z.free[i]);
    }
  }

  // ------------------------------------------------ finding and using slots

  function ObjIdxToOffset(page: PageInfo, objIdx: nat, classSize: nat): nat {
    (if page.first then 0 else page.index) + objIdx * classSize
  }

  /** The handle of a slot leads back to the slot. */
  lemma HandleLocates(z: Zspage, info: map<Pfn, PageInfo>, j: nat)
    requires ShapeOf(z).Ok() && z.cls < ZS_SIZE_CLASSES && PagesOk(z, info) && j < SlotCount(ShapeOf(z))
    ensures var (page, i) := ObjHandleToLocation(HandleOf(ShapeOf(z), j));
      && page in z.pages && page in info && page == z.pages[PageOfSlot(ShapeOf(z), j)]
      && var off := ObjIdxToOffset(info[page], i, SizeOfClass(z.cls));
        off % ZS_ALIGN == 0 && page * PAGE_SIZE + off == AddrOf(ShapeOf(z), j) && off < PAGE_SIZE
  {
    hide HandleOf, ObjHandleToLocation, SlotCount, First, SizeOfClass, StartIn, AddrOf, PageOf, IndexOfSlot;
    var sh := ShapeOf(z);
    HandleUnique(sh, j, j);
    OffsetOfSlot(sh, j);
    StartOfAll(sh, map[]);
    assert z.pages[PageOfSlot(sh, j)] in info;
  }

  lemma OffsetOfSlot(sh: Shape, j: nat)
    requires sh.Ok() && j < SlotCount(sh)
    ensures var off := StartIn(sh.p, sh.s, PageOfSlot(sh, j)) + IndexOfSlot(sh, j) * sh.s;
      off % ZS_ALIGN == 0 && sh.pages[PageOfSlot(sh, j)] * sh.p + off == AddrOf(sh, j) && off < sh.p
  {
    hide SlotCount, First, StartIn, PageOf, AddrOf, HandleOf, ObjLocationToHandle;
    var q, i := PageOfSlot(sh, j), IndexOfSlot(sh, j);
    BelowPage(sh, j);
    SlotAt(sh, q, i);
    WordsOf(sh, q);
    EightTimes(i, sh.s);
    SumAligned(StartIn(sh.p, sh.s, q), i * sh.s);
  }

  lemma BelowPage(sh: Shape, j: nat)
    requires sh.Ok() && j < SlotCount(sh)
    ensures StartIn(sh.p, sh.s, PageOfSlot(sh, j)) + IndexOfSlot(sh, j) * sh.s < sh.p
    ensures j == First(sh.p, sh.s, PageOfSlot(sh, j)) + IndexOfSlot(sh, j)
  {
    hide First, StartIn, PageOf;
    Located(sh.p, sh.s, j);
  }

  lemma SumAligned(a: nat, b: nat)
    requires a % 8 == 0 && b % 8 == 0
    ensures (a + b) % 8 == 0
  {
  }

  lemma EightTimes(i: nat, s: nat)
    requires s % 8 == 0
    ensures i * s % 8 == 0
  {
    assert s == 8 * (s / 8);
    assert i * s == 8 * (i * (s / 8)) by { Regroup(i, 8, s / 8); }
  }

  /** The first slot of the free list is handed out. */
  lemma TakeOk(z: Zspage, info: map<Pfn, PageInfo>, links: map<nat, Handle>)
    requires ZspageOk(z, info, links) && |z.used| < ObjectCount(ShapeOf(z))
    ensures |z.free| > 0 && z.free[0] < ObjectCount(ShapeOf(z)) && z.free[0] !in z.used
      && z.free[0] < SlotCount(ShapeOf(z))
    ensures info[z.pages[0]].freelist == HandleOf(ShapeOf(z), z.free[0]) != 0
    ensures var f, a := z.pages[0], AddrOf(ShapeOf(z), z.free[0]);
      var z', info' := Zspage(z.cls, z.pages, z.free[1..], z.used + {z.free[0]}),
                       info[f := info[f].(freelist := LinkAt(links, a), inuse := info[f].inuse + 1)];
      ZspageOk(z', info', links[a := POISON_INUSE]) && a / PAGE_SIZE in z.pages
  {
    hide SlotCount, ObjectCount, HandleOf, AddrOf, FreeOk, ExactOnlyAtEnd, SizeOfClass;
    var sh := ShapeOf(z);
    SlotsAtLeast(sh);
    FirstFree(ObjectCount(sh), SlotCount(sh), z.free, z.used);
    TakeFree(ObjectCount(sh), SlotCount(sh), z.free, z.used);
    var j := z.free[0];
    HandleUnique(sh, j, j);
    AddrUnique(sh, j, j);
    TakeLinks(z, links);
  }

  lemma SlotsAtLeast(sh: Shape)
    requires sh.Ok()
    ensures ObjectCount(sh) <= SlotCount(sh)
  {
    SlotsAre(sh.p, sh.s, |sh.pages|);
  }

  lemma TakeLinks(z: Zspage, links: map<nat, Handle>)
    requires ShapeOf(z).Ok() && Linked(z, links) && |z.free| > 0 && z.free[0] < SlotCount(ShapeOf(z))
    requires forall i, k :: 0 <= i < k < |z.free| ==> z.free[i] != z.free[k]
    ensures Linked(Zspage(z.cls, z.pages, z.free[1..], z.used + {z.free[0]}),
      links[AddrOf(ShapeOf(z), z.free[0]) := POISON_INUSE])
    ensures LinkAt(links, AddrOf(ShapeOf(z), z.free[0]))
      == HandleAt(Zspage(z.cls, z.pages, z.free[1..], z.used + {z.free[0]}), 0)
  {
    hide SlotCount, HandleOf, AddrOf, SizeOfClass;
    var sh := ShapeOf(z);
    var z' := Zspage(z.cls, z.pages, z.free[1..], z.used + {z.free[0]});
    assert ShapeOf(z') == sh;
    forall i: nat | i < |z'.free|
      ensures z'.free[i] < SlotCount(sh)
      ensures LinkAt(links[AddrOf(sh, z.free[0]) := POISON_INUSE], AddrOf(sh, z'.free[i])) == HandleAt(z', i + 1)
    {
      assert z'.free[i] == z.free[i + 1];
      AddrUnique(sh, z.free[0], z.free[i + 1]);
    }
  }

  /** An object comes back and is put at the head of the free list. */
  lemma PutOk(z: Zspage, info: map<Pfn, PageInfo>, links: map<nat, Handle>, j: nat)
    requires ZspageOk(z, info, links) && j in z.used
    ensures j < SlotCount(ShapeOf(z))
    ensures var f, a := z.pages[0], AddrOf(ShapeOf(z), j);
      info[f].inuse > 0 &&
      var z', info' := Zspage(z.cls, z.pages, [j] + z.free, z.used - {j}),
                       info[f := info[f].(freelist := HandleOf(ShapeOf(z), j), inuse := info[f].inuse - 1)];
      ZspageOk(z', info', links[a := info[f].freelist]) && a / PAGE_SIZE in z.pages
  {
    hide ObjectCount, HandleOf, AddrOf, SizeOfClass, ExactOnlyAtEnd, Linked, SlotCount;
    var sh := ShapeOf(z);
    SlotsAtLeast(sh);
    PutFree(ObjectCount(sh), SlotCount(sh), z.free, z.used, j);
    AddrUnique(sh, j, j);
    PutLinks(z, links, j, info[z.pages[0]].freelist);
  }

  lemma PutLinks(z: Zspage, links: map<nat, Handle>, j: nat, head: Handle)
    requires ShapeOf(z).Ok() && Linked(z, links) && j < SlotCount(ShapeOf(z)) && j !in z.free && head == HandleAt(z, 0)
    ensures Linked(Zspage(z.cls, z.pages, [j] + z.free, z.used - {j}), links[AddrOf(ShapeOf(z), j) := head])
  {
    hide SlotCount, HandleOf, AddrOf, SizeOfClass;
    var sh := ShapeOf(z);
    var z' := Zspage(z.cls, z.pages, [j] + z.free, z.used - {j});
    assert ShapeOf(z') == sh;
    forall i: nat | i < |z'.free|
      ensures z'.free[i] < SlotCount(sh)
      ensures LinkAt(links[AddrOf(sh, j) := head], AddrOf(sh, z'.free[i])) == HandleAt(z', i + 1)
    {
      if i > 0 {
        assert z'.free[i] == z.free[i - 1];
        AddrUnique(sh, j, z.free[i - 1]);
      }
    }
  }

  // ------------------------------------------------------------- new zspages

  /** A zspage as InitZspage leaves it, with its head filled in. */
  lemma NewOk(cls: nat, pages: seq<Pfn>, info: map<Pfn, PageInfo>, links: map<nat, Handle>, index: map<Pfn, nat>)
    requires var sh := Shape(pages, PAGE_SIZE, SizeOfClass(cls));
      && cls < ZS_SIZE_CLASSES && sh.Ok() && ExactOnlyAtEnd(PAGE_SIZE, SizeOfClass(cls), |pages|)
      && Threaded(sh, links, SlotCount(sh)) && IndexedUpTo(sh, index, |pages|)
      && (forall q: nat {:trigger pages[q]} :: q < |pages| ==> pages[q] in info && (info[pages[q]].first <==> q == 0))
      && (forall q: nat {:trigger pages[q]} :: 1 <= q < |pages| ==>
            info[pages[q]].firstPage == pages[0] && pages[q] in index && info[pages[q]].index == index[pages[q]])
      && info[pages[0]].freelist == HandleOf(sh, 0) && info[pages[0]].inuse == 0
      && info[pages[0]].objects == ObjectCount(sh) && info[pages[0]].classIdx == cls
    ensures ZspageOk(Zspage(cls, pages, seq(SlotCount(Shape(pages, PAGE_SIZE, SizeOfClass(cls))), i => i), {}), info,
      links)
  {
    hide ObjectCount, SlotCount, HandleOf, AddrOf, SizeOfClass, ExactOnlyAtEnd;
    var sh := Shape(pages, PAGE_SIZE, SizeOfClass(cls));
    var m := SlotCount(sh);
    var z := Zspage(cls, pages, seq(m, i => i), {});
    assert ShapeOf(z) == sh;
    NewFree(sh);
    forall i: nat | i < |z.free| ensures z.free[i] < m && LinkAt(links, AddrOf(sh, z.free[i])) == HandleAt(z, i + 1) {
      assert z.free[i] == i;
      if i + 1 >= m { NoHandle(sh, i + 1); }
    }
  }

  lemma NoHandle(sh: Shape, j: nat)
    requires sh.Ok() && j >= SlotCount(sh)
    ensures HandleOf(sh, j) == 0
  {
  }

  lemma NewFree(sh: Shape)
    requires sh.Ok()
    ensures FreeOk(ObjectCount(sh), SlotCount(sh), seq(SlotCount(sh), i => i), {}) && SlotCount(sh) > 0
  {
    SlotsAre(sh.p, sh.s, |sh.pages|);
    var m := SlotCount(sh);
    var free: seq<nat> := seq(m, i => i);
    forall j: nat | j < m ensures j in free { assert free[j] == j; }
    StartOfAll(sh, map[]);
    SlotAt(sh, 0, 0);
  }
}
