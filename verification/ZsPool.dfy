/** The zsmalloc pool: zspages of all classes, their fullness lists, allocation and release. */
module ZsPool {
  import opened Bits
  import opened ZsLayout
  import opened ZsInit
  import opened ZsZspage

  // --------------------------------------------------------- the whole pool

  /** Every zspage is in order and its pages are its own. */
  ghost predicate Entry(zs: map<Pfn, Zspage>, home: map<Pfn, Pfn>, info: map<Pfn, PageInfo>, links: map<nat, Handle>,
      f: Pfn)
    requires f in zs
  {
    ZspageOk(zs[f], info, links) && zs[f].pages[0] == f && forall p {:trigger p in zs[f].pages} :: p in zs[f].pages ==>
      p in home && home[p] == f
  }

  ghost predicate ZspagesOk(zs: map<Pfn, Zspage>, home: map<Pfn, Pfn>, info: map<Pfn, PageInfo>,
      links: map<nat, Handle>) {
    && (forall f {:trigger Entry(zs, home, info, links, f)} :: f in zs ==> Entry(zs, home, info, links, f))
    && (forall p {:trigger p in home} :: p in home ==> home[p] in zs && p in zs[home[p]].pages)
  }

  function GroupIndex(fg: Fullness): nat {
    match fg
    case AlmostFull => 0
    case AlmostEmpty => 1
    case _ => 2
  }

  ghost predicate InGroup(lists: seq<seq<seq<Pfn>>>, cls: nat, f: Pfn, fg: Fullness)
    requires cls < |lists| && |lists[cls]| == 2
  {
    && (f in lists[cls][0] <==> fg == AlmostFull) && (f in lists[cls][1] <==> fg == AlmostEmpty)
  }

  ghost predicate ListOk(l: seq<Pfn>, zs: map<Pfn, Zspage>, cls: nat) {
    && (forall i, k :: 0 <= i < k < |l| ==> l[i] != l[k])
    && (forall f {:trigger f in l} :: f in l ==> f in zs && zs[f].cls == cls)
  }

  /** Each zspage is in exactly the list of its class that its recorded fullness names. */
  ghost predicate ListsOk(lists: seq<seq<seq<Pfn>>>, zs: map<Pfn, Zspage>, info: map<Pfn, PageInfo>) {
    && |lists| == ZS_SIZE_CLASSES && (forall c {:trigger lists[c]} :: 0 <= c < |lists| ==> |lists[c]| == 2)
    && (forall c: nat, g: nat {:trigger ListOk(lists[c][g], zs, c)} :: c < |lists| && g < 2 ==>
      ListOk(lists[c][g], zs, c))
    && (forall f {:trigger f in zs} :: f in zs ==>
      f in info && zs[f].cls < |lists| && InGroup(lists, zs[f].cls, f, info[f].fullness))
  }

  function Group(z: Zspage): Fullness
    requires ShapeOf(z).Ok()
  {
    GetFullnessGroup(|z.used|, ObjectCount(ShapeOf(z)))
  }

  /** The recorded fullness is the real one, except perhaps for zspage `but`. */
  ghost predicate Settled(zs: map<Pfn, Zspage>, info: map<Pfn, PageInfo>, but: Pfn) {
    forall f {:trigger f in zs} :: f in zs && f != but ==>
      f in info && ShapeOf(zs[f]).Ok() && info[f].fullness == Group(zs[f]) && zs[f].used != {}
  }

  ghost predicate HandleIs(z: Zspage, j: nat, h: Handle) {
    ShapeOf(z).Ok() && j in z.used && h == HandleOf(ShapeOf(z), j)
  }

  /** h is the handle of an object in use. */
  ghost predicate LiveHandle(zs: map<Pfn, Zspage>, h: Handle) {
    exists f, j: nat :: f in zs && HandleIs(zs[f], j, h)
  }

  /** A handle determines the zspage and the object. */
  lemma HandleDetermines(zs: map<Pfn, Zspage>, home: map<Pfn, Pfn>, info: map<Pfn, PageInfo>, links: map<nat, Handle>,
                         f: Pfn, j: nat, g: Pfn, k: nat)
    requires ZspagesOk(zs, home, info, links) && f in zs && g in zs && ShapeOf(zs[f]).Ok() && ShapeOf(zs[g]).Ok()
    requires j < SlotCount(ShapeOf(zs[f])) && k < SlotCount(ShapeOf(zs[g]))
      && HandleOf(ShapeOf(zs[f]), j) == HandleOf(ShapeOf(zs[g]), k)
    ensures f == g && j == k
  {
    hide SlotCount, HandleOf, Linked, FreeOk, PagesOk, ObjectCount, ExactOnlyAtEnd, ObjHandleToLocation;
    assert Entry(zs, home, info, links, f) && Entry(zs, home, info, links, g);
    HandleUnique(ShapeOf(zs[f]), j, j);
    HandleUnique(ShapeOf(zs[g]), k, k);
    assert zs[f].pages[PageOfSlot(ShapeOf(zs[f]), j)] in zs[f].pages
      && zs[g].pages[PageOfSlot(ShapeOf(zs[g]), k)] in zs[g].pages;
  }

  /** A change within the pages of one zspage. */
  lemma OneZspageChanges(zs: map<Pfn, Zspage>, home: map<Pfn, Pfn>, info: map<Pfn, PageInfo>, links: map<nat, Handle>,
      f: Pfn, z': Zspage,
                         info': map<Pfn, PageInfo>, links': map<nat, Handle>)
    requires ZspagesOk(zs, home, info, links) && f in zs && z'.pages == zs[f].pages && ZspageOk(z', info', links')
    requires forall p :: p in info && p != f ==> p in info' && info'[p] == info[p]
    requires forall a: nat {:trigger LinkAt(links', a)} :: a / PAGE_SIZE !in zs[f].pages ==>
      LinkAt(links', a) == LinkAt(links, a)
    ensures ZspagesOk(zs[f := z'], home, info', links')
  {
    hide ZspageOk;
    var zs' := zs[f := z'];
    assert Entry(zs, home, info, links, f);
    forall g | g in zs' ensures Entry(zs', home, info', links', g) {
      assert Entry(zs, home, info, links, g);
      if g != f {
        PagesHaveInfo(zs[g], info, links);
        PagesHaveInfo(zs[f], info, links);
        assert f in zs[f].pages;
        ZspageFrame(zs[g], info, links, info', links');
      }
    }
  }

  lemma PagesHaveInfo(z: Zspage, info: map<Pfn, PageInfo>, links: map<nat, Handle>)
    requires ZspageOk(z, info, links)
    ensures forall p :: p in z.pages ==> p in info
    ensures |z.pages| > 0 && ShapeOf(z).Ok() && z.cls < ZS_SIZE_CLASSES && info[z.pages[0]].inuse == |z.used|
      && info[z.pages[0]].objects == ObjectCount(ShapeOf(z))
    ensures info[z.pages[0]].classIdx == z.cls
  {
    forall p | p in z.pages ensures p in info { var q: nat :| q < |z.pages| && z.pages[q] == p; }
  }

  // ------------------------------------------------------------ list moves

  function Removed(l: seq<Pfn>, f: Pfn): seq<Pfn> {
    if l == [] then [] else if l[0] == f then l[1..] else [l[0]] + Removed(l[1..], f)
  }

  lemma {:induction false} RemovedMembers(l: seq<Pfn>, f: Pfn)
    requires forall i, k :: 0 <= i < k < |l| ==> l[i] != l[k]
    ensures forall g :: g in Removed(l, f) <==> g in l && g != f
    ensures forall i, k :: 0 <= i < k < |Removed(l, f)| ==> Removed(l, f)[i] != Removed(l, f)[k]
  {
    if l != [] {
      RemovedMembers(l[1..], f);
      if l[0] == f {
        assert forall g :: g in l[1..] ==> g != f;
        assert forall g :: g in l && g != f ==> g in l[1..];
      } else {
        assert l[0] !in l[1..];
      }
    }
  }

  class Pool {
    var info: map<Pfn, PageInfo>
    var links: map<nat, Handle>
    var lists: seq<seq<seq<Pfn>>>
    var orders: seq<nat>
    ghost var zs: map<Pfn, Zspage>
    ghost var home: map<Pfn, Pfn>

    ghost predicate OrdersOk()
      reads this
    {
      |orders| == ZS_SIZE_CLASSES && forall c {:trigger orders[c]} :: 0 <= c < |orders| ==>
        1 <= orders[c] <= MAX_ZSPAGE_ORDER && ExactOnlyAtEnd(PAGE_SIZE, SizeOfClass(c), orders[c])
    }

    ghost predicate Valid()
      reads this
    {
      OrdersOk() && ZspagesOk(zs, home, info, links) && ListsOk(lists, zs, info) && Settled(zs, info, 0) && 0 !in zs
    }

    method InsertZspage(page: Pfn, cls: nat, fg: Fullness)
      requires cls < |lists| && |lists[cls]| == 2
      modifies `lists
      ensures lists == if GroupIndex(fg) >= 2 then old(lists)
                       else old(lists)[cls :=
                         old(lists)[cls][GroupIndex(fg) := [page] + old(lists)[cls][GroupIndex(fg)]]]
    {
      var g := GroupIndex(fg);
      if g >= 2 { return; }
      lists := lists[cls := lists[cls][g := [page] + lists[cls][g]]];
    }

    method RemoveZspage(page: Pfn, cls: nat, fg: Fullness)
      requires cls < |lists| && |lists[cls]| == 2 && (GroupIndex(fg) < 2 ==> page in lists[cls][GroupIndex(fg)])
      modifies `lists
      ensures lists == if GroupIndex(fg) >= 2 then old(lists)
                       else old(lists)[cls :=
                         old(lists)[cls][GroupIndex(fg) := Removed(old(lists)[cls][GroupIndex(fg)], page)]]
    {
      var g := GroupIndex(fg);
      if g >= 2 { return; }
      var l := lists[cls][g];
      assert |l| == 1 ==> l[0] == page && l[1..] == [];
      if |l| == 1 {
        l := [];
      } else if l[0] == page {
        l := l[1..];
      } else {
        l := Removed(l, page);
      }
      lists := lists[cls := lists[cls][g := l]];
    }

    /** Moves a zspage to the list that its fullness now asks for. */
    method FixFullnessGroup(page: Pfn) returns (newfg: Fullness)
      requires page in zs && page in info && ListsOk(lists, zs, info) && info[page].classIdx == zs[page].cls
      modifies `lists, `info
      ensures newfg == GetFullnessGroup(old(info)[page].inuse, old(info)[page].objects)
      ensures info == old(info)[page := old(info)[page].(fullness := newfg)] && ListsOk(lists, zs, info)
    {
      var currfg := info[page].fullness;
      newfg := GetFullnessGroup(info[page].inuse, info[page].objects);
      if newfg == currfg { return; }
      var cls := info[page].classIdx;
      ghost var lists0 := lists;
      GroupFacts(lists, zs, info, page);
      RemoveZspage(page, cls, currfg);
      InsertZspage(page, cls, newfg);
      Moved(lists0, zs, info, page, newfg, lists);
      info := info[page := info[page].(fullness := newfg)];
    }

    /** The head of the first non-empty list of the class, 0 if there is none. */
    method FindGetZspage(cls: nat) returns (page: Pfn)
      requires cls < |lists| && Valid()
      ensures page == 0 <==> lists[cls][0] == [] && lists[cls][1] == []
      ensures page != 0 ==> page in zs && zs[page].cls == cls && Available(zs[page])
      ensures page != 0 ==> page == lists[cls][if lists[cls][0] != [] then 0 else 1][0]
    {
      hide ZspagesOk;
      var i := 0;
      page := 0;
      while i < 2
        invariant i <= 2 && page == 0 && forall g :: 0 <= g < i ==> lists[cls][g] == []
      {
        if lists[cls][i] != [] {
          page := lists[cls][i][0];
          HeadAvailable(lists, zs, home, info, links, cls, i);
          return;
        }
        i := i + 1;
      }
    }

    /** A new zspage from the pages that the page allocator hands out, all or none of them. */
    method AllocZspage(cls: nat, got: seq<Pfn>)
      requires Valid() && cls < ZS_SIZE_CLASSES && FreshPages(got, orders[cls], home)
      modifies `info, `links, `zs, `home
      ensures got[0] != 0 && got[0] !in old(zs)
      ensures OrdersOk() && ZspagesOk(zs, home, info, links) && ListsOk(lists, zs, info) && Settled(zs, info, got[0])
        && 0 !in zs
      ensures got[0] in zs && zs == old(zs)[got[0] := zs[got[0]]] && zs[got[0]].cls == cls && zs[got[0]].used == {}
      ensures Available(zs[got[0]])
    {
      hide ZspagesOk, ListsOk, Settled, SizeOfClass, Threaded, OthersKept, IndexedUpTo, SlotCount, ObjectCount,
        ZspageOk, Available, HandleOf,
        ExactOnlyAtEnd, WithHome, FreeOk;
      ClassInRange(cls);
      var first := got[0];
      var sh := Shape(got, PAGE_SIZE, SizeOfClass(cls));
      ghost var info0, links0 := info, links;
      var index, links' := InitZspage(sh, map[], links);
      links := links';
      info := SetUp(cls, got, index, info);
      ghost var z := Zspage(cls, got, seq(SlotCount(sh), i => i), {});
      NewOk(cls, got, info, links, index);
      NewFree(sh);
      NewEmpty(z);
      Added(zs, home, info0, links0, first, z, info, links);
      AddedLists(lists, zs, info0, home, links0, first, z, info);
      zs, home := zs[first := z], WithHome(home, got, first);
    }

    method SetUp(cls: nat, got: seq<Pfn>, index: map<Pfn, nat>, info0: map<Pfn, PageInfo>)
      returns (info: map<Pfn, PageInfo>)
      requires Shape(got, PAGE_SIZE, SizeOfClass(cls)).Ok()
        && IndexedUpTo(Shape(got, PAGE_SIZE, SizeOfClass(cls)), index, |got|)
      ensures forall p :: p !in got ==> (p in info <==> p in info0) && (p in info ==> info[p] == info0[p])
      ensures forall q: nat {:trigger got[q]} :: q < |got| ==> got[q] in info && (info[got[q]].first <==> q == 0)
      ensures forall q: nat {:trigger got[q]} :: 1 <= q < |got| ==>
        info[got[q]].firstPage == got[0] && got[q] in index && info[got[q]].index == index[got[q]]
      ensures got[0] in info && info[got[0]]
        == PageInfo(true, got[0], 0, HandleOf(Shape(got, PAGE_SIZE, SizeOfClass(cls)), 0), 0,
        ObjectCount(Shape(got, PAGE_SIZE, SizeOfClass(cls))), cls, Empty)
    {
      hide SizeOfClass, ObjLocationToHandle, SlotCount;
      info := info0;
      var q := 1;
      while q < |got|
        invariant 1 <= q <= |got|
        invariant forall p :: p !in got ==> (p in info <==> p in info0) && (p in info ==> info[p] == info0[p])
        invariant forall r: nat {:trigger got[r]} :: 1 <= r < q ==>
          got[r] in info && !info[got[r]].first && info[got[r]].firstPage == got[0] && got[r] in index
            && info[got[r]].index == index[got[r]]
      {
        info := info[got[q] := PageInfo(false, got[0], index[got[q]], 0, 0, 0, 0, Empty)];
        q := q + 1;
      }
      FirstHandle(Shape(got, PAGE_SIZE, SizeOfClass(cls)));
      info := info[got[0] :=
        PageInfo(true, got[0], 0, ObjLocationToHandle(got[0], 0), 0, |got| * PAGE_SIZE / SizeOfClass(cls), cls, Empty)];
    }

    constructor ()
      ensures Valid() && zs == map[]
    {
      info, links := map[], map[];
      lists := seq(ZS_SIZE_CLASSES, _ => [[], []]);
      orders := [];
      zs, home := map[], map[];
      new;
      var i := 0;
      while i < ZS_SIZE_CLASSES
        invariant i <= ZS_SIZE_CLASSES && |orders| == i
        invariant forall c {:trigger orders[c]} :: 0 <= c < i ==>
          1 <= orders[c] <= MAX_ZSPAGE_ORDER && ExactOnlyAtEnd(PAGE_SIZE, SizeOfClass(c), orders[c])
        invariant info == map[] && links == map[] && zs == map[] && home == map[]
          && lists == seq(ZS_SIZE_CLASSES, _ => [[], []])
      {
        ClassInRange(i);
        var order := GetZspageOrder(PAGE_SIZE, SizeOfClass(i));
        orders := orders + [order];
        i := i + 1;
      }
    }

    /** `got` is what the page allocator hands out for a new zspage: all of its pages, or none. */
    method Malloc(size: nat, got: seq<Pfn>) returns (obj: Handle, ghost page: Pfn)
      requires Valid() && (got != [] && 1 <= size <= ZS_MAX_ALLOC_SIZE ==>
        FreshPages(got, orders[GetSizeClassIndex(size)], home))
      modifies `info, `links, `lists, `zs, `home
      ensures Valid()
      ensures obj == 0 <==>
        size == 0 || size > ZS_MAX_ALLOC_SIZE || (old(lists)[GetSizeClassIndex(size)] == [[], []] && got == [])
      ensures obj == 0 <==>
        size == 0 || size > ZS_MAX_ALLOC_SIZE || (got == [] && !SomeRoom(old(zs), GetSizeClassIndex(size)))
      ensures obj == 0 ==> zs == old(zs)
      ensures obj != 0 ==> Serves(old(zs), GetSizeClassIndex(size), page, got) && HoldsHandle(zs, page, obj)
      ensures obj != 0 ==> !old(LiveHandle(zs, obj)) && WholeObject(zs, obj, GetSizeClassIndex(size))
      ensures obj != 0 ==> forall h :: LiveHandle(zs, h) <==> old(LiveHandle(zs, h)) || h == obj
    {
      hide ZspagesOk, ListsOk, Settled, SizeOfClass, FreshPages, LiveHandle, WholeObject;
      if size == 0 || size > ZS_MAX_ALLOC_SIZE { return 0, 0; }
      ClassFits(size);
      var cls := GetSizeClassIndex(size);
      ListShape(lists, zs, info, cls);
      ghost var zs0 := zs;
      var firstPage := GetZspage(cls, got);
      if firstPage == 0 { return 0, 0; }
      ghost var zs1 := zs;
      page := firstPage;
      obj := Take(firstPage);
      NewHandle(zs0, zs1, zs, obj);
    }

    /** A zspage with room, a new one if need be. */
    method GetZspage(cls: nat, got: seq<Pfn>) returns (firstPage: Pfn)
      requires Valid() && cls < ZS_SIZE_CLASSES && cls < |lists| && |lists[cls]| == 2
        && (got != [] ==> FreshPages(got, orders[cls], home))
      modifies `info, `links, `zs, `home
      ensures firstPage == 0 <==> lists[cls][0] == [] && lists[cls][1] == [] && got == []
      ensures firstPage == 0 ==> Valid() && zs == old(zs)
      ensures firstPage != 0 ==>
        OrdersOk() && ZspagesOk(zs, home, info, links) && ListsOk(lists, zs, info) && Settled(zs, info, firstPage)
        && 0 !in zs
      ensures firstPage != 0 ==> firstPage in zs && Available(zs[firstPage]) && zs[firstPage].cls == cls
      ensures forall h :: LiveHandle(zs, h) <==> old(LiveHandle(zs, h))
      ensures firstPage == 0 <==> got == [] && !SomeRoom(old(zs), cls)
      ensures firstPage != 0 ==> Serves(old(zs), cls, firstPage, got)
    {
      hide ZspagesOk, ListsOk, SizeOfClass, FreshPages, LiveHandle, Settled, SomeRoom, Available, OverQuarter,
        OnlyQuarters;
      ghost var zs0 := zs;
      Preferred(lists, zs, home, info, links, cls, got);
      firstPage := FindGetZspage(cls);
      if firstPage == 0 {
        if got == [] { return 0; }
        AllocZspage(cls, got);
        firstPage := got[0];
        SameLive(zs0, zs, firstPage);
      }
    }

    /** Hands out the first object on the free list of a zspage. */
    method Take(firstPage: Pfn) returns (obj: Handle)
      requires OrdersOk() && ZspagesOk(zs, home, info, links) && ListsOk(lists, zs, info)
        && Settled(zs, info, firstPage) && 0 !in zs
      requires firstPage in zs && Available(zs[firstPage])
      modifies `info, `links, `lists, `zs
      ensures Valid() && obj != 0 && !LiveHandle(old(zs), obj) && WholeObject(zs, obj, old(zs)[firstPage].cls)
      ensures HoldsHandle(zs, firstPage, obj)
      ensures forall h :: LiveHandle(zs, h) <==> LiveHandle(old(zs), h) || h == obj
    {
      hide ZspagesOk, ListsOk, Settled, SizeOfClass, ZspageOk, HandleOf, AddrOf, ObjectCount, SlotCount, LiveHandle,
        ObjHandleToLocation, WholeObject, HoldsHandle,
        PagesOk;
      ghost var z, zs0, info0, links0 := zs[firstPage], zs, info, links;
      ZspageAt(zs, home, info, links, firstPage);
      TakeOk(z, info, links);
      ghost var j := z.free[0];
      HandleLocates(z, info, j);
      obj := info[firstPage].freelist;
      var (mPage, mObjIdx) := ObjHandleToLocation(obj);
      var mOffset := ObjIdxToOffset(info[mPage], mObjIdx, SizeOfClass(info[firstPage].classIdx));
      var link := mPage * PAGE_SIZE + mOffset / ZS_ALIGN * ZS_ALIGN;
      info := info[firstPage := info[firstPage].(freelist := LinkAt(links, link))];
      links := links[link := POISON_INUSE];
      info := info[firstPage := info[firstPage].(inuse := info[firstPage].inuse + 1)];
      assert info == info0[firstPage :=
        info0[firstPage].(freelist := LinkAt(links0, link), inuse := info0[firstPage].inuse + 1)];
      zs := zs[firstPage := Zspage(z.cls, z.pages, z.free[1..], z.used + {j})];
      OneZspageChanges(zs0, home, info0, links0, firstPage, zs[firstPage], info, links);
      TakenLive(zs0, home, info0, links0, firstPage, j, zs, obj);
      Fix(firstPage, zs0, info0);
    }

    method Fix(firstPage: Pfn, ghost zs0: map<Pfn, Zspage>, ghost info0: map<Pfn, PageInfo>)
      requires OrdersOk() && ZspagesOk(zs, home, info, links) && ListsOk(lists, zs0, info0)
        && Settled(zs0, info0, firstPage) && 0 !in zs
      requires firstPage in zs0 && firstPage in zs && zs == zs0[firstPage := zs[firstPage]]
        && zs[firstPage].cls == zs0[firstPage].cls
      requires firstPage in info0 && firstPage in info && info == info0[firstPage := info[firstPage]]
      requires info[firstPage].fullness == info0[firstPage].fullness && zs[firstPage].used != {}
      modifies `info, `lists
      ensures Valid()
    {
      hide ZspagesOk, ListsOk, Settled;
      ListsSame(lists, zs0, info0, firstPage, zs, info);
      ZspageAt(zs, home, info, links, firstPage);
      ghost var info1 := info;
      var fg := FixFullnessGroup(firstPage);
      FullnessOnly(zs, home, info1, links, firstPage, info);
      NowSettled(zs0, info0, firstPage, zs, info, home, links);
    }

    /** Puts an object back.  A zspage none of whose objects is in use goes back whole. */
    method Free(obj: Handle)
      requires Valid() && (obj != 0 ==> LiveHandle(zs, obj))
      modifies `info, `links, `lists, `zs, `home
      ensures Valid()
      ensures obj == 0 ==> zs == old(zs) && home == old(home)
      ensures obj != 0 ==> forall h :: LiveHandle(zs, h) <==> old(LiveHandle(zs, h)) && h != obj
      ensures forall p :: p in home <==> p in old(home) && old(home)[p] in zs
    {
      hide ZspagesOk, ListsOk, Settled, SizeOfClass, ZspageOk, HandleOf, AddrOf, ObjectCount, SlotCount,
        ObjHandleToLocation, PagesOk, LiveHandle;
      HomeIs(zs, home, info, links);
      if obj == 0 { return; }
      ghost var f, j := FindLive(zs, obj);
      ghost var z, zs0, info0, links0 := zs[f], zs, info, links;
      ZspageAt(zs, home, info, links, f);
      UsedSlot(zs, home, info, links, f, j);
      PutOk(z, info, links, j);
      HandleLocates(z, info, j);
      var (fPage, fObjIdx) := ObjHandleToLocation(obj);
      FirstPageOf(z, info, fPage);
      var firstPage := if info[fPage].first then fPage else info[fPage].firstPage;
      var fOffset := ObjIdxToOffset(info[fPage], fObjIdx, SizeOfClass(info[firstPage].classIdx));
      links := links[fPage * PAGE_SIZE + fOffset := info[firstPage].freelist];
      info := info[firstPage := info[firstPage].(freelist := obj)];
      info := info[firstPage := info[firstPage].(inuse := info[firstPage].inuse - 1)];
      assert info == info0[f := info0[f].(freelist := obj, inuse := info0[f].inuse - 1)];
      zs := zs[f := Zspage(z.cls, z.pages, [j] + z.free, z.used - {j})];
      OneZspageChanges(zs0, home, info0, links0, f, zs[f], info, links);
      PutLive(zs0, home, info0, links0, f, j, zs, obj);
      HomeIs(zs, home, info, links);
      Conclude(firstPage, zs0, info0);
    }

    /** The list moves at the end of a release, and the release of the zspage if it is empty. */
    method Conclude(firstPage: Pfn, ghost zs0: map<Pfn, Zspage>, ghost info0: map<Pfn, PageInfo>)
      requires OrdersOk() && ZspagesOk(zs, home, info, links) && ListsOk(lists, zs0, info0) && Settled(zs0, info0, 0)
        && 0 !in zs
      requires firstPage in zs0 && firstPage in zs && zs == zs0[firstPage := zs[firstPage]]
        && zs[firstPage].cls == zs0[firstPage].cls
      requires firstPage in info0 && firstPage in info && info == info0[firstPage := info[firstPage]]
      requires info[firstPage].fullness == info0[firstPage].fullness
      requires forall p :: p in home ==> home[p] in zs
      modifies `info, `lists, `zs, `home
      ensures Valid() && forall h :: LiveHandle(zs, h) <==> LiveHandle(old(zs), h)
      ensures forall p :: p in home <==> p in old(home) && old(home)[p] in zs
    {
      hide ZspagesOk, ListsOk, Settled, LiveHandle;
      SettledMore(zs0, info0, firstPage);
      ListsSame(lists, zs0, info0, firstPage, zs, info);
      ZspageAt(zs, home, info, links, firstPage);
      ghost var info1 := info;
      var fg := FixFullnessGroup(firstPage);
      FullnessOnly(zs, home, info1, links, firstPage, info);
      if fg == Empty {
        FreeZspage(firstPage, zs0, info0);
      } else {
        NowSettled(zs0, info0, firstPage, zs, info, home, links);
      }
    }

    method FreeZspage(firstPage: Pfn, ghost zs0: map<Pfn, Zspage>, ghost info0: map<Pfn, PageInfo>)
      requires OrdersOk() && ZspagesOk(zs, home, info, links) && ListsOk(lists, zs, info)
        && Settled(zs0, info0, firstPage) && 0 !in zs
      requires firstPage in zs && firstPage in info && info[firstPage].fullness == Empty && zs[firstPage].used == {}
      requires zs == zs0[firstPage := zs[firstPage]] && info == info0[firstPage := info[firstPage]]
      requires forall p :: p in home ==> home[p] in zs
      modifies `info, `zs, `home
      ensures Valid() && forall h :: LiveHandle(zs, h) <==> LiveHandle(old(zs), h)
      ensures zs == old(zs) - {firstPage} && forall p :: p in home <==> p in old(home) && old(home)[p] in zs
    {
      hide ZspagesOk, ListsOk, Settled, LiveHandle;
      ghost var pages := zs[firstPage].pages;
      Dropped(zs, home, info, links, firstPage);
      DroppedLists(lists, zs, home, info, links, firstPage, zs0, info0);
      SameLive(zs - {firstPage}, zs, firstPage);
      info := info - {firstPage};
      zs, home := zs - {firstPage}, WithoutHome(home, pages);
    }
  }

  lemma NewEmpty(z: Zspage)
    requires ShapeOf(z).Ok() && z.used == {}
    ensures Available(z)
  {
    var sh := ShapeOf(z);
    MulMono(1, |sh.pages|, sh.p);
    DivBounds(|sh.pages| * sh.p, sh.s);
  }

  /** Some object of the zspage is not in use. */
  ghost predicate Available(z: Zspage) { ShapeOf(z).Ok() && |z.used| < ObjectCount(ShapeOf(z)) }

  ghost predicate Roomy(zs: map<Pfn, Zspage>, cls: nat, f: Pfn) { f in zs && zs[f].cls == cls && Available(zs[f]) }

  ghost predicate SomeRoom(zs: map<Pfn, Zspage>, cls: nat) { exists f :: Roomy(zs, cls, f) }

  ghost predicate OverQuarter(z: Zspage)
    requires ShapeOf(z).Ok()
  {
    4 * |z.used| > ObjectCount(ShapeOf(z))
  }

  /** The zspage that serves a request: one with room, of those with more than a quarter in use if
      there is any, and a new one only if all are full. */
  ghost predicate Serves(zs: map<Pfn, Zspage>, cls: nat, f: Pfn, got: seq<Pfn>) {
    if SomeRoom(zs, cls) then Roomy(zs, cls, f) && (OverQuarter(zs[f]) || OnlyQuarters(zs, cls))
    else f !in zs && got != [] && f == got[0]
  }

  ghost predicate OnlyQuarters(zs: map<Pfn, Zspage>, cls: nat) {
    forall g :: Roomy(zs, cls, g) ==> !OverQuarter(zs[g])
  }

  ghost predicate HoldsHandle(zs: map<Pfn, Zspage>, f: Pfn, h: Handle) {
    f in zs && exists j: nat :: HandleIs(zs[f], j, h)
  }

  /** Where a zspage with room is to be found. */
  lemma RoomyListed(lists: seq<seq<seq<Pfn>>>, zs: map<Pfn, Zspage>, info: map<Pfn, PageInfo>, cls: nat, g: Pfn)
    requires ListsOk(lists, zs, info) && Settled(zs, info, 0) && 0 !in zs && Roomy(zs, cls, g)
    ensures cls < |lists| && |lists[cls]| == 2 && g in lists[cls][if OverQuarter(zs[g]) then 0 else 1]
  {
    hide ObjectCount;
    assert g in zs && InGroup(lists, cls, g, info[g].fullness);
  }

  /** The heads of the lists in turn are what serves. */
  lemma Preferred(lists: seq<seq<seq<Pfn>>>, zs: map<Pfn, Zspage>, home: map<Pfn, Pfn>, info: map<Pfn, PageInfo>,
      links: map<nat, Handle>, cls: nat, got: seq<Pfn>)
    requires ListsOk(lists, zs, info) && Settled(zs, info, 0) && 0 !in zs && ZspagesOk(zs, home, info, links)
    requires cls < |lists| && |lists[cls]| == 2
    ensures SomeRoom(zs, cls) <==> lists[cls][0] != [] || lists[cls][1] != []
    ensures SomeRoom(zs, cls) ==> Serves(zs, cls, lists[cls][if lists[cls][0] != [] then 0 else 1][0], got)
    ensures forall f: Pfn :: Settled(zs, info, f)
  {
    hide ZspagesOk, ListsOk, OverQuarter, ObjectCount;
    forall g | Roomy(zs, cls, g) ensures g in lists[cls][if OverQuarter(zs[g]) then 0 else 1] {
      RoomyListed(lists, zs, info, cls, g);
    }
    if lists[cls][0] != [] {
      HeadAvailable(lists, zs, home, info, links, cls, 0);
      FirstListed(lists, zs, info, cls, lists[cls][0][0]);
    } else if lists[cls][1] != [] {
      HeadAvailable(lists, zs, home, info, links, cls, 1);
      assert Roomy(zs, cls, lists[cls][1][0]);
    }
  }

  lemma FirstListed(lists: seq<seq<seq<Pfn>>>, zs: map<Pfn, Zspage>, info: map<Pfn, PageInfo>, cls: nat, g: Pfn)
    requires ListsOk(lists, zs, info) && Settled(zs, info, 0) && 0 !in zs && cls < |lists| && |lists[cls]| == 2
    requires g in lists[cls][0] && g in zs && zs[g].cls == cls && Available(zs[g])
    ensures OverQuarter(zs[g]) && Roomy(zs, cls, g)
  {
    hide ObjectCount;
    assert InGroup(lists, cls, g, info[g].fullness);
  }

  ghost predicate FreshPages(got: seq<Pfn>, order: nat, home: map<Pfn, Pfn>) {
    && |got| == order > 0 && (forall p :: p in got ==> p > 0 && p !in home)
    && forall q, r :: 0 <= q < r < |got| ==> got[q] != got[r]
  }

  lemma FirstHandle(sh: Shape)
    requires sh.Ok()
    ensures HandleOf(sh, 0) == ObjLocationToHandle(sh.pages[0], 0)
  {
    StartOfAll(sh, map[]);
    SlotAt(sh, 0, 0);
  }

  lemma HeadAvailable(lists: seq<seq<seq<Pfn>>>, zs: map<Pfn, Zspage>, home: map<Pfn, Pfn>, info: map<Pfn, PageInfo>,
      links: map<nat, Handle>,
                      cls: nat, g: nat)
    requires ListsOk(lists, zs, info) && Settled(zs, info, 0) && 0 !in zs && cls < |lists| && g < 2
      && lists[cls][g] != []
    requires ZspagesOk(zs, home, info, links)
    ensures var f := lists[cls][g][0]; f != 0 && f in zs && zs[f].cls == cls && Available(zs[f])
  {
    hide ObjectCount, ZspageOk;
    var f := lists[cls][g][0];
    assert ListOk(lists[cls][g], zs, cls) && f in lists[cls][g];
    assert InGroup(lists, zs[f].cls, f, info[f].fullness);
    assert Entry(zs, home, info, links, f);
    UsedAtMost(zs[f], info, links);
  }

  lemma UsedAtMost(z: Zspage, info: map<Pfn, PageInfo>, links: map<nat, Handle>)
    requires ZspageOk(z, info, links)
    ensures |z.used| <= ObjectCount(ShapeOf(z))
  {
    hide ObjectCount, SlotCount, Linked, PagesOk;
    BelowCount(z.used, ObjectCount(ShapeOf(z)));
  }

  lemma {:induction false} BelowCount(used: set<nat>, n: nat)
    requires forall j :: j in used ==> j < n
    ensures |used| <= n
    decreases n
  {
    if n > 0 {
      BelowCount(used - {n - 1}, n - 1);
      if n - 1 in used { assert |used| == |used - {n - 1}| + 1; } else { assert used - {n - 1} == used; }
    } else {
      assert used == {};
    }
  }

  function WithHome(home: map<Pfn, Pfn>, pages: seq<Pfn>, f: Pfn): map<Pfn, Pfn> {
    map p | p in home.Keys + (set q | q in pages) :: if p in pages then f else home[p]
  }

  function WithoutHome(home: map<Pfn, Pfn>, pages: seq<Pfn>): map<Pfn, Pfn> {
    map p | p in home && p !in pages :: home[p]
  }

  lemma HeadIsPage(zs: map<Pfn, Zspage>, home: map<Pfn, Pfn>, info: map<Pfn, PageInfo>, links: map<nat, Handle>, f: Pfn)
    requires ZspagesOk(zs, home, info, links) && f in zs
    ensures f in zs[f].pages && f in home && home[f] == f
  {
    hide ZspageOk;
    assert Entry(zs, home, info, links, f);
    PagesHaveInfo(zs[f], info, links);
    assert zs[f].pages[0] in zs[f].pages;
  }

  /** A new zspage in pages that nobody had. */
  lemma Added(zs: map<Pfn, Zspage>, home: map<Pfn, Pfn>, info: map<Pfn, PageInfo>, links: map<nat, Handle>, f: Pfn,
      z: Zspage,
              info': map<Pfn, PageInfo>, links': map<nat, Handle>)
    requires ZspagesOk(zs, home, info, links) && ZspageOk(z, info', links') && f == z.pages[0]
      && FreshPages(z.pages, |z.pages|, home)
    requires forall p :: p !in z.pages ==> (p in info' <==> p in info) && (p in info' ==> info'[p] == info[p])
    requires OthersKept(ShapeOf(z), links, links')
    ensures f !in zs
    ensures ZspagesOk(zs[f := z], WithHome(home, z.pages, f), info', links')
  {
    hide ZspageOk;
    var zs', home' := zs[f := z], WithHome(home, z.pages, f);
    if f in zs { HeadIsPage(zs, home, info, links, f); }
    forall g | g in zs' ensures Entry(zs', home', info', links', g) {
      if g != f {
        assert Entry(zs, home, info, links, g);
        PagesHaveInfo(zs[g], info, links);
        ZspageFrame(zs[g], info, links, info', links');
      }
    }
  }

  lemma AddedLists(lists: seq<seq<seq<Pfn>>>, zs: map<Pfn, Zspage>, info: map<Pfn, PageInfo>, home: map<Pfn, Pfn>,
      links: map<nat, Handle>,
                   f: Pfn, z: Zspage, info': map<Pfn, PageInfo>)
    requires ListsOk(lists, zs, info) && Settled(zs, info, 0) && 0 !in zs && f !in zs && f != 0
      && z.cls < ZS_SIZE_CLASSES
    requires f in info' && info'[f].fullness == Empty && ZspagesOk(zs, home, info, links)
      && FreshPages(z.pages, |z.pages|, home)
    requires forall p :: p !in z.pages ==> (p in info' <==> p in info) && (p in info' ==> info'[p] == info[p])
    ensures ListsOk(lists, zs[f := z], info') && Settled(zs[f := z], info', f)
  {
    hide ZspageOk, ObjectCount;
    var zs' := zs[f := z];
    forall g | g in zs ensures g in info' && info'[g] == info[g] {
      assert Entry(zs, home, info, links, g);
      PagesHaveInfo(zs[g], info, links);
      assert g in zs[g].pages;
    }
    forall c: nat, g: nat | c < |lists| && g < 2 ensures ListOk(lists[c][g], zs', c) {
      assert ListOk(lists[c][g], zs, c);
    }
    forall h | h in zs' ensures h in info' && zs'[h].cls < |lists| && InGroup(lists, zs'[h].cls, h, info'[h].fullness) {
      if h == f {
        assert ListOk(lists[z.cls][0], zs, z.cls) && ListOk(lists[z.cls][1], zs, z.cls);
      } else {
        assert InGroup(lists, zs[h].cls, h, info[h].fullness);
      }
    }
  }

  lemma GroupFacts(lists: seq<seq<seq<Pfn>>>, zs: map<Pfn, Zspage>, info: map<Pfn, PageInfo>, f: Pfn)
    requires ListsOk(lists, zs, info) && f in zs && f in info
    ensures zs[f].cls < |lists| && |lists[zs[f].cls]| == 2
    ensures GroupIndex(info[f].fullness) < 2 ==> f in lists[zs[f].cls][GroupIndex(info[f].fullness)]
  {
  }

  function RemovedFrom(lists: seq<seq<seq<Pfn>>>, cls: nat, g: nat, f: Pfn): seq<seq<seq<Pfn>>>
    requires cls < |lists| && |lists[cls]| == 2
  {
    if g >= 2 then lists else lists[cls := lists[cls][g := Removed(lists[cls][g], f)]]
  }

  function InsertedIn(lists: seq<seq<seq<Pfn>>>, cls: nat, g: nat, f: Pfn): seq<seq<seq<Pfn>>>
    requires cls < |lists| && |lists[cls]| == 2
  {
    if g >= 2 then lists else lists[cls := lists[cls][g := [f] + lists[cls][g]]]
  }

  lemma Moved(lists: seq<seq<seq<Pfn>>>, zs: map<Pfn, Zspage>, info: map<Pfn, PageInfo>, f: Pfn, fg: Fullness,
      lists': seq<seq<seq<Pfn>>>)
    requires ListsOk(lists, zs, info) && f in zs && f in info && info[f].fullness != fg
    requires lists' == InsertedIn(RemovedFrom(lists, zs[f].cls, GroupIndex(info[f].fullness), f), zs[f].cls,
      GroupIndex(fg), f)
    ensures ListsOk(lists', zs, info[f := info[f].(fullness := fg)])
  {
    var cls, info' := zs[f].cls, info[f := info[f].(fullness := fg)];
    assert ListOk(lists[cls][0], zs, cls) && ListOk(lists[cls][1], zs, cls);
    RemovedMembers(lists[cls][0], f);
    RemovedMembers(lists[cls][1], f);
    forall c: nat, g: nat | c < |lists'| && g < 2 ensures ListOk(lists'[c][g], zs, c) {
      assert ListOk(lists[c][g], zs, c);
    }
    forall h | h in zs ensures h in info' && zs[h].cls < |lists'| && InGroup(lists', zs[h].cls, h, info'[h].fullness) {
      assert InGroup(lists, zs[h].cls, h, info[h].fullness);
    }
  }

  /** h is a whole object of a zspage of the class. */
  ghost predicate WholeObject(zs: map<Pfn, Zspage>, h: Handle, cls: nat) {
    exists f, j: nat :: f in zs && zs[f].cls == cls && HandleIs(zs[f], j, h) && j < ObjectCount(ShapeOf(zs[f]))
  }

  lemma ListShape(lists: seq<seq<seq<Pfn>>>, zs: map<Pfn, Zspage>, info: map<Pfn, PageInfo>, cls: nat)
    requires ListsOk(lists, zs, info) && cls < ZS_SIZE_CLASSES
    ensures cls < |lists| && |lists[cls]| == 2
      && (lists[cls] == [[], []] <==> lists[cls][0] == [] && lists[cls][1] == [])
  {
  }

  lemma SameLive(zs0: map<Pfn, Zspage>, zs: map<Pfn, Zspage>, f: Pfn)
    requires f !in zs0 && f in zs && zs == zs0[f := zs[f]] && zs[f].used == {}
    ensures forall h :: LiveHandle(zs, h) <==> LiveHandle(zs0, h)
  {
    forall h ensures LiveHandle(zs, h) <==> LiveHandle(zs0, h) {
      if LiveHandle(zs, h) {
        var g, j: nat :| g in zs && HandleIs(zs[g], j, h);
        assert g in zs0 && HandleIs(zs0[g], j, h);
      }
      if LiveHandle(zs0, h) {
        var g, j: nat :| g in zs0 && HandleIs(zs0[g], j, h);
        assert g in zs && HandleIs(zs[g], j, h);
      }
    }
  }

  lemma NewHandle(zs0: map<Pfn, Zspage>, zs1: map<Pfn, Zspage>, zs: map<Pfn, Zspage>, obj: Handle)
    requires forall h :: LiveHandle(zs1, h) <==> LiveHandle(zs0, h)
    requires !LiveHandle(zs1, obj) && forall h :: LiveHandle(zs, h) <==> LiveHandle(zs1, h) || h == obj
    ensures !LiveHandle(zs0, obj) && forall h :: LiveHandle(zs, h) <==> LiveHandle(zs0, h) || h == obj
  {
    hide LiveHandle;
  }

  lemma ZspageAt(zs: map<Pfn, Zspage>, home: map<Pfn, Pfn>, info: map<Pfn, PageInfo>, links: map<nat, Handle>, f: Pfn)
    requires ZspagesOk(zs, home, info, links) && f in zs
    ensures ZspageOk(zs[f], info, links) && ShapeOf(zs[f]).Ok() && zs[f].pages[0] == f && f in info && f in zs[f].pages
    ensures info[f].classIdx == zs[f].cls < ZS_SIZE_CLASSES && PagesOk(zs[f], info)
    ensures info[f].inuse == |zs[f].used| && info[f].objects == ObjectCount(ShapeOf(zs[f]))
  {
    hide FreeOk, Linked, ObjectCount, SlotCount;
    assert Entry(zs, home, info, links, f);
    HeadIsPage(zs, home, info, links, f);
    PagesHaveInfo(zs[f], info, links);
  }

  /** One more handle is live, one that was not. */
  lemma TakenLive(zs: map<Pfn, Zspage>, home: map<Pfn, Pfn>, info: map<Pfn, PageInfo>, links: map<nat, Handle>, f: Pfn,
      j: nat,
                  zs': map<Pfn, Zspage>, obj: Handle)
    requires ZspagesOk(zs, home, info, links) && f in zs && ShapeOf(zs[f]).Ok() && j < ObjectCount(ShapeOf(zs[f]))
      && j !in zs[f].used
    requires j < SlotCount(ShapeOf(zs[f])) && obj == HandleOf(ShapeOf(zs[f]), j)
    requires f in zs' && zs' == zs[f := zs'[f]] && zs'[f].pages == zs[f].pages && zs'[f].cls == zs[f].cls
      && zs'[f].used == zs[f].used + {j}
    ensures !LiveHandle(zs, obj) && WholeObject(zs', obj, zs[f].cls) && HoldsHandle(zs', f, obj)
    ensures forall h :: LiveHandle(zs', h) <==> LiveHandle(zs, h) || h == obj
  {
    hide ZspagesOk, HandleOf, ObjectCount, SlotCount;
    if LiveHandle(zs, obj) {
      var g, k: nat :| g in zs && HandleIs(zs[g], k, obj);
      UsedSlot(zs, home, info, links, g, k);
      HandleDetermines(zs, home, info, links, f, j, g, k);
    }
    assert HandleIs(zs'[f], j, obj);
    forall h ensures LiveHandle(zs', h) <==> LiveHandle(zs, h) || h == obj {
      if LiveHandle(zs', h) {
        var g, k: nat :| g in zs' && HandleIs(zs'[g], k, h);
        if g != f || k != j { assert HandleIs(zs[g], k, h); }
      }
      if LiveHandle(zs, h) {
        var g, k: nat :| g in zs && HandleIs(zs[g], k, h);
        assert HandleIs(zs'[g], k, h);
      }
    }
  }

  lemma UsedSlot(zs: map<Pfn, Zspage>, home: map<Pfn, Pfn>, info: map<Pfn, PageInfo>, links: map<nat, Handle>, f: Pfn,
      j: nat)
    requires ZspagesOk(zs, home, info, links) && f in zs && j in zs[f].used
    ensures ShapeOf(zs[f]).Ok() && j < ObjectCount(ShapeOf(zs[f])) <= SlotCount(ShapeOf(zs[f]))
  {
    hide ObjectCount, SlotCount, Linked, PagesOk;
    assert Entry(zs, home, info, links, f);
    SlotsAtLeast(ShapeOf(zs[f]));
  }

  lemma ListsSame(lists: seq<seq<seq<Pfn>>>, zs: map<Pfn, Zspage>, info: map<Pfn, PageInfo>, f: Pfn,
      zs': map<Pfn, Zspage>, info': map<Pfn, PageInfo>)
    requires ListsOk(lists, zs, info) && f in zs && f in info && f in zs' && f in info'
    requires zs' == zs[f := zs'[f]] && zs'[f].cls == zs[f].cls && info' == info[f := info'[f]]
      && info'[f].fullness == info[f].fullness
    ensures ListsOk(lists, zs', info')
  {
    forall c: nat, g: nat | c < |lists| && g < 2 ensures ListOk(lists[c][g], zs', c) {
      assert ListOk(lists[c][g], zs, c);
    }
    forall h | h in zs' ensures h in info' && zs'[h].cls < |lists| && InGroup(lists, zs'[h].cls, h, info'[h].fullness) {
      assert InGroup(lists, zs[h].cls, h, info[h].fullness);
    }
  }

  /** The fullness of a head matters to no zspage but through the lists. */
  lemma FullnessOnly(zs: map<Pfn, Zspage>, home: map<Pfn, Pfn>, info: map<Pfn, PageInfo>, links: map<nat, Handle>,
      f: Pfn, info': map<Pfn, PageInfo>)
    requires ZspagesOk(zs, home, info, links) && f in zs && f in info && f in info'
      && info' == info[f := info[f].(fullness := info'[f].fullness)]
    ensures ZspagesOk(zs, home, info', links)
  {
    hide FreeOk, Linked, ObjectCount, SlotCount, HandleOf, ExactOnlyAtEnd;
    forall g | g in zs ensures Entry(zs, home, info', links, g) {
      assert Entry(zs, home, info, links, g);
      HeadIsPage(zs, home, info, links, g);
      HeadIsPage(zs, home, info, links, f);
    }
  }

  lemma NowSettled(zs0: map<Pfn, Zspage>, info0: map<Pfn, PageInfo>, f: Pfn, zs: map<Pfn, Zspage>,
      info: map<Pfn, PageInfo>, home: map<Pfn, Pfn>,
                   links: map<nat, Handle>)
    requires Settled(zs0, info0, f) && ZspagesOk(zs, home, info, links) && f in zs && f in info
      && zs == zs0[f := zs[f]] && 0 !in zs
    requires info == info0[f := info[f]] && zs[f].used != {}
    requires info[f].fullness == GetFullnessGroup(info[f].inuse, info[f].objects)
    ensures Settled(zs, info, 0)
  {
    hide ObjectCount, ZspageOk;
    ZspageAt(zs, home, info, links, f);
  }

  lemma HomeIs(zs: map<Pfn, Zspage>, home: map<Pfn, Pfn>, info: map<Pfn, PageInfo>, links: map<nat, Handle>)
    requires ZspagesOk(zs, home, info, links)
    ensures forall p :: p in home ==> home[p] in zs
  {
  }

  lemma FindLive(zs: map<Pfn, Zspage>, obj: Handle) returns (f: Pfn, j: nat)
    requires LiveHandle(zs, obj)
    ensures f in zs && HandleIs(zs[f], j, obj)
  {
    f, j :| f in zs && HandleIs(zs[f], j, obj);
  }

  lemma FirstPageOf(z: Zspage, info: map<Pfn, PageInfo>, p: Pfn)
    requires ShapeOf(z).Ok() && PagesOk(z, info) && p in z.pages
    ensures p in info && (if info[p].first then p else info[p].firstPage) == z.pages[0]
  {
    var q: nat :| q < |z.pages| && z.pages[q] == p;
  }

  /** One handle is live no more. */
  lemma PutLive(zs: map<Pfn, Zspage>, home: map<Pfn, Pfn>, info: map<Pfn, PageInfo>, links: map<nat, Handle>, f: Pfn,
      j: nat,
                zs': map<Pfn, Zspage>, obj: Handle)
    requires ZspagesOk(zs, home, info, links) && f in zs && HandleIs(zs[f], j, obj)
    requires f in zs' && zs' == zs[f := zs'[f]] && zs'[f].pages == zs[f].pages && zs'[f].cls == zs[f].cls
      && zs'[f].used == zs[f].used - {j}
    ensures forall h :: LiveHandle(zs', h) <==> LiveHandle(zs, h) && h != obj
  {
    hide ZspagesOk, HandleOf, SlotCount;
    UsedSlot(zs, home, info, links, f, j);
    forall h ensures LiveHandle(zs', h) <==> LiveHandle(zs, h) && h != obj {
      if LiveHandle(zs', h) {
        var g, k: nat :| g in zs' && HandleIs(zs'[g], k, h);
        assert HandleIs(zs[g], k, h);
        UsedSlot(zs, home, info, links, g, k);
        if h == obj { HandleDetermines(zs, home, info, links, f, j, g, k); }
      }
      if LiveHandle(zs, h) && h != obj {
        var g, k: nat :| g in zs && HandleIs(zs[g], k, h);
        assert HandleIs(zs'[g], k, h);
      }
    }
  }

  lemma SettledMore(zs: map<Pfn, Zspage>, info: map<Pfn, PageInfo>, f: Pfn)
    requires Settled(zs, info, 0)
    requires 0 !in zs
    ensures Settled(zs, info, f)
  {
  }

  lemma Dropped(zs: map<Pfn, Zspage>, home: map<Pfn, Pfn>, info: map<Pfn, PageInfo>, links: map<nat, Handle>, f: Pfn)
    requires ZspagesOk(zs, home, info, links) && f in zs
    ensures ZspagesOk(zs - {f}, WithoutHome(home, zs[f].pages), info - {f}, links)
    ensures forall p :: p in WithoutHome(home, zs[f].pages) <==> p in home && home[p] in zs - {f}
  {
    hide ZspageOk;
    var zs', home', info' := zs - {f}, WithoutHome(home, zs[f].pages), info - {f};
    assert Entry(zs, home, info, links, f);
    HeadIsPage(zs, home, info, links, f);
    forall g | g in zs' ensures Entry(zs', home', info', links, g) { DroppedEntry(zs, home, info, links, f, g); }
    forall p | p in home ensures p in zs[f].pages <==> home[p] == f { }
  }

  lemma DroppedEntry(zs: map<Pfn, Zspage>, home: map<Pfn, Pfn>, info: map<Pfn, PageInfo>, links: map<nat, Handle>,
      f: Pfn, g: Pfn)
    requires Entry0(zs, home, info, links, f) && g in zs && g != f && Entry(zs, home, info, links, g)
      && f in zs[f].pages
    ensures Entry(zs - {f}, WithoutHome(home, zs[f].pages), info - {f}, links, g)
  {
    hide ZspageOk;
    PagesHaveInfo(zs[g], info, links);
    ZspageFrame(zs[g], info, links, info - {f}, links);
  }

  ghost predicate Entry0(zs: map<Pfn, Zspage>, home: map<Pfn, Pfn>, info: map<Pfn, PageInfo>, links: map<nat, Handle>,
      f: Pfn) {
    f in zs && Entry(zs, home, info, links, f)
  }

  lemma DroppedLists(lists: seq<seq<seq<Pfn>>>, zs: map<Pfn, Zspage>, home: map<Pfn, Pfn>, info: map<Pfn, PageInfo>,
      links: map<nat, Handle>, f: Pfn,
                     zs0: map<Pfn, Zspage>, info0: map<Pfn, PageInfo>)
    requires ListsOk(lists, zs, info) && ZspagesOk(zs, home, info, links) && f in zs && f in info
      && info[f].fullness == Empty && 0 !in zs
    requires Settled(zs0, info0, f) && zs == zs0[f := zs[f]] && info == info0[f := info[f]]
    ensures ListsOk(lists, zs - {f}, info - {f}) && Settled(zs - {f}, info - {f}, 0)
  {
    hide ZspageOk, ObjectCount;
    var zs', info' := zs - {f}, info - {f};
    forall g | g in zs' ensures g !in zs[f].pages {
      HeadIsPage(zs, home, info, links, g);
      assert Entry(zs, home, info, links, f);
    }
    assert InGroup(lists, zs[f].cls, f, info[f].fullness);
    forall c: nat, g: nat | c < |lists| && g < 2 ensures ListOk(lists[c][g], zs', c) {
      assert ListOk(lists[c][g], zs, c);
      assert f !in lists[c][g];
    }
    forall h | h in zs' ensures h in info' && zs'[h].cls < |lists| && InGroup(lists, zs'[h].cls, h, info'[h].fullness) {
      assert InGroup(lists, zs[h].cls, h, info[h].fullness);
    }
  }

  /** What Valid says of a zspage: its free list and its place in the lists. */
  lemma PoolInvariant(lists: seq<seq<seq<Pfn>>>, zs: map<Pfn, Zspage>, home: map<Pfn, Pfn>, info: map<Pfn, PageInfo>,
      links: map<nat, Handle>, f: Pfn)
    requires ZspagesOk(zs, home, info, links) && ListsOk(lists, zs, info) && Settled(zs, info, 0) && 0 !in zs && f in zs
    ensures ShapeOf(zs[f]).Ok() && zs[f].cls < |lists| && |lists[zs[f].cls]| == 2
    ensures f in lists[zs[f].cls][0] <==> Group(zs[f]) == AlmostFull
    ensures f in lists[zs[f].cls][1] <==> Group(zs[f]) == AlmostEmpty
    ensures FreeOk(ObjectCount(ShapeOf(zs[f])), SlotCount(ShapeOf(zs[f])), zs[f].free, zs[f].used)
    ensures info[f].freelist == HandleAt(zs[f], 0) && Linked(zs[f], links)
    ensures forall j :: j in zs[f].used ==> j < ObjectCount(ShapeOf(zs[f]))
  {
    hide ObjectCount, SlotCount, HandleOf;
    ZspageAt(zs, home, info, links, f);
    assert InGroup(lists, zs[f].cls, f, info[f].fullness);
  }

  /** Byte b of a zspage, counted through its pages, in memory. */
  function ByteOf(z: Zspage, b: nat): nat
    requires b < |z.pages| * PAGE_SIZE
  {
    z.pages[b / PAGE_SIZE] * PAGE_SIZE + b % PAGE_SIZE
  }

  /** Different objects, of one zspage or of two, have no byte in common. */
  lemma ObjectsApart(zs: map<Pfn, Zspage>, home: map<Pfn, Pfn>, info: map<Pfn, PageInfo>, links: map<nat, Handle>,
      f: Pfn, j: nat, x: nat,
                     g: Pfn, k: nat, y: nat)
    requires ZspagesOk(zs, home, info, links) && f in zs && g in zs && j in zs[f].used && k in zs[g].used
      && (f != g || j != k)
    requires x < SizeOfClass(zs[f].cls) && y < SizeOfClass(zs[g].cls)
    ensures var b, c := j * SizeOfClass(zs[f].cls) + x, k * SizeOfClass(zs[g].cls) + y;
      && b < |zs[f].pages| * PAGE_SIZE && c < |zs[g].pages| * PAGE_SIZE && ByteOf(zs[f], b) != ByteOf(zs[g], c)
  {
    hide ZspagesOk, SizeOfClass, SlotCount;
    UsedSlot(zs, home, info, links, f, j);
    UsedSlot(zs, home, info, links, g, k);
    Inside(ShapeOf(zs[f]), j, x);
    Inside(ShapeOf(zs[g]), k, y);
    var b, c := j * SizeOfClass(zs[f].cls) + x, k * SizeOfClass(zs[g].cls) + y;
    HomeOfByte(zs, home, info, links, f, b);
    HomeOfByte(zs, home, info, links, g, c);
    if f == g {
      SameZspage(j, x, k, y, SizeOfClass(zs[f].cls));
      OneByte(zs[f], b, c);
    }
  }

  lemma Inside(sh: Shape, j: nat, x: nat)
    requires sh.Ok() && j < ObjectCount(sh) && x < sh.s
    ensures j * sh.s + x < |sh.pages| * sh.p
  {
    DivBounds(|sh.pages| * sh.p, sh.s);
    MulMono(j + 1, ObjectCount(sh), sh.s);
  }

  lemma SameZspage(j: nat, x: nat, k: nat, y: nat, s: nat)
    requires j != k && x < s && y < s
    ensures j * s + x != k * s + y
  {
    if j < k { MulMono(j + 1, k, s); } else { MulMono(k + 1, j, s); }
  }

  lemma HomeOfByte(zs: map<Pfn, Zspage>, home: map<Pfn, Pfn>, info: map<Pfn, PageInfo>, links: map<nat, Handle>,
      f: Pfn, b: nat)
    requires ZspagesOk(zs, home, info, links) && f in zs && b < |zs[f].pages| * PAGE_SIZE
    ensures ByteOf(zs[f], b) / PAGE_SIZE in home && home[ByteOf(zs[f], b) / PAGE_SIZE] == f
  {
    hide ZspageOk;
    assert Entry(zs, home, info, links, f);
    assert zs[f].pages[b / PAGE_SIZE] in zs[f].pages;
    assert ByteOf(zs[f], b) / PAGE_SIZE == zs[f].pages[b / PAGE_SIZE];
  }

  lemma OneByte(z: Zspage, b: nat, c: nat)
    requires ShapeOf(z).Ok() && b < |z.pages| * PAGE_SIZE && c < |z.pages| * PAGE_SIZE && b != c
    ensures ByteOf(z, b) != ByteOf(z, c)
  {
    if b / PAGE_SIZE != c / PAGE_SIZE { assert z.pages[b / PAGE_SIZE] != z.pages[c / PAGE_SIZE]; }
  }
}
