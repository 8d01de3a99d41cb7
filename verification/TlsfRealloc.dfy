/** The original TLSF: malloc_ex, free_ex and realloc_ex on one memory pool. */
module TlsfRealloc {
  import opened Bits
  import opened Tiling
  import opened FreeLists
  import opened TwoLevel
  import opened HeapMem
  import opened FreeIndex
  import opened BoundaryTags
  import opened Coalesce
  import opened TlsfMap
  import opened TlsfWide
  import opened TlsfAnswer
  import opened TlsfHeap
  import opened TlsfSteps
  import opened TlsfFit
  import opened TlsfPool
  import opened TlsfTrim

  function NoSlack(): Slack { Slack({}, {}, {}) }

  class Area {
    var mem: Mem<Hdr>
    var flBitmap: nat
    var slBitmap: seq<nat>
    var matrix: seq<Addr>
    ghost var tiles: Tiles
    ghost var index: Index
    ghost var regions: Regions

    ghost function H(): Heap
      reads this
    {
      Heap(mem, matrix, flBitmap, slBitmap, tiles, index)
    }

    ghost predicate Valid()
      reads this
    {
      Ready(H(), regions, NoSlack(), false)
    }

    /** A memory pool before its area has been processed. */
    constructor ()
      ensures Valid() && Live(H()) == map[] && FreshEverywhere(tiles) && regions == Regions(map[], map[])
    {
      mem := Mem(map[], map[], map[]);
      flBitmap, slBitmap, matrix := 0, seq(REAL_FLI, _ => 0), seq(REAL_FLI * MAX_SLI, _ => 0);
      tiles, index := Tiles(map[], map[], {}, {}), Index(seq(REAL_FLI * MAX_SLI, _ => []), map[]);
      regions := Regions(map[], map[]);
      new;
      hide Ready, Live, FreshEverywhere;
      EmptyReady(H(), false);
    }

    /** process_area, and the release of its main block with which init_memory_pool ends.
        `fault` where the main block is empty, or too large for any list, and INSERT_BLOCK
        would store outside its tables. */
    static method Create(area: Addr, areaSize: nat) returns (pool: Area?, fault: bool)
      requires area > 0 && 4 * BHDR_OVERHEAD + MIN_BLOCK_SIZE <= areaSize
      ensures (pool == null <==> fault) && (fault <==> !(MIN_BLOCK_SIZE <= MainSize(areaSize) < TOO_LARGE))
      ensures pool != null ==> fresh(pool) && pool.Valid()
      ensures pool != null ==> Made(pool.H(), pool.regions, area + 2 * BHDR_OVERHEAD, MainSize(areaSize))
    {
      hide Ready, Live, FreshEverywhere, MappingInsert, MainSize, Made;
      var size := MainSize(areaSize);
      MainAligned(areaSize);
      InsertInRange(size);
      pool, fault := null, true;
      if size == 0 || MappingInsert(size).0 >= REAL_FLI { return; }
      fault := false;
      pool := new Area();
      pool.ProcessArea(area + 2 * BHDR_OVERHEAD, size);
    }

    /** init_memory_pool, for a pool that is not in use.  The pool's own description, of descr
        bytes, lies in front of the area.  `refused` where the caller is told that this cannot
        be. */
    static method InitMemoryPool(memPoolSize: nat, memPool: Addr, descr: nat)
      returns (pool: Area?, refused: bool, fault: bool)
      ensures refused <==> memPool == 0 || memPoolSize < descr + 8 * BHDR_OVERHEAD || memPool % 8 != 0
      ensures pool == null <==> refused || fault
      ensures fault <==> !refused && !(MIN_BLOCK_SIZE <= PoolSize(memPoolSize, descr) < TOO_LARGE)
      ensures pool != null ==>
        fresh(pool) && pool.Valid()
        && Made(pool.H(), pool.regions, MainBlock(memPool, descr), PoolSize(memPoolSize, descr))
    {
      hide Ready, Made, MainSize, RoundUpSize;
      if memPool == 0 || memPoolSize == 0 || memPoolSize < descr + 8 * BHDR_OVERHEAD { return null, true, false; }
      if memPool % 8 != 0 { return null, true, false; }
      refused := false;
      RoundedRoom(memPoolSize - descr);
      pool, fault := Create(memPool + RoundUpSize(descr), RoundDownSize(memPoolSize - descr));
    }

    /** The main block of the area, b, and its sentinel.  The block before it, which describes
        the area, is never freed and no part of the heap. */
    method ProcessArea(b: Addr, size: nat)
      requires Valid() && Live(H()) == map[] && FreshEverywhere(tiles) && regions == Regions(map[], map[]) && b > 0
      requires size % MEM_ALIGN == 0 && MIN_BLOCK_SIZE <= size < TOO_LARGE
      modifies this
      ensures Valid() && Made(H(), regions, b, size)
    {
      hide HeapOk, Regioned, UsedKept, PutHdr, Split, AddRegion, At, Live, Made;
      ghost var h := H();
      ghost var len := size + 2 * BHDR_OVERHEAD;
      EmptyFresh(h, b, len);
      GrowStep(h, regions, b, len, false);
      NewBlockShape(tiles, b, len);
      var lb := b + BHDR_OVERHEAD + size;
      mem := PutHdr(mem, b, Hdr(size, 0, true, false), Y());
      mem := PutHdr(mem, lb, Hdr(0, b, false, true), Y());
      tiles := Split(AddRegion(tiles, b, len), b, len - BHDR_OVERHEAD);
      regions := NewRegion(regions, b, len, lb);
      assert H() == WithRegion(h, b, len, false);
      ghost var h1 := H();
      InsertBlock(b, size, Slack({b}, {}, {}));
      assert Slack({b}, {}, {}).(off := {b} - {b}) == NoSlack();
      MadeBy(h, h1, H(), regions, b, size);
    }

    // ----------------------------------------------------------------- lists

    /** INSERT_BLOCK */
    method InsertBlock(b: Addr, size: nat, ghost d: Slack)
      requires Ready(H(), regions, d, false) && b in tiles.ext && b in d.off && b !in d.open && At(H(), b).free
        && At(H(), b).size == size
      modifies `mem, `matrix, `flBitmap, `slBitmap, `index
      ensures Ready(H(), regions, d.(off := d.off - {b}), false) && Relisted(old(H()), H(), false)
    {
      hide HeapOk, Regioned, SetBit, Flat, MappingInsert, PutLink, Relisted;
      var (fl, sl) := MappingInsert(size);
      ListStep(H(), regions, d, b, fl, sl, false);
      var i := Flat(fl, sl, MAX_SLI);
      var head := matrix[i];
      mem := PutLink(mem, b, Link(0, head), Y());
      if head != 0 {
        mem := PutLink(mem, head, LinkAt(mem.link, head).(prev := b), Y());
      }
      matrix := matrix[i := b];
      slBitmap := slBitmap[fl := SetBit(slBitmap[fl], sl)];
      flBitmap := SetBit(flBitmap, fl);
      index := PushIndex(index, i, b);
      assert H() == Listed(Tl(false), old(H()), b, fl, sl);
    }

    /** EXTRACT_BLOCK_HDR: the head of list (fl, sl) comes off it. */
    method ExtractBlockHdr(b: Addr, fl: nat, sl: nat)
      requires Ready(H(), regions, NoSlack(), false) && b in tiles.ext && At(H(), b).free
      requires (fl, sl) == MappingInsert(At(H(), b).size) && Flat(fl, sl, MAX_SLI) < |matrix|
        && matrix[Flat(fl, sl, MAX_SLI)] == b
      modifies `mem, `matrix, `flBitmap, `slBitmap, `index
      ensures Ready(H(), regions, Slack({b}, {}, {}), false) && Relisted(old(H()), H(), false)
    {
      hide HeapOk, Regioned, ClearBit, Flat, MappingInsert, PutLink, Relisted;
      ghost var h := H();
      ghost var j := FindListed(h, regions, NoSlack(), b, false);
      UnlistStep(h, regions, NoSlack(), b, fl, sl, j, false);
      var i := Flat(fl, sl, MAX_SLI);
      var next := LinkAt(mem.link, b).next;
      matrix := matrix[i := next];
      if next != 0 {
        mem := PutLink(mem, next, LinkAt(mem.link, next).(prev := 0), Y());
      } else {
        slBitmap := slBitmap[fl := ClearBit(slBitmap[fl], sl)];
        if slBitmap[fl] == 0 {
          flBitmap := ClearBit(flBitmap, fl);
        }
      }
      index := DropIndex(index, b, j);
      assert H() == Unlisted(Tl(false), h, b, fl, sl, j);
      assert NoSlack().(off := NoSlack().off + {b}) == Slack({b}, {}, {});
      ScrubLink(b, h, Slack({b}, {}, {}));
    }

    method ScrubLink(b: Addr, ghost h: Heap, ghost d: Slack)
      requires Ready(H(), regions, d, false) && b in h.t.ext && b in d.off && d.open == {} && At(h, b).free
        && Relisted(h, H(), false)
      modifies `mem
      ensures Ready(H(), regions, d, false) && Relisted(h, H(), false)
    {
      hide HeapOk, Regioned, PutLink, UsedKept, At;
      BlockFacts(H(), regions, d, b, false);
      ScratchStep(H(), regions, d, b, Link(0, 0), false);
      RelistedTrans(h, H(), H().(m := PutLink(mem, b, Link(0, 0), Y())), false);
      mem := PutLink(mem, b, Link(0, 0), Y());
    }

    /** EXTRACT_BLOCK: block b comes off its list, wherever it is there. */
    method ExtractBlock(b: Addr, size: nat, ghost d: Slack)
      requires Ready(H(), regions, d, false) && b in tiles.ext && b !in d.off && At(H(), b).free && d.open == {}
        && At(H(), b).size == size
      modifies `mem, `matrix, `flBitmap, `slBitmap, `index
      ensures Ready(H(), regions, d.(off := d.off + {b}), false) && Relisted(old(H()), H(), false)
    {
      hide HeapOk, Regioned, ClearBit, Flat, MappingInsert, PutLink, Relisted;
      ghost var h := H();
      var (fl, sl) := MappingInsert(size);
      ghost var j := FindListed(h, regions, d, b, false);
      UnlistStep(h, regions, d, b, fl, sl, j, false);
      var link := LinkAt(mem.link, b);
      EitherOrder(h, regions, d, b, false);
      if link.next != 0 {
        mem := PutLink(mem, link.next, LinkAt(mem.link, link.next).(prev := link.prev), Y());
      }
      if link.prev != 0 {
        mem := PutLink(mem, link.prev, LinkAt(mem.link, link.prev).(next := link.next), Y());
      }
      assert mem == CloseMem(h.m, b, Y());
      var i := Flat(fl, sl, MAX_SLI);
      if matrix[i] == b {
        matrix := matrix[i := link.next];
        if link.next == 0 {
          slBitmap := slBitmap[fl := ClearBit(slBitmap[fl], sl)];
          if slBitmap[fl] == 0 {
            flBitmap := ClearBit(flBitmap, fl);
          }
        }
      }
      index := DropIndex(index, b, j);
      assert H() == Unlisted(Tl(false), h, b, fl, sl, j);
      ScrubLink(b, h, d.(off := d.off + {b}));
    }

    // ------------------------------------------------------------ cutting off

    /** Block b, being worked on, is cut to n payload bytes and put in use; the rest is listed.
        The invariant holds again unless nothing is left of b. */
    method Trim(b: Addr, n: nat, rest: nat, nextB: Addr)
      requires Opened(H(), regions, b) && n % MEM_ALIGN == 0 && rest % MEM_ALIGN == 0 && rest >= MIN_BLOCK_SIZE
      requires tiles.ext[b] == 2 * BHDR_OVERHEAD + n + rest && tiles.End(b) == nextB
      modifies `mem, `matrix, `flBitmap, `slBitmap, `index, `tiles, `regions
      ensures (Valid() <==> n > 0) && UsedKept(Tl(false), old(H()), H(), {b}) && IsUsed(H(), b)
        && At(H(), b).size == n
      ensures regions.len == old(regions).len
      ensures old(IsUsed(H(), b)) ==> PrefixKept(old(mem), mem, b + BHDR_OVERHEAD, n)
    {
      hide Ready, UsedKept, HdrAt, PutHdr, Opened, Relisted, FlagAt, PrefixKept, Split;
      ghost var h := H();
      var e := CutOff(b, n, rest, nextB);
      ghost var h2 := H();
      InsertBlock(e, rest, Slack({b, e}, {b}, {b}));
      assert {b, e} - {e} == {b};
      ghost var h3 := H();
      ReadyTiled(h2, regions, Slack({b, e}, {b}, {b}), false);
      ListedRest(h2, h3, b, e, n);
      if n == 0 {
        EmptyStep(h3, regions, b);
      } else {
        SixteenAtLeast(n);
        CloseStep(h3, regions, b, n);
      }
      mem := PutHdr(mem, b, HdrAt(mem, b).(size := n, free := false), Y());
      assert H() == StoreHdr(Tl(false), h3, b, At(h3, b).(size := n, free := false));
      TrimKept(h, h2, h3, H(), b, n);
    }

    /** The header of the rest, and what the block behind it is told. */
    method CutOff(b: Addr, n: nat, rest: nat, nextB: Addr) returns (e: Addr)
      requires Opened(H(), regions, b) && n % MEM_ALIGN == 0 && rest % MEM_ALIGN == 0 && rest >= MIN_BLOCK_SIZE
      requires tiles.ext[b] == 2 * BHDR_OVERHEAD + n + rest && tiles.End(b) == nextB
      modifies `mem, `tiles, `regions
      ensures e == b + BHDR_OVERHEAD + n && b in tiles.ext && e in tiles.ext && tiles.ext[b] == BHDR_OVERHEAD + n
        && tiles.HasNext(b) && tiles.End(b) == e
      ensures Ready(H(), regions, Slack({b, e}, {b}, {b}), false) && UsedKept(Tl(false), old(H()), H(), {b})
        && FlagAt(Tl(false), H(), b, {})
      ensures At(H(), b) == old(At(H(), b)) && At(H(), e).free && At(H(), e).size == rest && !At(H(), e).prevFree
      ensures PrefixKept(old(mem), mem, b + BHDR_OVERHEAD, n) && regions.len == old(regions).len
    {
      hide Ready, UsedKept, HdrAt, PutHdr, FlagAt, PrefixKept, Split, SameHdrsBut;
      ghost var h := H();
      e := b + BHDR_OVERHEAD + n;
      OpenedFacts(h, regions, b, n, rest, e, Split(tiles, b, BHDR_OVERHEAD + n));
      CutStep(h, regions, b, n, rest);
      ghost var c := RestHdr(h, e, rest);
      mem := PutHdr(mem, e, Hdr(rest, HdrAt(mem, e).prev, true, false), Y());
      tiles, regions := Split(tiles, b, BHDR_OVERHEAD + n), SplitHome(regions, b, e);
      ghost var h1 := H();
      assert h1 == SplitHdr(Tl(false), h, b, BHDR_OVERHEAD + n, c);
      FollowStep(h1, regions, b, e, nextB);
      mem := PutHdr(mem, nextB, HdrAt(mem, nextB).(prev := e, prevFree := true), Y());
      assert H() == StoreHdr(Tl(false), h1, nextB, At(h1, nextB).(prev := e, prevFree := true));
      CutOffKept(h, h1, H(), b, e, n, c, nextB);
    }

    // ------------------------------------------------------------- malloc_ex

    method Find(ghost r: nat, ghost size0: nat, start: Start) returns (b: Addr, fl: nat, sl: nat)
      requires Valid() && Asked(r, size0) && start != Nowhere && start == MachineSearch(r)
      ensures b == 0 <==> Below(Filled(index.lists), Flat(start.fl, start.sl, MAX_SLI))
      ensures size0 <= LARGEST_REQUEST && b != 0 ==> NearFit(H(), b, MappingSearch(Request(size0)).0)
      ensures b != 0 ==>
        b in tiles.ext && At(H(), b).free
        && (At(H(), b).size >= start.size > 0 <==> size0 <= LARGEST_REQUEST)
      ensures b != 0 ==>
        (fl, sl) == MappingInsert(At(H(), b).size) && Flat(fl, sl, MAX_SLI) < |matrix|
        && matrix[Flat(fl, sl, MAX_SLI)] == b
    {
      hide HeapOk, Regioned, NoneFrom, MachineSearch, MappingInsert, First, At, Flat, Filled, Below, Asked, NearFit,
        AllLess, MappingSearch, Request;
      HeapParts(Tl(false), H(), NoSlack());
      StartInside(r);
      FilledFrom(index.lists, Flat(start.fl, start.sl, MAX_SLI));
      b, fl, sl := FindSuitableBlock(flBitmap, slBitmap, matrix, start.fl, start.sl, mem.link, index.lists,
        index.place);
      if b != 0 { FoundFits(H(), regions, r, size0, start, fl, sl, false); }
      SearchSettles(H(), regions, r, size0, start, b, fl, sl, false);
    }

    /** malloc_ex.  `fault` where the search leaves the tables, or finds a block that is too small
        for the request. */
    method Malloc(size0: nat) returns (ptr: Addr, fault: bool)
      requires Valid() && size0 < SIZE_LIMIT
      modifies this
      ensures Valid() && regions.len == old(regions).len
      ensures (ptr != 0 <==> old(Fits(index.lists, size0))) && (fault <==> old(Lost(index.lists, size0)))
      ensures (fault ==> ptr == 0) && (ptr == 0 ==> H() == old(H()) && regions == old(regions))
      ensures ptr != 0 ==>
        ptr >= BHDR_OVERHEAD && size0 <= MappingSearch(Request(size0)).0
        && Given(old(H()), H(), ptr - BHDR_OVERHEAD, MappingSearch(Request(size0)).0)
        && NearFit(old(H()), ptr - BHDR_OVERHEAD, MappingSearch(Request(size0)).0)
    {
      hide Ready, UsedKept, Live, MappingSearch, MachineSearch, Given, Relisted, HdrAt, MappingInsert, Flat, Filled,
        Below, Asked, Request, NearFit;
      AskedFirst(size0);
      var start := MachineSearch(Request(size0));
      if start == Nowhere { return 0, true; }
      AskedNext(Request(size0), size0);
      var size := start.size;
      var b, fl, sl := Find(Request(size0), size0, start);
      if b == 0 { return 0, false; }
      if size == 0 || HdrAt(mem, b).size < size { return 0, true; }
      NeedFacts(size0);
      fault := false;
      ghost var h := H();
      ExtractBlockHdr(b, fl, sl);
      ghost var h1 := H();
      Taken(h, regions, h1, b);
      var tmpSize := HdrAt(mem, b).size - size;
      var nextB := b + BHDR_OVERHEAD + HdrAt(mem, b).size;
      if tmpSize >= BHDR_OVERHEAD + MIN_BLOCK_SIZE {
        RestNumbers(HdrAt(mem, b).size, size);
        Trim(b, size, tmpSize - BHDR_OVERHEAD, nextB);
      } else {
        UseWhole(b, nextB);
      }
      GivenBy(h, h1, H(), b, size);
      ptr := b + BHDR_OVERHEAD;
    }

    /** Without a cut. */
    method UseWhole(b: Addr, nextB: Addr)
      requires Ready(H(), regions, Slack({b}, {}, {}), false) && b in tiles.ext && At(H(), b).free
        && nextB == b + BHDR_OVERHEAD + At(H(), b).size
      modifies `mem
      ensures Valid() && UsedKept(Tl(false), old(H()), H(), {b}) && IsUsed(H(), b)
        && At(H(), b).size == old(At(H(), b).size)
    {
      hide HeapOk, Regioned, UsedKept, HdrAt, PutHdr, Carved;
      ghost var h := H();
      BlockFacts(h, regions, Slack({b}, {}, {}), b, false);
      WholeStep(h, regions, b, false);
      mem := PutHdr(mem, nextB, HdrAt(mem, nextB).(prevFree := false), Y());
      ghost var h1 := H();
      assert h1 == StoreHdr(Tl(false), h, nextB, At(h, nextB).(prevFree := false));
      ghost var c := At(h1, b).(free := false);
      assert c == At(h1, b).(size := c.size, free := false);
      UseStep(h1, regions, b, c, false);
      mem := PutHdr(mem, b, HdrAt(mem, b).(free := false), Y());
      assert H() == StoreHdr(Tl(false), h1, b, c);
      UsedKeptTrans(Tl(false), h, h1, H(), {}, {b});
      assert {} + {b} == {b};
    }

    // --------------------------------------------------------------- free_ex

    /** free_ex */
    method Free(ptr: Addr)
      requires Valid() && (ptr != 0 ==>
        ptr >= BHDR_OVERHEAD && ptr - BHDR_OVERHEAD in Live(H()) && Live(H())[ptr - BHDR_OVERHEAD] > 0)
      modifies this
      ensures Valid() && (ptr == 0 ==> H() == old(H()))
      ensures ptr != 0 ==>
        Live(H()) == old(Live(H())) - {ptr - BHDR_OVERHEAD} && UsedKept(Tl(false), old(H()), H(), {ptr - BHDR_OVERHEAD})
    {
      hide Ready, UsedKept, HdrAt, Live, BetweenUsed;
      if ptr == 0 { return; }
      var b := ptr - BHDR_OVERHEAD;
      ghost var h := H();
      LiveFacts(h, b);
      MarkFree(b);
      ghost var h1 := H();
      AbsorbNext(b);
      ghost var h2 := H();
      var m := JoinPrev(b);
      ghost var h3 := H();
      ListAndSeal(m);
      FreedKept(h, h1, h2, h3, H(), b);
    }

    method MarkFree(b: Addr)
      requires Valid() && IsUsed(H(), b) && At(H(), b).size > 0
      modifies `mem
      ensures Ready(H(), regions, Loose(b), false) && UsedKept(Tl(false), old(H()), H(), {b}) && b in tiles.ext
        && At(H(), b).free
    {
      hide HeapOk, Regioned, UsedKept, HdrAt, PutHdr, PutLink;
      ghost var h := H();
      MarkFreeStep(h, regions, b, false);
      mem := PutHdr(mem, b, HdrAt(mem, b).(free := true), Y());
      assert H() == StoreHdr(Tl(false), h, b, At(h, b).(free := true));
      ghost var h1 := H();
      BlockFacts(h1, regions, Loose(b), b, false);
      ScratchStep(h1, regions, Loose(b), b, Link(0, 0), false);
      mem := PutLink(mem, b, Link(0, 0), Y());
      assert H() == h1.(m := PutLink(h1.m, b, Link(0, 0), Y()));
      UsedKeptTrans(Tl(false), h, h1, H(), {b}, {b});
      assert {b} + {b} == {b};
    }

    /** Makes one block of two neighbours. */
    method Swallow(b: Addr, next: Addr, ghost loose: set<Addr>)
      requires Ready(H(), regions, Slack({b, next}, loose, {}), false) && loose <= {b, next}
      requires b in tiles.ext && tiles.HasNext(b) && tiles.End(b) == next && next in tiles.ext && tiles.HasNext(next)
      modifies `mem, `tiles
      ensures H() == Coalesce.Swallow(Tl(false), old(H()), b) && Ready(H(), regions, Loose(b), false)
      ensures UsedKept(Tl(false), old(H()), H(), {b, next}) && SameHdrsBut(MergeBlocks(old(H()), b), H(), b)
      ensures At(H(), b) == old(At(H(), b)).(size := old(At(H(), b).size + At(H(), next).size) + BHDR_OVERHEAD)
    {
      hide Ready, UsedKept, HdrAt, PutHdr, Merge, SameHdrsBut, PrefixKept;
      SwallowStep(H(), regions, b, next, loose, false);
      var size := HdrAt(mem, b).size + HdrAt(mem, next).size + BHDR_OVERHEAD;
      mem := PutHdr(mem, b, HdrAt(mem, b).(size := size), Y());
      tiles := Merge(tiles, b);
    }

    method AbsorbNext(b: Addr)
      requires Ready(H(), regions, Loose(b), false) && b in tiles.ext && At(H(), b).free
      modifies `mem, `matrix, `flBitmap, `slBitmap, `index, `tiles
      ensures Ready(H(), regions, Loose(b), false) && b in tiles.ext && At(H(), b).free
      ensures tiles.HasNext(b) && tiles.End(b) in tiles.ext && !At(H(), tiles.End(b)).free
      ensures UsedKept(Tl(false), old(H()), H(), {})
    {
      hide Ready, UsedKept, HdrAt, Merge, Tiled, Relisted, SameHdrsBut, PrefixKept;
      ghost var h := H();
      BlockFacts(h, regions, Loose(b), b, false);
      UsedKeptRefl(Tl(false), h);
      var next := b + BHDR_OVERHEAD + HdrAt(mem, b).size;
      if HdrAt(mem, next).free {
        NextIsFree(h, regions, b, next, false);
        ExtractBlock(next, HdrAt(mem, next).size, Loose(b));
        ghost var h1 := H();
        assert Loose(b).(off := Loose(b).off + {next}) == Slack({b, next}, {b}, {});
        TakenNext(h, h1, b, next, false);
        ReadyTiled(h1, regions, Slack({b, next}, {b}, {}), false);
        Swallow(b, next, {b});
        NextMerged(h1, b, next, false);
        MergedKept(h, h1, H(), b, next, false);
      }
    }

    method JoinPrev(b: Addr) returns (m: Addr)
      requires Ready(H(), regions, Loose(b), false) && b in tiles.ext && At(H(), b).free
      requires tiles.HasNext(b) && tiles.End(b) in tiles.ext && !At(H(), tiles.End(b)).free
      modifies `mem, `matrix, `flBitmap, `slBitmap, `index, `tiles
      ensures Ready(H(), regions, Loose(m), false) && m in tiles.ext && At(H(), m).free && BetweenUsed(H(), m)
      ensures UsedKept(Tl(false), old(H()), H(), {})
    {
      hide Ready, UsedKept, HdrAt, Merge, Tiled, Relisted, SameHdrsBut, BetweenUsed, PrefixKept;
      ghost var h := H();
      m := b;
      PrevIfFree(h, regions, b);
      UsedKeptRefl(Tl(false), h);
      if HdrAt(mem, b).prevFree {
        m := HdrAt(mem, b).prev;
        ExtractBlock(m, HdrAt(mem, m).size, Loose(b));
        ghost var h1 := H();
        assert Loose(b).(off := Loose(b).off + {m}) == Slack({m, b}, {b}, {});
        TakenNext(h, h1, m, b, false);
        Swallow(m, b, {b});
        ReadyTiled(h, regions, Loose(b), false);
        IntoPrev(h, h1, H(), b, m, false);
      } else {
        Alone(h, b);
      }
    }

    method ListAndSeal(m: Addr)
      requires Ready(H(), regions, Loose(m), false) && m in tiles.ext && BetweenUsed(H(), m) && At(H(), m).free
      modifies `mem, `matrix, `flBitmap, `slBitmap, `index
      ensures Valid() && UsedKept(Tl(false), old(H()), H(), {})
    {
      hide Ready, UsedKept, HdrAt, PutHdr, BetweenUsed, Relisted;
      ghost var h := H();
      BlockFacts(h, regions, Loose(m), m, false);
      InsertBlock(m, HdrAt(mem, m).size, Loose(m));
      assert Loose(m).(off := Loose(m).off - {m}) == Slack({}, {m}, {});
      ghost var h1 := H();
      RelistedBetween(h, regions, h1, m, false);
      SealStep(h1, regions, m, false);
      var next := m + BHDR_OVERHEAD + HdrAt(mem, m).size;
      mem := PutHdr(mem, next, HdrAt(mem, next).(prevFree := true, prev := m), Y());
      assert H() == StoreHdr(Tl(false), h1, next, At(h1, next).(prevFree := true, prev := m));
      ghost var none: set<Addr> := {};
      UsedKeptTrans(Tl(false), h, h1, H(), none, none);
      assert none + none == none;
    }

    // ------------------------------------------------------------ realloc_ex

    /** The first case of realloc_ex: block b is large enough.  A free block behind it gets what
        is cut off. */
    method Shrink(b: Addr, need: nat, next0: Addr)
      requires Valid() && IsUsed(H(), b) && At(H(), b).size > 0 && At(H(), b).size >= need && need % MEM_ALIGN == 0
      requires next0 == b + BHDR_OVERHEAD + At(H(), b).size
      modifies `mem, `matrix, `flBitmap, `slBitmap, `index, `tiles, `regions
      ensures (Valid() <==> need > 0 || !old(Emptied(H(), b))) && UsedKept(Tl(false), old(H()), H(), {b})
        && IsUsed(H(), b) && need <= At(H(), b).size < need + 2 * MEM_ALIGN
      ensures need == 0 ==>
        if old(Emptied(H(), b)) then At(H(), b).size == 0 else H() == old(H()) && regions == old(regions)
      ensures PrefixKept(old(mem), mem, b + BHDR_OVERHEAD, need)
    {
      hide Ready, UsedKept, HdrAt, Relisted, PrefixKept, Opened, Merge;
      ghost var h := H();
      UsedBlock(h, regions, b);
      UsedKeptRefl(Tl(false), h);
      UsedKeptMore(Tl(false), h, h, {}, {b});
      PrefixRefl(h.m, b + BHDR_OVERHEAD, need);
      var tmpSize, next := HdrAt(mem, b).size, next0;
      if HdrAt(mem, next).free {
        var nextSize := HdrAt(mem, next).size;
        ExtractBlock(next, nextSize, NoSlack());
        ghost var h1 := H();
        assert NoSlack().(off := NoSlack().off + {next}) == Slack({next}, {}, {});
        JoinReady(h, h1, b, next, need);
        OpenMerged(h1, regions, b, next);
        tiles := Merge(tiles, b);
        JoinedKept(h, h1, H(), b);
        tmpSize := tmpSize + nextSize + BHDR_OVERHEAD;
        next := next + BHDR_OVERHEAD + nextSize;
      } else {
        OpenUsed(h, regions, b);
      }
      ghost var h2 := H();
      tmpSize := tmpSize - need;
      if tmpSize >= BHDR_OVERHEAD + MIN_BLOCK_SIZE {
        RestNumbers(tmpSize + need, need);
        Trim(b, need, tmpSize - BHDR_OVERHEAD, next);
        StagesKept(h, h2, H(), b, need);
      }
    }

    /** The second case: with the free block behind it, block b is large enough. */
    method Absorb(b: Addr, need: nat, next: Addr)
      requires Valid() && IsUsed(H(), b) && At(H(), b).size > 0 && need % MEM_ALIGN == 0 && need >= MIN_BLOCK_SIZE
      requires next == b + BHDR_OVERHEAD + At(H(), b).size && At(H(), next).free
        && At(H(), b).size < need <= At(H(), b).size + At(H(), next).size
      modifies `mem, `matrix, `flBitmap, `slBitmap, `index, `tiles, `regions
      ensures Valid() && UsedKept(Tl(false), old(H()), H(), {b}) && IsUsed(H(), b)
        && need <= At(H(), b).size < need + 2 * MEM_ALIGN
      ensures PrefixKept(old(mem), mem, b + BHDR_OVERHEAD, old(At(H(), b).size))
    {
      hide Ready, UsedKept, HdrAt, PrefixKept, Opened;
      ghost var h := H();
      ghost var size0 := At(h, b).size;
      var nextB := Grow(b, next);
      ghost var h3 := H();
      var tmpSize := HdrAt(mem, b).size - need;
      if tmpSize >= BHDR_OVERHEAD + MIN_BLOCK_SIZE {
        UsedBlock(h3, regions, b);
        OpenUsed(h3, regions, b);
        RestNumbers(tmpSize + need, need);
        Trim(b, need, tmpSize - BHDR_OVERHEAD, nextB);
        PrefixShorter(h3.m, mem, b + BHDR_OVERHEAD, need, size0);
        StagesKept(h, h3, H(), b, size0);
      }
    }

    /** Block b takes in the free block behind it, all of it. */
    method Grow(b: Addr, next: Addr) returns (nextB: Addr)
      requires Valid() && IsUsed(H(), b) && At(H(), b).size > 0 && next == b + BHDR_OVERHEAD + At(H(), b).size
        && At(H(), next).free
      modifies `mem, `matrix, `flBitmap, `slBitmap, `index, `tiles
      ensures Valid() && UsedKept(Tl(false), old(H()), H(), {b}) && IsUsed(H(), b)
      ensures At(H(), b).size == old(At(H(), b).size + At(H(), next).size) + BHDR_OVERHEAD
      ensures nextB == b + BHDR_OVERHEAD + At(H(), b).size && !At(H(), nextB).free
      ensures PrefixKept(old(mem), mem, b + BHDR_OVERHEAD, old(At(H(), b).size))
    {
      hide Ready, UsedKept, HdrAt, PutHdr, Relisted, PrefixKept, SameHdrsBut, Merge;
      ghost var h := H();
      ghost var size0 := At(h, b).size;
      UsedBlock(h, regions, b);
      ExtractBlock(next, HdrAt(mem, next).size, NoSlack());
      ghost var h1 := H();
      assert NoSlack().(off := NoSlack().off + {next}) == Slack({next}, {}, {});
      JoinReady(h, h1, b, next, size0);
      BeforeJoin(h1, regions, b, next);
      Swallow(b, next, {});
      ghost var h2 := H();
      NextMerged(h1, b, next, false);
      SwallowedKept(h, h1, h2, b, next, size0);
      JoinedStep(h2, regions, b);
      nextB := b + BHDR_OVERHEAD + HdrAt(mem, b).size;
      SwallowedEnd(h2, regions, b);
      mem := PutHdr(mem, nextB, HdrAt(mem, nextB).(prev := b, prevFree := false), Y());
      assert H() == StoreHdr(Tl(false), h2, nextB, At(h2, nextB).(prev := b, prevFree := false));
      GrownKept(h, h2, H(), b, nextB, size0);
    }

    /** The last case: another block, with what b held.  `fault` where there is none: the source
        copies to what malloc_ex returned without looking at it. */
    method Move(b: Addr, need: nat) returns (a: Addr, fault: bool)
      requires Valid() && b in Live(H()) && Live(H())[b] > 0 && need % MEM_ALIGN == 0
        && MIN_BLOCK_SIZE <= need < SIZE_LIMIT
      modifies this
      ensures Valid() && (fault <==> !old(Fits(index.lists, need))) && (fault ==> H() == old(H()))
      ensures !fault ==> Resized(old(H()), H(), b, a, need)
    {
      hide Ready, UsedKept, HdrAt, Live, Fits, MappingSearch, CopyMem, Resized;
      RequestTwice(need);
      ghost var h := H();
      var ptrAux, wide := Malloc(need);
      if ptrAux == 0 { return 0, true; }
      fault := false;
      a := ptrAux - BHDR_OVERHEAD;
      ghost var h1 := H();
      MoveReady(h, h1, regions, b, a, need);
      var size := HdrAt(mem, b).size;
      var cpsize := if size > need then need else size;
      CopyStep(h1, regions, a, b + BHDR_OVERHEAD, cpsize);
      mem := CopyMem(mem, ptrAux, b + BHDR_OVERHEAD, cpsize);
      ghost var h2 := H();
      CopiedLive(h1, h2, a, b);
      Free(b + BHDR_OVERHEAD);
      MoveDone(h, h1, h2, H(), b, a, need, cpsize);
    }

    /** realloc_ex.  `fault` exactly where it cannot do what it is for: the block has to move and
        no list has one for it, or there is no block yet and malloc_ex goes wrong.  The last 15
        sizes of all are rounded up to 0: the block stays where it is and, unless it has the
        least size and its successor is in use, keeps no bytes. */
    method Realloc(ptr: Addr, newSize: nat) returns (p: Addr, fault: bool)
      requires Valid() && newSize < SIZE_LIMIT && (ptr != 0 ==>
        ptr >= BHDR_OVERHEAD && ptr - BHDR_OVERHEAD in Live(H()) && Live(H())[ptr - BHDR_OVERHEAD] > 0)
      modifies this
      ensures Valid() <==>
        !(ptr != 0 && newSize > SIZE_LIMIT - MEM_ALIGN && old(Emptied(H(), ptr - BHDR_OVERHEAD)))
      ensures newSize == 0 || ptr == 0 ==> (fault <==> newSize != 0 && old(Lost(index.lists, newSize)))
      ensures newSize != 0 && ptr != 0 ==>
        (fault <==>
          newSize <= SIZE_LIMIT - MEM_ALIGN && !old(InPlace(H(), ptr - BHDR_OVERHEAD, Request(newSize)))
          && !old(Fits(index.lists, newSize)))
      ensures fault ==> H() == old(H())
      ensures ptr == 0 && newSize == 0 ==> p == 0 && H() == old(H())
      ensures ptr == 0 && newSize != 0 ==> (p != 0 <==> old(Fits(index.lists, newSize))) && (p == 0 ==> H() == old(H()))
      ensures ptr == 0 && newSize != 0 && p != 0 ==>
        p >= BHDR_OVERHEAD && Given(old(H()), H(), p - BHDR_OVERHEAD, MappingSearch(Request(newSize)).0)
      ensures ptr != 0 && newSize == 0 ==>
        p == 0 && Live(H()) == old(Live(H())) - {ptr - BHDR_OVERHEAD}
        && UsedKept(Tl(false), old(H()), H(), {ptr - BHDR_OVERHEAD})
      ensures ptr != 0 && 0 < newSize <= SIZE_LIMIT - MEM_ALIGN && !fault ==>
        p >= BHDR_OVERHEAD && Resized(old(H()), H(), ptr - BHDR_OVERHEAD, p - BHDR_OVERHEAD, Request(newSize))
      ensures ptr != 0 && newSize != 0 && old(InPlace(H(), ptr - BHDR_OVERHEAD, Request(newSize))) ==> p == ptr
      ensures ptr != 0 && newSize > SIZE_LIMIT - MEM_ALIGN ==> var b := ptr - BHDR_OVERHEAD;
        p == ptr && UsedKept(Tl(false), old(H()), H(), {b})
        && if old(Emptied(H(), b)) then Live(H()) == old(Live(H()))[b := 0] else H() == old(H())
    {
      hide Ready, UsedKept, HdrAt, Live, Fits, Lost, MappingSearch, Resized, PrefixKept, Given, Request, Emptied;
      if ptr == 0 {
        if newSize != 0 {
          p, fault := Malloc(newSize);
        } else {
          p, fault := 0, false;
        }
        return;
      } else if newSize == 0 {
        Free(ptr);
        return 0, false;
      }
      var b := ptr - BHDR_OVERHEAD;
      ghost var h := H();
      LiveFacts(h, b);
      RequestFacts(newSize);
      var size := HdrAt(mem, b).size;
      var nextB, need := b + BHDR_OVERHEAD + size, Request(newSize);
      if need <= size {
        Shrink(b, need, nextB);
        if need > 0 { ResizedHere(h, H(), b, need, need); } else { EmptiedLive(h, H(), b); }
        return ptr, false;
      }
      if HdrAt(mem, nextB).free {
        if need <= size + HdrAt(mem, nextB).size {
          Absorb(b, need, nextB);
          ResizedHere(h, H(), b, need, size);
          return ptr, false;
        }
      }
      var a;
      a, fault := Move(b, need);
      p := if fault then 0 else a + BHDR_OVERHEAD;
    }
  }

  /** A resize that has to move the block, in a heap without room for another: the source
      copies to the null pointer.  The area has 4096 bytes. */
  method ResizeWithoutRoom(area: Addr) returns (fault: bool)
    requires area > 0
    ensures fault
  {
    hide Ready, UsedKept, HdrAt, Live, Fits, MappingSearch, Resized, Given, Made, InPlace, MainSize;
    SmallNumbers();
    var pool, none := Area.Create(area, 4096);
    FirstFits(pool.H(), pool.regions, area + 2 * BHDR_OVERHEAD);
    ghost var h := pool.H();
    var ptr, wide := pool.Malloc(16);
    FirstGiven(h, pool.H(), ptr - BHDR_OVERHEAD);
    NoRoom(pool.H(), pool.regions, area + 2 * BHDR_OVERHEAD, ptr - BHDR_OVERHEAD);
    var p;
    p, fault := pool.Realloc(ptr, 100000);
  }

  lemma SmallNumbers()
    ensures MainSize(4096) == 4032
    ensures MappingSearch(Request(16)).0 == 16 && Request(16) == 16 && Request(100000) == 100000
  {
    hide MappingSearch;
    assert MainSize(4096) == 4032;
    SearchOf16();
  }

  lemma SearchOf16()
    ensures MappingSearch(16).0 == 16
  {
  }

  lemma FirstFits(h: Heap, g: Regions, b: Addr)
    requires Ready(h, g, NoSlack(), false) && Made(h, g, b, 4032)
    ensures Fits(h.x.lists, 16) && g.len == map[b := 4064]
  {
    hide Ready, Fits, HdrAt;
    FitsExactly(h, g, 16, false);
  }

  lemma FirstGiven(h: Heap, h1: Heap, b: Addr)
    requires Given(h, h1, b, 16)
    ensures b in Live(h1) && Live(h1)[b] > 0
  {
    hide UsedKept, Live;
  }

  /** In one region of 4064 bytes nothing can become or hold a block of 100000. */
  lemma NoRoom(h: Heap, g: Regions, lo: Addr, b: Addr)
    requires Ready(h, g, NoSlack(), false) && g.len == map[lo := 4064] && b in Live(h) && Live(h)[b] > 0
    ensures !InPlace(h, b, 100000) && !Fits(h.x.lists, 100000)
  {
    hide Ready, Fits, HdrAt, MappingSearch;
    LiveFacts(h, b);
    UsedBlock(h, g, b);
    WithinRegion(h, g, lo, b);
    WithinRegion(h, g, lo, h.t.End(b));
    FitsExactly(h, g, 100000, false);
    NeedFacts(100000);
    forall a | a in h.t.ext ensures At(h, a).size < 4064 { WithinRegion(h, g, lo, a); }
  }

  lemma WithinRegion(h: Heap, g: Regions, lo: Addr, a: Addr)
    requires Ready(h, g, NoSlack(), false) && g.len == map[lo := 4064] && a in h.t.ext
    ensures At(h, a).size < 4064
  {
    hide HeapOk, HdrAt, Regioned;
    BlockFacts(h, g, NoSlack(), a, false);
    RegionOf(h, g, a);
  }

  /** What the headers, whose masks leave 32 bits, say of the size of the main block. */
  function MainSize(areaSize: nat): nat
    requires areaSize >= 4 * BHDR_OVERHEAD
  {
    RoundDownSize(areaSize - 4 * BHDR_OVERHEAD) % WORD_LIMIT
  }

  /** The main block of a memory pool behind its description, and the size stored for it. */
  function MainBlock(memPool: Addr, descr: nat): Addr { memPool + RoundUpSize(descr) + 2 * BHDR_OVERHEAD }

  function PoolSize(memPoolSize: nat, descr: nat): nat
    requires memPoolSize >= descr + 8 * BHDR_OVERHEAD
  {
    RoundedRoom(memPoolSize - descr);
    MainSize(RoundDownSize(memPoolSize - descr))
  }

  lemma RoundedRoom(n: nat)
    requires n >= 8 * BHDR_OVERHEAD
    ensures RoundDownSize(n) >= 8 * BHDR_OVERHEAD && RoundDownSize(n) == n - n % MEM_ALIGN
  {
  }

  function SentinelEnd(memPoolSize: nat, memPool: Addr, descr: nat): Addr
    requires memPoolSize >= descr + 8 * BHDR_OVERHEAD
  {
    MainBlock(memPool, descr) + PoolSize(memPoolSize, descr) + 2 * BHDR_OVERHEAD
  }

  /** The sentinel of a memory pool ends inside the memory that the caller gave, exactly if
      rounding the size of the rest down makes up for rounding that of the description up, or the
      main block is cut short because its size is kept in 32 bits. */
  lemma SentinelInside(memPoolSize: nat, memPool: Addr, descr: nat)
    requires memPoolSize >= descr + 8 * BHDR_OVERHEAD
    ensures SentinelEnd(memPoolSize, memPool, descr) <= memPool + memPoolSize <==>
      || RoundUpSize(descr) - descr <= (memPoolSize - descr) % MEM_ALIGN
      || memPoolSize - descr >= WORD_LIMIT + 4 * BHDR_OVERHEAD
  {
    hide RoundUpSize, RoundDownSize;
    var n := memPoolSize - descr;
    RoundedRoom(n);
    MainSizeIs(RoundDownSize(n));
    UpAtMost(descr);
  }

  lemma MainSizeIs(areaSize: nat)
    requires areaSize >= 8 * BHDR_OVERHEAD && areaSize % MEM_ALIGN == 0
    ensures MainSize(areaSize) == (areaSize - 4 * BHDR_OVERHEAD) % WORD_LIMIT
    ensures areaSize - 4 * BHDR_OVERHEAD >= WORD_LIMIT ==>
      MainSize(areaSize) + WORD_LIMIT <= areaSize - 4 * BHDR_OVERHEAD
    ensures areaSize - 4 * BHDR_OVERHEAD < WORD_LIMIT ==> MainSize(areaSize) == areaSize - 4 * BHDR_OVERHEAD
  {
  }

  lemma UpAtMost(n: nat)
    ensures n <= RoundUpSize(n) < n + MEM_ALIGN
  {
  }

  /** A description of 6304 bytes, that of the Makefile's configuration, is safe; one of 6264
      bytes, without the lock, is so exactly if the pool's size leaves less than 8 from 16. */
  lemma SentinelSizes(memPoolSize: nat, memPool: Addr)
    requires 6304 + 8 * BHDR_OVERHEAD <= memPoolSize < WORD_LIMIT
    ensures SentinelEnd(memPoolSize, memPool, 6304) <= memPool + memPoolSize
    ensures SentinelEnd(memPoolSize, memPool, 6264) <= memPool + memPoolSize <==> memPoolSize % MEM_ALIGN < 8
  {
    hide SentinelEnd;
    SentinelInside(memPoolSize, memPool, 6304);
    SentinelInside(memPoolSize, memPool, 6264);
    Remainder6264(memPoolSize);
  }

  lemma Remainder6264(n: nat)
    requires n >= 6264
    ensures (n - 6264) % MEM_ALIGN >= 8 <==> n % MEM_ALIGN < 8
  {
  }

  lemma MainAligned(areaSize: nat)
    requires areaSize >= 4 * BHDR_OVERHEAD
    ensures MainSize(areaSize) % MEM_ALIGN == 0
  {
    assert RoundDownSize(areaSize - 4 * BHDR_OVERHEAD) == 16 * ((areaSize - 4 * BHDR_OVERHEAD) / 16);
    assert WORD_LIMIT == 16 * 0x1000_0000;
  }

  /** A heap of one free block and its sentinel, the only one in use. */
  ghost predicate Made(h: Heap, g: Regions, b: Addr, size: nat) {
    && b in h.t.ext && At(h, b).free && At(h, b).size == size && g.len == map[b := size + 2 * BHDR_OVERHEAD]
    && Live(h) == map[b + BHDR_OVERHEAD + size := 0]
  }

  lemma MadeBy(h: Heap, h1: Heap, h2: Heap, g: Regions, b: Addr, size: nat)
    requires var lb := b + BHDR_OVERHEAD + size;
      UsedKept(Tl(false), h, h1, {lb}) && lb in h1.t.ext && At(h1, lb) == Sentinel(b)
    requires b in h1.t.ext && At(h1, b) == Hdr(size, 0, true, false) && Relisted(h1, h2, false) && Live(h) == map[]
    requires g.len == map[b := size + 2 * BHDR_OVERHEAD]
    ensures Made(h2, g, b, size)
  {
    hide UsedKept, HdrAt, Live;
    LiveGains(Tl(false), h, h1, b + BHDR_OVERHEAD + size);
    LiveSame(Tl(false), h1, h2);
  }

  /** Block b can stay where it is: it is large enough, alone or with the free block behind it. */
  ghost predicate InPlace(h: Heap, b: Addr, need: nat) {
    var size := At(h, b).size;
    var next := At(h, b + BHDR_OVERHEAD + size);
    need <= size || (next.free && need <= size + next.size)
  }

  /** A search for the request is not defined, or leads to a block that is too small for it. */
  ghost predicate Lost(lists: seq<seq<Addr>>, size: nat) { TryOnce(Filled(lists), Request(size)).Bad? }

  /** If block b is cut to no bytes at all, there is enough behind that for another block. */
  ghost predicate Emptied(h: Heap, b: Addr) {
    At(h, b).size != MIN_BLOCK_SIZE || At(h, b + BHDR_OVERHEAD + At(h, b).size).free
  }

  /** Block b became block a: at least need bytes and hardly more than a new block would get,
      holding what b held of them; no other used block has changed. */
  ghost predicate Resized(h: Heap, h': Heap, b: Addr, a: Addr, need: nat) {
    && b in Live(h) && a in Live(h') && need <= Live(h')[a] < MappingSearch(need).0 + 2 * MEM_ALIGN
    && (a == b || a !in Live(h)) && Live(h') == (Live(h) - {b})[a := Live(h')[a]] && UsedKept(Tl(false), h, h', {a, b})
    && forall i: nat {:trigger Moved(h.m.data, h'.m.data, a + BHDR_OVERHEAD, b + BHDR_OVERHEAD, i)} ::
      i < need && i < Live(h)[b] ==>
      Moved(h.m.data, h'.m.data, a + BHDR_OVERHEAD, b + BHDR_OVERHEAD, i)
  }

  lemma RequestTwice(n: nat)
    requires n % MEM_ALIGN == 0 && MIN_BLOCK_SIZE <= n < SIZE_LIMIT
    ensures Request(n) == n
  {
  }

  lemma RequestFacts(n: nat)
    requires n < SIZE_LIMIT
    ensures Request(n) % MEM_ALIGN == 0 && Request(n) < SIZE_LIMIT
    ensures n > SIZE_LIMIT - MEM_ALIGN ==> Request(n) == 0
    ensures n <= SIZE_LIMIT - MEM_ALIGN ==>
      Request(n) >= MIN_BLOCK_SIZE && Request(n) >= n && Request(Request(n)) == Request(n)
      && forall lists :: Fits(lists, n) <==> Fits(lists, Request(n))
  {
    hide TryOnce, Filled, Request;
    RequestIs(n);
    if n <= SIZE_LIMIT - MEM_ALIGN { RequestTwice(Request(n)); }
  }

  lemma EmptiedLive(h: Heap, h': Heap, b: Addr)
    requires b in Live(h) && UsedKept(Tl(false), h, h', {b}) && IsUsed(h', b)
    ensures Live(h') == Live(h)[b := At(h', b).size]
  {
    hide UsedKept;
    LiveGains(Tl(false), h, h', b);
  }

  lemma ResizedHere(h: Heap, h': Heap, b: Addr, need: nat, n: nat)
    requires b in Live(h) && UsedKept(Tl(false), h, h', {b}) && IsUsed(h', b)
      && need <= At(h', b).size < need + 2 * MEM_ALIGN
    requires PrefixKept(h.m, h'.m, b + BHDR_OVERHEAD, n) && (n == need || n == Live(h)[b])
    ensures Resized(h, h', b, b, need)
  {
    hide UsedKept, MappingSearch;
    SearchRounds(need);
    LiveGains(Tl(false), h, h', b);
    assert {b, b} == {b};
    assert Live(h') == (Live(h) - {b})[b := Live(h')[b]];
  }

  /** The two blocks of a move. */
  lemma MoveReady(h: Heap, h1: Heap, g: Regions, b: Addr, a: Addr, need: nat)
    requires Ready(h1, g, NoSlack(), false) && Given(h, h1, a, MappingSearch(need).0) && b in Live(h) && Live(h)[b] > 0
    ensures b != a && IsUsed(h1, a) && IsUsed(h1, b) && At(h1, b).size == Live(h)[b] && At(h1, a).size >= need
    ensures h1.t.ext[a] == BHDR_OVERHEAD + At(h1, a).size && h1.t.ext[b] == BHDR_OVERHEAD + At(h1, b).size
    ensures a + h1.t.ext[a] <= b || b + h1.t.ext[b] <= a
    ensures b in h.t.ext && h.t.ext[b] == h1.t.ext[b]
  {
    hide UsedKept, MappingSearch, HeapOk, Regioned;
    SearchRounds(need);
    LiveAt(Tl(false), h, h1, {a}, b);
    SameExtent(h, h1, a, b);
    BlockFacts(h1, g, NoSlack(), a, false);
    BlockFacts(h1, g, NoSlack(), b, false);
    ReadyTiled(h1, g, NoSlack(), false);
    BlocksDisjoint(h1.t, a, b);
  }

  lemma SameExtent(h: Heap, h1: Heap, a: Addr, b: Addr)
    requires UsedKept(Tl(false), h, h1, {a}) && IsUsed(h, b) && b != a
    ensures b in h1.t.ext && h1.t.ext[b] == h.t.ext[b]
  {
    assert KeptAt(Tl(false), h, h1, b);
  }

  lemma CopiedLive(h1: Heap, h2: Heap, a: Addr, b: Addr)
    requires UsedKept(Tl(false), h1, h2, {a}) && IsUsed(h2, a) && At(h2, a) == At(h1, a) && IsUsed(h1, a) && b != a
      && IsUsed(h1, b)
    ensures Live(h2) == Live(h1) && b in Live(h2) && Live(h2)[b] == At(h1, b).size
  {
    hide UsedKept;
    LiveGains(Tl(false), h1, h2, a);
  }

  lemma MoveDone(h: Heap, h1: Heap, h2: Heap, h3: Heap, b: Addr, a: Addr, need: nat, n: nat)
    requires Given(h, h1, a, MappingSearch(need).0) && b in Live(h) && b != a && Live(h2) == Live(h1)
      && UsedKept(Tl(false), h1, h2, {a})
    requires Live(h3) == Live(h2) - {b} && UsedKept(Tl(false), h2, h3, {b}) && IsUsed(h2, a) && n <= Live(h)[b]
    requires n == if Live(h)[b] > need then need else Live(h)[b]
    requires h.t.ext[b] >= BHDR_OVERHEAD + n && h2.t.ext[a] >= BHDR_OVERHEAD + n
    requires forall i: nat {:trigger Moved(h1.m.data, h2.m.data, a + BHDR_OVERHEAD, b + BHDR_OVERHEAD, i)} :: i < n ==>
      Moved(h1.m.data, h2.m.data, a + BHDR_OVERHEAD, b + BHDR_OVERHEAD, i)
    ensures Resized(h, h3, b, a, need)
  {
    hide UsedKept, MappingSearch, HdrAt, Moved, Live;
    SearchRounds(need);
    MoveKept(h, h1, h2, h3, b, a);
    SwapLive(Live(h), Live(h1), Live(h3), a, b);
    UsedOfLive(h, b);
    forall i: nat {:trigger Moved(h.m.data, h3.m.data, a + BHDR_OVERHEAD, b + BHDR_OVERHEAD, i)} | i < need
      && i < Live(h)[b]
      ensures Moved(h.m.data, h3.m.data, a + BHDR_OVERHEAD, b + BHDR_OVERHEAD, i)
    {
      assert i < n;
      assert Moved(h1.m.data, h2.m.data, a + BHDR_OVERHEAD, b + BHDR_OVERHEAD, i);
      MovedThrough(h, h1, h2, h3, b, a, n, i);
    }
  }

  lemma UsedOfLive(h: Heap, b: Addr)
    requires b in Live(h)
    ensures IsUsed(h, b)
  {
  }

  lemma SwapLive(l: map<Addr, nat>, l1: map<Addr, nat>, l3: map<Addr, nat>, a: Addr, b: Addr)
    requires a in l1 && l1 == l[a := l1[a]] && l3 == l1 - {b} && a != b
    ensures a in l3 && l3[a] == l1[a] && l3 == (l - {b})[a := l3[a]]
  {
  }

  lemma MoveKept(h: Heap, h1: Heap, h2: Heap, h3: Heap, b: Addr, a: Addr)
    requires UsedKept(Tl(false), h, h1, {a}) && UsedKept(Tl(false), h1, h2, {a}) && UsedKept(Tl(false), h2, h3, {b})
    ensures UsedKept(Tl(false), h, h3, {a, b})
  {
    hide UsedKept;
    UsedKeptTrans(Tl(false), h, h1, h2, {a}, {a});
    UsedKeptTrans(Tl(false), h, h2, h3, {a} + {a}, {b});
    assert {a} + {a} + {b} == {a, b};
  }

  lemma MovedThrough(h: Heap, h1: Heap, h2: Heap, h3: Heap, b: Addr, a: Addr, n: nat, i: nat)
    requires UsedKept(Tl(false), h, h1, {a}) && UsedKept(Tl(false), h2, h3, {b}) && a != b && IsUsed(h, b)
      && IsUsed(h2, a) && i < n
    requires h.t.ext[b] >= BHDR_OVERHEAD + n && h2.t.ext[a] >= BHDR_OVERHEAD + n
    requires Moved(h1.m.data, h2.m.data, a + BHDR_OVERHEAD, b + BHDR_OVERHEAD, i)
    ensures Moved(h.m.data, h3.m.data, a + BHDR_OVERHEAD, b + BHDR_OVERHEAD, i)
  {
    assert KeptAt(Tl(false), h, h1, b) && KeptAt(Tl(false), h2, h3, a);
  }

  lemma PrefixRefl(m: Mem<Hdr>, lo: Addr, n: nat)
    ensures PrefixKept(m, m, lo, n)
  {
  }

  /** A used block other than a sentinel, and the block behind it. */
  lemma UsedBlock(h: Heap, g: Regions, b: Addr)
    requires Ready(h, g, NoSlack(), false) && IsUsed(h, b) && At(h, b).size > 0
    ensures h.t.ext[b] == BHDR_OVERHEAD + At(h, b).size && At(h, b).size % MEM_ALIGN == 0
      && At(h, b).size >= MIN_BLOCK_SIZE && h.t.HasNext(b)
    ensures h.t.End(b) in h.t.ext && h.t.End(b) > b && At(h, h.t.End(b)).size % MEM_ALIGN == 0
    ensures At(h, h.t.End(b)).free ==> At(h, h.t.End(b)).size >= MIN_BLOCK_SIZE
  {
    hide HeapOk, HdrAt, Regioned;
    BlockFacts(h, g, NoSlack(), b, false);
    BlockFacts(h, g, NoSlack(), h.t.End(b), false);
    SixteenAtLeast(At(h, b).size);
  }

  lemma SixteenAtLeast(n: nat)
    requires n % MEM_ALIGN == 0 && n > 0
    ensures n >= MIN_BLOCK_SIZE
  {
  }

  /** After the free block behind b has left its list. */
  lemma JoinReady(h: Heap, h1: Heap, b: Addr, next: Addr, n: nat)
    requires Relisted(h, h1, false) && IsUsed(h, b) && h.t.HasNext(b) && h.t.End(b) == next && next in h.t.ext
      && BHDR_OVERHEAD + n <= h.t.ext[b]
    ensures h1.t == h.t && At(h1, b) == At(h, b) && At(h1, next) == At(h, next) && UsedKept(Tl(false), h, h1, {})
      && IsUsed(h1, b)
    ensures PrefixKept(h.m, h1.m, b + BHDR_OVERHEAD, n)
  {
    hide UsedKept, HdrAt, PrefixKept;
    UsedPrefix(h, h1, b, n);
  }

  lemma JoinedKept(h: Heap, h1: Heap, h2: Heap, b: Addr)
    requires UsedKept(Tl(false), h, h1, {}) && UsedKept(Tl(false), h1, h2, {b})
    ensures UsedKept(Tl(false), h, h2, {b})
  {
    UsedKeptTrans(Tl(false), h, h1, h2, {}, {b});
    assert {} + {b} == {b};
  }

  lemma StagesKept(h: Heap, h2: Heap, h': Heap, b: Addr, n: nat)
    requires UsedKept(Tl(false), h, h2, {b}) && UsedKept(Tl(false), h2, h', {b})
    requires PrefixKept(h.m, h2.m, b + BHDR_OVERHEAD, n) && PrefixKept(h2.m, h'.m, b + BHDR_OVERHEAD, n)
    ensures UsedKept(Tl(false), h, h', {b}) && PrefixKept(h.m, h'.m, b + BHDR_OVERHEAD, n)
  {
    hide UsedKept, PrefixKept;
    UsedKeptTrans(Tl(false), h, h2, h', {b}, {b});
    assert {b} + {b} == {b};
    PrefixTrans(h.m, h2.m, h'.m, b + BHDR_OVERHEAD, n);
  }

  lemma SwallowedKept(h: Heap, h1: Heap, h2: Heap, b: Addr, next: Addr, n: nat)
    requires UsedKept(Tl(false), h, h1, {}) && b in h1.t.ext && next in h1.t.ext && h1.t.End(b) == next && next != b
      && At(h1, next).free
    requires h2 == Coalesce.Swallow(Tl(false), h1, b) && UsedKept(Tl(false), h1, h2, {b, next})
      && PrefixKept(h.m, h1.m, b + BHDR_OVERHEAD, n)
    ensures UsedKept(Tl(false), h, h2, {b}) && PrefixKept(h.m, h2.m, b + BHDR_OVERHEAD, n)
  {
    hide UsedKept, PrefixKept, HdrAt, PutHdr;
    UsedKeptFree(Tl(false), h1, h2, {b, next}, next);
    assert {b, next} - {next} == {b};
    JoinedKept(h, h1, h2, b);
    var c := At(h1, b).(size := At(h1, b).size + At(h1, next).size + BHDR_OVERHEAD);
    HdrOutside(h1.m, b, c, b + BHDR_OVERHEAD, n);
    PrefixTrans(h.m, h1.m, h2.m, b + BHDR_OVERHEAD, n);
  }

  lemma SwallowedEnd(h: Heap, g: Regions, b: Addr)
    requires Ready(h, g, Loose(b), false) && b in h.t.ext
    ensures h.t.End(b) == b + BHDR_OVERHEAD + At(h, b).size
  {
    BlockFacts(h, g, Loose(b), b, false);
  }

  lemma GrownKept(h: Heap, h2: Heap, h3: Heap, b: Addr, nextB: Addr, n: nat)
    requires UsedKept(Tl(false), h, h2, {b}) && UsedKept(Tl(false), h2, h3, {})
      && PrefixKept(h.m, h2.m, b + BHDR_OVERHEAD, n)
    requires nextB >= b + BHDR_OVERHEAD + n && b in h2.t.ext && !At(h2, b).free && SameHdrsBut(h2, h3, nextB)
      && h3.t == h2.t && nextB in h3.t.ext
    requires h3 == StoreHdr(Tl(false), h2, nextB, At(h2, nextB).(prev := b, prevFree := false))
    requires At(h3, nextB) == At(h2, nextB).(prev := b, prevFree := false)
    ensures UsedKept(Tl(false), h, h3, {b}) && PrefixKept(h.m, h3.m, b + BHDR_OVERHEAD, n) && At(h3, b) == At(h2, b)
      && At(h3, nextB).free == At(h2, nextB).free
  {
    hide UsedKept, PrefixKept, HdrAt, PutHdr;
    UsedKeptTrans(Tl(false), h, h2, h3, {b}, {});
    assert {b} + {} == {b};
    HdrOutside(h2.m, nextB, At(h2, nextB).(prev := b, prevFree := false), b + BHDR_OVERHEAD, n);
    PrefixTrans(h.m, h2.m, h3.m, b + BHDR_OVERHEAD, n);
  }

  lemma FreedKept(h: Heap, h1: Heap, h2: Heap, h3: Heap, h4: Heap, b: Addr)
    requires UsedKept(Tl(false), h, h1, {b}) && UsedKept(Tl(false), h1, h2, {}) && UsedKept(Tl(false), h2, h3, {})
      && UsedKept(Tl(false), h3, h4, {})
    requires !IsUsed(h1, b)
    ensures UsedKept(Tl(false), h, h4, {b}) && Live(h4) == Live(h) - {b}
  {
    hide UsedKept, Live;
    LiveLoses(Tl(false), h, h1, b);
    LiveSame(Tl(false), h1, h2);
    LiveSame(Tl(false), h2, h3);
    LiveSame(Tl(false), h3, h4);
    UsedKeptTrans(Tl(false), h, h1, h2, {b}, {});
    UsedKeptTrans(Tl(false), h, h2, h3, {b} + {}, {});
    UsedKeptTrans(Tl(false), h, h3, h4, {b} + {} + {}, {});
    assert {b} + {} + {} + {} == {b};
  }

  /** What the header of a block tells about a free predecessor. */
  lemma PrevIfFree(h: Heap, g: Regions, a: Addr)
    requires Ready(h, g, Loose(a), false) && a in h.t.ext
    ensures At(h, a).prevFree ==> var p := At(h, a).prev;
      && a !in h.t.firsts && a in h.t.pred && p == h.t.pred[a] && p in h.t.ext && p < a && h.t.HasNext(p)
      && h.t.End(p) == a && At(h, p).free
      && (p !in h.t.firsts ==> p in h.t.pred && !At(h, h.t.pred[p]).free)
    ensures !At(h, a).prevFree && a !in h.t.firsts ==> a in h.t.pred && !At(h, h.t.pred[a]).free
  {
    hide HeapOk, At, Regioned;
    HeapParts(Tl(false), h, Loose(a));
    Neighbours(Tl(false), h, Loose(a), a);
    if a !in h.t.firsts {
      var p: nat := h.t.pred[a];
      Neighbours(Tl(false), h, Loose(a), p);
    }
  }

  /** Between h and h' block b was handed out with a payload of at least need bytes, and hardly
      more; the other used blocks are as they were. */
  ghost predicate Given(h: Heap, h': Heap, b: Addr, need: nat) {
    && b !in Live(h) && b in Live(h') && need <= Live(h')[b] < need + 2 * MEM_ALIGN
    && Live(h') == Live(h)[b := Live(h')[b]] && UsedKept(Tl(false), h, h', {b})
  }

  lemma GivenBy(h: Heap, h1: Heap, h2: Heap, b: Addr, need: nat)
    requires UsedKept(Tl(false), h, h1, {}) && UsedKept(Tl(false), h1, h2, {b}) && !IsUsed(h1, b) && IsUsed(h2, b)
      && need <= At(h2, b).size < need + 2 * MEM_ALIGN
    ensures Given(h, h2, b, need)
  {
    hide UsedKept;
    LiveSame(Tl(false), h, h1);
    LiveGains(Tl(false), h1, h2, b);
    UsedKeptTrans(Tl(false), h, h1, h2, {}, {b});
    assert {} + {b} == {b};
  }

  /** The block that came off its list. */
  lemma Taken(h: Heap, g: Regions, h1: Heap, b: Addr)
    requires Ready(h1, g, Slack({b}, {}, {}), false) && Relisted(h, h1, false) && b in h.t.ext && At(h, b).free
    ensures At(h1, b) == At(h, b) && UsedKept(Tl(false), h, h1, {}) && h1.t == h.t && !IsUsed(h1, b)
    ensures Opened(h1, g, b) && h1.t.ext[b] == BHDR_OVERHEAD + At(h, b).size && At(h, b).size % MEM_ALIGN == 0
  {
    hide UsedKept, HdrAt, HeapOk, Regioned;
    BlockFacts(h1, g, Slack({b}, {}, {}), b, false);
    OpenFree(h1, g, b);
  }

  lemma RestNumbers(total: nat, n: nat)
    requires total % MEM_ALIGN == 0 && n % MEM_ALIGN == 0 && total >= n + BHDR_OVERHEAD + MIN_BLOCK_SIZE
    ensures var rest := total - n - BHDR_OVERHEAD; rest % MEM_ALIGN == 0 && rest >= MIN_BLOCK_SIZE
  {
    RemainderNumbers(total, n);
  }

  lemma CutOffKept(h: Heap, h1: Heap, h2: Heap, b: Addr, e: Addr, n: nat, c: Hdr, nextB: Addr)
    requires e == b + BHDR_OVERHEAD + n && nextB > e && UsedKept(Tl(false), h, h1, {b})
      && UsedKept(Tl(false), h1, h2, {})
    requires h1.m == PutHdr(h.m, e, c, Y())
      && h2 == StoreHdr(Tl(false), h1, nextB, At(h1, nextB).(prev := e, prevFree := true))
    requires b in h1.t.ext && e in h1.t.ext && SameHdrsBut(h1, h2, nextB)
    ensures PrefixKept(h.m, h2.m, b + BHDR_OVERHEAD, n) && UsedKept(Tl(false), h, h2, {b}) && At(h2, b) == At(h1, b)
      && At(h2, e) == At(h1, e)
  {
    hide UsedKept, HdrAt, PutHdr, PrefixKept;
    HdrOutside(h.m, e, c, b + BHDR_OVERHEAD, n);
    HdrOutside(h1.m, nextB, At(h1, nextB).(prev := e, prevFree := true), b + BHDR_OVERHEAD, n);
    PrefixTrans(h.m, h1.m, h2.m, b + BHDR_OVERHEAD, n);
    UsedKeptTrans(Tl(false), h, h1, h2, {b}, {});
    assert {b} + {} == {b};
  }

  lemma OpenedFacts(h: Heap, g: Regions, b: Addr, n: nat, rest: nat, e: Addr, t: Tiles)
    requires Opened(h, g, b) && h.t.ext[b] == 2 * BHDR_OVERHEAD + n + rest && rest > 0 && e == b + BHDR_OVERHEAD + n
      && t == Split(h.t, b, BHDR_OVERHEAD + n)
    ensures
      && b in t.ext && t.ext[b] == BHDR_OVERHEAD + n && t.HasNext(b) && t.End(b) == e && e in t.ext && t.HasNext(e)
      && t.End(e) == h.t.End(b)
      && h.t.End(b) in t.ext && h.t.End(b) > e && e > b && e !in h.t.ext && h.t.End(b) != b
  {
    hide HeapOk, Regioned, Split, HdrAt;
    ReadyTiled(h, g, Open(b), false);
    SplitTiled(h.t, b, BHDR_OVERHEAD + n);
    CutFacts(h.t, b, BHDR_OVERHEAD + n);
  }

  lemma ListedRest(h2: Heap, h3: Heap, b: Addr, e: Addr, n: nat)
    requires Relisted(h2, h3, false) && b in h2.t.ext && e in h2.t.ext && h2.t.ext[b] == BHDR_OVERHEAD + n
      && FlagAt(Tl(false), h2, b, {}) && Tiled(h2.t)
    ensures h3.t == h2.t && At(h3, b) == At(h2, b) && At(h3, e) == At(h2, e) && UsedKept(Tl(false), h2, h3, {})
      && FlagAt(Tl(false), h3, b, {})
    ensures IsUsed(h2, b) ==> PrefixKept(h2.m, h3.m, b + BHDR_OVERHEAD, n)
  {
    hide UsedKept, HdrAt, FlagAt, Tiled;
    RelistedFlag(h2, h3, b);
    if IsUsed(h2, b) { UsedPrefix(h2, h3, b, n); }
  }

  lemma TrimKept(h: Heap, h2: Heap, h3: Heap, h4: Heap, b: Addr, n: nat)
    requires UsedKept(Tl(false), h, h2, {b}) && UsedKept(Tl(false), h2, h3, {}) && UsedKept(Tl(false), h3, h4, {b})
    requires PrefixKept(h.m, h2.m, b + BHDR_OVERHEAD, n)
      && h4 == StoreHdr(Tl(false), h3, b, At(h3, b).(size := n, free := false))
    ensures UsedKept(Tl(false), h, h4, {b})
    ensures PrefixKept(h2.m, h3.m, b + BHDR_OVERHEAD, n) ==> PrefixKept(h.m, h4.m, b + BHDR_OVERHEAD, n)
  {
    hide UsedKept, PrefixKept, PutHdr, HdrAt;
    UsedKeptTrans(Tl(false), h, h2, h3, {b}, {});
    UsedKeptTrans(Tl(false), h, h3, h4, {b} + {}, {b});
    assert {b} + {} + {b} == {b};
    HdrOutside(h3.m, b, At(h3, b).(size := n, free := false), b + BHDR_OVERHEAD, n);
    if PrefixKept(h2.m, h3.m, b + BHDR_OVERHEAD, n) {
      PrefixTrans(h.m, h2.m, h3.m, b + BHDR_OVERHEAD, n);
      PrefixTrans(h.m, h3.m, h4.m, b + BHDR_OVERHEAD, n);
    }
  }
}
