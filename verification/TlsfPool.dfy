/** The TLSF pool of the kernel port: allocation with growth, release with region return. */
module TlsfPool {
  import opened Bits
  import opened Tiling
  import opened FreeLists
  import opened TwoLevel
  import opened HeapMem
  import opened FreeIndex
  import opened BoundaryTags
  import opened Coalesce
  import opened TlsfMap
  import opened TlsfWide
  import opened TlsfAnswer
  import opened TlsfLimit
  import opened TlsfHeap
  import opened TlsfSteps
  import opened TlsfFit

  /** A header for each used block and its payload. */
  ghost function Total(used: map<Addr, nat>): nat {
    if used == map[] then 0
    else var a :| a in used; used[a] + BHDR_OVERHEAD + Total(used - {a})
  }

  lemma {:induction false} TotalWithout(used: map<Addr, nat>, a: Addr)
    requires a in used
    ensures Total(used) == used[a] + BHDR_OVERHEAD + Total(used - {a})
    decreases |used|
  {
    var b :| b in used && Total(used) == used[b] + BHDR_OVERHEAD + Total(used - {b});
    if b != a {
      TotalWithout(used - {b}, a);
      TotalWithout(used - {a}, b);
      assert used - {b} - {a} == used - {a} - {b};
    }
  }

  lemma TotalWith(used: map<Addr, nat>, a: Addr, n: nat)
    requires a !in used
    ensures Total(used[a := n]) == Total(used) + n + BHDR_OVERHEAD
  {
    TotalWithout(used[a := n], a);
    assert used[a := n] - {a} == used;
  }

  class Pool {
    var mem: Mem<Hdr>
    var flBitmap: nat
    var slBitmap: seq<nat>
    var matrix: seq<Addr>
    var usedSize: nat
    var numRegions: nat
    const initSize: nat
    const maxSize: nat
    const growSize: nat
    ghost var tiles: Tiles
    ghost var index: Index
    ghost var regions: Regions
    ghost var first: Addr

    ghost function H(): Heap
      reads this
    {
      Heap(mem, matrix, flBitmap, slBitmap, tiles, index)
    }

    method InsertBlock(b: Addr, fl: nat, sl: nat, ghost d: Slack)
      requires Ready(H(), regions, d) && b in tiles.ext && b in d.off && b !in d.open && At(H(), b).free
      requires (fl, sl) == MappingInsert(At(H(), b).size)
      modifies `mem, `matrix, `flBitmap, `slBitmap, `index
      ensures Ready(H(), regions, d.(off := d.off - {b})) && Relisted(old(H()), H())
      ensures Filled(index.lists) == old(Filled(index.lists)) + {Flat(fl, sl, MAX_SLI)}
    {
      hide HeapOk, Regioned, SetBit, Flat, MappingInsert, PutLink, Relisted, Filled;
      ListStep(H(), regions, d, b, fl, sl);
      var i := Flat(fl, sl, MAX_SLI);
      var head := matrix[i];
      mem := PutLink(mem, b, Link(0, head), Y());
      if head != 0 {
        mem := PutLink(mem, head, LinkAt(mem.link, head).(prev := b), Y());
      }
      matrix := matrix[i := b];
      slBitmap := slBitmap[fl := SetBit(slBitmap[fl], sl)];
      flBitmap := SetBit(flBitmap, fl);
      FilledMore(index.lists, i, [b] + index.lists[i]);
      index := PushIndex(index, i, b);
      assert H() == Listed(Tl(), old(H()), b, fl, sl);
    }

    /** Takes the head of list (fl, sl). */
    method ExtractBlockHdr(b: Addr, fl: nat, sl: nat, ghost d: Slack)
      requires Ready(H(), regions, d) && b in tiles.ext && b !in d.off && At(H(), b).free && d.open == {}
      requires (fl, sl) == MappingInsert(At(H(), b).size) && Flat(fl, sl, MAX_SLI) < |matrix|
        && matrix[Flat(fl, sl, MAX_SLI)] == b
      modifies `mem, `matrix, `flBitmap, `slBitmap, `index
      ensures Ready(H(), regions, d.(off := d.off + {b})) && Relisted(old(H()), H())
    {
      hide HeapOk, Regioned, ClearBit, Flat, MappingInsert, PutLink, Relisted;
      ghost var h := H();
      ghost var j := FindListed(h, regions, d, b);
      UnlistStep(h, regions, d, b, fl, sl, j);
      var i := Flat(fl, sl, MAX_SLI);
      var next := LinkAt(mem.link, b).next;
      matrix := matrix[i := next];
      if next != 0 {
        mem := PutLink(mem, next, LinkAt(mem.link, next).(prev := 0), Y());
      } else {
        slBitmap := slBitmap[fl := ClearBit(slBitmap[fl], sl)];
        if slBitmap[fl] == 0 {
          flBitmap := ClearBit(flBitmap, fl);
        }
      }
      index := DropIndex(index, b, j);
      assert H() == Unlisted(Tl(), h, b, fl, sl, j);
      ScrubLink(b, h, d.(off := d.off + {b}));
    }

    method ScrubLink(b: Addr, ghost h: Heap, ghost d: Slack)
      requires Ready(H(), regions, d) && b in h.t.ext && b in d.off && d.open == {} && At(h, b).free && Relisted(h, H())
      modifies `mem
      ensures Ready(H(), regions, d) && Relisted(h, H())
    {
      hide HeapOk, Regioned, PutLink, UsedKept, At;
      BlockFacts(H(), regions, d, b);
      ScratchStep(H(), regions, d, b, Link(0, 0));
      RelistedTrans(h, H(), H().(m := PutLink(mem, b, Link(0, 0), Y())));
      mem := PutLink(mem, b, Link(0, 0), Y());
    }

    /** Takes block b out of list (fl, sl), wherever in the list it is. */
    method ExtractBlock(b: Addr, fl: nat, sl: nat, ghost d: Slack)
      requires Ready(H(), regions, d) && b in tiles.ext && b !in d.off && At(H(), b).free && d.open == {}
      requires (fl, sl) == MappingInsert(At(H(), b).size)
      modifies `mem, `matrix, `flBitmap, `slBitmap, `index
      ensures Ready(H(), regions, d.(off := d.off + {b})) && Relisted(old(H()), H())
    {
      hide HeapOk, Regioned, ClearBit, Flat, MappingInsert, PutLink, Relisted;
      ghost var h := H();
      ghost var j := FindListed(h, regions, d, b);
      UnlistStep(h, regions, d, b, fl, sl, j);
      var link := LinkAt(mem.link, b);
      EitherOrder(h, regions, d, b);
      if link.next != 0 {
        mem := PutLink(mem, link.next, LinkAt(mem.link, link.next).(prev := link.prev), Y());
      }
      if link.prev != 0 {
        mem := PutLink(mem, link.prev, LinkAt(mem.link, link.prev).(next := link.next), Y());
      }
      assert mem == CloseMem(h.m, b, Y());
      var i := Flat(fl, sl, MAX_SLI);
      if matrix[i] == b {
        matrix := matrix[i := link.next];
        if link.next == 0 {
          slBitmap := slBitmap[fl := ClearBit(slBitmap[fl], sl)];
          if slBitmap[fl] == 0 {
            flBitmap := ClearBit(flBitmap, fl);
          }
        }
      }
      index := DropIndex(index, b, j);
      assert H() == Unlisted(Tl(), h, b, fl, sl, j);
      ScrubLink(b, h, d.(off := d.off + {b}));
    }

    /** A new region: one free block and the sentinel, in as much of it as the 32-bit size of the
        block tells.  `fault` where that is nothing, or more than 1 GiB: the source then stores
        outside its tables. */
    method AddRegion(region: Addr, regionSize: nat) returns (fault: bool)
      requires Ready(H(), regions, Slack({}, {}, {})) && FreshRegion(tiles, region, regionSize) && region > 0
      requires regionSize % PAGE_SIZE == 0
      modifies `mem, `matrix, `flBitmap, `slBitmap, `index, `tiles, `regions, `usedSize, `numRegions
      ensures Ready(H(), regions, Slack({}, {}, {})) && (fault <==> !RegionSize(regionSize))
      ensures fault ==>
        H() == old(H()) && regions == old(regions) && usedSize == old(usedSize) && numRegions == old(numRegions)
      ensures !fault ==> Joined(old(H()), old(regions), H(), regions, region, UsedLen(regionSize))
      ensures !fault ==>
        Filled(index.lists) == old(Filled(index.lists)) + {ClassIndex(StoredSize(regionSize))}
      ensures !fault ==> RoomLeft(old(tiles), tiles, region, regionSize) && FreeBefore(old(H()), H(), region)
      ensures !fault ==> usedSize == old(usedSize) + BHDR_OVERHEAD && numRegions == old(numRegions) + 1
    {
      hide Ready, MappingInsert, StoredSize, FreshRegion, Filled, RoomLeft, Joined, Split, Tiling.AddRegion, RegionSize,
        FreeBefore;
      var size := StoredSize(regionSize);
      RegionInRange(regionSize);
      SizeInRange(regionSize);
      if MappingInsert(size).0 >= REAL_FLI { return true; }
      fault := false;
      UsedUnits(regionSize);
      FreshShorter(tiles, region, regionSize, UsedLen(regionSize));
      FreshStays(tiles, region, regionSize, UsedLen(regionSize));
      PlaceRegion(region, size);
      usedSize := usedSize + BHDR_OVERHEAD;
      numRegions := numRegions + 1;
    }

    /** The two headers of a new region, the first with so many bytes. */
    method PlaceRegion(region: Addr, size: nat)
      requires Ready(H(), regions, Slack({}, {}, {})) && FreshRegion(tiles, region, size + 2 * BHDR_OVERHEAD)
        && region > 0
      requires size % MEM_ALIGN == 0 && MIN_BLOCK_SIZE <= size && size + 2 * BHDR_OVERHEAD <= TOO_LARGE
      modifies `mem, `matrix, `flBitmap, `slBitmap, `index, `tiles, `regions
      ensures Ready(H(), regions, Slack({}, {}, {}))
      ensures Joined(old(H()), old(regions), H(), regions, region, size + 2 * BHDR_OVERHEAD)
      ensures FreeBefore(old(H()), H(), region)
      ensures Filled(index.lists) == old(Filled(index.lists)) + {ClassIndex(size)}
      ensures var n := size + 2 * BHDR_OVERHEAD; var t := Tiling.AddRegion(old(tiles), region, n);
        region in t.ext && t.ext[region] == n && tiles == Split(t, region, n - BHDR_OVERHEAD)
    {
      hide HeapOk, Regioned, UsedKept, PutHdr, ClassIndex, Split, Tiling.AddRegion, At, FreshRegion, Filled;
      ghost var h, n := H(), size + 2 * BHDR_OVERHEAD;
      GrowStep(h, regions, region, n);
      NewBlockShape(tiles, region, n);
      mem := PutHdr(mem, region, Hdr(size, 0, true, false), Y());
      var last := region + BHDR_OVERHEAD + size;
      mem := PutHdr(mem, last, Hdr(0, region, false, true), Y());
      tiles := Split(Tiling.AddRegion(tiles, region, n), region, n - BHDR_OVERHEAD);
      regions := NewRegion(regions, region, n, last);
      assert H() == WithRegion(h, region, n);
      ghost var h1 := H();
      InsertNew(region, size);
      ListedSince(h, h1, H(), last);
      NewIsFree(h, h1, H(), region, last);
    }

    method InsertNew(b: Addr, size: nat)
      requires Ready(H(), regions, Slack({b}, {}, {})) && b in tiles.ext && At(H(), b).free && At(H(), b).size == size
      modifies `mem, `matrix, `flBitmap, `slBitmap, `index
      ensures Ready(H(), regions, Slack({}, {}, {})) && Relisted(old(H()), H())
      ensures Filled(index.lists) == old(Filled(index.lists)) + {ClassIndex(size)}
    {
      hide HeapOk, Regioned, MappingInsert, Relisted, Filled;
      var (fl, sl) := MappingInsert(size);
      InsertBlock(b, fl, sl, Slack({b}, {}, {}));
      assert {b} - {b} == {};
    }

    /** The sizes the pool was made with. */
    function Sizes(): Limits { Limits(initSize, maxSize, growSize) }

    ghost predicate Valid()
      reads this
    {
      && Ready(H(), regions, Slack({}, {}, {}))
      && usedSize == Total(Live(H())) && numRegions == |regions.len| && growSize % PAGE_SIZE == 0
      && Sized(regions.len, first, Sizes())
    }

    /** A pool without regions; all sizes are rounded up to pages. */
    constructor (init: nat, max: nat, grow: nat)
      ensures Ready(H(), regions, Slack({}, {}, {})) && Live(H()) == map[] && FreshEverywhere(tiles)
        && regions == Regions(map[], map[])
      ensures initSize == RoundUpPage(init) && maxSize == RoundUpPage(max) && growSize == RoundUpPage(grow)
      ensures usedSize == 0 && numRegions == 0 && first == 0
    {
      mem := Mem(map[], map[], map[]);
      flBitmap, slBitmap, matrix := 0, seq(REAL_FLI, _ => 0), seq(REAL_FLI * MAX_SLI, _ => 0);
      usedSize, numRegions := 0, 0;
      initSize, maxSize, growSize := RoundUpPage(init), RoundUpPage(max), RoundUpPage(grow);
      tiles, index := Tiles(map[], map[], {}, {}), Index(seq(REAL_FLI * MAX_SLI, _ => []), map[]);
      regions, first := Regions(map[], map[]), 0;
      new;
      hide Ready, Live, RoundUpPage, FreshEverywhere;
      EmptyReady(H());
    }

    /** tlsf_create_memory_pool.  `given` says whether get_mem has memory for the pool itself, and
        `region` is what it returns for the initial region, 0 for failure. */
    static method Create(init: nat, max: nat, grow: nat, given: bool, region: Addr) returns (pool: Pool?, fault: bool)
      requires init < SIZE_LIMIT && max < SIZE_LIMIT && grow < SIZE_LIMIT && (max != 0 ==> max >= init)
      ensures fault <==> given && region != 0 && !RegionSize(RoundUpPage(init))
      ensures pool == null <==> !given || region == 0 || fault
      ensures pool != null ==> fresh(pool) && pool.Valid()
      ensures pool != null ==>
        pool.initSize == RoundUpPage(init) && pool.maxSize == RoundUpPage(max) && pool.growSize == RoundUpPage(grow)
      ensures pool != null ==> var n := UsedLen(pool.initSize);
        pool.first == region && Live(pool.H()) == map[LastOf(region, n) := 0] && pool.regions.len == map[region := n]
        && n >= 2 * BHDR_OVERHEAD && region in pool.tiles.ext && At(pool.H(), region) == FirstHdr(n)
    {
      hide Ready, Live, RoundUpPage, FreshEverywhere;
      pool, fault := null, false;
      if !given { return; }
      var made := new Pool(init, max, grow);
      if region == 0 { return; }
      WholePages(init);
      WholePages(grow);
      fault := made.FirstRegion(region);
      if !fault { pool := made; }
    }

    method FirstRegion(region: Addr) returns (fault: bool)
      requires region > 0 && Ready(H(), regions, Slack({}, {}, {})) && Live(H()) == map[] && FreshEverywhere(tiles)
      requires initSize % PAGE_SIZE == 0 && regions == Regions(map[], map[])
      requires growSize % PAGE_SIZE == 0 && usedSize == 0 && numRegions == 0
      modifies `mem, `matrix, `flBitmap, `slBitmap, `index, `tiles, `regions, `first, `usedSize, `numRegions
      ensures fault <==> !RegionSize(initSize)
      ensures !fault ==> Valid() && Live(H()) == map[LastOf(region, UsedLen(initSize)) := 0]
      ensures !fault ==> regions.len == map[region := UsedLen(initSize)] && first == region
      ensures !fault ==>
        UsedLen(initSize) >= 2 * BHDR_OVERHEAD && region in tiles.ext && At(H(), region) == FirstHdr(UsedLen(initSize))
    {
      hide Ready, UsedKept, Live, Total, At, FreshRegion;
      ghost var h := H();
      EmptyFresh(h, region, initSize);
      fault := AddRegion(region, initSize);
      if !fault {
        SentinelAdded(h, H(), LastOf(region, UsedLen(initSize)));
        first := region;
        SizedFirst(region, Sizes());
      }
    }

    /** tlsf_malloc.  `supply` is what get_mem would return for grow_size bytes, time after time,
        until it returns NULL; the first `taken` of these regions are asked for.  `fault` where a
        search leaves the tables, where a new region has an impossible size, or where a block is
        found that is too small for the request. */
    method Malloc(size0: nat, supply: seq<Addr>) returns (ptr: Addr, fault: bool, taken: nat)
      requires Valid() && size0 < SIZE_LIMIT && Supplied(tiles, supply, growSize)
      modifies this
      ensures Valid() && taken <= |supply| && first == old(first)
      ensures var a := old(AnswerTo(Filled(index.lists), Request(size0), Sizes(), numRegions, |supply|));
        taken == a.taken && (fault <==> a.Broken?) && (ptr != 0 <==> a.Served?)
      ensures ptr == 0 ==> Enlarged(old(H()), old(regions), H(), regions, supply[..taken], UsedLen(growSize))
      ensures ptr == 0 && taken == 0 ==> H() == old(H()) && regions == old(regions)
      ensures ptr != 0 ==>
        ptr >= BHDR_OVERHEAD && size0 <= MappingSearch(Request(size0)).0
        && regions.len == WithRegions(old(regions).len, supply[..taken], UsedLen(growSize))
      ensures ptr != 0 ==> var n := UsedLen(growSize);
        Granted(old(H()), H(), WithSentinels(old(Live(H())), supply[..taken], n), ptr - BHDR_OVERHEAD,
          MappingSearch(Request(size0)).0, Sentinels(supply[..taken], n))
      ensures ptr != 0 ==>
        Placed(old(H()), supply, taken, ptr - BHDR_OVERHEAD, MappingSearch(Request(size0)).0)
    {
      hide Ready, UsedKept, Live, MappingSearch, MachineSearch, Total, Granted, Filled, Asked, Request, Supplied,
        Enlarged, Below, Flat, MappingInsert, RegionSize, StoredSize, ClassIndex, AnswerTo, HdrAt, WithRegions,
        WithSentinels, Sentinels, NearFit, AllLess, FreeBefore, Placed, Kept, Sized, OnlyLast;
      ghost var h, g := H(), regions;
      var size: nat := Request(size0);
      AskedFirst(size0);
      EnlargedRefl(h, g, supply, UsedLen(growSize));
      taken, fault := 0, false;
      KeptYet(h, supply, MappingSearch(Request(size0)).0);
      ghost var answer := AnswerTo(Filled(index.lists), size, Sizes(), numRegions, |supply|);
      while true
        invariant Valid() && taken <= |supply| && Asked(size, size0) && first == old(first)
        invariant Enlarged(h, g, H(), regions, supply[..taken], UsedLen(growSize))
        invariant Supplied(tiles, supply[taken..], growSize) && (taken == 0 ==> H() == h && regions == g)
        invariant size0 <= LARGEST_REQUEST ==> Kept(h, H(), supply, taken, MappingSearch(Request(size0)).0)
        invariant answer == Later(AnswerTo(Filled(index.lists), size, Sizes(), numRegions, |supply| - taken), taken)
        decreases |supply| - taken
      {
        var start := MachineSearch(size);
        if start == Nowhere {
          AnswerStep(Filled(index.lists), size, Sizes(), numRegions, |supply| - taken);
          return 0, true, taken;
        }
        AskedNext(size, size0);
        AnswerStep(Filled(index.lists), size, Sizes(), numRegions, |supply| - taken);
        var b, fl, sl := Find(size, size0, start);
        size := start.size;
        if b != 0 {
          if size0 <= LARGEST_REQUEST { PlaceOf(h, H(), supply, taken, b, size); }
          ptr, fault := Serve(b, fl, sl, size, size0, h, g, supply[..taken]);
          return ptr, fault, taken;
        }
        if size > (growSize - 2 * BHDR_OVERHEAD) % SIZE_LIMIT { return 0, false, taken; }
        if maxSize != 0 && (initSize + numRegions * growSize) % SIZE_LIMIT > maxSize { return 0, false, taken; }
        if taken == |supply| { return 0, false, taken; }
        fault := Grow(supply, taken, size, h, g);
        if fault { return 0, true, taken; }
        taken := taken + 1;
      }
    }

    /** A search found block b for a request that is now for size bytes. */
    method Serve(b: Addr, fl: nat, sl: nat, size: nat, ghost size0: nat, ghost h: Heap, ghost g: Regions,
        ghost grown: seq<Addr>)
      returns (ptr: Addr, fault: bool)
      requires Valid() && b in tiles.ext && At(H(), b).free
        && (At(H(), b).size >= size > 0 <==> size0 <= LARGEST_REQUEST)
      requires (fl, sl) == MappingInsert(At(H(), b).size) && Flat(fl, sl, MAX_SLI) < |matrix|
        && matrix[Flat(fl, sl, MAX_SLI)] == b
      requires Enlarged(h, g, H(), regions, grown, UsedLen(growSize))
      requires size0 <= LARGEST_REQUEST ==> size == MappingSearch(Request(size0)).0
      modifies `mem, `matrix, `flBitmap, `slBitmap, `index, `tiles, `regions, `usedSize
      ensures Valid() && (fault <==> size0 > LARGEST_REQUEST) && (fault <==> ptr == 0)
      ensures !fault ==> ptr == b + BHDR_OVERHEAD
      ensures fault ==> H() == old(H()) && regions == old(regions)
      ensures !fault ==>
        ptr >= BHDR_OVERHEAD && size0 <= size == MappingSearch(Request(size0)).0
        && regions.len == WithRegions(g.len, grown, UsedLen(growSize))
      ensures !fault ==> Granted(h, H(), WithSentinels(Live(h), grown, UsedLen(growSize)), ptr - BHDR_OVERHEAD, size,
        Sentinels(grown, UsedLen(growSize)))
    {
      hide Ready, UsedKept, Live, MappingSearch, Total, Granted, Request, Enlarged, Flat, MappingInsert, HdrAt,
        Sentinels, WithSentinels, WithRegions, UsedLen;
      if size == 0 || HdrAt(mem, b).size < size { return 0, true; }
      NeedFacts(size0);
      ghost var h1, g1 := H(), regions;
      HandOut(b, fl, sl, size);
      MallocKept(h, g, h1, g1, H(), b, grown, UsedLen(growSize), size);
      ptr, fault := b + BHDR_OVERHEAD, false;
    }

    /** One more region. */
    method Grow(supply: seq<Addr>, taken: nat, ghost need: nat, ghost h: Heap, ghost g: Regions) returns (fault: bool)
      requires MayGrow(Sizes(), numRegions, need)
      requires Valid() && taken < |supply| && Supplied(tiles, supply[taken..], growSize)
      requires Enlarged(h, g, H(), regions, supply[..taken], UsedLen(growSize))
      modifies `mem, `matrix, `flBitmap, `slBitmap, `index, `tiles, `regions, `usedSize, `numRegions
      ensures Valid() && (fault <==> !RegionSize(growSize)) && (fault ==> H() == old(H()) && regions == old(regions))
      ensures !fault ==> numRegions == old(numRegions) + 1
      ensures !fault && old(AllLess(H(), need)) ==> Kept(h, H(), supply, taken + 1, need)
      ensures !fault ==> Filled(index.lists) == old(Filled(index.lists)) + {ClassIndex(StoredSize(growSize))}
      ensures !fault ==> Enlarged(h, g, H(), regions, supply[..taken + 1], UsedLen(growSize))
      ensures !fault ==> Supplied(tiles, supply[taken + 1..], growSize)
    {
      hide Ready, UsedKept, Live, Total, Filled, RoomLeft, FreshRegion, Enlarged, StoredSize, ClassIndex, HdrAt,
        RegionSize, Sized, MayGrow, FreeBefore, AllLess, OnlyLast;
      ghost var h1, g1 := H(), regions;
      var region := supply[taken];
      assert region == supply[taken..][0];
      fault := AddRegion(region, growSize);
      if !fault {
        ghost var n := UsedLen(growSize);
        SentinelAdded(h1, H(), LastOf(region, n));
        SizedMore(g1.len, first, Sizes(), region, need);
        EnlargedMore(h, g, h1, g1, H(), regions, supply, taken, n);
        assert supply[taken..][1..] == supply[taken + 1..];
        SupplyStays(old(tiles), tiles, supply[taken..], growSize);
        if AllLess(h1, need) { RoomOnlyThere(h1, H(), need, region); }
      }
    }

    method Find(ghost r: nat, ghost size0: nat, start: Start) returns (b: Addr, fl: nat, sl: nat)
      requires Ready(H(), regions, Slack({}, {}, {})) && Asked(r, size0) && start != Nowhere
        && start == MachineSearch(r)
      ensures b == 0 <==> Below(Filled(index.lists), Flat(start.fl, start.sl, MAX_SLI))
      ensures size0 <= LARGEST_REQUEST ==> var need := MappingSearch(Request(size0)).0;
        if b != 0 then NearFit(H(), b, need) else AllLess(H(), need)
      ensures b != 0 ==>
        b in tiles.ext && At(H(), b).free
        && (At(H(), b).size >= start.size > 0 <==> size0 <= LARGEST_REQUEST)
      ensures b != 0 ==>
        (fl, sl) == MappingInsert(At(H(), b).size) && Flat(fl, sl, MAX_SLI) < |matrix|
        && matrix[Flat(fl, sl, MAX_SLI)] == b
    {
      hide HeapOk, Regioned, NoneFrom, MachineSearch, MappingInsert, First, At, Flat, Filled, Below, Asked, NearFit,
        AllLess, MappingSearch, Request;
      HeapParts(Tl(), H(), Slack({}, {}, {}));
      StartInside(r);
      FilledFrom(index.lists, Flat(start.fl, start.sl, MAX_SLI));
      b, fl, sl := FindSuitableBlock(flBitmap, slBitmap, matrix, start.fl, start.sl, mem.link, index.lists,
        index.place);
      if b != 0 { FoundFits(H(), regions, r, size0, start, fl, sl); }
      SearchSettles(H(), regions, r, size0, start, b, fl, sl);
    }

    /** The part of an allocation that follows a successful search. */
    method HandOut(b: Addr, fl: nat, sl: nat, size: nat)
      requires Ready(H(), regions, Slack({}, {}, {})) && b in tiles.ext && At(H(), b).free
      requires At(H(), b).size >= size && size % MEM_ALIGN == 0 && size >= MIN_BLOCK_SIZE
      requires (fl, sl) == MappingInsert(At(H(), b).size) && Flat(fl, sl, MAX_SLI) < |matrix|
        && matrix[Flat(fl, sl, MAX_SLI)] == b
      modifies `mem, `matrix, `flBitmap, `slBitmap, `index, `tiles, `regions, `usedSize
      ensures Ready(H(), regions, Slack({}, {}, {})) && UsedKept(Tl(), old(H()), H(), {b})
        && regions.len == old(regions).len
      ensures !IsUsed(old(H()), b) && IsUsed(H(), b) && size <= At(H(), b).size < size + 2 * MEM_ALIGN
      ensures usedSize == old(usedSize) + At(H(), b).size + BHDR_OVERHEAD
    {
      hide HeapOk, Regioned, UsedKept, MappingInsert, HdrAt, PutHdr, Flat, Carved, Relisted;
      ghost var h := H();
      ExtractBlockHdr(b, fl, sl, Slack({}, {}, {}));
      assert {} + {b} == {b};
      ghost var h1 := H();
      TakenSame(h, h1, b);
      BlockFacts(h1, regions, Slack({b}, {}, {}), b);
      var given := HdrAt(mem, b).size;
      if given - size >= BHDR_OVERHEAD + MIN_BLOCK_SIZE {
        CarveSplit(b, size);
        given := size;
      } else {
        CarveWhole(b);
      }
      ghost var h2 := H();
      var c := HdrAt(mem, b).(size := given, free := false);
      UseStep(h2, regions, b, c);
      mem := PutHdr(mem, b, c, Y());
      assert H() == StoreHdr(Tl(), h2, b, c);
      HandOutKept(h, h1, h2, H(), b);
      usedSize := usedSize + HdrAt(mem, b).size + BHDR_OVERHEAD;
    }

    method CarveSplit(b: Addr, size: nat)
      requires Ready(H(), regions, Slack({b}, {}, {})) && b in tiles.ext && At(H(), b).free && size % MEM_ALIGN == 0
      requires At(H(), b).size >= size + BHDR_OVERHEAD + MIN_BLOCK_SIZE && size >= MIN_BLOCK_SIZE
      modifies `mem, `matrix, `flBitmap, `slBitmap, `index, `tiles, `regions
      ensures Ready(H(), regions, Slack({b}, {b}, {b})) && UsedKept(Tl(), old(H()), H(), {b})
        && regions.len == old(regions).len
      ensures At(H(), b) == old(At(H(), b)) && Carved(Tl(), H(), b, Hdr(size, 0, false, false)) && tiles.HasNext(b)
    {
      hide Ready, UsedKept, At, Carved, Renamable, Cut, Relisted, KeptUpTo;
      FourDivides(size);
      ghost var h, g := H(), regions;
      var b2, nextB := CutRest(b, size);
      ghost var h1 := H();
      TellNext(b, b2, nextB);
      ghost var h2 := H();
      ListRest(b, b2);
      CutDone(h, g, h1, h2, H(), b, size);
    }

    /** The block behind the rest is told its name. */
    method TellNext(b: Addr, b2: Addr, nextB: Addr)
      requires Ready(H(), regions, Slack({b, b2}, {b, b2}, {b})) && Renamable(Tl(), H(), b, b2) && b2 in tiles.ext
      requires tiles.HasNext(b2) && tiles.End(b2) == nextB
      modifies `mem
      ensures Ready(H(), regions, Slack({b, b2}, {b}, {b})) && UsedKept(Tl(), old(H()), H(), {})
      ensures At(H(), b2).free && b != b2 && KeptUpTo(old(H()), H(), b2)
    {
      hide Ready, UsedKept, HdrAt, PutHdr, Renamable, SameHdrsBut;
      ghost var h := H();
      RenameStep(h, regions, b, b2);
      mem := PutHdr(mem, nextB, HdrAt(mem, nextB).(prev := b2), Y());
      assert H() == StoreHdr(Tl(), h, nextB, At(h, nextB).(prev := b2));
      RenamedSame(h, H(), b, b2, nextB);
    }

    /** The header of what remains behind the first size bytes. */
    method CutRest(b: Addr, size: nat) returns (b2: Addr, nextB: Addr)
      requires Ready(H(), regions, Slack({b}, {}, {})) && b in tiles.ext && At(H(), b).free && size % MEM_ALIGN == 0
      requires At(H(), b).size >= size + BHDR_OVERHEAD + MIN_BLOCK_SIZE && size >= MIN_BLOCK_SIZE
      modifies `mem, `tiles, `regions
      ensures b2 == b + BHDR_OVERHEAD + size && b2 in tiles.ext && tiles.HasNext(b2) && tiles.End(b2) == nextB
      ensures Ready(H(), regions, Slack({b, b2}, {b, b2}, {b})) && UsedKept(Tl(), old(H()), H(), {b})
        && regions.len == old(regions).len
      ensures Cut(Tl(), old(H()), H(), b, size) && Renamable(Tl(), H(), b, b2)
    {
      hide Ready, UsedKept, HdrAt, PutHdr, Renamable, Cut, Split;
      ghost var h := H();
      RemainderRoom(h, regions, b, size);
      RemainderStep(h, regions, b, size);
      var tmpSize := HdrAt(mem, b).size - size - BHDR_OVERHEAD;
      b2, nextB := b + BHDR_OVERHEAD + size, b + BHDR_OVERHEAD + HdrAt(mem, b).size;
      mem := PutHdr(mem, b2, Hdr(tmpSize, b, true, false), Y());
      tiles, regions := Split(tiles, b, BHDR_OVERHEAD + size), SplitHome(regions, b, b2);
      assert H() == SplitHdr(Tl(), h, b, BHDR_OVERHEAD + size, Hdr(tmpSize, b, true, false));
      CutShape(h, H(), b, size);
    }

    method ListRest(b: Addr, b2: Addr)
      requires Ready(H(), regions, Slack({b, b2}, {b}, {b})) && b2 in tiles.ext && b != b2 && At(H(), b2).free
      modifies `mem, `matrix, `flBitmap, `slBitmap, `index
      ensures Ready(H(), regions, Slack({b}, {b}, {b})) && Relisted(old(H()), H())
    {
      hide HeapOk, Regioned, MappingInsert, Relisted;
      var (fl, sl) := MappingInsert(HdrAt(mem, b2).size);
      InsertBlock(b2, fl, sl, Slack({b, b2}, {b}, {b}));
      assert {b, b2} - {b2} == {b};
    }

    method CarveWhole(b: Addr)
      requires Ready(H(), regions, Slack({b}, {}, {})) && b in tiles.ext && At(H(), b).free
      modifies `mem
      ensures Ready(H(), regions, Slack({b}, {b}, {b})) && UsedKept(Tl(), old(H()), H(), {b})
      ensures At(H(), b) == old(At(H(), b)) && Carved(Tl(), H(), b, Hdr(At(H(), b).size, 0, false, false))
        && tiles.HasNext(b)
    {
      hide HeapOk, Regioned, UsedKept, HdrAt, PutHdr, Carved;
      ghost var h := H();
      BlockFacts(h, regions, Slack({b}, {}, {}), b);
      WholeStep(h, regions, b);
      var nextB := b + BHDR_OVERHEAD + HdrAt(mem, b).size;
      mem := PutHdr(mem, nextB, HdrAt(mem, nextB).(prevFree := false), Y());
      assert H() == StoreHdr(Tl(), h, nextB, At(h, nextB).(prevFree := false));
      UsedKeptMore(Tl(), h, H(), {}, {b});
    }

    /** Release of a block.  Its region goes back as soon as only the sentinel is left in it. */
    method Free(ptr: Addr)
      requires Valid()
      requires ptr != 0 ==>
        ptr >= BHDR_OVERHEAD && ptr - BHDR_OVERHEAD in Live(H()) && Live(H())[ptr - BHDR_OVERHEAD] > 0
      modifies this
      ensures Valid()
      ensures ptr == 0 ==> H() == old(H()) && regions == old(regions)
      ensures ptr != 0 ==> Returned(old(H()), old(regions), H(), regions, ptr - BHDR_OVERHEAD)
      ensures first == if old(first) in regions.len then old(first) else 0
    {
      hide Ready, UsedKept, HdrAt, Live, Total, BetweenUsed, Returned;
      if ptr == 0 { return; }
      var b := ptr - BHDR_OVERHEAD;
      ghost var h, g := H(), regions;
      LiveFacts(h, b);
      TotalWithout(Live(h), b);
      BeginFree(b);
      ghost var h1 := H();
      LiveLoses(Tl(), h, h1, b);
      AbsorbNext(b);
      ghost var h1n := H();
      var m := JoinPrev(b);
      ghost var h2 := H();
      SameLive(h, h1, h1n, h2, b);
      Conclude(m);
      ReturnedBy(h, g, h2, H(), regions, b, m);
    }

    method BeginFree(b: Addr)
      requires Ready(H(), regions, Slack({}, {}, {})) && IsUsed(H(), b) && At(H(), b).size > 0
      requires usedSize >= At(H(), b).size + BHDR_OVERHEAD
      modifies `mem, `usedSize
      ensures Ready(H(), regions, Loose(b)) && UsedKept(Tl(), old(H()), H(), {b}) && b in tiles.ext && At(H(), b).free
      ensures usedSize == old(usedSize) - (old(At(H(), b).size) + BHDR_OVERHEAD)
    {
      hide HeapOk, Regioned, UsedKept, HdrAt, PutHdr, PutLink;
      ghost var h := H();
      MarkFreeStep(h, regions, b);
      mem := PutHdr(mem, b, HdrAt(mem, b).(free := true), Y());
      assert H() == StoreHdr(Tl(), h, b, At(h, b).(free := true));
      usedSize := usedSize - (HdrAt(mem, b).size + BHDR_OVERHEAD);
      ghost var h1 := H();
      BlockFacts(h1, regions, Loose(b), b);
      ScratchStep(h1, regions, Loose(b), b, Link(0, 0));
      mem := PutLink(mem, b, Link(0, 0), Y());
      assert H() == h1.(m := PutLink(h1.m, b, Link(0, 0), Y()));
      UsedKeptTrans(Tl(), h, h1, H(), {b}, {b});
      assert {b} + {b} == {b};
    }

    method TakeOff(b: Addr, ghost d: Slack)
      requires Ready(H(), regions, d) && b in tiles.ext && b !in d.off && At(H(), b).free && d.open == {}
      modifies `mem, `matrix, `flBitmap, `slBitmap, `index
      ensures Ready(H(), regions, d.(off := d.off + {b})) && Relisted(old(H()), H())
    {
      hide Ready, HdrAt, MappingInsert, Relisted;
      var (fl, sl) := MappingInsert(HdrAt(mem, b).size);
      ExtractBlock(b, fl, sl, d);
    }

    /** Makes one block of two neighbours. */
    method Swallow(b: Addr, next: Addr, ghost loose: set<Addr>)
      requires Ready(H(), regions, Slack({b, next}, loose, {})) && loose <= {b, next}
      requires b in tiles.ext && tiles.HasNext(b) && tiles.End(b) == next && next in tiles.ext && tiles.HasNext(next)
      modifies `mem, `tiles
      ensures H() == Coalesce.Swallow(Tl(), old(H()), b) && Ready(H(), regions, Loose(b))
      ensures UsedKept(Tl(), old(H()), H(), {b, next}) && SameHdrsBut(MergeBlocks(old(H()), b), H(), b)
      ensures At(H(), b) == old(At(H(), b)).(size := old(At(H(), b).size + At(H(), next).size) + BHDR_OVERHEAD)
    {
      hide Ready, UsedKept, HdrAt, PutHdr, Merge, SameHdrsBut;
      SwallowStep(H(), regions, b, next, loose);
      var size := HdrAt(mem, b).size + HdrAt(mem, next).size + BHDR_OVERHEAD;
      mem := PutHdr(mem, b, HdrAt(mem, b).(size := size), Y());
      tiles := Merge(tiles, b);
    }

    /** Merges the block with its successor if that is free. */
    method AbsorbNext(b: Addr)
      requires Ready(H(), regions, Loose(b)) && b in tiles.ext && At(H(), b).free
      modifies `mem, `matrix, `flBitmap, `slBitmap, `index, `tiles
      ensures Ready(H(), regions, Loose(b)) && b in tiles.ext && At(H(), b).free
      ensures tiles.HasNext(b) && tiles.End(b) in tiles.ext && !At(H(), tiles.End(b)).free
      ensures UsedKept(Tl(), old(H()), H(), {})
    {
      hide Ready, UsedKept, HdrAt, Merge, Tiled, Relisted, SameHdrsBut;
      ghost var h := H();
      BlockFacts(h, regions, Loose(b), b);
      UsedKeptRefl(Tl(), h);
      var next := b + BHDR_OVERHEAD + HdrAt(mem, b).size;
      if HdrAt(mem, next).free {
        NextIsFree(h, regions, b, next);
        TakeOff(next, Loose(b));
        ghost var h1 := H();
        assert {b} + {next} == {b, next};
        TakenNext(h, h1, b, next);
        ReadyTiled(h1, regions, Slack({b, next}, {b}, {}));
        Swallow(b, next, {b});
        NextMerged(h1, b, next);
        MergedKept(h, h1, H(), b, next);
      }
    }

    /** Merges the block into its predecessor if that is free. */
    method JoinPrev(b: Addr) returns (m: Addr)
      requires Ready(H(), regions, Loose(b)) && b in tiles.ext && At(H(), b).free
      requires tiles.HasNext(b) && tiles.End(b) in tiles.ext && !At(H(), tiles.End(b)).free
      modifies `mem, `matrix, `flBitmap, `slBitmap, `index, `tiles
      ensures Ready(H(), regions, Loose(m)) && m in tiles.ext && At(H(), m).free && BetweenUsed(H(), m)
      ensures m in regions.home && b in regions.home && regions.home[m] == regions.home[b]
      ensures UsedKept(Tl(), old(H()), H(), {})
    {
      hide Ready, UsedKept, HdrAt, Merge, Tiled, Relisted, SameHdrsBut, BetweenUsed;
      ghost var h := H();
      m := b;
      PrevFacts(h, regions, b);
      UsedKeptRefl(Tl(), h);
      if HdrAt(mem, b).prevFree {
        m := HdrAt(mem, b).prev;
        TakeOff(m, Loose(b));
        ghost var h1 := H();
        assert {b} + {m} == {m, b};
        TakenNext(h, h1, m, b);
        Swallow(m, b, {b});
        ReadyTiled(h, regions, Loose(b));
        IntoPrev(h, h1, H(), b, m);
      } else {
        Alone(h, b);
      }
    }

    /** Gives the region back if nothing else is in it, or else lists the merged block. */
    method Conclude(m: Addr)
      requires Ready(H(), regions, Loose(m)) && m in tiles.ext && At(H(), m).free && BetweenUsed(H(), m)
      requires usedSize == Total(Live(H())) && numRegions == |regions.len| && growSize % PAGE_SIZE == 0
        && Sized(regions.len, first, Sizes())
      modifies this
      ensures Valid() && Concluded(old(H()), old(regions), H(), regions, m)
      ensures first == if old(first) in regions.len then old(first) else 0
    {
      hide Ready, UsedKept, HdrAt, PutHdr, Live, Total, BetweenUsed, Concluded, SameHdrsBut;
      ghost var h := H();
      var next := NameNext(m);
      ghost var h1 := H();
      LiveSame(Tl(), h, h1);
      PrevFacts(h1, regions, m);
      if HdrAt(mem, m).prev == 0 && HdrAt(mem, next).size == 0 {
        PutBack(m, next);
        ReleasedConcluded(h, old(regions), h1, H(), regions, m, next);
      } else {
        ListAndSeal(m, next);
        LiveSame(Tl(), h1, H());
        KeptConcluded(h, regions, h1, H(), m);
      }
    }

    method NameNext(m: Addr) returns (next: Addr)
      requires Ready(H(), regions, Loose(m)) && m in tiles.ext && At(H(), m).free && BetweenUsed(H(), m)
      modifies `mem
      ensures Ready(H(), regions, Loose(m)) && At(H(), m).free && BetweenUsed(H(), m)
        && UsedKept(Tl(), old(H()), H(), {})
      ensures tiles.HasNext(m) && tiles.End(m) == next && next in tiles.ext && !At(H(), next).free
    {
      hide Ready, UsedKept, HdrAt, PutHdr, BetweenUsed, SameHdrsBut;
      ghost var h := H();
      BlockFacts(h, regions, Loose(m), m);
      next := m + BHDR_OVERHEAD + HdrAt(mem, m).size;
      PrevHdrStep(h, regions, m);
      mem := PutHdr(mem, next, HdrAt(mem, next).(prev := m), Y());
      assert H() == StoreHdr(Tl(), h, next, At(h, next).(prev := m));
      NamedBetween(h, regions, H(), m, next);
    }

    method PutBack(m: Addr, next: Addr)
      requires Ready(H(), regions, Loose(m)) && m in tiles.ext && m in tiles.firsts && tiles.HasNext(m)
        && tiles.End(m) == next
      requires next in tiles.ext && At(H(), next).size == 0 && At(H(), m).free && !At(H(), next).free
      requires usedSize == Total(Live(H())) && numRegions == |regions.len| && growSize % PAGE_SIZE == 0
        && Sized(regions.len, first, Sizes())
      modifies `tiles, `regions, `first, `usedSize, `numRegions
      ensures first == if old(first) in regions.len then old(first) else 0
      ensures Valid() && m in old(regions).len && regions == Regions(old(regions).len - {m}, old(regions).home)
      ensures next == m + old(regions).len[m] - BHDR_OVERHEAD
      ensures UsedKept(Tl(), old(H()), H(), {next}) && Live(H()) == old(Live(H())) - {next}
    {
      hide Ready, UsedKept, HdrAt, Live, Total, DropRegion, Sized, Merge, WithoutRegion;
      ReleaseDone(H(), regions, m, next);
      usedSize := usedSize - BHDR_OVERHEAD;
      ForgetRegion(m);
    }

    method ForgetRegion(m: Addr)
      requires m in tiles.ext && tiles.End(m) in tiles.ext && m in Merge(tiles, m).ext && m in regions.len
      requires numRegions == |regions.len| && Sized(regions.len, first, Sizes())
      modifies `tiles, `regions, `first, `numRegions
      ensures H() == WithoutRegion(old(H()), m) && regions == Regions(old(regions).len - {m}, old(regions).home)
      ensures numRegions == |regions.len| && Sized(regions.len, first, Sizes())
      ensures first == if old(first) in regions.len then old(first) else 0
    {
      hide DropRegion, Merge, Sized;
      ghost var left := regions.len - {m};
      SizedLess(regions.len, left, first, Sizes(), m);
      first := if m == first then 0 else first;
      numRegions := numRegions - 1;
      tiles, regions := DropRegion(Merge(tiles, m), m), Regions(left, regions.home);
    }

    method ListAndSeal(m: Addr, next: Addr)
      requires Ready(H(), regions, Loose(m)) && m in tiles.ext && tiles.HasNext(m) && tiles.End(m) == next
        && next in tiles.ext
      requires BetweenUsed(H(), m) && At(H(), m).free
      modifies `mem, `matrix, `flBitmap, `slBitmap, `index
      ensures Ready(H(), regions, Slack({}, {}, {})) && UsedKept(Tl(), old(H()), H(), {})
      ensures At(H(), m) == old(At(H(), m))
    {
      hide Ready, UsedKept, HdrAt, PutHdr, BetweenUsed, MappingInsert, Relisted;
      ghost var h := H();
      var (fl, sl) := MappingInsert(HdrAt(mem, m).size);
      InsertBlock(m, fl, sl, Loose(m));
      assert {m} - {m} == {};
      ghost var h1 := H();
      RelistedBetween(h, regions, h1, m);
      SealStep(h1, regions, m);
      mem := PutHdr(mem, next, HdrAt(mem, next).(prevFree := true, prev := m), Y());
      assert H() == StoreHdr(Tl(), h1, next, At(h1, next).(prevFree := true, prev := m));
      ghost var none: set<Addr> := {};
      UsedKeptTrans(Tl(), h, h1, H(), none, none);
      assert none + none == none;
    }
  }

  /** Closing the gap at the successor first or at the predecessor first. */
  function CloseNextFirst(m: Mem<Hdr>, a: Addr): Mem<Hdr> {
    var link := LinkAt(m.link, a);
    var m1 := if link.next != 0 then PutLink(m, link.next, LinkAt(m.link, link.next).(prev := link.prev), Y()) else m;
    if link.prev != 0 then PutLink(m1, link.prev, LinkAt(m1.link, link.prev).(next := link.next), Y()) else m1
  }

  lemma EitherOrder(h: Heap, g: Regions, d: Slack, a: Addr, named: bool := true)
    requires Ready(h, g, d, named) && a in h.t.ext && a !in d.off && At(h, a).free && d.open == {}
    ensures CloseNextFirst(h.m, a) == CloseMem(h.m, a, Y())
  {
    hide HeapOk, Regioned, PutLink, At;
    var j := FindListed(h, g, d, a, named);
    var link := LinkAt(h.m.link, a);
    ReadyTiled(h, g, d, named);
    if link.next != 0 && link.prev != 0 {
      ListedRoom(h, g, d, link.next, named);
      ListedRoom(h, g, d, link.prev, named);
      LinkStoresCommute(h.m, h.t, link.next, LinkAt(h.m.link, link.next).(prev := link.prev),
                        link.prev, LinkAt(h.m.link, link.prev).(next := link.next));
      LinkStoresCommute(h.m, h.t, link.prev, LinkAt(h.m.link, link.prev).(next := link.next),
                        link.next, LinkAt(h.m.link, link.next).(prev := link.prev));
    }
  }

  lemma ListedRoom(h: Heap, g: Regions, d: Slack, a: Addr, named: bool := true)
    requires Ready(h, g, d, named) && a in h.x.place && d.open == {}
    ensures a in h.t.ext && h.t.ext[a] >= BHDR_OVERHEAD + MIN_BLOCK_SIZE && a in h.m.link
  {
    hide Regioned, At, FlagsOk, HdrsOk, Tiled, ListsOk, MapsOk;
    assert ListedAt(Tl(named), h, d.off, a);
    BlockFacts(h, g, d, a, named);
    var j := ListedFacts(h.m.link, h.heads, h.x.lists, h.x.place, a);
  }

  /** The first search for the request finds a block for it. */
  ghost predicate Fits(lists: seq<seq<Addr>>, size: nat) { TryOnce(Filled(lists), Request(size)).Hit? }

  /** The sentinel of a region of n bytes. */
  function LastOf(region: Addr, n: nat): Addr { if n < BHDR_OVERHEAD then 0 else region + n - BHDR_OVERHEAD }

  /** Regions of n bytes at the places in s. */
  ghost function WithRegions(len: map<Addr, nat>, s: seq<Addr>, n: nat): map<Addr, nat> {
    if s == [] then len else WithRegions(len, s[..|s| - 1], n)[s[|s| - 1] := n]
  }

  /** Their sentinels, which are used blocks of no bytes. */
  ghost function Sentinels(s: seq<Addr>, n: nat): set<Addr> { set r | r in s :: LastOf(r, n) }

  ghost function WithSentinels(used: map<Addr, nat>, s: seq<Addr>, n: nat): map<Addr, nat> {
    if s == [] then used else WithSentinels(used, s[..|s| - 1], n)[LastOf(s[|s| - 1], n) := 0]
  }

  /** Between h and h' regions of n bytes joined at the places in s, and nothing else happened to
      the used blocks. */
  ghost predicate Enlarged(h: Heap, g: Regions, h': Heap, g': Regions, s: seq<Addr>, n: nat) {
    && UsedKept(Tl(), h, h', Sentinels(s, n)) && Live(h') == WithSentinels(Live(h), s, n)
    && g'.len == WithRegions(g.len, s, n)
  }

  lemma EnlargedRefl(h: Heap, g: Regions, s: seq<Addr>, n: nat)
    ensures Enlarged(h, g, h, g, s[..0], n)
  {
    hide UsedKept, Live;
    UsedKeptRefl(Tl(), h);
    UsedKeptMore(Tl(), h, h, {}, Sentinels(s[..0], n));
  }

  lemma EnlargedMore(h: Heap, g: Regions, h1: Heap, g1: Regions, h2: Heap, g2: Regions, s: seq<Addr>, k: nat, n: nat)
    requires k < |s| && Enlarged(h, g, h1, g1, s[..k], n)
    requires UsedKept(Tl(), h1, h2, {LastOf(s[k], n)}) && Live(h2) == Live(h1)[LastOf(s[k], n) := 0]
      && g2.len == g1.len[s[k] := n]
    ensures Enlarged(h, g, h2, g2, s[..k + 1], n)
  {
    hide UsedKept, Live, LastOf;
    var l := s[..k + 1];
    assert l[..|l| - 1] == s[..k] && l == s[..k] + [s[k]];
    UsedKeptTrans(Tl(), h, h1, h2, Sentinels(s[..k], n), {LastOf(s[k], n)});
    UsedKeptMore(Tl(), h, h2, Sentinels(s[..k], n) + {LastOf(s[k], n)}, Sentinels(l, n));
  }

  predicate Separate(lo: Addr, len: nat, lo2: Addr, len2: nat) { lo + len <= lo2 || lo2 + len2 <= lo }

  /** All free space of t that is apart from the region is free space of t', too. */
  ghost predicate RoomLeft(t: Tiles, t': Tiles, region: Addr, len: nat) {
    forall lo, k {:trigger FreshRegion(t', lo, k)} ::
      FreshRegion(t, lo, k) && Separate(lo, k, region, len) ==> FreshRegion(t', lo, k)
  }

  /** Memory that the system can give: regions of len bytes, none of them in use or in another. */
  ghost predicate Supplied(t: Tiles, s: seq<Addr>, len: nat) {
    && (forall i :: 0 <= i < |s| ==> s[i] > 0 && FreshRegion(t, s[i], len))
    && (forall i, j :: 0 <= i < j < |s| ==> Separate(s[i], len, s[j], len))
  }

  lemma SupplyStays(t: Tiles, t': Tiles, s: seq<Addr>, len: nat)
    requires s != [] && Supplied(t, s, len)
    requires RoomLeft(t, t', s[0], len)
    ensures Supplied(t', s[1..], len)
  {
    hide FreshRegion;
    forall i | 0 <= i < |s[1..]| ensures s[1..][i] > 0 && FreshRegion(t', s[1..][i], len) {
      assert s[1..][i] == s[i + 1] && Separate(s[0], len, s[i + 1], len);
    }
  }

  lemma FreshShorter(t: Tiles, lo: Addr, len: nat, n: nat)
    requires FreshRegion(t, lo, len) && n <= len
    ensures FreshRegion(t, lo, n)
  {
  }

  /** Other free space stays free space when part of a region is put to use. */
  lemma FreshStays(t: Tiles, region: Addr, len: nat, n: nat)
    requires 2 * BHDR_OVERHEAD < n <= len
    ensures region in Tiling.AddRegion(t, region, n).ext
      && 0 < n - BHDR_OVERHEAD < Tiling.AddRegion(t, region, n).ext[region]
    ensures RoomLeft(t, Split(Tiling.AddRegion(t, region, n), region, n - BHDR_OVERHEAD), region, len)
  {
  }

  lemma UsedUnits(n: nat)
    requires n % PAGE_SIZE == 0 && RegionSize(n)
    ensures UsedLen(n) <= n && UsedLen(n) % MEM_ALIGN == 0 && UsedLen(n) >= PAGE_SIZE
  {
    hide RegionSize;
    assert UsedLen(n) > 0 by { PositiveLen(n); }
    var q := n / PAGE_SIZE;
    assert n == PAGE_SIZE * q;
    ModOfMod(n, 0x10_0000, PAGE_SIZE);
    PageUnits(UsedLen(n));
  }

  lemma SizeInRange(n: nat)
    ensures RegionSize(n) <==> 0 < n % WORD_LIMIT <= TOO_LARGE
  {
  }

  lemma PositiveLen(n: nat)
    requires RegionSize(n)
    ensures UsedLen(n) > 0
  {
  }

  /** Between h and h' a region joined: all of it free, but for its sentinel. */
  ghost predicate Joined(h: Heap, g: Regions, h': Heap, g': Regions, region: Addr, n: nat) {
    && n >= 2 * BHDR_OVERHEAD && var last := LastOf(region, n);
      && UsedKept(Tl(), h, h', {last}) && IsUsed(h', last) && At(h', last).size == 0 && !IsUsed(h, last)
      && region in h'.t.ext && At(h', region) == FirstHdr(n) && g' == NewRegion(g, region, n, last) && region !in g.len
  }

  lemma NeedFacts(size0: nat)
    requires size0 <= LARGEST_REQUEST
    ensures var need := MappingSearch(Request(size0)).0;
      need % MEM_ALIGN == 0 && need >= MIN_BLOCK_SIZE && need >= size0
  {
    hide MappingSearch, Request;
    RequestIs(size0);
    SearchAligned(Request(size0));
    SearchRounds(Request(size0));
  }

  lemma PageUnits(n: nat)
    requires n % PAGE_SIZE == 0
    ensures n % MEM_ALIGN == 0 && (n > 0 ==> n >= PAGE_SIZE)
  {
    assert n == 16 * (256 * (n / 4096));
  }

  lemma ListedSince(h: Heap, h1: Heap, h2: Heap, last: Addr)
    requires UsedKept(Tl(), h, h1, {last}) && Relisted(h1, h2) && last in h1.t.ext && last !in h.t.ext
    ensures UsedKept(Tl(), h, h2, {last}) && At(h2, last) == At(h1, last) && !IsUsed(h, last)
    ensures forall b :: b in h1.t.ext ==> At(h2, b) == At(h1, b)
  {
    hide UsedKept, At;
    UsedKeptTrans(Tl(), h, h1, h2, {last}, {});
    assert {last} + {} == {last};
  }

  lemma NewIsFree(h: Heap, h1: Heap, h2: Heap, region: Addr, last: Addr)
    requires forall b :: b in h1.t.ext ==> b == region || b == last || (b in h.t.ext && At(h1, b) == At(h, b))
    requires Relisted(h1, h2) && last in h1.t.ext && !At(h1, last).free
    ensures FreeBefore(h, h2, region)
  {
    hide At, UsedKept;
  }

  lemma SentinelAdded(h: Heap, h1: Heap, last: Addr)
    requires UsedKept(Tl(), h, h1, {last}) && IsUsed(h1, last) && At(h1, last).size == 0 && !IsUsed(h, last)
    ensures Live(h1) == Live(h)[last := 0] && Total(Live(h1)) == Total(Live(h)) + BHDR_OVERHEAD
  {
    hide UsedKept, Total;
    LiveGains(Tl(), h, h1, last);
    TotalWith(Live(h), last, 0);
  }

  /** A search that starts does so inside the tables. */
  lemma StartInside(r: nat)
    requires MachineSearch(r) != Nowhere
    ensures MachineSearch(r).fl < REAL_FLI && MachineSearch(r).sl < MAX_SLI
  {
    hide Log2, Pow2, Shr, AndNot, IntOf;
  }

  /** The head of the list where the search stopped can serve the request, unless that is too
      large for any block. */
  lemma FoundFits(h: Heap, g: Regions, r: nat, size0: nat, q: Start, fl: nat, sl: nat, named: bool := true)
    requires Ready(h, g, Slack({}, {}, {}), named) && Asked(r, size0) && q != Nowhere && q == MachineSearch(r)
    requires fl < REAL_FLI && sl < MAX_SLI && First(h.x.lists, Flat(q.fl, q.sl, MAX_SLI), Flat(fl, sl, MAX_SLI))
    ensures Flat(fl, sl, MAX_SLI) < |h.heads|
    ensures var b := h.heads[Flat(fl, sl, MAX_SLI)];
      && b in h.t.ext && At(h, b).free && (fl, sl) == MappingInsert(At(h, b).size)
      && (At(h, b).size >= q.size > 0 <==> size0 <= LARGEST_REQUEST)
  {
    hide Regioned, At, FlagsOk, HdrsOk, Tiled, ListsOk, MapsOk, MappingSearch, MachineSearch, MappingInsert, Flat,
      Asked,
      Request;
    HeadFacts(h.m.link, h.heads, h.x.lists, h.x.place, Flat(fl, sl, MAX_SLI));
    var b := h.heads[Flat(fl, sl, MAX_SLI)];
    assert ListedAt(Tl(named), h, {}, b);
    BlockFacts(h, g, Slack({}, {}, {}), b, named);
    ClassOf(At(h, b).size);
    FlatUnique(fl, sl, MappingInsert(At(h, b).size).0, MappingInsert(At(h, b).size).1, MAX_SLI);
    AskedNext(r, size0);
    if size0 <= LARGEST_REQUEST {
      RequestIs(size0);
      GoodFit(Request(size0), At(h, b).size);
    }
  }

  /** The block that serves a request: a near fit of the heap before the call, or the block of the
      region that the pool has grown by last. */
  ghost predicate Placed(h: Heap, supply: seq<Addr>, taken: nat, b: Addr, need: nat)
    requires taken <= |supply|
  {
    if taken == 0 then NearFit(h, b, need) else b == supply[taken - 1]
  }

  /** What an allocation knows between two searches. */
  ghost predicate Kept(h: Heap, h': Heap, supply: seq<Addr>, taken: nat, need: nat)
    requires taken <= |supply|
  {
    if taken == 0 then h' == h else OnlyLast(h', need, supply[taken - 1])
  }

  lemma KeptYet(h: Heap, supply: seq<Addr>, need: nat)
    ensures Kept(h, h, supply, 0, need)
  {
  }

  lemma PlaceOf(h: Heap, h': Heap, supply: seq<Addr>, taken: nat, b: Addr, need: nat)
    requires taken <= |supply| && Kept(h, h', supply, taken, need) && NearFit(h', b, need)
    ensures Placed(h, supply, taken, b, need)
  {
    hide NearFit, OnlyLast;
    if taken > 0 { NearOnly(h', b, need, supply[taken - 1]); }
  }

  /** What the search has found, or not found. */
  lemma SearchSettles(h: Heap, g: Regions, r: nat, size0: nat, q: Start, b: Addr, fl: nat, sl: nat, named: bool := true)
    requires Ready(h, g, Slack({}, {}, {}), named) && Asked(r, size0) && q != Nowhere && q == MachineSearch(r)
    requires b == 0 ==> NoneFrom(h.x.lists, Flat(q.fl, q.sl, MAX_SLI))
    requires b != 0 ==> First(h.x.lists, Flat(q.fl, q.sl, MAX_SLI), Flat(fl, sl, MAX_SLI))
    requires b != 0 ==> b in h.t.ext && At(h, b).free && (fl, sl) == MappingInsert(At(h, b).size)
    requires b != 0 && size0 <= LARGEST_REQUEST ==> At(h, b).size >= q.size
    ensures size0 <= LARGEST_REQUEST ==> var need := MappingSearch(Request(size0)).0;
      if b != 0 then NearFit(h, b, need) else AllLess(h, need)
  {
    hide Ready, HdrAt, MappingSearch, MachineSearch, MappingInsert, Flat, Asked, Request, NearFit, AllLess, First,
      NoneFrom;
    AskedNext(r, size0);
    if size0 <= LARGEST_REQUEST {
      if b != 0 { FoundNear(h, g, size0, b, Flat(fl, sl, MAX_SLI), named); } else { NoneListed(h, g, size0, named); }
    }
  }

  /** A request is served from the lists exactly if some free block has room for it, rounded. */
  lemma FitsExactly(h: Heap, g: Regions, size0: nat, named: bool := true)
    requires Ready(h, g, Slack({}, {}, {}), named) && size0 < SIZE_LIMIT
    ensures Fits(h.x.lists, size0) <==>
      size0 <= LARGEST_REQUEST
      && exists a :: a in h.t.ext && At(h, a).free && MappingSearch(Request(size0)).0 <= At(h, a).size
  {
    hide Ready, HdrAt, MappingSearch, TryOnce, Filled, Below, Request, Flat;
    if size0 <= LARGEST_REQUEST {
      TryOrdinary(Filled(h.x.lists), size0);
      var (need, fl, sl) := MappingSearch(Request(size0));
      FilledFrom(h.x.lists, Flat(fl, sl, MAX_SLI));
      if Fits(h.x.lists, size0) { var a := FitsBlock(h, g, size0, named); }
      forall a | a in h.t.ext && At(h, a).free && MappingSearch(Request(size0)).0 <= At(h, a).size
        ensures Fits(h.x.lists, size0)
      {
        FreeFits(h, g, a, size0, named);
      }
    } else {
      TryWide(Filled(h.x.lists), size0);
    }
  }

  /** A free block that is large enough is on a list that the search reaches. */
  lemma FreeFits(h: Heap, g: Regions, a: Addr, size0: nat, named: bool := true)
    requires Ready(h, g, Slack({}, {}, {}), named) && a in h.t.ext && At(h, a).free && size0 <= LARGEST_REQUEST
    requires MappingSearch(Request(size0)).0 <= At(h, a).size
    ensures !NoneFrom(h.x.lists, Flat(MappingSearch(Request(size0)).1, MappingSearch(Request(size0)).2, MAX_SLI))
  {
    hide Regioned, At, FlagsOk, HdrsOk, Tiled, ListsOk, MapsOk, MappingSearch, MappingInsert, Flat, Request;
    var j := FindListed(h, g, Slack({}, {}, {}), a, named);
    RequestIs(size0);
    GoodFit(Request(size0), At(h, a).size);
    assert NonEmpty(h.x.lists, h.x.place[a]);
  }

  /** Where a list serves the request, one of its blocks is large enough for it. */
  lemma FitsBlock(h: Heap, g: Regions, size0: nat, named: bool := true) returns (a: Addr)
    requires Ready(h, g, Slack({}, {}, {}), named) && size0 <= LARGEST_REQUEST
    requires !NoneFrom(h.x.lists, Flat(MappingSearch(Request(size0)).1, MappingSearch(Request(size0)).2, MAX_SLI))
    ensures a in h.t.ext && At(h, a).free && MappingSearch(Request(size0)).0 <= At(h, a).size
  {
    hide Regioned, At, FlagsOk, HdrsOk, Tiled, MapsOk, MappingSearch, MappingInsert, Flat, Request;
    var i: nat :| Flat(MappingSearch(Request(size0)).1, MappingSearch(Request(size0)).2, MAX_SLI) <= i
      && NonEmpty(h.x.lists, i);
    HeadFacts(h.m.link, h.heads, h.x.lists, h.x.place, i);
    a := h.heads[i];
    assert ListedAt(Tl(named), h, {}, a);
    RequestIs(size0);
    GoodFit(Request(size0), At(h, a).size);
  }

  lemma TakenSame(h: Heap, h1: Heap, b: Addr, named: bool := true)
    requires Relisted(h, h1, named) && b in h.t.ext
    ensures At(h1, b) == At(h, b) && h1.t == h.t && UsedKept(Tl(named), h, h1, {})
  {
  }

  lemma CutShape(h: Heap, h1: Heap, b: Addr, size: nat)
    requires Cut(Tl(), h, h1, b, size)
    ensures b + BHDR_OVERHEAD + size in h1.t.ext && h1.t.End(b + BHDR_OVERHEAD + size) == h.t.End(b)
  {
  }

  ghost predicate KeptUpTo(h: Heap, h': Heap, e: Addr) {
    forall x {:trigger At(h', x)} :: x in h.t.ext && x <= e ==> At(h', x) == At(h, x)
  }

  lemma RenamedSame(h1: Heap, h2: Heap, b: Addr, b2: Addr, nextB: Addr)
    requires Renamable(Tl(), h1, b, b2) && h1.t.HasNext(b2) && h1.t.End(b2) == nextB && SameHdrsBut(h1, h2, nextB)
      && h2.t == h1.t
    ensures At(h2, b2).free && b2 in h2.t.ext && b != b2
    ensures KeptUpTo(h1, h2, b2)
  {
    hide At;
  }

  lemma CutDone(h: Heap, g: Regions, h1: Heap, h2: Heap, h3: Heap, b: Addr, size: nat)
    requires Ready(h, g, Slack({b}, {}, {})) && Cut(Tl(), h, h1, b, size) && At(h, b).free && size % 4 == 0
    requires h2.t == h1.t && KeptUpTo(h1, h2, b + BHDR_OVERHEAD + size)
    requires Relisted(h2, h3) && UsedKept(Tl(), h, h1, {b}) && UsedKept(Tl(), h1, h2, {})
    ensures Carved(Tl(), h3, b, Hdr(size, 0, false, false)) && At(h3, b) == At(h, b) && h3.t.HasNext(b)
    ensures UsedKept(Tl(), h, h3, {b})
  {
    hide HeapOk, Regioned, At, UsedKept, Split, Carved;
    CutCarved(Tl(), h, h1, h3, b, size);
    ReadyTiled(h, g, Slack({b}, {}, {}));
    CutFacts(h.t, b, BHDR_OVERHEAD + size);
    UsedKeptTrans(Tl(), h, h1, h2, {b}, {});
    UsedKeptTrans(Tl(), h, h2, h3, {b} + {}, {});
    assert {b} + {} + {} == {b};
  }

  lemma HandOutKept(h: Heap, h1: Heap, h2: Heap, h3: Heap, b: Addr, named: bool := true)
    requires UsedKept(Tl(named), h, h1, {}) && UsedKept(Tl(named), h1, h2, {b}) && UsedKept(Tl(named), h2, h3, {b})
    ensures UsedKept(Tl(named), h, h3, {b})
  {
    hide UsedKept;
    UsedKeptTrans(Tl(named), h, h1, h2, {}, {b});
    UsedKeptTrans(Tl(named), h, h2, h3, {} + {b}, {b});
    assert {} + {b} + {b} == {b};
  }

  /** Between h and h' block b with a payload of at least need bytes, and hardly more, was
      added to the used blocks; the others, but for those in e, are as they were. */
  ghost predicate Granted(h: Heap, h': Heap, before: map<Addr, nat>, b: Addr, need: nat, e: set<Addr>) {
    && b !in before && b in Live(h') && need <= Live(h')[b] < need + 2 * MEM_ALIGN
    && Live(h') == before[b := Live(h')[b]] && UsedKept(Tl(), h, h', e + {b})
  }

  lemma MallocKept(h: Heap, g: Regions, h1: Heap, g1: Regions, h2: Heap, b: Addr, s: seq<Addr>, n: nat, need: nat)
    requires Enlarged(h, g, h1, g1, s, n)
    requires UsedKept(Tl(), h1, h2, {b}) && !IsUsed(h1, b) && IsUsed(h2, b)
      && need <= At(h2, b).size < need + 2 * MEM_ALIGN
    ensures Granted(h, h2, WithSentinels(Live(h), s, n), b, need, Sentinels(s, n))
    ensures Total(Live(h2)) == Total(Live(h1)) + At(h2, b).size + BHDR_OVERHEAD
    ensures g1.len == WithRegions(g.len, s, n)
  {
    hide UsedKept, Total, Sentinels, WithSentinels;
    UsedKeptTrans(Tl(), h, h1, h2, Sentinels(s, n), {b});
    LiveGains(Tl(), h1, h2, b);
    TotalWith(Live(h1), b, At(h2, b).size);
  }

  // ---------------------------------------------------------------- release

  lemma LiveFacts(h: Heap, a: Addr)
    ensures a in Live(h) <==> IsUsed(h, a)
    ensures a in Live(h) ==> Live(h)[a] == At(h, a).size
  {
  }

  lemma SameLive(h: Heap, h1: Heap, h1n: Heap, h2: Heap, b: Addr, named: bool := true)
    requires UsedKept(Tl(named), h, h1, {b}) && UsedKept(Tl(named), h1, h1n, {}) && UsedKept(Tl(named), h1n, h2, {})
    ensures UsedKept(Tl(named), h, h2, {b}) && Live(h2) == Live(h1)
  {
    hide UsedKept;
    LiveSame(Tl(named), h1, h1n);
    LiveSame(Tl(named), h1n, h2);
    UsedKeptTrans(Tl(named), h, h1, h1n, {b}, {});
    UsedKeptTrans(Tl(named), h, h1n, h2, {b} + {}, {});
    assert {b} + {} + {} == {b};
  }

  lemma TakenNext(h: Heap, h1: Heap, a: Addr, b: Addr, named: bool := true)
    requires Relisted(h, h1, named) && a in h.t.ext && b in h.t.ext
    ensures h1.t == h.t && At(h1, a) == At(h, a) && At(h1, b) == At(h, b)
    ensures forall x :: x in h.t.ext ==> At(h1, x) == At(h, x)
  {
    hide At;
  }

  lemma MergedKept(h: Heap, h1: Heap, h2: Heap, a: Addr, b: Addr, named: bool := true)
    requires Relisted(h, h1, named) && UsedKept(Tl(named), h1, h2, {a, b}) && At(h, a).free && At(h, b).free
      && At(h2, a).free
    requires a in h1.t.ext && h1.t.End(a) == b && b in h1.t.ext && a != b && h2.t == Merge(h1.t, a)
    ensures UsedKept(Tl(named), h, h2, {})
  {
    hide UsedKept, HdrAt;
    UsedKeptTrans(Tl(named), h, h1, h2, {}, {a, b});
    UsedKeptFree(Tl(named), h, h2, {} + {a, b}, b);
    UsedKeptFree(Tl(named), h, h2, {} + {a, b} - {b}, a);
    assert {} + {a, b} - {b} - {a} == {};
  }

  lemma IntoPrev(h: Heap, h1: Heap, h2: Heap, a: Addr, p: Addr, named: bool := true)
    requires Tiled(h.t) && Relisted(h, h1, named) && p in h1.t.ext && h1.t.HasNext(p) && h1.t.End(p) == a
      && a in h1.t.ext && p < a
    requires h2 == Coalesce.Swallow(Tl(named), h1, p) && SameHdrsBut(MergeBlocks(h1, p), h2, p) && At(h, p).free
      && At(h, a).free
    requires At(h2, p) == At(h1, p).(size := At(h2, p).size) && UsedKept(Tl(named), h1, h2, {p, a})
    requires p !in h.t.firsts ==> p in h.t.pred && !At(h, h.t.pred[p]).free
    requires h.t.HasNext(a) ==> h.t.End(a) in h.t.ext && !At(h, h.t.End(a)).free
    ensures p in h2.t.ext && BetweenUsed(h2, p) && At(h2, p).free && UsedKept(Tl(named), h, h2, {})
  {
    hide UsedKept, HdrAt, Tiled, BetweenUsed, PutHdr;
    assert At(h1, p) == At(h, p);
    if p !in h.t.firsts { PredFacts(h.t, p); assert At(h1, h.t.pred[p]) == At(h, h.t.pred[p]); }
    if h.t.HasNext(a) { assert At(h1, h.t.End(a)) == At(h, h.t.End(a)); }
    SwallowNeighbours(Tl(named), h1, p);
    MergedKept(h, h1, h2, p, a, named);
  }

  lemma Alone(h: Heap, a: Addr)
    requires a in h.t.ext && (a !in h.t.firsts ==> a in h.t.pred && !At(h, h.t.pred[a]).free)
    requires h.t.HasNext(a) && !At(h, h.t.End(a)).free
    ensures BetweenUsed(h, a)
  {
  }

  lemma NamedBetween(h: Heap, g: Regions, h1: Heap, m: Addr, next: Addr)
    requires Ready(h, g, Loose(m)) && m in h.t.ext && h.t.HasNext(m) && h.t.End(m) == next && next in h.t.ext
      && BetweenUsed(h, m)
    requires SameHdrsBut(h, h1, next) && At(h1, next) == At(h, next).(prev := m) && h1.t == h.t
    ensures BetweenUsed(h1, m) && At(h1, m) == At(h, m) && At(h1, next).size == At(h, next).size && !At(h1, next).free
  {
    hide HeapOk, Regioned, At;
    Neighbours(Tl(), h, Loose(m), m);
    if m !in h.t.firsts { assert At(h1, h.t.pred[m]) == At(h, h.t.pred[m]); }
  }

  lemma RelistedBetween(h: Heap, g: Regions, h1: Heap, m: Addr, named: bool := true)
    requires Ready(h, g, Loose(m), named) && m in h.t.ext && Relisted(h, h1, named) && BetweenUsed(h, m)
      && h.t.HasNext(m) && h.t.End(m) in h.t.ext
    ensures BetweenUsed(h1, m) && At(h1, m) == At(h, m) && UsedKept(Tl(named), h, h1, {}) && h1.t == h.t
    ensures At(h1, h.t.End(m)) == At(h, h.t.End(m))
  {
    hide HeapOk, Regioned, At, UsedKept;
    Neighbours(Tl(named), h, Loose(m), m);
    if m !in h.t.firsts { assert At(h1, h.t.pred[m]) == At(h, h.t.pred[m]); }
  }

  /** Some used block other than the sentinel lies in region lo. */
  ghost predicate InUse(h: Heap, g: Regions, lo: Addr) {
    exists u :: u in Live(h) && Live(h)[u] > 0 && u in g.home && g.home[u] == lo
  }

  /** What the end of a release does to the regions and to the used blocks: region lo, and
      with it its sentinel, is held on to exactly if it is still in use. */
  ghost predicate Concluded(h: Heap, g: Regions, h': Heap, g': Regions, m: Addr) {
    && m in g.home && g.home[m] in g.len && g'.home == g.home
    && var lo := g.home[m]; var last := LastOf(lo, g.len[lo]);
      if InUse(h', g, lo) then g'.len == g.len && Live(h') == Live(h) && UsedKept(Tl(), h, h', {})
      else g'.len == g.len - {lo} && Live(h') == Live(h) - {last} && UsedKept(Tl(), h, h', {last})
  }

  ghost predicate Returned(h: Heap, g: Regions, h': Heap, g': Regions, b: Addr) {
    && b in g.home && g.home[b] in g.len && g'.home == g.home
    && var lo := g.home[b]; var last := LastOf(lo, g.len[lo]);
      if InUse(h', g, lo) then g'.len == g.len && Live(h') == Live(h) - {b} && UsedKept(Tl(), h, h', {b})
      else g'.len == g.len - {lo} && Live(h') == Live(h) - {b} - {last} && UsedKept(Tl(), h, h', {b, last})
  }

  lemma ReturnedBy(h: Heap, g: Regions, h2: Heap, h': Heap, g': Regions, b: Addr, m: Addr)
    requires UsedKept(Tl(), h, h2, {b}) && Live(h2) == Live(h) - {b} && Concluded(h2, g, h', g', m)
    requires m in g.home && b in g.home && g.home[m] == g.home[b]
    ensures Returned(h, g, h', g', b)
  {
    hide UsedKept, Live, InUse;
    var lo := g.home[b];
    var last := LastOf(lo, g.len[lo]);
    if InUse(h', g, lo) {
      UsedKeptTrans(Tl(), h, h2, h', {b}, {});
      assert {b} + {} == {b};
    } else {
      UsedKeptTrans(Tl(), h, h2, h', {b}, {last});
      assert {b} + {last} == {b, last};
    }
  }

  lemma ReleaseDone(h: Heap, g: Regions, m: Addr, next: Addr)
    requires Ready(h, g, Loose(m)) && m in h.t.ext && m in h.t.firsts && h.t.HasNext(m) && h.t.End(m) == next
    requires next in h.t.ext && At(h, next).size == 0 && At(h, m).free && !At(h, next).free
    ensures var h' := WithoutRegion(h, m);
      && Ready(h', Regions(g.len - {m}, g.home), Slack({}, {}, {})) && UsedKept(Tl(), h, h', {next})
      && Live(h') == Live(h) - {next} && Total(Live(h)) == Total(Live(h')) + BHDR_OVERHEAD
    ensures m in g.len && next == m + g.len[m] - BHDR_OVERHEAD
    ensures m in Merge(h.t, m).ext
  {
    hide Ready, UsedKept, HdrAt, Live, Total, WithoutRegion;
    ReleaseStep(h, g, m);
    BlockFacts(h, g, Loose(m), m);
    BlockFacts(h, g, Loose(m), next);
    LiveFacts(h, next);
    TotalWithout(Live(h), next);
    var h' := WithoutRegion(h, m);
    UsedKeptFree(Tl(), h, h', {m, next}, m);
    assert {m, next} - {m} == {next};
    LiveLoses(Tl(), h, h', next);
  }

  lemma ReleasedConcluded(h: Heap, g: Regions, h1: Heap, h': Heap, g': Regions, m: Addr, next: Addr)
    requires UsedKept(Tl(), h, h1, {}) && Live(h1) == Live(h) && UsedKept(Tl(), h1, h', {next})
      && Live(h') == Live(h1) - {next}
    requires m in g.home && g.home[m] == m && m in g.len && g' == Regions(g.len - {m}, g.home)
      && m + g.len[m] == next + BHDR_OVERHEAD
    requires next >= m && Ready(h', g', Slack({}, {}, {}))
    ensures Concluded(h, g, h', g', m)
  {
    hide UsedKept, HeapOk, Regioned;
    UsedKeptTrans(Tl(), h, h1, h', {}, {next});
    assert {} + {next} == {next};
    if InUse(h', g, m) {
      var u :| u in Live(h') && Live(h')[u] > 0 && u in g.home && g.home[u] == m;
      RegionOf(h', g', u);
    }
  }

  /** The used neighbour of the free block keeps the region in use. */
  lemma KeptConcluded(h: Heap, g: Regions, h1: Heap, h': Heap, m: Addr)
    requires UsedKept(Tl(), h, h1, {}) && UsedKept(Tl(), h1, h', {}) && Live(h1) == Live(h) && Live(h') == Live(h1)
    requires Ready(h1, g, Loose(m)) && m in h1.t.ext && BetweenUsed(h1, m) && h1.t.HasNext(m)
    requires !(At(h1, m).prev == 0 && At(h1, h1.t.End(m)).size == 0)
    ensures Concluded(h, g, h', g, m)
  {
    hide UsedKept, HeapOk, At, Live;
    ghost var none: set<Addr> := {};
    UsedKeptTrans(Tl(), h, h1, h', none, none);
    assert none + none == none;
    PrevFacts(h1, g, m);
    BlockFacts(h1, g, Loose(m), m);
    RegionOf(h1, g, m);
    var next := h1.t.End(m);
    Neighbours(Tl(), h1, Loose(m), m);
    RegionOf(h1, g, next);
    if At(h1, next).size > 0 {
      LiveFacts(h1, next);
    } else {
      var p := At(h1, m).prev;
      RegionOf(h1, g, p);
      LiveFacts(h1, p);
    }
  }

  /** Rounded up to pages, in the arithmetic of size_t. */
  function RoundUpPage(n: nat): nat { (n + PAGE_SIZE - 1) / PAGE_SIZE * PAGE_SIZE % SIZE_LIMIT }

  lemma WholePages(n: nat)
    requires n < SIZE_LIMIT
    ensures RoundUpPage(n) % PAGE_SIZE == 0 && RoundUpPage(n) < SIZE_LIMIT
  {
    var q := (n + PAGE_SIZE - 1) / PAGE_SIZE;
    assert q * PAGE_SIZE <= n + PAGE_SIZE - 1;
    if q * PAGE_SIZE >= SIZE_LIMIT { assert q * PAGE_SIZE - SIZE_LIMIT < PAGE_SIZE && q == 0x10_0000_0000_0000; }
  }

  lemma EmptyReady(h: Heap, named: bool := true)
    requires h.t == Tiles(map[], map[], {}, {}) && h.x == Index(seq(REAL_FLI * MAX_SLI, _ => []), map[])
    requires h.fl == 0 && h.sl == seq(REAL_FLI, _ => 0) && h.heads == seq(REAL_FLI * MAX_SLI, _ => 0)
    ensures Ready(h, Regions(map[], map[]), Slack({}, {}, {}), named) && Live(h) == map[] && FreshEverywhere(h.t)
  {
    hide Bit;
    forall i: nat | i < |h.x.lists| ensures FreeLists.ListOk(h.m.link, h.heads[i], h.x.lists[i]) { }
    forall f: nat | f < |h.sl| ensures WordOk(h.sl[f], f, h.x.lists, MAX_SLI) {
      forall s: nat ensures !Bit(h.sl[f], s) { ZeroBits(s); }
    }
    forall f: nat ensures !Bit(h.fl, f) { ZeroBits(f); }
  }

  lemma EmptyFresh(h: Heap, lo: Addr, len: nat)
    requires FreshEverywhere(h.t)
    ensures FreshRegion(h.t, lo, len) && Total(map[]) == 0
  {
  }

  ghost predicate FreshEverywhere(t: Tiles) { t.ext == map[] && t.ends == {} }

  /** What Valid says of a block in the terms of the headers. */
  lemma PoolInvariant(h: Heap, g: Regions, a: Addr)
    requires Ready(h, g, Slack({}, {}, {})) && a in h.t.ext
    ensures At(h, a).prev == 0 <==> a in g.len
    ensures At(h, a).prev == 0 ==> !At(h, a).prevFree
    ensures At(h, a).prev != 0 ==> var p := At(h, a).prev;
      p in h.t.ext && p + BHDR_OVERHEAD + At(h, p).size == a && (At(h, a).prevFree <==> At(h, p).free)
        && !(At(h, p).free && At(h, a).free)
    ensures At(h, a).size > 0 ==>
      a + BHDR_OVERHEAD + At(h, a).size in h.t.ext && At(h, a + BHDR_OVERHEAD + At(h, a).size).prev == a
    ensures At(h, a).size == 0 ==>
      !At(h, a).free && a in g.home && g.home[a] in g.len && a + BHDR_OVERHEAD == g.home[a] + g.len[g.home[a]]
    ensures forall i: nat :: i < REAL_FLI * MAX_SLI ==>
      (a in h.x.lists[i] <==> At(h, a).free && i == ClassIndex(At(h, a).size))
  {
    hide At, HeapOk, Regioned, ClassIndex;
    var d := Slack({}, {}, {});
    HeapParts(Tl(), h, d);
    Neighbours(Tl(), h, d, a);
    BlockFacts(h, g, d, a);
    RegionOf(h, g, a);
    if a !in h.t.firsts {
      BlockFacts(h, g, d, h.t.pred[a]);
      Neighbours(Tl(), h, d, h.t.pred[a]);
    }
    ListedWhere(h, a);
  }

  lemma ListedWhere(h: Heap, a: Addr)
    requires ListedOk(Tl(), h, {}) && ListsOk(h.m.link, h.heads, h.x.lists, h.x.place) && Counts(h) && a in h.t.ext
    requires At(h, a).free ==> At(h, a).size >= MIN_BLOCK_SIZE
    ensures forall i: nat :: i < REAL_FLI * MAX_SLI ==>
      (a in h.x.lists[i] <==> At(h, a).free && i == ClassIndex(At(h, a).size))
  {
    hide HdrAt, ClassIndex;
    assert ListedAt(Tl(), h, {}, a);
  }
}
