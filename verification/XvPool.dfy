/** The xvmalloc pool: free lists, splitting and coalescing over pages of 4 KiB. */
module XvPool {
  import opened Bits
  import opened Tiling
  import opened FreeLists
  import opened TwoLevel
  import opened HeapMem
  import opened FreeIndex
  import opened BoundaryTags
  import opened Coalesce
  import opened XvIndex
  import opened XvHeap
  import opened XvRelease

  /** Addresses are page * PAGE + offset; page 0 does not exist, so 0 is the null pointer.
      `tiles`, `index` and `pages` are the ghost view: the blocks, the lists, the pages held. */
  class Pool {
    var mem: Mem<Hdr>
    var flbitmap: nat
    var slbitmap: seq<nat>
    var freelist: seq<Addr>
    var totalPages: nat
    ghost var tiles: Tiles
    ghost var index: Index
    ghost var pages: set<nat>

    ghost function H(): Heap
      reads this
    {
      Heap(mem, freelist, flbitmap, slbitmap, tiles, index)
    }

    method InsertBlock(block: Addr, ghost d: Slack)
      requires Ready(H(), pages, d) && block in tiles.ext && block in d.off && block !in d.open
        && Listable(Xv(), At(H(), block))
      modifies `mem, `freelist, `flbitmap, `slbitmap, `index
      ensures Ready(H(), pages, d.(off := d.off - {block})) && Relisted(old(H()), H())
    {
      hide HeapOk, Paged, SetBit, Flat, GetIndexForInsert, PutLink, Relisted;
      var slindex := GetIndexForInsert(HdrAt(mem, block).size);
      var f, s := slindex / BITS_PER_LONG, slindex % BITS_PER_LONG;
      ghost var gf, gs := ListIndex(HdrAt(mem, block).size);
      ListStep(H(), pages, d, block, f, s);
      var next := freelist[slindex];
      mem := PutLink(mem, block, Link(0, next), Y());
      freelist := freelist[slindex := block];
      if next != 0 {
        mem := PutLink(mem, next, LinkAt(mem.link, next).(prev := block), Y());
      }
      slbitmap := slbitmap[f := SetBit(slbitmap[f], s)];
      flbitmap := SetBit(flbitmap, f);
      index := PushIndex(index, slindex, block);
      assert H() == Listed(Xv(), old(H()), block, f, s);
    }

    method RemoveBlockHead(block: Addr, slindex: nat, ghost d: Slack)
      requires Ready(H(), pages, d) && block in index.place && index.place[block] == slindex < NUM_FREE_LISTS
      requires freelist[slindex] == block
      modifies `mem, `freelist, `flbitmap, `slbitmap, `index
      ensures Ready(H(), pages, d.(off := d.off + {block})) && Relisted(old(H()), H())
    {
      hide HeapOk, Paged, ClearBit, Flat, GetIndexForInsert, PutLink, Relisted;
      var f := slindex / BITS_PER_LONG;
      ghost var gf, gs, j := FindListed(H(), pages, d, block);
      RelinkStep(H(), pages, d, block);
      ghost var h1 := H().(m := PutLink(mem, block, LinkAt(mem.link, block), Y()));
      UnlistStep(h1, pages, d, block, gf, gs, j);
      RelistedTrans(H(), h1, Unlisted(Xv(), h1, block, gf, gs, j));
      var next := LinkAt(mem.link, block).next;
      freelist := freelist[slindex := next];
      mem := PutLink(mem, block, Link(0, next), Y());
      if next == 0 {
        slbitmap := slbitmap[f := ClearBit(slbitmap[f], slindex % BITS_PER_LONG)];
        if slbitmap[f] == 0 {
          flbitmap := ClearBit(flbitmap, f);
        }
      } else {
        mem := PutLink(mem, next, LinkAt(mem.link, next).(prev := 0), Y());
      }
      index := DropIndex(index, block, j);
      assert H() == Unlisted(Xv(), h1, block, gf, gs, j);
    }

    method RemoveBlock(block: Addr, slindex: nat, ghost d: Slack)
      requires Ready(H(), pages, d) && block in index.place && index.place[block] == slindex < NUM_FREE_LISTS
      modifies `mem, `freelist, `flbitmap, `slbitmap, `index
      ensures Ready(H(), pages, d.(off := d.off + {block})) && Relisted(old(H()), H())
    {
      hide HeapOk, Paged, ClearBit, Flat, GetIndexForInsert, PutLink, Relisted;
      if freelist[slindex] == block {
        RemoveBlockHead(block, slindex, d);
        return;
      }
      ghost var f, s, j := FindListed(H(), pages, d, block);
      UnlistStep(H(), pages, d, block, f, s, j);
      var link := LinkAt(mem.link, block);
      if link.prev != 0 {
        mem := PutLink(mem, link.prev, LinkAt(mem.link, link.prev).(next := link.next), Y());
      }
      if link.next != 0 {
        mem := PutLink(mem, link.next, LinkAt(mem.link, link.next).(prev := link.prev), Y());
      }
      index := DropIndex(index, block, j);
      assert H() == Unlisted(Xv(), old(H()), block, f, s, j);
    }

    method GrowPool(page: nat) returns (ok: bool)
      requires Ready(H(), pages, Slack({}, {}, {})) && page !in pages && totalPages == |pages|
      modifies this
      ensures Ready(H(), pages, Slack({}, {}, {})) && UsedKept(Xv(), old(H()), H(), {}) && totalPages == |pages|
      ensures ok <==> page != 0
      ensures ok ==> pages == old(pages) + {page} && page * PAGE in tiles.ext
      ensures ok ==> At(H(), page * PAGE) == Hdr(PAGE - XV_ALIGN, 0, true, false)
      ensures ok ==> OnlyNew(old(H()), H(), page * PAGE)
      ensures !ok ==> pages == old(pages) && H() == old(H())
    {
      hide HeapOk, Paged, PutHdr, UsedKept, AddRegion, OnlyNew;
      if page == 0 {
        UsedKeptRefl(Xv(), H());
        return false;
      }
      var block := page * PAGE;
      ghost var h := H();
      var c := Hdr(PAGE - XV_ALIGN, 0, true, false);
      NewPageOk(h, pages, page, c);
      totalPages := totalPages + 1;
      mem := PutHdr(mem, block, c, Y());
      tiles, pages := AddRegion(tiles, block, PAGE), pages + {page};
      assert H() == AddBlock(Xv(), h, block, PAGE, c);
      ghost var h1 := H();
      InsertBlock(block, Slack({block}, {}, {}));
      NewBlocks(h, h1, H(), block);
      assert Slack({block}, {}, {}).(off := {block} - {block}) == Slack({}, {}, {});
      UsedKeptTrans(Xv(), h, h1, H(), {}, {});
      ghost var none: set<Addr> := {};
      assert none + none == none;
      ok := true;
    }

    /** Part of the cutting: a header, and if large enough a list, for what remains. */
    method CutRemainder(block: Addr, size: nat)
      requires Ready(H(), pages, Slack({block}, {}, {})) && block in tiles.ext && At(H(), block).free
      requires size % 4 == 0 && At(H(), block).size >= size + XV_ALIGN
      modifies `mem, `freelist, `flbitmap, `slbitmap, `index, `tiles
      ensures var e := block + XV_ALIGN + size;
        Ready(H(), pages, Slack({block}, {block, e}, {block})) && UsedKept(Xv(), old(H()), H(), {block})
      ensures Cut(Xv(), old(H()), H(), block, size)
        && (block + XV_ALIGN + size) % PAGE == block % PAGE + XV_ALIGN + size
    {
      hide HeapOk, Paged, PutHdr, UsedKept, HdrAt, FlagAt, Tiled;
      ghost var h := H();
      TakenFacts(h, pages, block);
      RemainderStep(h, pages, block, size);
      var tmpsize := HdrAt(mem, block).size - size;
      var tmpblock := block + XV_ALIGN + size;
      mem := PutHdr(mem, tmpblock, Hdr(tmpsize - XV_ALIGN, block % PAGE, true, false), Y());
      tiles := Split(tiles, block, XV_ALIGN + size);
      assert H() == SplitHdr(Xv(), h, block, XV_ALIGN + size, Hdr(tmpsize - XV_ALIGN, block % PAGE, true, false));
      ghost var h1, d := H(), Slack({block, tmpblock}, {block, tmpblock}, {block});
      assert {block, tmpblock} - {tmpblock} == {block};
      if tmpsize - XV_ALIGN >= XV_MIN_ALLOC_SIZE {
        InsertBlock(tmpblock, d);
        UsedKeptTrans(Xv(), h, h1, H(), {block}, {});
        assert {block} + {} == {block};
      } else {
        SmallOff(Xv(), h1, d, tmpblock, {block});
      }
    }

    /** Part of the cutting: the block behind the remainder, if there is one, is told its name. */
    method RenameNext(block: Addr, tmpblock: Addr, tmpoffset: nat)
      requires Ready(H(), pages, Slack({block}, {block, tmpblock}, {block})) && Renamable(Xv(), H(), block, tmpblock)
      requires tmpblock % PAGE == tmpoffset
      modifies `mem
      ensures Ready(H(), pages, Slack({block}, {block}, {block})) && UsedKept(Xv(), old(H()), H(), {})
      ensures forall b :: b in tiles.ext && b <= tmpblock ==> At(H(), b) == old(At(H(), b))
    {
      hide HeapOk, Paged, PutHdr, UsedKept, HdrAt, FlagAt;
      ghost var h := H();
      HeapParts(Xv(), h, Slack({block}, {block, tmpblock}, {block}));
      NextFacts(tiles, tmpblock);
      LastInPage(h, pages, tmpblock);
      if tmpoffset + XV_ALIGN + HdrAt(mem, tmpblock).size != PAGE {
        var next := tmpblock + XV_ALIGN + HdrAt(mem, tmpblock).size;
        RenameStep(h, pages, block, tmpblock);
        mem := PutHdr(mem, next, HdrAt(mem, next).(prev := tmpoffset), Y());
        assert H() == StoreHdr(Xv(), h, next, At(h, next).(prev := tmpblock % PAGE));
        assert forall b :: b in tiles.ext && b <= tmpblock ==> At(H(), b) == At(h, b);
      } else {
        NoRenameOk(Xv(), h, {block}, block, tmpblock);
        UsedKeptRefl(Xv(), h);
      }
    }

    method CarveSplit(block: Addr, size: nat)
      requires Ready(H(), pages, Slack({block}, {}, {})) && block in tiles.ext && At(H(), block).free
      requires size % 4 == 0 && At(H(), block).size >= size + XV_ALIGN
      modifies `mem, `freelist, `flbitmap, `slbitmap, `index, `tiles
      ensures Ready(H(), pages, Slack({block}, {block}, {block})) && UsedKept(Xv(), old(H()), H(), {block})
      ensures At(H(), block) == old(At(H(), block))
      ensures Carved(Xv(), H(), block, Hdr(size, 0, false, false))
    {
      hide HeapOk, Paged, PutHdr, UsedKept, HdrAt, FlagAt, Split, Tiled, Carved, Cut, Renamable;
      ghost var h := H();
      CutRemainder(block, size);
      CutRenamable(Xv(), h, H(), block, size);
      ghost var h2 := H();
      RenameNext(block, block + XV_ALIGN + size, block % PAGE + size + XV_ALIGN);
      UsedKeptTrans(Xv(), h, h2, H(), {block}, {});
      assert {block} + {} == {block};
      CutCarved(Xv(), h, h2, H(), block, size);
    }

    method CarveExact(block: Addr, size: nat)
      requires Ready(H(), pages, Slack({block}, {}, {})) && block in tiles.ext && At(H(), block).free
      requires size % 4 == 0 && At(H(), block).size == size
      modifies `mem
      ensures Ready(H(), pages, Slack({block}, {block}, {block})) && UsedKept(Xv(), old(H()), H(), {block})
      ensures At(H(), block) == old(At(H(), block))
      ensures Carved(Xv(), H(), block, Hdr(size, 0, false, false))
    {
      hide HeapOk, Paged, PutHdr, UsedKept, HdrAt, FlagAt, Tiled;
      ghost var h, d := H(), Slack({block}, {block}, {block});
      TakenFacts(h, pages, block);
      TakenFlags(Xv(), h, block);
      Loosen(Xv(), h, Slack({block}, {}, {}), block, d);
      var tmpoffset := block % PAGE + size + XV_ALIGN;
      UsedKeptRefl(Xv(), h);
      if tmpoffset != PAGE {
        var next := block + size + XV_ALIGN;
        ClearNextOk(h, pages, block, next);
        mem := PutHdr(mem, next, HdrAt(mem, next).(prevFree := false), Y());
        assert H() == StoreHdr(Xv(), h, next, At(h, next).(prevFree := false));
        ExactFlag(h, H(), pages, block, next);
      }
      UsedKeptMore(Xv(), h, H(), {}, {block});
    }

    /** Cuts a free block that is off its list down to the rounded request. */
    method Carve(block: Addr, size: nat)
      requires Ready(H(), pages, Slack({block}, {}, {})) && block in tiles.ext && At(H(), block).free
      requires size % 4 == 0 && At(H(), block).size >= size
      modifies `mem, `freelist, `flbitmap, `slbitmap, `index, `tiles
      ensures Ready(H(), pages, Slack({block}, {block}, {block})) && UsedKept(Xv(), old(H()), H(), {block})
      ensures At(H(), block) == old(At(H(), block))
      ensures Carved(Xv(), H(), block, Hdr(size, 0, false, false))
    {
      hide HeapOk, Paged, PutHdr, UsedKept, HdrAt, FlagAt, Split, Tiled, Relisted;
      ghost var h := H();
      TakenFacts(h, pages, block);
      if HdrAt(mem, block).size - size != 0 {
        CarveSplit(block, size);
      } else {
        CarveExact(block, size);
      }
    }

    ghost predicate Valid()
      reads this
    {
      Ready(H(), pages, Slack({}, {}, {})) && totalPages == |pages|
    }

    constructor ()
      ensures Valid() && pages == {} && Live(H()) == map[] && fresh(this)
    {
      mem := Mem(map[], map[], map[]);
      flbitmap, slbitmap, freelist := 0, seq(MAX_FLI, _ => 0), seq(NUM_FREE_LISTS, _ => 0);
      totalPages := 0;
      tiles := Tiles(map[], map[], {}, {});
      index := Index(seq(NUM_FREE_LISTS, _ => []), map[]);
      pages := {};
      new;
      EmptyReady(H());
    }

    /** `page` is what the page allocator would hand out: a page not held, or 0 for failure. */
    method Malloc(size: nat, page: nat) returns (ok: bool, obj: Addr)
      requires Valid() && page !in pages
      modifies this
      ensures Valid()
      ensures ok <==> 1 <= size <= XV_MAX_ALLOC_SIZE && (old(HasFree(H(), size)) || (page != 0 && size <= 4088))
      ensures pages == if 1 <= size <= XV_MAX_ALLOC_SIZE && !old(HasFree(H(), size)) && page != 0
        then old(pages) + {page} else old(pages)
      ensures ok ==>
        obj >= XV_ALIGN
        && if old(HasFree(H(), size)) then GoodFit(old(H()), obj - XV_ALIGN, size) else obj == page * PAGE + XV_ALIGN
      ensures !ok ==> obj == 0 && Live(H()) == old(Live(H())) && UsedKept(Xv(), old(H()), H(), {})
      ensures ok ==> obj >= XV_ALIGN && var block := obj - XV_ALIGN;
        && block !in old(Live(H())) && Live(H()) == old(Live(H()))[block := size]
        && UsedKept(Xv(), old(H()), H(), {block})
        && block in tiles.ext && tiles.ext[block] == XV_ALIGN + AlignUp(size, XV_ALIGN)
    {
      hide Ready, UsedKept, Live, HasFree, GoodFit, NoneFrom, GetIndex, Need, First, OnlyNew, At;
      ok, obj := false, 0;
      UsedKeptRefl(Xv(), H());
      if size == 0 || size > XV_MAX_ALLOC_SIZE { return; }
      var need := AlignUp(size, XV_ALIGN);
      AlignFacts(size);
      ghost var h := H();
      var slindex, block := Find(need);
      Serves(h, pages, size);
      if block == 0 {
        var grown := GrowPool(page);
        LiveSame(Xv(), h, H());
        if !grown { return; }
        slindex, block := Find(need);
        SearchAfterGrowth(H(), pages, page * PAGE, size);
      }
      if block == 0 { return; }
      Chosen(h, H(), pages, page * PAGE, size, slindex, old(HasFree(H(), size)));
      HandOut(slindex, block, need, size, h);
      ok, obj := true, block + XV_ALIGN;
    }

    method Find(size: nat) returns (slindex: nat, block: Addr)
      requires Ready(H(), pages, Slack({}, {}, {})) && 1 <= size <= XV_MAX_ALLOC_SIZE
      ensures block == 0 <==> NoneFrom(index.lists, GetIndex(size))
      ensures block != 0 ==>
        slindex < NUM_FREE_LISTS && First(index.lists, GetIndex(size), slindex) && block == freelist[slindex]
      ensures |freelist| == NUM_FREE_LISTS
    {
      hide Paged, FlagsOk, HdrsOk, ListedOk, Tiled, First, NoneFrom, GetIndex, ListsOk, MapsOk;
      slindex, block := FindBlock(flbitmap, slbitmap, freelist, size, mem.link, index.lists, index.place);
    }

    /** The part of an allocation that follows a successful search. */
    method HandOut(slindex: nat, block: Addr, need: nat, size: nat, ghost h: Heap)
      requires Ready(H(), pages, Slack({}, {}, {})) && UsedKept(Xv(), h, H(), {})
      requires 1 <= size && need == AlignUp(size, XV_ALIGN) <= XV_MAX_ALLOC_SIZE
        && slindex < NUM_FREE_LISTS == |freelist|
      requires First(index.lists, GetIndex(need), slindex) && block == freelist[slindex]
      modifies `mem, `freelist, `flbitmap, `slbitmap, `index, `tiles
      ensures Ready(H(), pages, Slack({}, {}, {})) && UsedKept(Xv(), h, H(), {block})
      ensures block !in Live(h) && Live(H()) == Live(h)[block := size]
      ensures block in tiles.ext && tiles.ext[block] == XV_ALIGN + need
    {
      hide Ready, UsedKept, Live, First, GetIndex, HdrAt, Carved, PutHdr, FlagAt, Relisted;
      ghost var h0 := H();
      FoundFits(h0, pages, Slack({}, {}, {}), need, slindex);
      NotLive(h, h0, block);
      RemoveBlockHead(block, slindex, Slack({}, {}, {}));
      ghost var h1 := H();
      assert {} + {block} == {block};
      RelistedKeeps(h, h0, h1, block);
      Carve(block, need);
      ghost var h2 := H();
      var c := HdrAt(mem, block).(size := size, free := false);
      HandOutOk(h2, pages, block, need, c);
      mem := PutHdr(mem, block, c, Y());
      assert H() == StoreHdr(Xv(), h2, block, c);
      HandOutKept(h, h1, h2, H(), block);
    }

    /** Takes a free block off its list, if it is on one. */
    method TakeOff(block: Addr, ghost d: Slack)
      requires Ready(H(), pages, d) && block in tiles.ext && d.open == {} && At(H(), block).free
      requires At(H(), block).size >= XV_MIN_ALLOC_SIZE <==> block in index.place
      requires block in index.place ==> index.place[block] == GetIndexForInsert(At(H(), block).size) < NUM_FREE_LISTS
      modifies `mem, `freelist, `flbitmap, `slbitmap, `index
      ensures Ready(H(), pages, d.(off := d.off + {block})) && Relisted(old(H()), H())
    {
      hide HeapOk, Paged, GetIndexForInsert;
      if HdrAt(mem, block).size >= XV_MIN_ALLOC_SIZE {
        RemoveBlock(block, GetIndexForInsert(HdrAt(mem, block).size), d);
      } else {
        SmallOff(Xv(), H(), d, block, d.off + {block});
        UsedKeptRefl(Xv(), H());
      }
    }

    /** Makes one block of two neighbours. */
    method Swallow(block: Addr, next: Addr, ghost loose: set<Addr>)
      requires Ready(H(), pages, Slack({block, next}, loose, {})) && loose <= {block, next}
      requires block in tiles.ext && tiles.HasNext(block) && tiles.End(block) == next && next in tiles.ext
      requires At(H(), block).size % 4 == 0 && At(H(), next).size % 4 == 0
      modifies `mem, `tiles
      ensures H() == Coalesce.Swallow(Xv(), old(H()), block) && Ready(H(), pages, Loose(block))
      ensures UsedKept(Xv(), old(H()), H(), {block, next}) && SameHdrsBut(MergeBlocks(old(H()), block), H(), block)
      ensures At(H(), block) == old(At(H(), block)).(size := old(At(H(), block).size + At(H(), next).size) + XV_ALIGN)
    {
      hide Ready, UsedKept, HdrAt, PutHdr, Merge, SameHdrsBut;
      SwallowStep(H(), pages, block, next, loose);
      var size := HdrAt(mem, block).size + HdrAt(mem, next).size + XV_ALIGN;
      mem := PutHdr(mem, block, HdrAt(mem, block).(size := size), Y());
      tiles := Merge(tiles, block);
    }

    /** Merges the block with its successor if that is free. */
    method MergeNext(block: Addr)
      requires Ready(H(), pages, Loose(block)) && block in tiles.ext && !At(H(), block).free
        && FlagAt(Xv(), H(), block, {})
      requires At(H(), block).size % 4 == 0
      modifies `mem, `freelist, `flbitmap, `slbitmap, `index, `tiles
      ensures Ready(H(), pages, Loose(block)) && block in tiles.ext && FlagAt(Xv(), H(), block, {})
      ensures !At(H(), block).free && At(H(), block).size % 4 == 0
      ensures tiles.HasNext(block) ==> tiles.End(block) in tiles.ext && !At(H(), tiles.End(block)).free
      ensures UsedKept(Xv(), old(H()), H(), {block})
    {
      hide HeapOk, Paged, UsedKept, HdrAt, PutHdr, FlagAt, GetIndexForInsert;
      ghost var h := H();
      FollowFacts(h, pages, block);
      UsedKeptRefl(Xv(), h);
      UsedKeptMore(Xv(), h, h, {}, {block});
      var offset, size := block % PAGE, HdrAt(mem, block).size;
      if offset + size + XV_ALIGN != PAGE {
        var next := block + size + XV_ALIGN;
        if HdrAt(mem, next).free {
          AbsorbNext(block, next);
        }
      }
    }

    method AbsorbNext(block: Addr, next: Addr)
      requires Ready(H(), pages, Loose(block)) && block in tiles.ext && !At(H(), block).free
        && FlagAt(Xv(), H(), block, {})
      requires At(H(), block).size % 4 == 0
      requires tiles.HasNext(block) && tiles.End(block) == next && next in tiles.ext && At(H(), next).free
      modifies `mem, `freelist, `flbitmap, `slbitmap, `index, `tiles
      ensures Ready(H(), pages, Loose(block)) && block in tiles.ext && FlagAt(Xv(), H(), block, {})
      ensures !At(H(), block).free && At(H(), block).size % 4 == 0
      ensures tiles.HasNext(block) ==> tiles.End(block) in tiles.ext && !At(H(), tiles.End(block)).free
      ensures UsedKept(Xv(), old(H()), H(), {block})
    {
      hide HeapOk, Paged, UsedKept, HdrAt, PutHdr, FlagAt, GetIndexForInsert, Merge, Tiled, Relisted, SameHdrsBut,
        Ready;
      ghost var h := H();
      NextIsFree(h, pages, block, next);
      TakeOff(next, Loose(block));
      ghost var h1 := H();
      assert {block} + {next} == {block, next};
      TakenNext(h, pages, h1, block, next);
      ReadyTiled(h1, pages, Slack({block, next}, {block}, {}));
      Swallow(block, next, {block});
      NextMerged(h1, block, next);
      AbsorbedKept(h, h1, H(), block, next);
    }

    /** Merges the block into its predecessor if that is free. */
    method MergePrev(block: Addr) returns (merged: Addr)
      requires Ready(H(), pages, Loose(block)) && block in tiles.ext && FlagAt(Xv(), H(), block, {})
      requires !At(H(), block).free && At(H(), block).size % 4 == 0
      requires tiles.HasNext(block) ==> tiles.End(block) in tiles.ext && !At(H(), tiles.End(block)).free
      modifies `mem, `freelist, `flbitmap, `slbitmap, `index, `tiles
      ensures Ready(H(), pages, Loose(merged)) && merged in tiles.ext && BetweenUsed(H(), merged)
      ensures At(H(), merged).size % 4 == 0 && merged / PAGE == block / PAGE
      ensures merged == block || (!IsUsed(H(), block) && !IsUsed(old(H()), merged) && At(H(), merged).free)
      ensures UsedKept(Xv(), old(H()), H(), {block})
    {
      hide Ready, UsedKept, HdrAt, PutHdr, FlagAt, GetIndexForInsert, Merge, Tiled, BetweenUsed, SameHdrsBut, Relisted;
      ghost var h := H();
      merged := block;
      if HdrAt(mem, block).prevFree {
        PrevIsFree(h, pages, block);
        var tmpblock := block / PAGE * PAGE + HdrAt(mem, block).prev;
        merged := block - HdrAt(mem, tmpblock).size - XV_ALIGN;
        TakeOff(merged, Loose(block));
        ghost var h1 := H();
        assert {block} + {merged} == {merged, block};
        TakenPrev(h, pages, h1, block, merged);
        Swallow(merged, block, {block});
        ReadyTiled(h, pages, Loose(block));
        IntoPrev(h, h1, H(), block, merged);
      } else {
        PrevIsUsed(h, pages, block);
        UsedKeptRefl(Xv(), h);
        UsedKeptMore(Xv(), h, h, {}, {block});
      }
    }

    /** Returns the page if nothing else is in it, or else lists the merged block. */
    method FinishRelease(block: Addr)
      requires Ready(H(), pages, Loose(block)) && block in tiles.ext && BetweenUsed(H(), block)
      requires At(H(), block).size % 4 == 0 && totalPages == |pages|
      modifies this
      ensures Valid() && !IsUsed(H(), block) && UsedKept(Xv(), old(H()), H(), {block})
      ensures block / PAGE in old(pages)
      ensures pages == if exists u :: u in Live(H()) && u / PAGE == block / PAGE then old(pages)
        else old(pages) - {block / PAGE}
    {
      hide HeapOk, Paged, UsedKept, HdrAt, PutHdr, BetweenUsed, Live, DropRegion;
      ghost var h := H();
      PageOf(h, pages, block);
      if HdrAt(mem, block).size == PAGE - XV_ALIGN {
        ReleaseStep(h, pages, block);
        totalPages := totalPages - 1;
        tiles, pages := DropRegion(tiles, block), pages - {block / PAGE};
        assert H() == DropBlock(h, block);
        PageIsEmpty(H(), pages, block / PAGE);
        GoneNotUsed(h, block);
        return;
      }
      MarkFreeStep(h, pages, block);
      mem := PutHdr(mem, block, HdrAt(mem, block).(free := true), Y());
      assert H() == StoreHdr(Xv(), h, block, At(h, block).(free := true));
      ghost var h1 := H();
      ListAndSeal(block);
      UsedKeptTrans(Xv(), h, h1, H(), {block}, {});
      assert {block} + {} == {block};
      StillUsed(H(), pages, block);
    }

    method ListAndSeal(block: Addr)
      requires Ready(H(), pages, Loose(block)) && block in tiles.ext && BetweenUsed(H(), block)
      requires At(H(), block).free && At(H(), block).size % 4 == 0
      modifies `mem, `freelist, `flbitmap, `slbitmap, `index
      ensures Ready(H(), pages, Slack({}, {}, {})) && At(H(), block) == old(At(H(), block))
        && UsedKept(Xv(), old(H()), H(), {})
    {
      hide HeapOk, Paged, UsedKept, HdrAt, PutHdr;
      ghost var h := H();
      FollowFacts(h, pages, block);
      UsedKeptRefl(Xv(), h);
      assert {block} - {block} == {};
      if HdrAt(mem, block).size >= XV_MIN_ALLOC_SIZE {
        InsertBlock(block, Loose(block));
      } else {
        SmallOff(Xv(), h, Loose(block), block, {});
      }
      ghost var h1 := H();
      RelistedBetween(h, h1, pages, block);
      if block % PAGE + HdrAt(mem, block).size + XV_ALIGN != PAGE {
        var next := block + HdrAt(mem, block).size + XV_ALIGN;
        SealStep(h1, pages, block, next);
        mem := PutHdr(mem, next, HdrAt(mem, next).(prevFree := true, prev := block % PAGE), Y());
        assert H() == StoreHdr(Xv(), h1, next, At(h1, next).(prevFree := true, prev := block % PAGE));
        UsedKeptTrans(Xv(), h, h1, H(), {}, {});
        ghost var none: set<Addr> := {};
        assert none + none == none;
      } else {
        SealLastOk(Xv(), h1, block);
      }
    }

    /** Release of an object.  Its page goes back as soon as no other object is left in it. */
    method Free(obj: Addr)
      requires Valid() && obj >= XV_ALIGN && obj - XV_ALIGN in Live(H())
      modifies this
      ensures Valid()
      ensures Live(H()) == old(Live(H())) - {obj - XV_ALIGN} && UsedKept(Xv(), old(H()), H(), {obj - XV_ALIGN})
      ensures obj / PAGE in old(pages)
      ensures pages == if exists u :: u in Live(H()) && u / PAGE == obj / PAGE then old(pages)
        else old(pages) - {obj / PAGE}
    {
      hide Ready, UsedKept, HdrAt, PutHdr, FlagAt, BetweenUsed, Live;
      ghost var h := H();
      var block := obj - XV_ALIGN;
      LiveIsUsed(h, block);
      ObjectPage(h, pages, block);
      var merged := MergeAll(block);
      ghost var h3 := H();
      FinishRelease(merged);
      UsedKeptTrans(Xv(), h, h3, H(), {block}, {merged});
      ReleasedKept(h, h3, H(), block, merged);
      LiveLoses(Xv(), h, H(), block);
    }

    method MergeAll(block: Addr) returns (merged: Addr)
      requires Valid() && IsUsed(H(), block)
      modifies `mem, `freelist, `flbitmap, `slbitmap, `index, `tiles
      ensures Ready(H(), pages, Loose(merged)) && merged in tiles.ext && BetweenUsed(H(), merged)
      ensures At(H(), merged).size % 4 == 0 && merged / PAGE == block / PAGE
      ensures merged == block || (!IsUsed(H(), block) && !IsUsed(old(H()), merged))
      ensures UsedKept(Xv(), old(H()), H(), {block})
    {
      hide HeapOk, Paged, UsedKept, HdrAt, PutHdr, FlagAt, BetweenUsed;
      ghost var h := H();
      RoundUpStep(h, pages, block);
      mem := PutHdr(mem, block, HdrAt(mem, block).(size := AlignUp(HdrAt(mem, block).size, XV_ALIGN)), Y());
      assert H() == StoreHdr(Xv(), h, block, At(h, block).(size := AlignUp(At(h, block).size, XV_ALIGN)));
      ghost var h1 := H();
      MergeNext(block);
      UsedKeptTrans(Xv(), h, h1, H(), {block}, {block});
      assert {block} + {block} == {block};
      ghost var h2 := H();
      merged := MergePrev(block);
      UsedKeptTrans(Xv(), h, h2, H(), {block}, {block});
      if merged != block { WasFree(h, h2, block, merged); }
    }

    /** The owner of an object writes into it. */
    method Write(obj: Addr, bytes: seq<byte>)
      requires Valid() && obj >= XV_ALIGN && obj - XV_ALIGN in Live(H()) && |bytes| <= Live(H())[obj - XV_ALIGN]
      modifies `mem
      ensures Valid() && Live(H()) == old(Live(H())) && UsedKept(Xv(), old(H()), H(), {obj - XV_ALIGN})
      ensures Holds(Xv(), H(), obj - XV_ALIGN, bytes)
    {
      hide HeapOk, Paged, UsedKept, HdrAt, PutBytes, Holds;
      ghost var h, block := H(), obj - XV_ALIGN;
      RoomOf(h, pages, block);
      WriteOk(Xv(), h, Slack({}, {}, {}), block, bytes);
      mem := PutBytes(mem, obj, bytes, Y());
      assert H() == h.(m := PutBytes(h.m, block + Xv().y.hs, bytes, Xv().y));
      SameHdrsPaged(h, H(), pages);
    }
  }

  lemma RoomOf(h: Heap, pages: set<nat>, a: Addr)
    requires Ready(h, pages, Slack({}, {}, {})) && a in Live(h)
    ensures h.t.ext[a] == XV_ALIGN + Round4(At(h, a).size) >= XV_ALIGN + At(h, a).size
  {
    hide IndexOk, Tiled, FlagsOk, ListedOk, Paged;
  }

  /** Block p ends where a begins; a's header tells whether p is free and then where it is. */
  ghost predicate Precedes(h: Heap, p: Addr, a: Addr) {
    && p in h.t.ext && p + XV_ALIGN + AlignUp(At(h, p).size, XV_ALIGN) == a && p / PAGE == a / PAGE
    && (At(h, a).prevFree <==> At(h, p).free) && !(At(h, p).free && At(h, a).free)
    && (At(h, a).prevFree ==> p == a / PAGE * PAGE + At(h, a).prev)
  }

  /** What Valid says, in the terms of the headers: neighbours, flags and lists. */
  lemma PoolInvariant(h: Heap, pages: set<nat>, a: Addr)
    requires Ready(h, pages, Slack({}, {}, {})) && a in h.t.ext
    ensures a / PAGE in pages && a % PAGE + XV_ALIGN + AlignUp(At(h, a).size, XV_ALIGN) <= PAGE
    ensures a % PAGE == 0 ==> !At(h, a).prevFree
    ensures a % PAGE != 0 ==> exists p :: Precedes(h, p, a)
    ensures forall i: nat :: i < NUM_FREE_LISTS ==>
      (a in h.x.lists[i] <==>
        At(h, a).free && At(h, a).size >= XV_MIN_ALLOC_SIZE && i == GetIndexForInsert(At(h, a).size))
  {
    hide HdrAt, Tiled, GetIndexForInsert, MapsOk;
    Neighbours(Xv(), h, Slack({}, {}, {}), a);
    assert InPage(h, a, pages);
    RoundTwice(At(h, a).size);
    if a % PAGE != 0 {
      var p: nat := h.t.pred[a];
      Neighbours(Xv(), h, Slack({}, {}, {}), p);
      LastInPage(h, pages, p);
      RoundTwice(At(h, p).size);
      assert InPage(h, p, pages);
      assert Precedes(h, p, a);
    }
    ListedWhere(h, a);
  }

  lemma ListedWhere(h: Heap, a: Addr)
    requires ListedOk(Xv(), h, {}) && ListsOk(h.m.link, h.heads, h.x.lists, h.x.place) && Counts(h) && a in h.t.ext
    ensures forall i: nat :: i < NUM_FREE_LISTS ==>
      (a in h.x.lists[i] <==>
        At(h, a).free && At(h, a).size >= XV_MIN_ALLOC_SIZE && i == GetIndexForInsert(At(h, a).size))
  {
    hide HdrAt, GetIndexForInsert;
    assert ListedAt(Xv(), h, {}, a);
  }

  /** An exact fit: the successor no longer follows a free block. */
  lemma ClearNextOk(h: Heap, pages: set<nat>, a: Addr, nb: Addr)
    requires Ready(h, pages, Slack({a}, {a}, {a})) && a in h.t.ext && h.t.HasNext(a) && h.t.End(a) == nb
      && nb in h.t.ext && nb != a
    requires !At(h, nb).free
    ensures var c := At(h, nb).(prevFree := false); var h' := StoreHdr(Xv(), h, nb, c);
      && Ready(h', pages, Slack({a}, {a}, {a})) && UsedKept(Xv(), h, h', {}) && At(h', nb) == c
      && SameHdrsBut(h, h', nb)
  {
    hide IndexOk, Tiled, At, FlagsOk, PutHdr, KeptAt, Roomy, Paged;
    var d, c := Slack({a}, {a}, {a}), At(h, nb).(prevFree := false);
    Neighbours(Xv(), h, d, a);
    StoreFrame(Xv(), h, nb, c);
    assert ListedAt(Xv(), h, {a}, nb);
    if h.t.HasNext(nb) { NextFlag(Xv(), h, d, nb, c, {a}); }
    UsedSize(h, pages, nb);
    StoreOk(Xv(), h, d, nb, c, d);
    StoreKeeps(Xv(), h, nb, c);
    ReadyStore(h, pages, d, nb, c, d);
  }

  lemma ExactFlag(h: Heap, h': Heap, pages: set<nat>, a: Addr, nb: Addr)
    requires Ready(h, pages, Slack({a}, {}, {})) && a in h.t.ext && nb in h.t.ext && h'.t == h.t && a < nb
    requires FlagAt(Xv(), h, a, {}) && SameHdrsBut(h, h', nb)
    ensures FlagAt(Xv(), h', a, {})
  {
    hide At, IndexOk, Paged, Tiled, FlagAt;
    Neighbours(Xv(), h, Slack({a}, {}, {}), a);
    if a !in h.t.firsts { assert At(h', h.t.pred[a]) == At(h, h.t.pred[a]); }
    FlagSame(Xv(), h, h', a, {});
  }

  lemma Serves(h: Heap, pages: set<nat>, size: nat)
    requires Ready(h, pages, Slack({}, {}, {})) && 1 <= size <= XV_MAX_ALLOC_SIZE
    ensures !NoneFrom(h.x.lists, GetIndex(AlignUp(size, XV_ALIGN))) <==> HasFree(h, size)
  {
    hide Ready, At, NoneFrom, GetIndex, Need;
    AlignFacts(size);
    NeedRounded(size);
    FitsExactly(h, pages, AlignUp(size, XV_ALIGN));
  }

  /** Block a is new in h1, and the other blocks are as before. */
  ghost predicate OnlyNew(h: Heap, h1: Heap, a: Addr) {
    forall b {:trigger At(h1, b)} :: b in h1.t.ext && b != a ==> b in h.t.ext && At(h1, b) == At(h, b)
  }

  lemma NewBlocks(h: Heap, h1: Heap, h2: Heap, a: Addr)
    requires OnlyNew(h, h1, a) && Relisted(h1, h2)
    ensures OnlyNew(h, h2, a)
  {
    hide At, UsedKept;
    forall b | b in h2.t.ext && b != a ensures b in h.t.ext && At(h2, b) == At(h, b) { assert At(h2, b) == At(h1, b); }
  }

  /** The block that serves: a good fit, or the new page. */
  lemma Chosen(h: Heap, h1: Heap, pages: set<nat>, a: Addr, size: nat, i: nat, had: bool)
    requires Ready(h1, pages, Slack({}, {}, {})) && 1 <= size <= XV_MAX_ALLOC_SIZE && i < NUM_FREE_LISTS == |h1.heads|
    requires First(h1.x.lists, GetIndex(AlignUp(size, XV_ALIGN)), i)
    requires had == HasFree(h, size) && if had then h1 == h else OnlyNew(h, h1, a)
    ensures if had then GoodFit(h, h1.heads[i], size) else h1.heads[i] == a
  {
    hide Ready, At, GetIndex, Need, First;
    AlignFacts(size);
    NeedRounded(size);
    FoundGoodFit(h1, pages, AlignUp(size, XV_ALIGN), i);
  }

  lemma AlignFacts(size: nat)
    requires 1 <= size <= XV_MAX_ALLOC_SIZE
    ensures var n := AlignUp(size, XV_ALIGN);
      size <= n <= XV_MAX_ALLOC_SIZE && n % 4 == 0 && (n <= 4088 <==> size <= 4088)
  {
  }

  /** A pool that has just grown serves what the lists can serve and nothing else. */
  lemma SearchAfterGrowth(h: Heap, pages: set<nat>, a: Addr, size: nat)
    requires Ready(h, pages, Slack({}, {}, {})) && a in h.t.ext && At(h, a) == Hdr(PAGE - XV_ALIGN, 0, true, false)
    requires 1 <= size <= XV_MAX_ALLOC_SIZE
    ensures NoneFrom(h.x.lists, GetIndex(AlignUp(size, XV_ALIGN))) <==> size > 4088
  {
    hide HeapOk, Paged, NoneFrom, GetIndex, At;
    AlignFacts(size);
    if size <= 4088 { PageIsFound(h, pages, a, AlignUp(size, XV_ALIGN)); } else {
      BeyondLast(h, AlignUp(size, XV_ALIGN));
    }
  }

  lemma HandOutKept(h: Heap, h1: Heap, h2: Heap, h3: Heap, a: Addr)
    requires UsedKept(Xv(), h, h1, {}) && UsedKept(Xv(), h1, h2, {a}) && UsedKept(Xv(), h2, h3, {a}) && IsUsed(h3, a)
    ensures UsedKept(Xv(), h, h3, {a}) && Live(h3) == Live(h)[a := At(h3, a).size]
  {
    hide UsedKept, Live;
    UsedKeptTrans(Xv(), h, h1, h2, {}, {a});
    UsedKeptTrans(Xv(), h, h2, h3, {} + {a}, {a});
    assert {} + {a} + {a} == {a};
    LiveGains(Xv(), h, h3, a);
  }

  lemma NotLive(h: Heap, h': Heap, a: Addr)
    requires UsedKept(Xv(), h, h', {}) && a in h'.t.ext && At(h', a).free
    ensures a !in Live(h)
  {
    LiveAt(Xv(), h, h', {}, a);
  }

  lemma RelistedKeeps(h: Heap, h0: Heap, h1: Heap, a: Addr)
    requires UsedKept(Xv(), h, h0, {}) && Relisted(h0, h1) && a in h0.t.ext
    ensures UsedKept(Xv(), h, h1, {}) && At(h1, a) == At(h0, a) && h1.t == h0.t
  {
    hide UsedKept, At;
    UsedKeptTrans(Xv(), h, h0, h1, {}, {});
    var none: set<Addr> := {};
    assert none + none == none;
  }

  lemma HandOutOk(h: Heap, pages: set<nat>, a: Addr, need: nat, c: Hdr)
    requires Ready(h, pages, Slack({a}, {a}, {a})) && Carved(Xv(), h, a, Hdr(need, 0, false, false))
    requires c == At(h, a).(size := c.size, free := false) && c.size > 0 && AlignUp(c.size, XV_ALIGN) == need
    ensures var h' := StoreHdr(Xv(), h, a, c);
      && Ready(h', pages, Slack({}, {}, {})) && UsedKept(Xv(), h, h', {a}) && At(h', a) == c
      && a in h.t.ext && h.t.ext[a] == XV_ALIGN + need
  {
    hide HeapOk, Paged, UsedKept, HdrAt, PutHdr, FlagAt;
    RoundTwice(c.size);
    assert Round4(need) == need by { RoundTwice(c.size); }
    UseOk(Xv(), h, a, c);
    ReadyStore(h, pages, Slack({a}, {a}, {a}), a, c, Slack({}, {}, {}));
  }

  lemma EmptyReady(h: Heap)
    requires h.t == Tiles(map[], map[], {}, {}) && h.x == Index(seq(NUM_FREE_LISTS, _ => []), map[])
    requires h.fl == 0 && h.sl == seq(MAX_FLI, _ => 0) && h.heads == seq(NUM_FREE_LISTS, _ => 0)
    ensures Ready(h, {}, Slack({}, {}, {})) && Live(h) == map[]
  {
    hide Bit;
    forall i: nat | i < |h.x.lists| ensures FreeLists.ListOk(h.m.link, h.heads[i], h.x.lists[i]) { }
    forall f: nat | f < |h.sl| ensures WordOk(h.sl[f], f, h.x.lists, BITS_PER_LONG) {
      forall s: nat ensures !Bit(h.sl[f], s) { ZeroBits(s); }
    }
    forall f: nat ensures !Bit(h.fl, f) { ZeroBits(f); }
  }

  lemma LiveIsUsed(h: Heap, a: Addr)
    ensures a in Live(h) <==> IsUsed(h, a)
  {
  }

  lemma FollowFacts(h: Heap, pages: set<nat>, a: Addr)
    requires Ready(h, pages, Loose(a)) && a in h.t.ext && At(h, a).size % 4 == 0
    ensures h.t.ext[a] == XV_ALIGN + At(h, a).size
    ensures h.t.HasNext(a) <==> a % PAGE + At(h, a).size + XV_ALIGN != PAGE
    ensures h.t.HasNext(a) ==> h.t.End(a) in h.t.ext && h.t.End(a) != a
  {
    hide Paged, IndexOk, FlagsOk, ListedOk, Tiled, HdrAt;
    NextFacts(h.t, a);
    LastInPage(h, pages, a);
  }

  lemma TakenNext(h: Heap, pages: set<nat>, h1: Heap, a: Addr, b: Addr)
    requires Ready(h, pages, Loose(a)) && a in h.t.ext && FlagAt(Xv(), h, a, {}) && Relisted(h, h1) && b in h.t.ext
    requires h.t.HasNext(b) ==> h.t.End(b) in h.t.ext && !At(h, h.t.End(b)).free
    ensures FlagAt(Xv(), h1, a, {}) && At(h1, a) == At(h, a) && At(h1, b) == At(h, b) && h1.t == h.t
    ensures h.t.HasNext(b) ==> !At(h1, h.t.End(b)).free
  {
    hide HdrAt, FlagAt, IndexOk, Paged;
    Neighbours(Xv(), h, Loose(a), a);
    if a !in h.t.firsts { assert At(h1, h.t.pred[a]) == At(h, h.t.pred[a]); }
    FlagSame(Xv(), h, h1, a, {});
  }

  lemma AbsorbedKept(h: Heap, h1: Heap, h2: Heap, a: Addr, b: Addr)
    requires Relisted(h, h1) && UsedKept(Xv(), h1, h2, {a, b}) && At(h, b).free
    requires a in h1.t.ext && h1.t.End(a) == b && b in h1.t.ext && a != b && h2.t == Merge(h1.t, a)
    ensures UsedKept(Xv(), h, h2, {a})
  {
    hide UsedKept, HdrAt;
    UsedKeptTrans(Xv(), h, h1, h2, {}, {a, b});
    UsedKeptFree(Xv(), h, h2, {} + {a, b}, b);
    assert {} + {a, b} - {b} == {a};
  }

  lemma TakenPrev(h: Heap, pages: set<nat>, h1: Heap, a: Addr, p: Addr)
    requires Ready(h, pages, Loose(a)) && Relisted(h, h1) && a in h.t.ext && p in h.t.ext
    ensures At(h1, a) == At(h, a) && At(h1, p) == At(h, p) && h1.t == h.t
  {
    hide HdrAt;
  }

  lemma IntoPrev(h: Heap, h1: Heap, h2: Heap, a: Addr, p: Addr)
    requires Tiled(h.t) && Relisted(h, h1) && p in h1.t.ext && h1.t.HasNext(p) && h1.t.End(p) == a && a in h1.t.ext
      && p < a
    requires h2 == Coalesce.Swallow(Xv(), h1, p) && SameHdrsBut(MergeBlocks(h1, p), h2, p) && At(h, p).free
    requires At(h2, p) == At(h1, p).(size := At(h2, p).size) && UsedKept(Xv(), h1, h2, {p, a})
    requires p !in h.t.firsts ==> p in h.t.pred && !At(h, h.t.pred[p]).free
    requires h.t.HasNext(a) ==> h.t.End(a) in h.t.ext && !At(h, h.t.End(a)).free
    ensures p in h2.t.ext && BetweenUsed(h2, p) && !IsUsed(h2, a) && !IsUsed(h, p) && At(h2, p).free
    ensures UsedKept(Xv(), h, h2, {a})
  {
    hide UsedKept, HdrAt, Tiled, BetweenUsed, PutHdr;
    assert At(h1, p) == At(h, p);
    if p !in h.t.firsts { PredFacts(h.t, p); assert At(h1, h.t.pred[p]) == At(h, h.t.pred[p]); }
    if h.t.HasNext(a) { assert At(h1, h.t.End(a)) == At(h, h.t.End(a)); }
    SwallowNeighbours(Xv(), h1, p);
    UsedKeptTrans(Xv(), h, h1, h2, {}, {p, a});
    UsedKeptFree(Xv(), h, h2, {} + {p, a}, p);
    assert {} + {p, a} - {p} == {a};
  }

  lemma RelistedBetween(h: Heap, h1: Heap, pages: set<nat>, a: Addr)
    requires Ready(h, pages, Loose(a)) && a in h.t.ext && (Relisted(h, h1) || h1 == h) && BetweenUsed(h, a)
    ensures BetweenUsed(h1, a) && At(h1, a) == At(h, a) && UsedKept(Xv(), h, h1, {}) && h1.t == h.t
  {
    hide HdrAt, IndexOk, Paged, UsedKept;
    if h1 == h { UsedKeptRefl(Xv(), h); }
    Neighbours(Xv(), h, Loose(a), a);
    if a !in h.t.firsts { assert At(h1, h.t.pred[a]) == At(h, h.t.pred[a]); }
    if h.t.HasNext(a) { assert At(h1, h.t.End(a)) == At(h, h.t.End(a)); }
  }

  lemma PageIsEmpty(h: Heap, pages: set<nat>, page: nat)
    requires Paged(h, pages) && page !in pages
    ensures forall u :: u in Live(h) ==> u / PAGE != page
  {
    forall u | u in Live(h) ensures u / PAGE != page { PageOf(h, pages, u); }
  }

  lemma GoneNotUsed(h: Heap, a: Addr)
    requires a in h.t.ext
    ensures !IsUsed(DropBlock(h, a), a)
  {
  }

  /** Next to a free block shorter than the page there is a used one. */
  lemma StillUsed(h: Heap, pages: set<nat>, a: Addr)
    requires Ready(h, pages, Slack({}, {}, {})) && a in h.t.ext && At(h, a).free && At(h, a).size != PAGE - XV_ALIGN
    ensures exists u :: u in Live(h) && u / PAGE == a / PAGE
  {
    hide HdrAt, IndexOk, ListedOk, Live, Tiled;
    Neighbours(Xv(), h, Slack({}, {}, {}), a);
    assert InPage(h, a, pages);
    LastInPage(h, pages, a);
    if h.t.HasNext(a) {
      LiveIsUsed(h, h.t.End(a));
    } else {
      FirstOrNot(h, pages, a);
      var p: nat := h.t.pred[a];
      LastInPage(h, pages, p);
      LiveIsUsed(h, p);
      Neighbours(Xv(), h, Slack({}, {}, {}), p);
    }
  }

  lemma FirstOrNot(h: Heap, pages: set<nat>, a: Addr)
    requires Ready(h, pages, Slack({}, {}, {})) && a in h.t.ext && At(h, a).free && At(h, a).size != PAGE - XV_ALIGN
      && !h.t.HasNext(a)
    ensures a !in h.t.firsts
  {
    hide HdrAt, IndexOk, ListedOk, FlagsOk, Tiled;
    NextFacts(h.t, a);
    LastInPage(h, pages, a);
    assert InPage(h, a, pages);
  }

  lemma ReleasedKept(h: Heap, h3: Heap, h4: Heap, a: Addr, merged: Addr)
    requires UsedKept(Xv(), h, h4, {a} + {merged}) && UsedKept(Xv(), h3, h4, {merged})
    requires merged == a || (!IsUsed(h3, a) && !IsUsed(h, merged))
    requires !IsUsed(h4, merged)
    ensures UsedKept(Xv(), h, h4, {a}) && !IsUsed(h4, a)
  {
    if merged == a {
      assert {a} + {a} == {a};
    } else {
      assert KeptAt(Xv(), h3, h4, a);
      UsedKeptFree(Xv(), h, h4, {a} + {merged}, merged);
      assert {a} + {merged} - {merged} == {a};
    }
  }

  lemma WasFree(h: Heap, h2: Heap, a: Addr, b: Addr)
    requires UsedKept(Xv(), h, h2, {a}) && b != a && !IsUsed(h2, b)
    ensures !IsUsed(h, b)
  {
    assert KeptAt(Xv(), h, h2, b);
  }

  /** An object lies in the page of its block. */
  lemma ObjectPage(h: Heap, pages: set<nat>, a: Addr)
    requires Ready(h, pages, Slack({}, {}, {})) && IsUsed(h, a)
    ensures (a + XV_ALIGN) / PAGE == a / PAGE
  {
    hide At, IndexOk, FlagsOk, ListedOk, Tiled;
    assert InPage(h, a, pages);
    EndArith(a, XV_ALIGN);
  }

  lemma NewPageOk(h: Heap, pages: set<nat>, page: nat, c: Hdr)
    requires Ready(h, pages, Slack({}, {}, {})) && page !in pages && page != 0
      && c == Hdr(PAGE - XV_ALIGN, 0, true, false)
    ensures var h' := AddBlock(Xv(), h, page * PAGE, PAGE, c);
      && Ready(h', pages + {page}, Slack({page * PAGE}, {}, {})) && UsedKept(Xv(), h, h', {})
      && page * PAGE in h'.t.ext && At(h', page * PAGE) == c && OnlyNew(h, h', page * PAGE)
  {
    hide Paged, PutHdr, UsedKept, HeapOk, At;
    var lo := page * PAGE;
    var h' := AddBlock(Xv(), h, lo, PAGE, c);
    HeapParts(Xv(), h, Slack({}, {}, {}));
    NewPageFresh(h, pages, page);
    AddBlockOk(Xv(), h, Slack({}, {}, {}), lo, PAGE, c);
    AddPaged(h, pages, page, c);
    assert Slack({} + {lo}, {} + {lo}, {} + {lo}) == Slack({lo}, {lo}, {lo});
    UsedKeptFree(Xv(), h, h', {lo}, lo);
    assert {lo} - {lo} == {};
    Settle(Xv(), h', Slack({lo}, {lo}, {lo}), lo, Slack({lo}, {}, {}));
  }
}
