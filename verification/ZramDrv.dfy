/** The zram block device: a table of pages over the compressor and the xvmalloc pool. */
module ZramDrv {
  import opened FreeLists
  import opened HeapMem
  import opened BoundaryTags
  import opened XvIndex
  import opened XvHeap
  import opened ZramTable
  import XvPool
  import LzoFormat
  import LzoCompress
  import LzoDecompress
  import LzoMachine

  /** The page allocator of the kernel: it fails whenever it likes, and otherwise returns some
      page that is not held. */
  class PageSource {
    var limit: nat
    /** How often it has failed. */
    ghost var refusals: nat

    constructor ()
    {
      limit, refusals := 1, 0;
    }

    method AllocPage(ghost held: set<nat>) returns (page: nat)
      requires forall p :: p in held ==> p < limit
      modifies this
      ensures page != 0 ==> page !in held
      ensures page < limit && old(limit) <= limit && refusals == old(refusals) + One(page == 0)
    {
      if * {
        page := 0;
      } else {
        page := limit;
      }
      limit, refusals := limit + 1, refusals + One(page == 0);
    }
  }

  /** The slot of a page that has been stored, by the stream that was made of it. */
  ghost function Kept(page: seq<byte>, ts: seq<LzoFormat.Instr>): Slot
    requires LzoFormat.WellFormed(ts)
  {
    var clen := |LzoFormat.Stream(ts)|;
    if page == Zeros() then Zero else if clen <= MAX_ZPAGE_SIZE then Packed(page, ts, clen) else Raw(page)
  }

  /** A stream for the page with the copies that dictionary d yields. */
  ghost predicate Made(page: seq<byte>, ts: seq<LzoFormat.Instr>, d: seq<LzoCompress.Slot>)
    requires |page| == PAGE_SIZE && |d| == LzoCompress.D_SIZE
  {
    && LzoFormat.WellFormed(ts) && LzoFormat.Play(ts, PAGE_SIZE) == LzoFormat.Playing(page)
    && LzoFormat.Copies(ts, PAGE_SIZE) == LzoCompress.Greedy(page, d, 4)
    && (LzoCompress.Uniform(page) ==> |LzoFormat.Stream(ts)| <= PAGE_SIZE / 255 + 13)
  }

  /** What slot s must be to hold the page: zero, packed if the compressor makes it small enough,
      and otherwise raw. */
  ghost predicate HeldAs(s: Slot, page: seq<byte>)
    requires |page| == PAGE_SIZE
  {
    if page == Zeros() then s == Zero
    else exists ts, d :: |d| == LzoCompress.D_SIZE && Made(page, ts, d) && s == Kept(page, ts)
  }

  /** A page of one byte throughout is never kept raw. */
  lemma UniformPacked(s: Slot, page: seq<byte>)
    requires |page| == PAGE_SIZE && HeldAs(s, page) && LzoCompress.Uniform(page)
    ensures if page == Zeros() then s == Zero else s.Packed? && s.clen <= 29
  {
    hide LzoFormat.WellFormed, LzoFormat.Play, LzoFormat.Copies, LzoCompress.Greedy, LzoCompress.Uniform,
      LzoFormat.Stream;
  }

  /** The pos-th unsigned long of a page. */
  function WordAt(page: seq<byte>, pos: nat): nat
    requires 8 * pos + 8 <= |page|
  {
    LongOf(page[8 * pos..8 * pos + 8])
  }

  function LongOf(bytes: seq<byte>): nat {
    if bytes == [] then 0 else bytes[0] as nat + 256 * LongOf(bytes[1..])
  }

  lemma {:induction false} LongIsZero(bytes: seq<byte>)
    ensures LongOf(bytes) == 0 <==> forall i :: 0 <= i < |bytes| ==> bytes[i] == 0
  {
    if bytes != [] {
      LongIsZero(bytes[1..]);
      if LongOf(bytes) == 0 { assert forall i :: 0 < i < |bytes| ==> bytes[i] == bytes[1..][i - 1]; }
    }
  }

  method PageZeroFilled(page: seq<byte>) returns (zero: bool)
    requires |page| == PAGE_SIZE
    ensures zero <==> page == Zeros()
  {
    var pos := 0;
    while pos != PAGE_SIZE / 8
      invariant 0 <= pos <= PAGE_SIZE / 8
      invariant forall i :: 0 <= i < 8 * pos ==> page[i] == 0
    {
      LongIsZero(page[8 * pos..8 * pos + 8]);
      if WordAt(page, pos) != 0 {
        ghost var word := page[8 * pos..8 * pos + 8];
        assert exists i :: 0 <= i < |word| && word[i] != 0;
        return false;
      }
      assert forall i :: 8 * pos <= i < 8 * pos + 8 ==> page[i] == page[8 * pos..8 * pos + 8][i - 8 * pos];
      pos := pos + 1;
    }
    assert page == Zeros();
    zero := true;
  }

  class Zram {
    const pool: XvPool.Pool
    const source: PageSource
    const compressWorkmem: array<LzoCompress.Slot>
    const compressBuffer: array<byte>
    var table: seq<Entry>
    var frames: map<nat, seq<byte>>
    var comprSize: nat
    var pagesZero: nat
    var pagesStored: nat
    var goodCompress: nat
    var pagesExpand: nat
    var numReads: nat
    var numWrites: nat
    var failedReads: nat
    var failedWrites: nat
    var discards: nat
    ghost var slots: seq<Slot>
    ghost var owners: Owners
    /** Every store, failed store and discard of a slot since the device was made. */
    ghost var history: seq<Event>

    ghost function Shares(): Share
      reads this
    {
      Share(comprSize, pagesZero, pagesStored, goodCompress, pagesExpand)
    }

    ghost predicate Valid()
      reads this, pool, source
    {
      && pool.Valid() && |slots| == |table| && compressBuffer != compressWorkmem as object
      && TableOk(pool.H(), pool.pages, frames, table, slots, owners, Shares(), source.limit)
      && compressBuffer.Length == 2 * PAGE_SIZE && compressWorkmem.Length == LzoCompress.D_SIZE
    }

    /** The disk is what its history makes of it. */
    ghost predicate Faithful()
      reads this
    {
      SlotsBelow(history, |slots|) && Disk(slots) == After(|slots|, history)
    }

    /** A device of n pages: the table, the compression buffers and an empty pool. */
    constructor (n: nat)
      ensures Valid() && |slots| == n && Disk(slots) == seq(n, _ => None) && history == [] && Faithful()
    {
      pool := new XvPool.Pool();
      source := new PageSource();
      compressWorkmem := new LzoCompress.Slot[LzoCompress.D_SIZE];
      compressBuffer := new byte[2 * PAGE_SIZE];
      table, frames := seq(n, _ => EMPTY), map[];
      comprSize, pagesZero, pagesStored, goodCompress, pagesExpand := 0, 0, 0, 0, 0;
      numReads, numWrites, failedReads, failedWrites, discards := 0, 0, 0, 0, 0;
      slots, owners, history := seq(n, _ => Absent), Owners(map[], map[]), [];
      new;
      hide Ready, Live, TableOk, Disk;
      EmptyOk(pool.H(), n, source.limit);
    }

    /** Drops whatever slot i holds. */
    method FreePage(i: nat)
      requires Valid() && i < |table|
      modifies `table, `frames, `slots, `owners, `comprSize, `pagesZero, `pagesStored, `goodCompress, `pagesExpand, pool
      ensures Valid() && i < |old(slots)| && slots == old(slots)[i := Absent] && |table| == |old(table)|
    {
      hide Ready, SlotsOk, OwnersOk, Totals, Live, HeldOk, PackedOk;
      ghost var share, slot, h, pages := Shares(), slots[i], pool.H(), pool.pages;
      SlotFacts(h, pages, frames, table, slots, owners, share, source.limit, i, Absent);
      if table[i].page == 0 {
        if table[i].zero {
          pagesZero := pagesZero - 1;
          FreeZeroOk(h, pages, frames, table, slots, owners, share, source.limit, i, Shares());
          table := table[i := table[i].(zero := false)];
        }
      } else if table[i].uncompressed {
        FreeRaw(i);
      } else {
        FreePacked(i);
      }
      slots := slots[i := Absent];
    }

    ghost predicate ValidBut(slots': seq<Slot>)
      reads this, pool, source
    {
      && pool.Valid() && |slots'| == |table| && compressBuffer != compressWorkmem as object
      && TableOk(pool.H(), pool.pages, frames, table, slots', owners, Shares(), source.limit)
      && compressBuffer.Length == 2 * PAGE_SIZE && compressWorkmem.Length == LzoCompress.D_SIZE
    }

    method FreeRaw(i: nat)
      requires Valid() && i < |table| && i < |slots| && slots[i].Raw?
      modifies `table, `frames, `owners, `comprSize, `pagesStored, `pagesExpand
      ensures ValidBut(slots[i := Absent]) && |table| == |old(table)|
    {
      hide Ready, SlotsOk, OwnersOk, Totals, Live, HeldOk, PackedOk;
      ghost var share, h := Shares(), pool.H();
      SlotFacts(h, pool.pages, frames, table, slots, owners, share, source.limit, i, Absent);
      var clen, page := PAGE_SIZE, table[i].page;
      pagesExpand := pagesExpand - 1;
      comprSize := comprSize - clen;
      pagesStored := pagesStored - 1;
      FreeRawOk(h, pool.pages, frames, table, slots, owners, share, source.limit, i, Shares());
      owners := Disowned(owners, table[i], slots[i]);
      frames := frames - {page};
      table := table[i := table[i].(uncompressed := false)];
      table := table[i := table[i].(page := 0, offset := 0)];
      assert table == old(table)[i := EMPTY];
    }

    method FreePacked(i: nat)
      requires Valid() && i < |table| && i < |slots| && slots[i].Packed?
      modifies `table, `owners, `comprSize, `pagesStored, `goodCompress, pool
      ensures ValidBut(slots[i := Absent]) && |table| == |old(table)|
    {
      hide Ready, TableOk, Live, UsedKept, HdrAt, SlotOk, Obj, Block, Disowned, Totals;
      ghost var share, h, pages := Shares(), pool.H(), pool.pages;
      SlotFacts(h, pages, frames, table, slots, owners, share, source.limit, i, Absent);
      PackedFacts(h, frames, table[i], slots[i]);
      PackedShare(share, Totals(slots[i := Absent]), slots[i]);
      var obj := Obj(table[i]);
      var clen := HdrAt(pool.mem, obj - XV_ALIGN).size;
      assert clen == slots[i].clen;
      pool.Free(obj);
      if clen <= PAGE_SIZE / 2 {
        goodCompress := goodCompress - 1;
      }
      comprSize := comprSize - clen;
      pagesStored := pagesStored - 1;
      FreePackedOk(h, pages, frames, table, slots, owners, share, source.limit, i, Shares(), pool.H(), pool.pages);
      owners := Disowned(owners, table[i], slots[i]);
      table := table[i := table[i].(page := 0, offset := 0)];
      assert table == old(table)[i := EMPTY];
    }

    // ------------------------------------------------------------- writing

    /** Keeps an incompressible page as it is, if the page allocator has a page for it. */
    method StoreRaw(i: nat, page: seq<byte>) returns (ok: bool)
      requires Valid() && i < |table| && slots[i] == Absent && |page| == PAGE_SIZE
      modifies `table, `frames, `slots, `owners, `comprSize, `pagesStored, `pagesExpand, `failedWrites, source
      ensures Valid() && |table| == |old(table)| && failedWrites == old(failedWrites) + One(!ok)
      ensures slots == if ok then old(slots)[i := Raw(page)] else old(slots)
      ensures source.refusals == old(source.refusals) + One(!ok)
    {
      hide Ready, SlotsOk, OwnersOk, Totals, Live, TableOk;
      ghost var share, limit, h := Shares(), source.limit, pool.H();
      HeldBelow(h, pool.pages, frames, table, slots, owners, share, limit);
      var pageStore := source.AllocPage(pool.pages + frames.Keys);
      LimitGrows(h, pool.pages, frames, table, slots, owners, share, limit, source.limit);
      if pageStore == 0 {
        failedWrites := failedWrites + 1;
        return false;
      }
      RecordRaw(i, page, pageStore);
      ok := true;
    }

    method RecordRaw(i: nat, page: seq<byte>, pageStore: nat)
      requires Valid() && i < |table| && slots[i] == Absent && |page| == PAGE_SIZE
      requires pageStore != 0 && pageStore !in pool.pages && pageStore !in frames && pageStore < source.limit
      modifies `table, `frames, `slots, `owners, `comprSize, `pagesStored, `pagesExpand
      ensures Valid() && |table| == |old(table)| && slots == old(slots)[i := Raw(page)]
    {
      hide Ready, OwnersOk, Totals, Live, TableOk;
      var clen := PAGE_SIZE;
      AbsentEntry(pool.H(), pool.pages, frames, table, slots, owners, Shares(), source.limit, i);
      TakeRawOk(pool.H(), pool.pages, frames, table, slots, owners, Shares(), source.limit, i, pageStore, page);
      owners := Owned(owners, Entry(pageStore, 0, true, false), Raw(page), i);
      table := table[i := table[i].(uncompressed := true, page := pageStore, offset := 0)];
      pagesExpand := pagesExpand + 1;
      frames := frames[pageStore := page];
      comprSize := comprSize + clen;
      pagesStored := pagesStored + 1;
      slots := slots[i := Raw(page)];
    }

    /** An object with the given contents, if xv_malloc finds room for it; no entry refers to it yet. */
    method PlaceObject(clen: nat) returns (ok: bool, obj: Addr, ghost h: Heap, ghost pages: set<nat>)
      requires Valid() && 0 < clen <= MAX_ZPAGE_SIZE
      modifies source, pool
      ensures pool.Valid() && pool.pages !! frames.Keys && (forall p :: p in pool.pages ==> p < source.limit)
      ensures !ok ==> Valid()
      ensures Refused(source.refusals - old(source.refusals), ok, old(HasFree(pool.H(), clen)))
      ensures ok ==> TableOk(h, pages, frames, table, slots, owners, Shares(), source.limit) && obj >= XV_ALIGN
      ensures ok ==> obj - XV_ALIGN !in Live(h) && Live(pool.H()) == Live(h)[obj - XV_ALIGN := clen]
      ensures ok ==>
        UsedKept(Xv(), h, pool.H(), {obj - XV_ALIGN}) && Holds(Xv(), pool.H(), obj - XV_ALIGN, compressBuffer[..clen])
    {
      hide Ready, Live, UsedKept, Holds, TableOk, HasFree;
      h, pages := pool.H(), pool.pages;
      ghost var limit := source.limit;
      HeldBelow(h, pages, frames, table, slots, owners, Shares(), limit);
      ok, obj := GetObject(clen);
      LimitGrows(h, pages, frames, table, slots, owners, Shares(), limit, source.limit);
      if ok {
        FillObject(obj, clen, h);
      } else {
        PoolOnlyOk(h, pages, frames, table, slots, owners, Shares(), source.limit, pool.H(), pool.pages, source.limit);
      }
    }

    method FillObject(obj: Addr, clen: nat, ghost h: Heap)
      requires pool.Valid() && obj >= XV_ALIGN && Live(pool.H()) == Live(h)[obj - XV_ALIGN := clen]
        && clen <= compressBuffer.Length
      requires UsedKept(Xv(), h, pool.H(), {obj - XV_ALIGN})
      modifies pool`mem
      ensures pool.Valid() && Live(pool.H()) == Live(h)[obj - XV_ALIGN := clen]
        && UsedKept(Xv(), h, pool.H(), {obj - XV_ALIGN})
      ensures Holds(Xv(), pool.H(), obj - XV_ALIGN, compressBuffer[..clen])
    {
      hide Ready, Live, UsedKept, Holds;
      ghost var h1 := pool.H();
      pool.Write(obj, compressBuffer[..clen]);
      UsedKeptTrans(Xv(), h, h1, pool.H(), {obj - XV_ALIGN}, {obj - XV_ALIGN});
      assert {obj - XV_ALIGN} + {obj - XV_ALIGN} == {obj - XV_ALIGN};
    }

    method GetObject(clen: nat) returns (ok: bool, obj: Addr)
      requires pool.Valid() && 0 < clen <= MAX_ZPAGE_SIZE
      requires pool.pages !! frames.Keys && forall p :: p in pool.pages + frames.Keys ==> p < source.limit
      modifies source, pool
      ensures pool.Valid() && pool.pages !! frames.Keys && (forall p :: p in pool.pages ==> p < source.limit)
        && source.limit >= old(source.limit)
      ensures !ok ==> Live(pool.H()) == old(Live(pool.H())) && UsedKept(Xv(), old(pool.H()), pool.H(), {})
      ensures ok ==>
        obj >= XV_ALIGN && obj - XV_ALIGN !in old(Live(pool.H()))
        && Live(pool.H()) == old(Live(pool.H()))[obj - XV_ALIGN := clen]
      ensures ok ==> UsedKept(Xv(), old(pool.H()), pool.H(), {obj - XV_ALIGN})
      ensures Refused(source.refusals - old(source.refusals), ok, old(HasFree(pool.H(), clen)))
    {
      hide Ready, Live, UsedKept, HasFree, GoodFit;
      NoPageZero(pool.H(), pool.pages);
      var page := source.AllocPage(pool.pages + frames.Keys);
      ok, obj := pool.Malloc(clen, page);
    }

    /** Keeps a page as the stream in the compression buffer, if the pool has room for it. */
    method StorePacked(i: nat, page: seq<byte>, clen: nat, ghost ts: seq<LzoFormat.Instr>) returns (ok: bool)
      requires Valid() && i < |table| && slots[i] == Absent && |page| == PAGE_SIZE && clen <= MAX_ZPAGE_SIZE
      requires LzoFormat.WellFormed(ts) && compressBuffer[..clen] == LzoFormat.Stream(ts)
      requires LzoFormat.Play(ts, PAGE_SIZE) == LzoFormat.Playing(page)
      modifies `table, `slots, `owners, `comprSize, `pagesStored, `goodCompress, `failedWrites, source, pool
      ensures Valid() && |table| == |old(table)| && failedWrites == old(failedWrites) + One(!ok)
      ensures slots == if ok then old(slots)[i := Packed(page, ts, clen)] else old(slots)
      ensures Refused(source.refusals - old(source.refusals), ok, old(HasFree(pool.H(), clen)))
    {
      hide HasFree, Ready, SlotOk, OwnersOk, Totals, Live, TableOk, UsedKept, Holds, Block, LzoFormat.Play,
        LzoFormat.WellFormed, LzoFormat.Stream;
      StreamLength(ts);
      var obj; ghost var h, pages;
      ok, obj, h, pages := PlaceObject(clen);
      if !ok {
        failedWrites := failedWrites + 1;
        return;
      }
      PackedStored(pool.H(), pool.pages, frames, obj, page, ts);
      RecordPacked(i, obj, clen, Packed(page, ts, clen), h, pages);
    }

    /** The table entry and the statistics for an object just filled. */
    method RecordPacked(i: nat, obj: Addr, clen: nat, ghost s: Slot, ghost h: Heap, ghost pages: set<nat>)
      requires TableOk(h, pages, frames, table, slots, owners, Shares(), source.limit) && i < |table| == |slots|
        && slots[i] == Absent
      requires s.Packed? && s.clen == clen && SlotOk(pool.H(), frames, EntryOf(obj), s) && pool.Valid()
      requires pool.pages !! frames.Keys && forall p :: p in pool.pages ==> p < source.limit
      requires Block(EntryOf(obj)) !in Live(h) && Live(pool.H()) == Live(h)[Block(EntryOf(obj)) := clen]
      requires UsedKept(Xv(), h, pool.H(), {Block(EntryOf(obj))})
      requires compressBuffer.Length == 2 * PAGE_SIZE && compressWorkmem.Length == LzoCompress.D_SIZE
        && compressBuffer != compressWorkmem as object
      modifies `table, `slots, `owners, `comprSize, `pagesStored, `goodCompress
      ensures Valid() && |table| == |old(table)| && slots == old(slots)[i := s]
    {
      hide Ready, SlotsOk, OwnersOk, Totals, Live, TableOk, UsedKept, PackedOk, Block;
      AbsentEntry(h, pages, frames, table, slots, owners, Shares(), source.limit, i);
      TakePackedOk(h, pages, frames, table, slots, owners, Shares(), source.limit, i, pool.H(), pool.pages,
        EntryOf(obj), s);
      owners := Owned(owners, EntryOf(obj), s, i);
      table := table[i := table[i].(page := obj / PAGE_SIZE, offset := obj % PAGE_SIZE)];
      comprSize := comprSize + clen;
      pagesStored := pagesStored + 1;
      if clen <= PAGE_SIZE / 2 {
        goodCompress := goodCompress + 1;
      }
      slots := slots[i := s];
    }

    /** Stores one page in slot i, unless the page allocator fails. */
    method WritePage(i: nat, page: seq<byte>) returns (ok: bool)
      requires Valid() && i < |table| && |page| == PAGE_SIZE
      modifies `table, `frames, `slots, `owners, `comprSize, `pagesZero, `pagesStored, `goodCompress, `pagesExpand,
        `failedWrites, pool, source,
               compressBuffer, compressWorkmem
      ensures Valid() && |table| == |old(table)| && i < |old(Disk(slots))|
      ensures Disk(slots) == old(Disk(slots))[i := if ok then Some(page) else None]
      ensures |slots| == |old(slots)| && slots == old(slots)[i := slots[i]]
      ensures if ok then HeldAs(slots[i], page) else slots[i] == Absent
      ensures failedWrites == old(failedWrites) + One(!ok) && source.refusals >= old(source.refusals) + One(!ok)
      ensures page == Zeros() ==> ok
    {
      hide Ready, SlotsOk, OwnersOk, Totals, Live, HeldOk, PackedOk, Disk, TableOk, LzoFormat.Play,
        LzoFormat.WellFormed, LzoFormat.Stream, Made, Kept;
      ghost var slots0 := slots;
      AbsentEntry(pool.H(), pool.pages, frames, table, slots, owners, Shares(), source.limit, i);
      if table[i].page != 0 || table[i].zero {
        FreePage(i);
      }
      assert slots == slots0[i := Absent];
      var zero := PageZeroFilled(page);
      if zero {
        ok := true;
        AbsentEntry(pool.H(), pool.pages, frames, table, slots, owners, Shares(), source.limit, i);
        TakeZeroOk(pool.H(), pool.pages, frames, table, slots, owners, Shares(), source.limit, i);
        pagesZero := pagesZero + 1;
        table := table[i := table[i].(zero := true)];
        slots := slots[i := Zero];
      } else {
        ghost var ts, d := [], compressWorkmem[..];
        ok, ts := StoreCompressed(i, page);
        if ok { KeptData(slots[i], page, ts, d); }
      }
      Rewritten(slots0, slots, i);
    }

    method StoreCompressed(i: nat, page: seq<byte>) returns (ok: bool, ghost ts: seq<LzoFormat.Instr>)
      requires Valid() && i < |table| && slots[i] == Absent && |page| == PAGE_SIZE && page != Zeros()
      modifies `table, `frames, `slots, `owners, `comprSize, `pagesStored, `goodCompress, `pagesExpand, `failedWrites,
        pool, source,
               compressBuffer, compressWorkmem
      ensures Valid() && |table| == |old(table)| && failedWrites == old(failedWrites) + One(!ok)
        && |slots| == |old(slots)|
      ensures Made(page, ts, old(compressWorkmem[..]))
      ensures slots == if ok then old(slots)[i := Kept(page, ts)] else old(slots)
      ensures source.refusals >= old(source.refusals) + One(!ok)
    {
      hide TableOk, XvPool.Pool.Valid, LzoFormat.Play, LzoFormat.WellFormed, LzoFormat.Stream, HasFree,
        LzoFormat.Copies, LzoCompress.Greedy, LzoCompress.Uniform;
      var clen;
      clen, ts := LzoCompress.Compress(page, compressBuffer, compressWorkmem);
      if clen > MAX_ZPAGE_SIZE {
        ok := StoreRaw(i, page);
      } else {
        ok := StorePacked(i, page, clen, ts);
      }
    }

    /** A write request for consecutive slots; it ends at the first page that cannot be stored. */
    method Write(start: nat, pages: seq<seq<byte>>) returns (ok: bool, done: nat)
      requires Valid() && start + |pages| <= |table| && forall k :: 0 <= k < |pages| ==> |pages[k]| == PAGE_SIZE
      modifies this, pool, source, compressBuffer, compressWorkmem
      ensures Valid() && |slots| == |old(slots)| && done <= |pages| && (ok <==> done == |pages|)
      ensures start + |pages| <= |old(slots)|
      ensures Disk(slots) == if ok then Written(old(Disk(slots)), start, pages)
                             else Written(old(Disk(slots)), start, pages[..done])[start + done := None]
      ensures numWrites == old(numWrites) + 1 && failedWrites == old(failedWrites) + One(!ok)
      ensures numReads == old(numReads) && failedReads == old(failedReads) && discards == old(discards)
      ensures history == old(history) + WriteEvents(start, pages, done) && (old(Faithful()) ==> Faithful())
      ensures forall k: nat :: k < done ==> HeldAs(slots[start + k], pages[k])
      ensures !ok ==> source.refusals > old(source.refusals) && pages[done] != Zeros()
    {
      hide TableOk, XvPool.Pool.Valid, Disk, Written, After, WriteEvents, SlotsBelow, HeldAs;
      numWrites := numWrites + 1;
      ok, done := StorePages(start, pages);
      history := history + WriteEvents(start, pages, done);
      if old(Faithful()) { WriteAfter(|slots|, old(history), start, pages, done); }
    }

    /** The pages of a write request, up to the first that cannot be stored. */
    method StorePages(start: nat, pages: seq<seq<byte>>) returns (ok: bool, done: nat)
      requires Valid() && start + |pages| <= |table| && forall k :: 0 <= k < |pages| ==> |pages[k]| == PAGE_SIZE
      modifies `table, `frames, `slots, `owners, `comprSize, `pagesZero, `pagesStored, `goodCompress, `pagesExpand,
        `failedWrites, pool, source,
               compressBuffer, compressWorkmem
      ensures Valid() && |slots| == |old(slots)| && done <= |pages| && (ok <==> done == |pages|)
      ensures start + |pages| <= |old(slots)| && failedWrites == old(failedWrites) + One(!ok)
      ensures Disk(slots) == if ok then Written(old(Disk(slots)), start, pages)
                             else Written(old(Disk(slots)), start, pages[..done])[start + done := None]
      ensures forall k: nat :: k < done ==> HeldAs(slots[start + k], pages[k])
      ensures !ok ==> source.refusals > old(source.refusals) && pages[done] != Zeros()
    {
      hide TableOk, XvPool.Pool.Valid, Disk, Written, HeldAs;
      done := 0;
      assert pages[..0] == [];
      WrittenNone(Disk(slots), start);
      while done < |pages|
        invariant Valid() && |table| == |old(table)| && done <= |pages| && |slots| == |old(slots)|
        invariant Disk(slots) == Written(old(Disk(slots)), start, pages[..done]) && failedWrites == old(failedWrites)
        invariant forall k: nat :: k < done ==> HeldAs(slots[start + k], pages[k])
        invariant source.refusals >= old(source.refusals)
      {
        var stored := WritePage(start + done, pages[done]);
        if !stored { return false, done; }
        WrittenNext(old(Disk(slots)), start, pages, done);
        done := done + 1;
      }
      assert pages[..|pages|] == pages;
      ok := true;
    }

    /** A discard request for n consecutive slots. */
    method Discard(start: nat, n: nat)
      requires Valid() && start + n <= |table|
      modifies this, pool
      ensures Valid() && |slots| == |old(slots)| && start + n <= |old(slots)|
        && Disk(slots) == Erased(old(Disk(slots)), start, n)
      ensures discards == old(discards) + 1 && failedWrites == old(failedWrites) && numWrites == old(numWrites)
      ensures numReads == old(numReads) && failedReads == old(failedReads)
      ensures history == old(history) + Discards(start, n) && (old(Faithful()) ==> Faithful())
    {
      hide TableOk, XvPool.Pool.Valid, Disk, Erased, After, Discards, SlotsBelow;
      var i := 0;
      ErasedNone(Disk(slots), start);
      while i < n
        invariant Valid() && |table| == |old(table)| && i <= n && Disk(slots) == Erased(old(Disk(slots)), start, i)
        invariant history == old(history) && |slots| == |old(slots)|
        invariant discards == old(discards) && failedWrites == old(failedWrites) && numWrites == old(numWrites)
        invariant numReads == old(numReads) && failedReads == old(failedReads)
      {
        DiskUpdate(slots, start + i, Absent);
        FreePage(start + i);
        ErasedNext(old(Disk(slots)), start, i);
        i := i + 1;
      }
      discards := discards + 1;
      history := history + Discards(start, n);
      if old(Faithful()) { DiscardsAfter(|slots|, old(history), start, n); }
    }

    // ------------------------------------------------------------- reading

    /** Delivers slot i into a page of the caller, which an absent slot leaves alone. */
    method ReadPage(i: nat, user: array<byte>) returns (ok: bool)
      requires Valid() && i < |table| && user.Length == PAGE_SIZE
      modifies user, `failedReads
      ensures Valid() && ok && failedReads == old(failedReads) && i < |Disk(slots)|
      ensures user[..] == match Disk(slots)[i] case None => old(user[..]) case Some(d) => d
    {
      hide TableOk, XvPool.Pool.Valid, PackedOk, LzoFormat.Play, LzoFormat.WellFormed, LzoFormat.Stream;
      ReadFacts(pool.H(), pool.pages, frames, table, slots, owners, Shares(), source.limit, i);
      ok := true;
      if table[i].zero {
        forall k | 0 <= k < PAGE_SIZE { user[k] := 0; }
        assert user[..] == Zeros();
      } else if table[i].page == 0 {
      } else if table[i].uncompressed {
        var d := frames[table[i].page];
        forall k | 0 <= k < PAGE_SIZE { user[k] := d[k]; }
        assert user[..] == d;
      } else {
        ok := Unpack(i, user);
        failedReads := failedReads + One(!ok);
      }
    }

    method Unpack(i: nat, user: array<byte>) returns (ok: bool)
      requires Valid() && i < |table| && slots[i].Packed? && user.Length == PAGE_SIZE
      modifies user
      ensures ok && user[..] == slots[i].data
    {
      hide TableOk, Ready, Live, LzoFormat.Play, LzoFormat.WellFormed, LzoFormat.Stream, LzoMachine.IsStream;
      PackedRead(pool.H(), pool.pages, frames, table, slots, owners, Shares(), source.limit, i);
      var obj := Obj(table[i]);
      var clen := HdrAt(pool.mem, obj - XV_ALIGN).size;
      var cmem := HeapMem.Read(pool.mem.data, obj, clen);
      assert cmem == LzoFormat.Stream(slots[i].ts);
      LzoMachine.CompleteStream(cmem, slots[i].ts);
      ghost var seen, end;
      var ret, outLen;
      ret, outLen, seen, end :=
        LzoMachine.DecompressSafe(cmem, clen, user, PAGE_SIZE, slots[i].ts, LzoMachine.COMPLETE);
      assert user[..PAGE_SIZE] == user[..];
      ok := ret == LzoDecompress.LZO_E_OK;
    }

    /** A read request for consecutive slots, one page of the caller for each, where a page may
        be named more than once. */
    method Read(start: nat, users: seq<array<byte>>) returns (ok: bool)
      requires Valid() && start + |users| <= |table| && forall k :: 0 <= k < |users| ==> users[k].Length == PAGE_SIZE
      modifies `numReads, `failedReads, set k | 0 <= k < |users| :: users[k]
      ensures Valid() && ok && start + |users| <= |slots| && numReads == old(numReads) + 1
        && failedReads == old(failedReads)
      ensures forall k :: 0 <= k < |users| ==>
        users[k][..] == Landed(Disk(slots), start, users, |users|, users[k], old(users[k][..]))
      ensures Faithful() ==> forall k :: 0 <= k < |users| && NamedOnce(users, k) ==>
        Delivered(history, start + k, old(users[k][..]), users[k][..])
    {
      hide TableOk, XvPool.Pool.Valid, Disk;
      numReads := numReads + 1;
      var i := 0;
      ok := true;
      while i < |users|
        invariant Valid() && i <= |users| && numReads == old(numReads) + 1 && failedReads == old(failedReads) && ok
        invariant forall k :: 0 <= k < |users| ==>
          users[k][..] == Landed(Disk(slots), start, users, i, users[k], old(users[k][..]))
      {
        ok := ReadPage(start + i, users[i]);
        i := i + 1;
      }
      if Faithful() {
        forall k | 0 <= k < |users| && NamedOnce(users, k)
          ensures Delivered(history, start + k, old(users[k][..]), users[k][..])
        {
          LandedOnce(Disk(slots), start, users, |users|, k, old(users[k][..]));
          DeliveredBy(|slots|, history, start + k, old(users[k][..]), users[k][..]);
        }
      }
    }
  }

  /** What page u, which held `before`, holds after the first n segments of a read. */
  ghost function Landed(disk: seq<Option<seq<byte>>>, start: nat, users: seq<array<byte>>, n: nat, u: array<byte>,
      before: seq<byte>): seq<byte>
    requires n <= |users| && start + |users| <= |disk|
  {
    if n == 0 then before
    else if users[n - 1] == u && disk[start + n - 1].Some? then disk[start + n - 1].value
    else Landed(disk, start, users, n - 1, u, before)
  }

  /** k is the last of the first n segments that delivers data into page u. */
  ghost predicate LastInto(disk: seq<Option<seq<byte>>>, start: nat, users: seq<array<byte>>, n: nat, u: array<byte>,
      k: nat)
    requires n <= |users| && start + |users| <= |disk|
  {
    k < n && users[k] == u && disk[start + k].Some? && forall l :: k < l < n && users[l] == u ==> disk[start + l].None?
  }

  /** The last segment with data wins; where none has any, the page is left alone. */
  lemma {:induction false} LandedIs(disk: seq<Option<seq<byte>>>, start: nat, users: seq<array<byte>>, n: nat,
      u: array<byte>, before: seq<byte>)
    requires n <= |users| && start + |users| <= |disk|
    ensures forall k: nat :: LastInto(disk, start, users, n, u, k) ==>
      Landed(disk, start, users, n, u, before) == disk[start + k].value
    ensures (forall k :: 0 <= k < n && users[k] == u ==> disk[start + k].None?) ==>
      Landed(disk, start, users, n, u, before) == before
  {
    if n > 0 {
      LandedIs(disk, start, users, n - 1, u, before);
      forall k: nat | LastInto(disk, start, users, n, u, k)
        ensures Landed(disk, start, users, n, u, before) == disk[start + k].value
      {
        if k < n - 1 { assert LastInto(disk, start, users, n - 1, u, k); }
      }
    }
  }

  ghost predicate NamedOnce(users: seq<array<byte>>, k: nat)
    requires k < |users|
  {
    forall l :: 0 <= l < |users| && l != k ==> users[l] != users[k]
  }

  lemma LandedOnce(disk: seq<Option<seq<byte>>>, start: nat, users: seq<array<byte>>, n: nat, k: nat, before: seq<byte>)
    requires n == |users| && start + |users| <= |disk| && k < n && NamedOnce(users, k)
    ensures Landed(disk, start, users, n, users[k], before)
      == match disk[start + k] case None => before case Some(d) => d
  {
    LandedIs(disk, start, users, n, users[k], before);
    if disk[start + k].Some? { assert LastInto(disk, start, users, n, users[k], k); }
  }

  /** A reader of slot i gets the data of its last successful write, if neither a discard nor a
      failed write came later, and otherwise keeps what was in its page. */
  ghost predicate Delivered(history: seq<Event>, i: nat, before: seq<byte>, got: seq<byte>) {
    if exists k: nat, d :: LastOf(history, i, k) && history[k] == Stored(i, d)
    then exists k: nat :: LastOf(history, i, k) && history[k] == Stored(i, got)
    else got == before
  }

  lemma DeliveredBy(n: nat, history: seq<Event>, i: nat, before: seq<byte>, got: seq<byte>)
    requires i < n && SlotsBelow(history, n) && got == match After(n, history)[i] case None => before case Some(d) => d
    ensures Delivered(history, i, before, got)
  {
    hide After, LastOf, SlotsBelow;
    LastWriteWins(n, history, i);
  }

  lemma KeptData(s: Slot, page: seq<byte>, ts: seq<LzoFormat.Instr>, d: seq<LzoCompress.Slot>)
    requires |page| == PAGE_SIZE && |d| == LzoCompress.D_SIZE && Made(page, ts, d) && s == Kept(page, ts)
    ensures HeldAs(s, page) && DataOf(s) == Some(page)
  {
    hide LzoFormat.WellFormed, LzoFormat.Play, LzoFormat.Copies, LzoCompress.Greedy, LzoCompress.Uniform,
      LzoFormat.Stream;
  }

  /** Storing an object fails exactly if the page allocator fails and no hole is large enough. */
  ghost predicate Refused(times: int, ok: bool, hole: bool) { 0 <= times <= 1 && (ok <==> times == 0 || hole) }

  /** What a packed slot contributes to the statistics. */
  lemma PackedShare(share: Share, rest: Share, s: Slot)
    requires s.Packed? && Plus(rest, ShareOf(s)) == Plus(share, ShareOf(Absent))
    ensures share.comprSize >= s.clen && share.pagesStored >= 1 && (s.clen <= PAGE_SIZE / 2 ==> share.goodCompress >= 1)
    ensures rest == Share(share.comprSize - s.clen, share.pagesZero, share.pagesStored - 1,
                          if s.clen <= PAGE_SIZE / 2 then share.goodCompress - 1
                            else share.goodCompress, share.pagesExpand)
    ensures ShareLeft(share, rest, s)
  {
  }

  lemma Rewritten(slots0: seq<Slot>, slots: seq<Slot>, i: nat)
    requires i < |slots0| && |slots| == |slots0| && slots == slots0[i := slots[i]]
    ensures Disk(slots) == Disk(slots0)[i := DataOf(slots[i])]
  {
    DiskUpdate(slots0, i, slots[i]);
  }

  lemma WrittenNone(disk: seq<Option<seq<byte>>>, start: nat)
    requires start <= |disk|
    ensures Written(disk, start, []) == disk
  {
  }

  lemma WrittenNext(disk: seq<Option<seq<byte>>>, start: nat, pages: seq<seq<byte>>, k: nat)
    requires start + |pages| <= |disk| && k < |pages|
    ensures Written(disk, start, pages[..k + 1]) == Written(disk, start, pages[..k])[start + k := Some(pages[k])]
  {
    assert pages[..k + 1][..k] == pages[..k];
  }

  lemma ErasedNone(disk: seq<Option<seq<byte>>>, start: nat)
    requires start <= |disk|
    ensures Erased(disk, start, 0) == disk
  {
  }

  lemma ErasedNext(disk: seq<Option<seq<byte>>>, start: nat, k: nat)
    requires start + k + 1 <= |disk|
    ensures Erased(disk, start, k + 1) == Erased(disk, start, k)[start + k := None]
  {
  }

  /** What the flags and the page of an entry say about its slot. */
  lemma ReadFacts(h: Heap, pages: set<nat>, frames: map<nat, seq<byte>>, table: seq<Entry>, slots: seq<Slot>,
      o: Owners, share: Share,
                  limit: nat, i: nat)
    requires TableOk(h, pages, frames, table, slots, o, share, limit) && i < |table| == |slots|
    ensures table[i].zero <==> slots[i] == Zero
    ensures !table[i].zero && table[i].page == 0 <==> slots[i] == Absent
    ensures table[i].uncompressed <==> slots[i].Raw?
    ensures slots[i].Raw? ==>
      table[i].page in frames && frames[table[i].page] == slots[i].data && |slots[i].data| == PAGE_SIZE
      && table[i].page != 0
  {
    hide Ready, OwnersOk, Totals, PackedOk, HeldOk;
    assert SlotOk(h, frames, table[i], slots[i]);
  }

  /** What can be read back from the object of a packed slot. */
  lemma PackedRead(h: Heap, pages: set<nat>, frames: map<nat, seq<byte>>, table: seq<Entry>, slots: seq<Slot>,
      o: Owners, share: Share,
                   limit: nat, i: nat)
    requires TableOk(h, pages, frames, table, slots, o, share, limit) && i < |table| == |slots| && slots[i].Packed?
    ensures Obj(table[i]) >= XV_ALIGN && LzoFormat.WellFormed(slots[i].ts) && |slots[i].data| == PAGE_SIZE
    ensures LzoFormat.Play(slots[i].ts, PAGE_SIZE) == LzoFormat.Playing(slots[i].data)
    ensures var clen := HdrAt(h.m, Obj(table[i]) - XV_ALIGN).size;
      Readable(h.m.data, Obj(table[i]), clen)
        && HeapMem.Read(h.m.data, Obj(table[i]), clen) == LzoFormat.Stream(slots[i].ts)
  {
    hide Ready, OwnersOk, Totals, HeldOk, Live, LzoFormat.Play, LzoFormat.Stream, LzoFormat.WellFormed;
    assert SlotOk(h, frames, table[i], slots[i]);
    PackedFacts(h, frames, table[i], slots[i]);
  }
}
