/** The zram table: what each slot stands for, who owns which memory, and the statistics. */
module ZramTable {
  import opened Octets
  import opened FreeLists
  import opened BoundaryTags
  import opened XvIndex
  import opened XvHeap
  import opened XvRelease
  import XvPool
  import LzoFormat

  const PAGE_SIZE: nat := 4096

  /** Pages that compress to more than this are stored as they are. */
  const MAX_ZPAGE_SIZE: nat := PAGE_SIZE / 4 * 3

  datatype Option<T> = None | Some(value: T)

  /** A table entry: page number (0 for none), offset in the page, and both flags. */
  datatype Entry = Entry(page: nat, offset: nat, uncompressed: bool, zero: bool)

  const EMPTY: Entry := Entry(0, 0, false, false)

  /** What a slot stands for: nothing, a page of zeros, a page kept as it is, or one kept as
      the stream of instructions `ts`, of `clen` bytes. */
  datatype Slot = Absent | Zero | Raw(data: seq<byte>) | Packed(data: seq<byte>, ts: seq<LzoFormat.Instr>, clen: nat)

  function Zeros(): seq<byte> { seq(PAGE_SIZE, _ => 0) }

  function DataOf(s: Slot): Option<seq<byte>> {
    match s
    case Absent => None
    case Zero => Some(Zeros())
    case Raw(d) => Some(d)
    case Packed(d, _, _) => Some(d)
  }

  /** The contents of the disk, one optional page a slot. */
  function Disk(slots: seq<Slot>): (r: seq<Option<seq<byte>>>)
    ensures |r| == |slots|
  {
    seq(|slots|, i requires 0 <= i < |slots| => DataOf(slots[i]))
  }

  function Obj(e: Entry): Addr { e.page * PAGE_SIZE + e.offset }

  /** The header of the object of an entry. */
  function Block(e: Entry): Addr {
    if Obj(e) >= XV_ALIGN then Obj(e) - XV_ALIGN else 0
  }

  ghost predicate PackedOk(h: Heap, e: Entry, d: seq<byte>, ts: seq<LzoFormat.Instr>, clen: nat) {
    && |d| == PAGE_SIZE && LzoFormat.WellFormed(ts) && LzoFormat.Play(ts, PAGE_SIZE) == LzoFormat.Playing(d)
    && Obj(e) >= XV_ALIGN && Block(e) in Live(h) && Live(h)[Block(e)] == clen == |LzoFormat.Stream(ts)|
    && 0 < clen <= MAX_ZPAGE_SIZE
    && Holds(Xv(), h, Block(e), LzoFormat.Stream(ts))
  }

  /** Entry e and the memory it refers to represent slot s. */
  ghost predicate SlotOk(h: Heap, frames: map<nat, seq<byte>>, e: Entry, s: Slot) {
    match s
    case Absent => e.page == 0 && !e.uncompressed && !e.zero
    case Zero => e.page == 0 && !e.uncompressed && e.zero
    case Raw(d) => e.page != 0 && e.offset == 0 && e.uncompressed && !e.zero && |d| == PAGE_SIZE && e.page in frames
      && frames[e.page] == d
    case Packed(d, ts, n) => e.page != 0 && !e.uncompressed && !e.zero && PackedOk(h, e, d, ts, n)
  }

  ghost predicate SlotsOk(h: Heap, frames: map<nat, seq<byte>>, table: seq<Entry>, slots: seq<Slot>) {
    |table| == |slots| && forall i {:trigger SlotOk(h, frames, table[i], slots[i])} :: 0 <= i < |table| ==>
      SlotOk(h, frames, table[i], slots[i])
  }

  // -------------------------------------------------------------- ownership

  /** Which slot owns each live object, and which each frame. */
  datatype Owners = Owners(objects: map<Addr, nat>, frames: map<nat, nat>)

  ghost predicate OwnsObject(table: seq<Entry>, slots: seq<Slot>, o: Owners, b: Addr)
    requires |table| == |slots| && b in o.objects
  {
    o.objects[b] < |slots| && slots[o.objects[b]].Packed? && Block(table[o.objects[b]]) == b
  }

  ghost predicate OwnsFrame(table: seq<Entry>, slots: seq<Slot>, o: Owners, p: nat)
    requires |table| == |slots| && p in o.frames
  {
    o.frames[p] < |slots| && slots[o.frames[p]].Raw? && table[o.frames[p]].page == p
  }

  ghost predicate OwnedBy(table: seq<Entry>, slots: seq<Slot>, o: Owners, i: nat)
    requires |table| == |slots| && i < |slots|
  {
    && (slots[i].Packed? ==> Block(table[i]) in o.objects && o.objects[Block(table[i])] == i)
    && (slots[i].Raw? ==> table[i].page in o.frames && o.frames[table[i].page] == i)
  }

  /** Memory and slots correspond one to one: nothing is shared, nothing is leaked. */
  ghost predicate OwnersOk(live: map<Addr, nat>, frames: map<nat, seq<byte>>, table: seq<Entry>, slots: seq<Slot>,
      o: Owners) {
    && |table| == |slots| && live.Keys == o.objects.Keys && frames.Keys == o.frames.Keys
    && (forall b {:trigger OwnsObject(table, slots, o, b)} :: b in o.objects ==> OwnsObject(table, slots, o, b))
    && (forall p {:trigger OwnsFrame(table, slots, o, p)} :: p in o.frames ==> OwnsFrame(table, slots, o, p))
    && (forall i: nat {:trigger OwnedBy(table, slots, o, i)} :: i < |slots| ==> OwnedBy(table, slots, o, i))
  }

  // ------------------------------------------------------------- statistics

  function ClenOf(s: Slot): nat {
    match s
    case Raw(_) => PAGE_SIZE
    case Packed(_, _, n) => n
    case _ => 0
  }

  function One(b: bool): nat { if b then 1 else 0 }

  /** The share of one slot in each statistic about the contents. */
  datatype Share = Share(comprSize: nat, pagesZero: nat, pagesStored: nat, goodCompress: nat, pagesExpand: nat)

  function ShareOf(s: Slot): Share {
    Share(ClenOf(s), One(s.Zero?), One(s.Raw? || s.Packed?), One(s.Packed? && ClenOf(s) <= PAGE_SIZE / 2), One(s.Raw?))
  }

  function Plus(a: Share, b: Share): Share {
    Share(a.comprSize + b.comprSize, a.pagesZero + b.pagesZero, a.pagesStored + b.pagesStored,
          a.goodCompress + b.goodCompress, a.pagesExpand + b.pagesExpand)
  }

  /** The statistics recomputed from the slots. */
  function Totals(slots: seq<Slot>): Share {
    if slots == [] then Share(0, 0, 0, 0, 0) else Plus(Totals(slots[..|slots| - 1]), ShareOf(slots[|slots| - 1]))
  }

  /** Replacing one slot replaces its share. */
  lemma {:induction false} TotalsUpdate(slots: seq<Slot>, i: nat, s: Slot)
    requires i < |slots|
    ensures Plus(Totals(slots[i := s]), ShareOf(slots[i])) == Plus(Totals(slots), ShareOf(s))
  {
    hide ShareOf;
    var n := |slots| - 1;
    var slots' := slots[i := s];
    if i < n {
      TotalsUpdate(slots[..n], i, s);
      assert slots'[..n] == slots[..n][i := s];
    } else {
      assert slots'[..n] == slots[..n];
    }
  }

  // ------------------------------------------------------------ slot frames

  /** A slot survives what happens to memory that is not its own. */
  lemma SlotSurvives(h: Heap, frames: map<nat, seq<byte>>, pages: set<nat>, h': Heap, frames': map<nat, seq<byte>>,
      e: Entry, s: Slot,
                     except: set<Addr>)
    requires Ready(h, pages, Slack({}, {}, {})) && UsedKept(Xv(), h, h', except) && SlotOk(h, frames, e, s)
    requires s.Packed? ==> Block(e) !in except
    requires s.Raw? ==> e.page in frames' && frames'[e.page] == frames[e.page]
    ensures SlotOk(h', frames', e, s)
  {
    hide Ready, UsedKept, Live, Holds, LzoFormat.Play, LzoFormat.WellFormed, LzoFormat.Stream;
    if s.Packed? {
      var b := Block(e);
      LiveAt(Xv(), h, h', except, b);
      XvPool.RoomOf(h, pages, b);
      LiveSize(h, b);
      HoldsKept(Xv(), h, h', except, b, LzoFormat.Stream(s.ts));
    }
  }

  lemma LiveSize(h: Heap, b: Addr)
    requires b in Live(h)
    ensures Live(h)[b] == At(h, b).size && b in h.t.ext
  {
  }

  /** Two packed slots have different objects, two raw ones different frames. */
  lemma OwnersDistinct(live: map<Addr, nat>, frames: map<nat, seq<byte>>, table: seq<Entry>, slots: seq<Slot>,
      o: Owners, i: nat, j: nat)
    requires OwnersOk(live, frames, table, slots, o) && i < |slots| && j < |slots| && i != j
    ensures slots[i].Packed? && slots[j].Packed? ==> Block(table[i]) != Block(table[j])
    ensures slots[i].Raw? && slots[j].Raw? ==> table[i].page != table[j].page
  {
    assert OwnedBy(table, slots, o, i) && OwnedBy(table, slots, o, j);
  }

  /** What slot i gives up. */
  function Disowned(o: Owners, e: Entry, s: Slot): Owners {
    match s
    case Packed(_, _, _) => o.(objects := o.objects - {Block(e)})
    case Raw(_) => o.(frames := o.frames - {e.page})
    case _ => o
  }

  /** What slot i acquires. */
  function Owned(o: Owners, e: Entry, s: Slot, i: nat): Owners {
    match s
    case Packed(_, _, _) => o.(objects := o.objects[Block(e) := i])
    case Raw(_) => o.(frames := o.frames[e.page := i])
    case _ => o
  }

  lemma OwnersFree(live: map<Addr, nat>, frames: map<nat, seq<byte>>, table: seq<Entry>, slots: seq<Slot>, o: Owners,
      i: nat,
                   live': map<Addr, nat>, frames': map<nat, seq<byte>>, e': Entry)
    requires OwnersOk(live, frames, table, slots, o) && i < |slots|
    requires live'.Keys == if slots[i].Packed? then live.Keys - {Block(table[i])} else live.Keys
    requires frames'.Keys == if slots[i].Raw? then frames.Keys - {table[i].page} else frames.Keys
    ensures OwnersOk(live', frames', table[i := e'], slots[i := Absent], Disowned(o, table[i], slots[i]))
  {
    var table', slots', o' := table[i := e'], slots[i := Absent], Disowned(o, table[i], slots[i]);
    assert OwnedBy(table, slots, o, i);
    forall b | b in o'.objects ensures OwnsObject(table', slots', o', b) { assert OwnsObject(table, slots, o, b); }
    forall p | p in o'.frames ensures OwnsFrame(table', slots', o', p) { assert OwnsFrame(table, slots, o, p); }
    forall j: nat | j < |slots'| ensures OwnedBy(table', slots', o', j) {
      assert OwnedBy(table, slots, o, j);
      if j != i { OwnersDistinct(live, frames, table, slots, o, i, j); }
    }
  }

  lemma OwnersTake(live: map<Addr, nat>, frames: map<nat, seq<byte>>, table: seq<Entry>, slots: seq<Slot>, o: Owners,
      i: nat,
                   live': map<Addr, nat>, frames': map<nat, seq<byte>>, e': Entry, s': Slot)
    requires OwnersOk(live, frames, table, slots, o) && i < |slots| && slots[i] == Absent
    requires if s'.Packed? then Block(e') !in live && live'.Keys == live.Keys + {Block(e')} else live'.Keys == live.Keys
    requires if s'.Raw? then e'.page !in frames && frames'.Keys == frames.Keys + {e'.page}
      else frames'.Keys == frames.Keys
    ensures OwnersOk(live', frames', table[i := e'], slots[i := s'], Owned(o, e', s', i))
  {
    var table', slots', o' := table[i := e'], slots[i := s'], Owned(o, e', s', i);
    forall b | b in o'.objects ensures OwnsObject(table', slots', o', b) {
      if b in o.objects { assert OwnsObject(table, slots, o, b); }
    }
    forall p | p in o'.frames ensures OwnsFrame(table', slots', o', p) {
      if p in o.frames { assert OwnsFrame(table, slots, o, p); }
    }
    forall j: nat | j < |slots'| ensures OwnedBy(table', slots', o', j) { assert OwnedBy(table, slots, o, j); }
  }

  /** A step that touches only the memory of slot i, and memory nobody owned, keeps all slots. */
  lemma SlotsKept(h: Heap, frames: map<nat, seq<byte>>, pages: set<nat>, h': Heap, frames': map<nat, seq<byte>>,
      table: seq<Entry>,
                  slots: seq<Slot>, o: Owners, i: nat, e': Entry, s': Slot, except: set<Addr>)
    requires Ready(h, pages, Slack({}, {}, {})) && SlotsOk(h, frames, table, slots)
      && OwnersOk(Live(h), frames, table, slots, o)
    requires i < |slots| && UsedKept(Xv(), h, h', except) && SlotOk(h', frames', e', s')
    requires forall b :: b in except && b in o.objects ==> o.objects[b] == i
    requires forall p :: p in frames ==>
      p in o.frames && (o.frames[p] == i || (p in frames' && frames'[p] == frames[p]))
    ensures SlotsOk(h', frames', table[i := e'], slots[i := s'])
  {
    hide Ready, UsedKept, PackedOk, Live;
    var table', slots' := table[i := e'], slots[i := s'];
    forall j | 0 <= j < |table'| ensures SlotOk(h', frames', table'[j], slots'[j]) {
      if j != i {
        assert SlotOk(h, frames, table[j], slots[j]) && OwnedBy(table, slots, o, j);
        SlotSurvives(h, frames, pages, h', frames', table[j], slots[j], except);
      }
    }
  }

  lemma OwnerOf(live: map<Addr, nat>, frames: map<nat, seq<byte>>, table: seq<Entry>, slots: seq<Slot>, o: Owners,
      i: nat)
    requires OwnersOk(live, frames, table, slots, o) && i < |slots|
    ensures |table| == |slots| && OwnedBy(table, slots, o, i) && live.Keys == o.objects.Keys
      && frames.Keys == o.frames.Keys
    ensures slots[i].Packed? ==> forall b :: b in o.objects && b != Block(table[i]) ==> o.objects[b] != i
    ensures slots[i].Raw? ==> forall p :: p in o.frames && p != table[i].page ==> o.frames[p] != i
  {
    assert OwnedBy(table, slots, o, i);
    forall b | b in o.objects && slots[i].Packed? && b != Block(table[i]) ensures o.objects[b] != i {
      assert OwnsObject(table, slots, o, b);
    }
    forall p | p in o.frames && slots[i].Raw? && p != table[i].page ensures o.frames[p] != i {
      assert OwnsFrame(table, slots, o, p);
    }
  }

  // ------------------------------------------------------ the whole state

  /** The pages of the pool and the frames are apart, and all below the allocator's limit. */
  ghost predicate HeldOk(pages: set<nat>, frames: map<nat, seq<byte>>, limit: nat) {
    && pages !! frames.Keys && 0 !in frames && 0 !in pages
    && forall p {:trigger p in pages} {:trigger p in frames} :: p in pages || p in frames ==> p < limit
  }

  ghost predicate TableOk(h: Heap, pages: set<nat>, frames: map<nat, seq<byte>>, table: seq<Entry>, slots: seq<Slot>,
      o: Owners, share: Share,
                          limit: nat) {
    && Ready(h, pages, Slack({}, {}, {})) && SlotsOk(h, frames, table, slots)
    && OwnersOk(Live(h), frames, table, slots, o)
    && share == Totals(slots) && HeldOk(pages, frames, limit)
  }

  /** What is known of one slot. */
  lemma SlotFacts(h: Heap, pages: set<nat>, frames: map<nat, seq<byte>>, table: seq<Entry>, slots: seq<Slot>,
      o: Owners, share: Share,
                  limit: nat, i: nat, s': Slot)
    requires TableOk(h, pages, frames, table, slots, o, share, limit) && i < |table|
    ensures |slots| == |table| && SlotOk(h, frames, table[i], slots[i])
    ensures Plus(Totals(slots[i := s']), ShareOf(slots[i])) == Plus(share, ShareOf(s'))
    ensures slots[i].Absent? ==> table[i].page == 0 && !table[i].zero && slots[i := Absent] == slots
  {
    hide Ready, OwnersOk, Totals, PackedOk, HeldOk;
    assert SlotOk(h, frames, table[i], slots[i]);
    TotalsUpdate(slots, i, s');
  }

  lemma PackedFacts(h: Heap, frames: map<nat, seq<byte>>, e: Entry, s: Slot)
    requires SlotOk(h, frames, e, s) && s.Packed?
    ensures Obj(e) >= XV_ALIGN && Block(e) == Obj(e) - XV_ALIGN && Block(e) in Live(h)
      && Live(h)[Block(e)] == s.clen == At(h, Block(e)).size
    ensures e.page != 0 && !e.uncompressed && !e.zero
  {
    hide Holds, LzoFormat.Play, LzoFormat.Stream, LzoFormat.WellFormed;
  }

  /** The share that is left when slot i gives up what it had. */
  ghost predicate ShareLeft(share: Share, share': Share, s: Slot) { Plus(share', ShareOf(s)) == share }

  lemma FreeZeroOk(h: Heap, pages: set<nat>, frames: map<nat, seq<byte>>, table: seq<Entry>, slots: seq<Slot>,
      o: Owners, share: Share,
                   limit: nat, i: nat, share': Share)
    requires TableOk(h, pages, frames, table, slots, o, share, limit) && i < |table| && i < |slots| && slots[i] == Zero
    requires ShareLeft(share, share', Zero)
    ensures TableOk(h, pages, frames, table[i := table[i].(zero := false)], slots[i := Absent], o, share', limit)
  {
    hide Ready, Totals, Live, HeldOk, PackedOk, OwnersOk;
    var e' := table[i].(zero := false);
    SlotFacts(h, pages, frames, table, slots, o, share, limit, i, Absent);
    OwnersFree(Live(h), frames, table, slots, o, i, Live(h), frames, e');
    OwnerOf(Live(h), frames, table, slots, o, i);
    UsedKeptRefl(Xv(), h);
    SlotsKept(h, frames, pages, h, frames, table, slots, o, i, e', Absent, {});
  }

  lemma FreeRawOk(h: Heap, pages: set<nat>, frames: map<nat, seq<byte>>, table: seq<Entry>, slots: seq<Slot>,
      o: Owners, share: Share,
                  limit: nat, i: nat, share': Share)
    requires TableOk(h, pages, frames, table, slots, o, share, limit) && i < |table| && i < |slots| && slots[i].Raw?
    requires ShareLeft(share, share', slots[i])
    ensures TableOk(h, pages, frames - {table[i].page}, table[i := EMPTY], slots[i := Absent],
      Disowned(o, table[i], slots[i]), share', limit)
  {
    hide Ready, Totals, Live, PackedOk, OwnersOk;
    SlotFacts(h, pages, frames, table, slots, o, share, limit, i, Absent);
    var frames' := frames - {table[i].page};
    OwnersFree(Live(h), frames, table, slots, o, i, Live(h), frames', EMPTY);
    OwnerOf(Live(h), frames, table, slots, o, i);
    UsedKeptRefl(Xv(), h);
    SlotsKept(h, frames, pages, h, frames', table, slots, o, i, EMPTY, Absent, {});
  }

  lemma FreePackedOk(h: Heap, pages: set<nat>, frames: map<nat, seq<byte>>, table: seq<Entry>, slots: seq<Slot>,
      o: Owners, share: Share,
                     limit: nat, i: nat, share': Share, h': Heap, pages': set<nat>)
    requires TableOk(h, pages, frames, table, slots, o, share, limit) && i < |table| && i < |slots| && slots[i].Packed?
    requires ShareLeft(share, share', slots[i]) && Ready(h', pages', Slack({}, {}, {})) && pages' <= pages
    requires UsedKept(Xv(), h, h', {Block(table[i])}) && Live(h') == Live(h) - {Block(table[i])}
    ensures TableOk(h', pages', frames, table[i := EMPTY], slots[i := Absent], Disowned(o, table[i], slots[i]), share',
      limit)
  {
    hide Ready, Totals, Live, PackedOk, OwnersOk, UsedKept;
    SlotFacts(h, pages, frames, table, slots, o, share, limit, i, Absent);
    OwnerOf(Live(h), frames, table, slots, o, i);
    OwnersFree(Live(h), frames, table, slots, o, i, Live(h'), frames, EMPTY);
    SlotsKept(h, frames, pages, h', frames, table, slots, o, i, EMPTY, Absent, {Block(table[i])});
  }

  lemma TakeZeroOk(h: Heap, pages: set<nat>, frames: map<nat, seq<byte>>, table: seq<Entry>, slots: seq<Slot>,
      o: Owners, share: Share,
                   limit: nat, i: nat)
    requires TableOk(h, pages, frames, table, slots, o, share, limit) && i < |table| && i < |slots|
      && slots[i] == Absent
    ensures TableOk(h, pages, frames, table[i := table[i].(zero := true)], slots[i := Zero], o,
      Plus(share, ShareOf(Zero)), limit)
  {
    hide Ready, Totals, Live, HeldOk, PackedOk, OwnersOk;
    var e' := table[i].(zero := true);
    SlotFacts(h, pages, frames, table, slots, o, share, limit, i, Zero);
    OwnersTake(Live(h), frames, table, slots, o, i, Live(h), frames, e', Zero);
    OwnerOf(Live(h), frames, table, slots, o, i);
    UsedKeptRefl(Xv(), h);
    SlotsKept(h, frames, pages, h, frames, table, slots, o, i, e', Zero, {});
  }

  lemma TakeRawOk(h: Heap, pages: set<nat>, frames: map<nat, seq<byte>>, table: seq<Entry>, slots: seq<Slot>,
      o: Owners, share: Share,
                  limit: nat, i: nat, page: nat, d: seq<byte>)
    requires TableOk(h, pages, frames, table, slots, o, share, limit) && i < |table| && i < |slots|
      && slots[i] == Absent
    requires page != 0 && page !in pages && page !in frames && page < limit && |d| == PAGE_SIZE
    ensures TableOk(h, pages, frames[page := d], table[i := Entry(page, 0, true, false)], slots[i := Raw(d)],
      Owned(o, Entry(page, 0, true, false), Raw(d), i),
                    Plus(share, ShareOf(Raw(d))), limit)
  {
    hide Ready, Totals, Live, PackedOk, OwnersOk;
    var e', frames' := Entry(page, 0, true, false), frames[page := d];
    SlotFacts(h, pages, frames, table, slots, o, share, limit, i, Raw(d));
    OwnerOf(Live(h), frames, table, slots, o, i);
    OwnersTake(Live(h), frames, table, slots, o, i, Live(h), frames', e', Raw(d));
    UsedKeptRefl(Xv(), h);
    SlotsKept(h, frames, pages, h, frames', table, slots, o, i, e', Raw(d), {});
  }

  lemma TakePackedOk(h: Heap, pages: set<nat>, frames: map<nat, seq<byte>>, table: seq<Entry>, slots: seq<Slot>,
      o: Owners, share: Share,
                     limit: nat, i: nat, h': Heap, pages': set<nat>, e': Entry, s': Slot)
    requires TableOk(h, pages, frames, table, slots, o, share, limit) && i < |table| && i < |slots|
      && slots[i] == Absent
    requires s'.Packed? && SlotOk(h', frames, e', s') && Ready(h', pages', Slack({}, {}, {}))
    requires pages' !! frames.Keys && forall p :: p in pages' ==> p < limit
    requires Block(e') !in Live(h) && Live(h') == Live(h)[Block(e') := s'.clen] && UsedKept(Xv(), h, h', {Block(e')})
    ensures TableOk(h', pages', frames, table[i := e'], slots[i := s'], Owned(o, e', s', i), Plus(share, ShareOf(s')),
      limit)
  {
    hide Ready, Totals, Live, PackedOk, OwnersOk, UsedKept;
    SlotFacts(h, pages, frames, table, slots, o, share, limit, i, s');
    OwnerOf(Live(h), frames, table, slots, o, i);
    NoPageZero(h', pages');
    OwnersTake(Live(h), frames, table, slots, o, i, Live(h'), frames, e', s');
    SlotsKept(h, frames, pages, h', frames, table, slots, o, i, e', s', {Block(e')});
  }

  lemma NoPageZero(h: Heap, pages: set<nat>)
    requires Ready(h, pages, Slack({}, {}, {}))
    ensures 0 !in pages
  {
  }

  /** The pool changed, but no live object did. */
  lemma PoolOnlyOk(h: Heap, pages: set<nat>, frames: map<nat, seq<byte>>, table: seq<Entry>, slots: seq<Slot>,
      o: Owners, share: Share,
                   limit: nat, h': Heap, pages': set<nat>, limit': nat)
    requires TableOk(h, pages, frames, table, slots, o, share, limit) && Ready(h', pages', Slack({}, {}, {}))
      && limit <= limit'
    requires pages' !! frames.Keys && forall p :: p in pages' ==> p < limit'
    requires Live(h') == Live(h) && UsedKept(Xv(), h, h', {})
    ensures TableOk(h', pages', frames, table, slots, o, share, limit')
  {
    hide Ready, Totals, Live, OwnersOk, UsedKept;
    NoPageZero(h', pages');
    forall j | 0 <= j < |table| ensures SlotOk(h', frames, table[j], slots[j]) {
      assert SlotOk(h, frames, table[j], slots[j]);
      SlotSurvives(h, frames, pages, h', frames, table[j], slots[j], {});
    }
  }

  lemma EmptyOk(h: Heap, n: nat, limit: nat)
    requires Ready(h, {}, Slack({}, {}, {})) && Live(h) == map[]
    ensures TableOk(h, {}, map[], seq(n, _ => EMPTY), seq(n, _ => Absent), Owners(map[], map[]), Share(0, 0, 0, 0, 0),
      limit)
    ensures Disk(seq(n, _ => Absent)) == seq(n, _ => None)
  {
    hide Ready, Live;
    NoTotals(n);
  }

  lemma {:induction false} NoTotals(n: nat)
    ensures Totals(seq(n, _ => Absent)) == Share(0, 0, 0, 0, 0)
    decreases n
  {
    if n > 0 {
      NoTotals(n - 1);
      assert seq(n, _ => Absent)[..n - 1] == seq(n - 1, _ => Absent);
    }
  }

  /** More pages may be handed out from now on. */
  lemma LimitGrows(h: Heap, pages: set<nat>, frames: map<nat, seq<byte>>, table: seq<Entry>, slots: seq<Slot>,
      o: Owners, share: Share,
                   limit: nat, limit': nat)
    requires TableOk(h, pages, frames, table, slots, o, share, limit) && limit <= limit'
    ensures TableOk(h, pages, frames, table, slots, o, share, limit')
  {
    hide Ready, Totals, Live, OwnersOk, SlotsOk;
  }

  /** The entry of an object just filled. */
  function EntryOf(obj: Addr): Entry { Entry(obj / PAGE_SIZE, obj % PAGE_SIZE, false, false) }

  lemma EntryFacts(h: Heap, pages: set<nat>, obj: Addr)
    requires Ready(h, pages, Slack({}, {}, {})) && obj >= XV_ALIGN && obj - XV_ALIGN in Live(h)
    ensures Obj(EntryOf(obj)) == obj && Block(EntryOf(obj)) == obj - XV_ALIGN && EntryOf(obj).page != 0
  {
    hide At, FlagsOk, ListedOk, HdrsOk;
    XvPool.LiveIsUsed(h, obj - XV_ALIGN);
    XvPool.ObjectPage(h, pages, obj - XV_ALIGN);
    PageOf(h, pages, obj - XV_ALIGN);
    NoPageZero(h, pages);
  }

  /** A stream just stored in a fresh object represents the page. */
  lemma PackedStored(h: Heap, pages: set<nat>, frames: map<nat, seq<byte>>, obj: Addr, d: seq<byte>,
      ts: seq<LzoFormat.Instr>)
    requires Ready(h, pages, Slack({}, {}, {})) && obj >= XV_ALIGN && obj - XV_ALIGN in Live(h)
    requires |d| == PAGE_SIZE && LzoFormat.WellFormed(ts) && LzoFormat.Play(ts, PAGE_SIZE) == LzoFormat.Playing(d)
    requires |LzoFormat.Stream(ts)| <= MAX_ZPAGE_SIZE && Live(h)[obj - XV_ALIGN] == |LzoFormat.Stream(ts)|
    requires Holds(Xv(), h, obj - XV_ALIGN, LzoFormat.Stream(ts))
    ensures SlotOk(h, frames, EntryOf(obj), Packed(d, ts, |LzoFormat.Stream(ts)|))
      && Block(EntryOf(obj)) == obj - XV_ALIGN
  {
    hide Ready, Live, Holds, LzoFormat.Play, LzoFormat.WellFormed, LzoFormat.Stream;
    StreamLength(ts);
    EntryFacts(h, pages, obj);
  }

  // ------------------------------------------------------------ the requests

  /** The disk after the pages of a request have been stored from slot `start` on. */
  function Written(disk: seq<Option<seq<byte>>>, start: nat, pages: seq<seq<byte>>): (r: seq<Option<seq<byte>>>)
    requires start + |pages| <= |disk|
    ensures |r| == |disk|
    ensures forall i :: 0 <= i < |disk| ==>
      r[i] == if start <= i < start + |pages| then Some(pages[i - start]) else disk[i]
  {
    if pages == [] then disk
      else Written(disk, start, pages[..|pages| - 1])[start + |pages| - 1 := Some(pages[|pages| - 1])]
  }

  /** The disk after n slots from `start` on have been discarded. */
  function Erased(disk: seq<Option<seq<byte>>>, start: nat, n: nat): (r: seq<Option<seq<byte>>>)
    requires start + n <= |disk|
    ensures |r| == |disk|
    ensures forall i :: 0 <= i < |disk| ==> r[i] == if start <= i < start + n then None else disk[i]
  {
    if n == 0 then disk else Erased(disk, start, n - 1)[start + n - 1 := None]
  }

  lemma DiskUpdate(slots: seq<Slot>, i: nat, s: Slot)
    requires i < |slots|
    ensures Disk(slots[i := s]) == Disk(slots)[i := DataOf(s)]
  {
  }

  /** What happens to the slots of a disk, one at a time. */
  datatype Event = Stored(slot: nat, data: seq<byte>) | Failed(slot: nat) | Discarded(slot: nat)

  function After(n: nat, events: seq<Event>): (r: seq<Option<seq<byte>>>)
    requires SlotsBelow(events, n)
    ensures |r| == n
  {
    if events == [] then seq(n, _ => None)
    else
      var last := events[|events| - 1];
      var before := After(n, events[..|events| - 1]);
      before[last.slot := if last.Stored? then Some(last.data) else None]
  }

  /** The events of a write request that stores all its pages, and of a discard. */
  function Stores(start: nat, pages: seq<seq<byte>>): seq<Event> {
    if pages == [] then [] else Stores(start, pages[..|pages| - 1]) + [Stored(start + |pages| - 1, pages[|pages| - 1])]
  }

  function Discards(start: nat, n: nat): seq<Event> {
    if n == 0 then [] else Discards(start, n - 1) + [Discarded(start + n - 1)]
  }

  /** A write request ends at its first failure. */
  function WriteEvents(start: nat, pages: seq<seq<byte>>, done: nat): seq<Event>
    requires done <= |pages|
  {
    Stores(start, pages[..done]) + if done < |pages| then [Failed(start + done)] else []
  }

  ghost predicate SlotsBelow(events: seq<Event>, n: nat) { forall e :: e in events ==> e.slot < n }

  lemma AfterOne(n: nat, events: seq<Event>, e: Event)
    requires SlotsBelow(events, n) && e.slot < n
    ensures SlotsBelow(events + [e], n)
      && After(n, events + [e]) == After(n, events)[e.slot := if e.Stored? then Some(e.data) else None]
  {
    assert (events + [e])[..|events|] == events;
  }

  lemma {:induction false} StoresAfter(n: nat, events: seq<Event>, start: nat, pages: seq<seq<byte>>)
    requires SlotsBelow(events, n) && start + |pages| <= n
    ensures SlotsBelow(events + Stores(start, pages), n)
      && After(n, events + Stores(start, pages)) == Written(After(n, events), start, pages)
    decreases |pages|
  {
    hide After, SlotsBelow;
    if pages == [] {
      assert events + [] == events;
    } else {
      var m := |pages| - 1;
      var b, e := events + Stores(start, pages[..m]), Stored(start + m, pages[m]);
      StoresAfter(n, events, start, pages[..m]);
      AfterOne(n, b, e);
      assert events + Stores(start, pages) == b + [e];
    }
  }

  lemma {:induction false} DiscardsAfter(n: nat, events: seq<Event>, start: nat, k: nat)
    requires SlotsBelow(events, n) && start + k <= n
    ensures SlotsBelow(events + Discards(start, k), n)
      && After(n, events + Discards(start, k)) == Erased(After(n, events), start, k)
  {
    if k == 0 {
      assert events + [] == events;
    } else {
      DiscardsAfter(n, events, start, k - 1);
      AfterOne(n, events + Discards(start, k - 1), Discarded(start + k - 1));
      assert events + Discards(start, k) == events + Discards(start, k - 1) + [Discarded(start + k - 1)];
    }
  }

  /** A request that was cut short has the effect of its events. */
  lemma WriteAfter(n: nat, events: seq<Event>, start: nat, pages: seq<seq<byte>>, done: nat)
    requires SlotsBelow(events, n) && start + |pages| <= n && done <= |pages|
    ensures SlotsBelow(events + WriteEvents(start, pages, done), n)
    ensures After(n, events + WriteEvents(start, pages, done)) ==
            if done == |pages| then Written(After(n, events), start, pages)
              else Written(After(n, events), start, pages[..done])[start + done := None]
  {
    StoresAfter(n, events, start, pages[..done]);
    if done < |pages| {
      AfterOne(n, events + Stores(start, pages[..done]), Failed(start + done));
      assert events + WriteEvents(start, pages, done) == events + Stores(start, pages[..done]) + [Failed(start + done)];
    } else {
      assert pages[..done] == pages;
      assert WriteEvents(start, pages, done) == Stores(start, pages);
    }
  }

  /** k is the last event of slot i. */
  ghost predicate LastOf(events: seq<Event>, i: nat, k: nat) {
    k < |events| && events[k].slot == i && forall j :: k < j < |events| ==> events[j].slot != i
  }

  /** A slot holds the data of its last successful write with no later discard or failed write. */
  lemma {:induction false} LastWriteWins(n: nat, events: seq<Event>, i: nat)
    requires i < n && SlotsBelow(events, n)
    ensures forall d :: After(n, events)[i] == Some(d) <==>
      exists k: nat :: LastOf(events, i, k) && events[k] == Stored(i, d)
  {
    if events != [] {
      var m := |events| - 1;
      LastWriteWins(n, events[..m], i);
      if events[m].slot == i {
        assert LastOf(events, i, m);
      } else {
        forall k: nat ensures LastOf(events, i, k) <==> LastOf(events[..m], i, k) { }
        forall d ensures (exists k: nat :: LastOf(events, i, k) && events[k] == Stored(i, d)) <==>
                         exists k: nat :: LastOf(events[..m], i, k) && events[..m][k] == Stored(i, d)
        {
          if k: nat :| LastOf(events, i, k) && events[k] == Stored(i, d) {
            assert LastOf(events[..m], i, k) && events[..m][k] == Stored(i, d);
          }
          if k: nat :| LastOf(events[..m], i, k) && events[..m][k] == Stored(i, d) {
            assert LastOf(events, i, k) && events[k] == Stored(i, d);
          }
        }
      }
    }
  }

  /** Every page held is known to the allocator. */
  lemma HeldBelow(h: Heap, pages: set<nat>, frames: map<nat, seq<byte>>, table: seq<Entry>, slots: seq<Slot>,
      o: Owners, share: Share, limit: nat)
    requires TableOk(h, pages, frames, table, slots, o, share, limit)
    ensures Ready(h, pages, Slack({}, {}, {})) && pages !! frames.Keys && forall p :: p in pages + frames.Keys ==>
      p < limit
  {
    hide Ready, Totals, Live, OwnersOk, SlotsOk;
  }

  lemma AbsentEntry(h: Heap, pages: set<nat>, frames: map<nat, seq<byte>>, table: seq<Entry>, slots: seq<Slot>,
      o: Owners, share: Share,
                    limit: nat, i: nat)
    requires TableOk(h, pages, frames, table, slots, o, share, limit) && i < |table|
    ensures |table| == |slots| && (slots[i] == Absent <==> table[i].page == 0 && !table[i].zero)
    ensures slots[i] == Absent ==> !table[i].uncompressed
  {
    hide Ready, OwnersOk, Totals, PackedOk, HeldOk;
    assert SlotOk(h, frames, table[i], slots[i]);
  }

  lemma StreamLength(ts: seq<LzoFormat.Instr>)
    requires LzoFormat.WellFormed(ts)
    ensures |LzoFormat.Stream(ts)| >= 3
  {
  }
}
