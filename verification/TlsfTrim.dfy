/** The original TLSF: cutting a block to size, growing it in place, and what of its payload
    such steps keep. */
module TlsfTrim {
  import opened Tiling
  import opened FreeLists
  import opened TwoLevel
  import opened HeapMem
  import opened FreeIndex
  import opened BoundaryTags
  import opened Coalesce
  import opened TlsfMap
  import opened TlsfHeap
  import opened TlsfSteps

  /** The n bytes from lo on are as before, present or not. */
  ghost predicate PrefixKept(m: Mem<Hdr>, m': Mem<Hdr>, lo: Addr, n: nat) {
    forall d :: lo <= d < lo + n ==> (d in m.data <==> d in m'.data) && (d in m.data ==> m'.data[d] == m.data[d])
  }

  lemma PrefixTrans(m: Mem<Hdr>, m1: Mem<Hdr>, m2: Mem<Hdr>, lo: Addr, n: nat)
    requires PrefixKept(m, m1, lo, n) && PrefixKept(m1, m2, lo, n)
    ensures PrefixKept(m, m2, lo, n)
  {
  }

  lemma PrefixShorter(m: Mem<Hdr>, m': Mem<Hdr>, lo: Addr, n: nat, k: nat)
    requires PrefixKept(m, m', lo, n) && k <= n
    ensures PrefixKept(m, m', lo, k)
  {
  }

  /** A header outside the stretch does not touch it. */
  lemma HdrOutside(m: Mem<Hdr>, x: Addr, c: Hdr, lo: Addr, n: nat)
    requires x + BHDR_OVERHEAD <= lo || lo + n <= x
    ensures PrefixKept(m, PutHdr(m, x, c, Y()), lo, n)
  {
  }

  /** What keeps the payload of a used block keeps its first bytes. */
  lemma UsedPrefix(h: Heap, h': Heap, b: Addr, n: nat)
    requires UsedKept(Tl(false), h, h', {}) && IsUsed(h, b) && BHDR_OVERHEAD + n <= h.t.ext[b]
    ensures PrefixKept(h.m, h'.m, b + BHDR_OVERHEAD, n) && IsUsed(h', b)
  {
    assert KeptAt(Tl(false), h, h', b);
  }

  // ------------------------------------------------------------------- trim

  /** Block b is out of use for the moment: its header and its successor may disagree with it,
      but it does not stand in conflict with its predecessor. */
  function Open(b: Addr): Slack { Slack({b}, {b}, {b}) }

  ghost predicate Opened(h: Heap, g: Regions, b: Addr) {
    && Ready(h, g, Open(b), false) && b in h.t.ext && h.t.HasNext(b) && h.t.End(b) in h.t.ext
    && !At(h, h.t.End(b)).free && h.t.End(b) > b
    && FlagAt(Tl(false), h, b, {})
  }

  /** Header of the free rest; its prev_hdr field is not written. */
  function RestHdr(h: Heap, e: Addr, rest: nat): Hdr { Hdr(rest, At(h, e).prev, true, false) }

  lemma CutStep(h: Heap, g: Regions, b: Addr, n: nat, rest: nat)
    requires Opened(h, g, b) && n % MEM_ALIGN == 0 && rest % MEM_ALIGN == 0 && rest >= MIN_BLOCK_SIZE
    requires h.t.ext[b] == 2 * BHDR_OVERHEAD + n + rest
    ensures b in g.home
    ensures var e := b + BHDR_OVERHEAD + n; var h' := SplitHdr(Tl(false), h, b, BHDR_OVERHEAD + n, RestHdr(h, e, rest));
      && Ready(h', SplitHome(g, b, e), Slack({b, e}, {b, e}, {b}), false) && At(h', e) == RestHdr(h, e, rest)
      && (forall x :: x in h.t.ext ==> At(h', x) == At(h, x)) && UsedKept(Tl(false), h, h', {b})
      && FlagAt(Tl(false), h', b, {})
      && h'.t == Split(h.t, b, BHDR_OVERHEAD + n) && e !in h.t.ext
  {
    hide HeapOk, Regioned, HdrAt, PutHdr, Split, UsedKept, FlagAt, Tiled;
    var e, c := b + BHDR_OVERHEAD + n, RestHdr(h, b + BHDR_OVERHEAD + n, rest);
    OffNotListed(Tl(false), h, Open(b), b);
    ReadyTiled(h, g, Open(b), false);
    RoundSum2(rest);
    SplitOk(Tl(false), h, Open(b), b, BHDR_OVERHEAD + n, c);
    var h' := SplitHdr(Tl(false), h, b, BHDR_OVERHEAD + n, c);
    assert SplitSlack(Open(b), b, e) == Slack({b, e}, {b, e}, {b}) by {
      assert {b} + {b, e} == {b, e} && {b} + {b} == {b};
    }
    HomeOf(h, g, b);
    SplitTiled(h.t, b, BHDR_OVERHEAD + n);
    SplitRegioned(h, g, b, BHDR_OVERHEAD + n, c, false);
    UsedKeptFree(Tl(false), h, h', {b, e}, e);
    assert {b, e} - {e} == {b};
    CutKeepsFlag(h, h', b, n);
  }

  lemma RoundSum2(x: nat)
    requires x % MEM_ALIGN == 0
    ensures Round4(x) == x
  {
  }

  lemma CutKeepsFlag(h: Heap, h': Heap, b: Addr, n: nat)
    requires Tiled(h.t) && b in h.t.ext && BHDR_OVERHEAD + n < h.t.ext[b] && h'.t == Split(h.t, b, BHDR_OVERHEAD + n)
    requires FlagAt(Tl(false), h, b, {}) && forall x :: x in h.t.ext ==> At(h', x) == At(h, x)
    ensures FlagAt(Tl(false), h', b, {})
  {
    hide Tiled, HdrAt, Split, FlagAt;
    CutFacts(h.t, b, BHDR_OVERHEAD + n);
    if b !in h.t.firsts { PredFacts(h.t, b); assert At(h', h.t.pred[b]) == At(h, h.t.pred[b]); }
    FlagSame(Tl(false), h, h', b, {});
  }

  /** The block behind the rest learns of it. */
  lemma FollowStep(h: Heap, g: Regions, b: Addr, e: Addr, nb: Addr)
    requires Ready(h, g, Slack({b, e}, {b, e}, {b}), false) && b in h.t.ext && e in h.t.ext && h.t.HasNext(b)
      && h.t.End(b) == e
    requires h.t.HasNext(e) && h.t.End(e) == nb && nb in h.t.ext && nb > e && e > b && At(h, e).free && !At(h, nb).free
      && FlagAt(Tl(false), h, b, {})
    ensures var c := At(h, nb).(prev := e, prevFree := true); var h' := StoreHdr(Tl(false), h, nb, c);
      && Ready(h', g, Slack({b, e}, {b}, {b}), false) && UsedKept(Tl(false), h, h', {}) && SameHdrsBut(h, h', nb)
      && At(h', nb) == c
      && FlagAt(Tl(false), h', b, {})
  {
    hide HeapOk, Regioned, HdrAt, PutHdr, SameHdrsBut, UsedKept, FlagAt, Tiled;
    var d := Slack({b, e}, {b, e}, {b});
    BlockFacts(h, g, d, nb, false);
    FollowOk(Tl(false), h, {b, e}, b, e, nb);
    ReadyStore(h, g, d, nb, At(h, nb).(prev := e, prevFree := true), Slack({b, e}, {b}, {b}), false);
    ReadyTiled(h, g, d, false);
    StoreKeepsFlag(h, StoreHdr(Tl(false), h, nb, At(h, nb).(prev := e, prevFree := true)), b, nb);
  }

  lemma PredIn(t: Tiles, b: Addr)
    requires Tiled(t) && b in t.ext && b !in t.firsts
    ensures b in t.pred && t.pred[b] in t.ext && t.pred[b] < b
  {
    PredFacts(t, b);
  }

  lemma StoreKeepsFlag(h: Heap, h': Heap, b: Addr, nb: Addr)
    requires Tiled(h.t) && b in h.t.ext && h'.t == h.t && SameHdrsBut(h, h', nb) && nb > b
      && FlagAt(Tl(false), h, b, {})
    ensures FlagAt(Tl(false), h', b, {})
  {
    hide Tiled, HdrAt, FlagAt;
    if b !in h.t.firsts { PredIn(h.t, b); assert At(h', h.t.pred[b]) == At(h, h.t.pred[b]); }
    FlagSame(Tl(false), h, h', b, {});
  }

  lemma RelistedFlag(h: Heap, h': Heap, b: Addr)
    requires Tiled(h.t) && b in h.t.ext && Relisted(h, h', false) && FlagAt(Tl(false), h, b, {})
    ensures FlagAt(Tl(false), h', b, {})
  {
    hide Tiled, HdrAt, FlagAt, UsedKept;
    if b !in h.t.firsts { PredIn(h.t, b); assert At(h', h.t.pred[b]) == At(h, h.t.pred[b]); }
    assert At(h', b) == At(h, b);
    FlagSame(Tl(false), h, h', b, {});
  }

  /** The header that states the new size ends it. */
  lemma CloseStep(h: Heap, g: Regions, b: Addr, n: nat)
    requires Ready(h, g, Open(b), false) && b in h.t.ext && h.t.HasNext(b) && h.t.ext[b] == BHDR_OVERHEAD + n
      && n % MEM_ALIGN == 0 && n >= MIN_BLOCK_SIZE
    requires FlagAt(Tl(false), h, b, {}) && !At(h, h.t.End(b)).prevFree
    ensures var c := At(h, b).(size := n, free := false); var h' := StoreHdr(Tl(false), h, b, c);
      Ready(h', g, Slack({}, {}, {}), false) && UsedKept(Tl(false), h, h', {b}) && At(h', b) == c && IsUsed(h', b)
  {
    hide HeapOk, Regioned, HdrAt, PutHdr, UsedKept, FlagAt;
    RoundSum2(n);
    UseStep(h, g, b, At(h, b).(size := n, free := false), false);
  }

  /** A header that states no bytes for a block that is not the last breaks the invariant, but
      touches no other block. */
  lemma EmptyStep(h: Heap, g: Regions, b: Addr)
    requires Ready(h, g, Open(b), false) && b in h.t.ext && h.t.HasNext(b) && h.t.ext[b] == BHDR_OVERHEAD
    ensures var c := At(h, b).(size := 0, free := false); var h' := StoreHdr(Tl(false), h, b, c);
      && !Ready(h', g, Slack({}, {}, {}), false) && UsedKept(Tl(false), h, h', {b}) && At(h', b) == c && IsUsed(h', b)
  {
    hide IndexOk, FlagsOk, ListedOk, HdrAt, PutHdr, UsedKept, Tiled, Counts, BytesKept;
    var c := At(h, b).(size := 0, free := false);
    StoreFrame(Tl(false), h, b, c);
    var h' := StoreHdr(Tl(false), h, b, c);
    OutsideKept(Tl(false), h, h', {b});
    assert InRegion(h', g, b) ==> At(h', b).size >= MIN_BLOCK_SIZE;
  }

  // ------------------------------------------------- opening a used block

  /** A used block may be worked on. */
  lemma OpenUsed(h: Heap, g: Regions, b: Addr)
    requires Ready(h, g, Slack({}, {}, {}), false) && IsUsed(h, b) && h.t.HasNext(b) && h.t.End(b) in h.t.ext
      && !At(h, h.t.End(b)).free
    ensures Opened(h, g, b)
  {
    hide IndexOk, Tiled, HdrAt, ListedOk, Regioned;
    var d := Slack({}, {}, {});
    BlockFacts(h, g, d, b, false);
    Neighbours(Tl(false), h, d, b);
    Settle(Tl(false), h, d, b, Open(b));
  }

  /** Used block b and the free block behind it, off its list, are one block from now on. */
  lemma OpenMerged(h: Heap, g: Regions, b: Addr, next: Addr)
    requires Ready(h, g, Slack({next}, {}, {}), false) && IsUsed(h, b) && h.t.HasNext(b) && h.t.End(b) == next
      && next in h.t.ext && At(h, next).free
    ensures Opened(MergeBlocks(h, b), g, b) && MergeBlocks(h, b).t.End(b) == h.t.End(next)
    ensures MergeBlocks(h, b).t.ext[b] == h.t.ext[b] + h.t.ext[next] && UsedKept(Tl(false), h, MergeBlocks(h, b), {b})
      && IsUsed(MergeBlocks(h, b), b)
    ensures h.t.ext[b] == BHDR_OVERHEAD + At(h, b).size && h.t.ext[next] == BHDR_OVERHEAD + At(h, next).size
      && next != b
  {
    hide HeapOk, Tiled, HdrAt, Regioned, UsedKept, Merge, FlagAt;
    var d := Slack({next}, {}, {});
    BlockFacts(h, g, d, b, false);
    BlockFacts(h, g, d, next, false);
    ReadyTiled(h, g, d, false);
    UsedOff(h, g, d, b);
    UnlistedRoom(h, g, d, next, false);
    MergeOk(Tl(false), h, d, b);
    assert MergeSlack(d, b, next) == Open(b) by {
      assert {next} + {b} - {next} == {b};
      assert {} + {b} - {next} == {b};
    }
    MergeRegioned(h, g, b);
    var h' := MergeBlocks(h, b);
    MergedShape(h, g, b, next);
    UsedKeptFree(Tl(false), h, h', {b, next}, next);
    assert {b, next} - {next} == {b};
  }

  lemma UsedOff(h: Heap, g: Regions, d: Slack, b: Addr)
    requires Ready(h, g, d, false) && IsUsed(h, b)
    ensures b !in h.x.place
  {
    assert ListedAt(Tl(false), h, d.off, b);
  }

  lemma MergedShape(h: Heap, g: Regions, b: Addr, next: Addr)
    requires Ready(h, g, Slack({next}, {}, {}), false) && IsUsed(h, b) && h.t.HasNext(b) && h.t.End(b) == next
      && next in h.t.ext && At(h, next).free && next != b
    ensures var h' := MergeBlocks(h, b);
      && b in h'.t.ext && h'.t.HasNext(b) && h'.t.End(b) == h.t.End(next) && h'.t.End(b) in h'.t.ext
      && !At(h', h'.t.End(b)).free && h'.t.End(b) > b
      && FlagAt(Tl(false), h', b, {}) && h'.t.ext[b] == h.t.ext[b] + h.t.ext[next] && next !in h'.t.ext
  {
    hide IndexOk, Tiled, HdrAt, ListedOk, Regioned, HdrsOk, FlagsOk;
    var d := Slack({next}, {}, {});
    BlockFacts(h, g, d, next, false);
    Neighbours(Tl(false), h, d, b);
    Neighbours(Tl(false), h, d, next);
  }

  /** A free block just taken off its list may be worked on. */
  lemma OpenFree(h: Heap, g: Regions, b: Addr)
    requires Ready(h, g, Slack({b}, {}, {}), false) && b in h.t.ext && At(h, b).free
    ensures Opened(h, g, b) && h.t.ext[b] == BHDR_OVERHEAD + At(h, b).size
  {
    hide HeapOk, HdrAt, Regioned, FlagAt;
    BlockFacts(h, g, Slack({b}, {}, {}), b, false);
    TakenFlags(Tl(false), h, b);
    Loosen(Tl(false), h, Slack({b}, {}, {}), b, Open(b));
  }

  // ------------------------------------------------------ growing in place

  /** A used block b and the free block behind it, off its list, before they are merged. */
  lemma BeforeJoin(h: Heap, g: Regions, b: Addr, next: Addr)
    requires Ready(h, g, Slack({next}, {}, {}), false) && IsUsed(h, b) && h.t.HasNext(b) && h.t.End(b) == next
      && next in h.t.ext && At(h, next).free
    ensures Ready(h, g, Slack({b, next}, {}, {}), false) && next != b && h.t.HasNext(next) && Tiled(h.t)
    ensures h.t.End(next) in h.t.ext && !At(h, h.t.End(next)).free && h.t.End(next) > next > b
    ensures h.t.ext[b] == BHDR_OVERHEAD + At(h, b).size && h.t.ext[next] == BHDR_OVERHEAD + At(h, next).size
  {
    hide HeapOk, HdrAt, Regioned, Tiled;
    var d := Slack({next}, {}, {});
    ReadyTiled(h, g, d, false);
    BlockFacts(h, g, d, b, false);
    BlockFacts(h, g, d, next, false);
    Neighbours(Tl(false), h, d, next);
    SmallOff(Tl(false), h, d, b, {b, next});
  }

  /** The block behind the grown one learns that its predecessor is in use. */
  lemma JoinedStep(h: Heap, g: Regions, b: Addr)
    requires Ready(h, g, Loose(b), false) && IsUsed(h, b) && h.t.HasNext(b) && h.t.End(b) in h.t.ext
      && !At(h, h.t.End(b)).free
    ensures var nb := h.t.End(b); var c := At(h, nb).(prev := b, prevFree := false);
      var h' := StoreHdr(Tl(false), h, nb, c);
      && Ready(h', g, Slack({}, {}, {}), false) && UsedKept(Tl(false), h, h', {}) && SameHdrsBut(h, h', nb)
      && At(h', nb) == c && nb > b
  {
    hide IndexOk, Tiled, HdrAt, FlagsOk, PutHdr, KeptAt, Roomy, Regioned;
    var nb := h.t.End(b);
    var c := At(h, nb).(prev := b, prevFree := false);
    BlockFacts(h, g, Loose(b), b, false);
    BlockFacts(h, g, Loose(b), nb, false);
    Neighbours(Tl(false), h, Loose(b), b);
    assert ListedAt(Tl(false), h, {b}, nb);
    StoreFrame(Tl(false), h, nb, c);
    if h.t.HasNext(nb) { NextFlag(Tl(false), h, Loose(b), nb, c, {b}); }
    StoreOk(Tl(false), h, Loose(b), nb, c, Loose(b));
    StoreKeeps(Tl(false), h, nb, c);
    ReadyStore(h, g, Loose(b), nb, c, Loose(b), false);
    JoinedSettle(h, StoreHdr(Tl(false), h, nb, c), b, nb);
    Settle(Tl(false), StoreHdr(Tl(false), h, nb, c), Loose(b), b, Slack({}, {}, {}));
  }

  lemma JoinedSettle(h: Heap, h': Heap, b: Addr, nb: Addr)
    requires FlagAt(Tl(false), h, b, {b}) && b in h.t.ext && h'.t == h.t && !At(h, b).free && SameHdrsBut(h, h', nb)
      && nb > b
    requires b !in h.t.firsts ==> b in h.t.pred && h.t.pred[b] in h.t.ext && h.t.pred[b] < b
    requires nb !in h.t.firsts && nb in h.t.pred && h.t.pred[nb] == b && !At(h', nb).prevFree
    ensures FlagAt(Tl(false), h', b, {}) && FlagAt(Tl(false), h', nb, {})
  {
    hide HdrAt;
    assert At(h', b) == At(h, b);
    if b !in h.t.firsts { assert At(h', h.t.pred[b]) == At(h, h.t.pred[b]); }
  }

  // ------------------------------------------------------------------- copy

  /** memcpy of n bytes, of which some may never have been written. */
  function CopyMem(m: Mem<Hdr>, to: Addr, from: Addr, n: nat): Mem<Hdr> {
    Clobber(m, to, to + n, Y()).(data := CopyData(m.data, to, from, n))
  }

  function CopyData(data: map<Addr, byte>, to: Addr, from: Addr, n: nat): map<Addr, byte> {
    if n == 0 then data
    else
      var d := CopyData(data, to, from, n - 1);
      if from + n - 1 in d then d[to + n - 1 := d[from + n - 1]] else d - {to + n - 1}
  }

  /** Byte i of the source at its new place. */
  ghost predicate Moved(data: map<Addr, byte>, data': map<Addr, byte>, to: Addr, from: Addr, i: nat) {
    (to + i in data' <==> from + i in data) && (from + i in data ==> data'[to + i] == data[from + i])
  }

  ghost predicate SameByte(data: map<Addr, byte>, data': map<Addr, byte>, d: Addr) {
    (d in data' <==> d in data) && (d in data ==> data'[d] == data[d])
  }

  lemma {:induction false} CopyDataIs(data: map<Addr, byte>, to: Addr, from: Addr, n: nat)
    requires to + n <= from || from + n <= to
    ensures forall i: nat {:trigger Moved(data, CopyData(data, to, from, n), to, from, i)} :: i < n ==>
      Moved(data, CopyData(data, to, from, n), to, from, i)
    ensures forall d: Addr {:trigger SameByte(data, CopyData(data, to, from, n), d)} :: d < to || to + n <= d ==>
      SameByte(data, CopyData(data, to, from, n), d)
  {
    if n > 0 {
      CopyDataIs(data, to, from, n - 1);
      var d1, d2 := CopyData(data, to, from, n - 1), CopyData(data, to, from, n);
      assert SameByte(data, d1, from + n - 1);
      forall i: nat | i < n ensures Moved(data, d2, to, from, i) {
        if i < n - 1 { assert Moved(data, d1, to, from, i); }
      }
      forall d: Addr | d < to || to + n <= d ensures SameByte(data, d2, d) { assert SameByte(data, d1, d); }
    }
  }

  /** The copy changes no header, no link and no payload but that of used block a. */
  lemma CopyStep(h: Heap, g: Regions, a: Addr, from: Addr, n: nat)
    requires Ready(h, g, Slack({}, {}, {}), false) && IsUsed(h, a) && BHDR_OVERHEAD + n <= h.t.ext[a]
    requires a + BHDR_OVERHEAD + n <= from || from + n <= a + BHDR_OVERHEAD
    ensures var h' := h.(m := CopyMem(h.m, a + BHDR_OVERHEAD, from, n));
      && Ready(h', g, Slack({}, {}, {}), false) && UsedKept(Tl(false), h, h', {a}) && IsUsed(h', a)
      && At(h', a) == At(h, a)
      && forall i: nat {:trigger Moved(h.m.data, h'.m.data, a + BHDR_OVERHEAD, from, i)} :: i < n ==>
        Moved(h.m.data, h'.m.data, a + BHDR_OVERHEAD, from, i)
  {
    hide HeapOk, Regioned, CopyData, ListsOk, MapsOk, BytesKept;
    var h', d := h.(m := CopyMem(h.m, a + BHDR_OVERHEAD, from, n)), Slack({}, {}, {});
    CopyDataIs(h.m.data, a + BHDR_OVERHEAD, from, n);
    HeapParts(Tl(false), h, d);
    UsedOff(h, g, d, a);
    CopyFrame(h, a, from, n);
    LinksSame(h.m, h'.m, h.heads, h.x, a);
    SameHeaders(Tl(false), h, h', d, {a});
    RelistedRegioned(h, h', g);
  }

  lemma CopyFrame(h: Heap, a: Addr, from: Addr, n: nat)
    requires Tiled(h.t) && Roomy(h.t, h.x.place, Y()) && a in h.t.ext && a !in h.x.place
      && BHDR_OVERHEAD + n <= h.t.ext[a]
    requires var data' := CopyData(h.m.data, a + BHDR_OVERHEAD, from, n);
      forall d: Addr {:trigger SameByte(h.m.data, data', d)} :: d < a + BHDR_OVERHEAD || a + BHDR_OVERHEAD + n <= d ==>
        SameByte(h.m.data, data', d)
    ensures var m' := CopyMem(h.m, a + BHDR_OVERHEAD, from, n);
      && (forall b :: b in h.t.ext && b in h.m.hdr ==> b in m'.hdr && m'.hdr[b] == h.m.hdr[b])
      && LinksKept(h.m, m', h.x.place, a)
      && OthersKept(h.m, m', h.t, a, Y())
  {
    hide Tiled, CopyData;
    forall b | b in h.t.ext && b != a ensures b + h.t.ext[b] <= a || a + h.t.ext[a] <= b { BlocksDisjoint(h.t, a, b); }
    var m' := CopyMem(h.m, a + BHDR_OVERHEAD, from, n);
    forall u | u in h.t.ext && u != a ensures BytesKept(h.m, m', h.t, u, Y()) {
      assert u + h.t.ext[u] <= a || a + h.t.ext[a] <= u;
      forall d: Addr | u + BHDR_OVERHEAD <= d < u + h.t.ext[u]
        ensures (d in h.m.data <==> d in m'.data) && (d in h.m.data ==> m'.data[d] == h.m.data[d])
      {
        assert d < a + BHDR_OVERHEAD || a + BHDR_OVERHEAD + n <= d;
        assert SameByte(h.m.data, CopyData(h.m.data, a + BHDR_OVERHEAD, from, n), d);
      }
    }
  }
}
