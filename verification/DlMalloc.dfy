/** dlmalloc and dlfree over one segment that cannot grow. */
module DlMalloc {
  import opened Bits
  import opened Tiling
  import opened DlIndex
  import opened DlTrie
  import opened DlForest
  import opened DlRing
  import opened Lists
  import opened DlBins
  import opened DlTreeOps
  import opened DlFit
  import opened DlSmall
  import opened DlHeap
  import opened DlSteps
  import opened DlChunks
  import opened DlKept

  // ---------------------------------------------------------------- requests

  const CHUNK_OVERHEAD: nat := 8
  const MIN_REQUEST: nat := 23
  const MAX_SMALL_REQUEST: nat := 240
  const MAX_REQUEST: nat := SIZE_T_LIMIT - 4 * MIN_CHUNK_SIZE
  const MEM_OFFSET: nat := 16

  /** (req + CHUNK_OVERHEAD + CHUNK_ALIGN_MASK) & ~CHUNK_ALIGN_MASK */
  function PadRequest(bytes: nat): nat { (bytes + CHUNK_OVERHEAD + 7) / 8 * 8 }

  /** The chunk size a request needs. */
  function Needed(bytes: nat): nat {
    if bytes < MIN_REQUEST then MIN_CHUNK_SIZE else PadRequest(bytes)
  }

  lemma NeededFacts(bytes: nat)
    ensures MIN_CHUNK_SIZE <= Needed(bytes) && Needed(bytes) % 8 == 0 && bytes + CHUNK_OVERHEAD <= Needed(bytes)
    ensures bytes <= MAX_SMALL_REQUEST <==> IsSmall(Needed(bytes))
    ensures bytes < MAX_REQUEST ==> Needed(bytes) < SIZE_T_LIMIT
    ensures bytes >= MAX_REQUEST ==> Needed(bytes) > SIZE_T_LIMIT - 4 * MIN_CHUNK_SIZE
  {
  }

  /** The free chunk p now serves a request for nb bytes: whole, if less than a chunk would be
      left of it and it is not the top, or else with its front.  The chunks in use before hold what
      they held.  What is left of the top is the top; what is left of the dv, or after a small
      request of any other chunk, is the dv. */
  ghost predicate Granted(s: State, s': State, p: Addr, nb: nat) {
    && OwnersKept(s, s', {})
    && p != 0 && p !in Live(s) && p in s.t.ext && nb <= s.t.ext[p]
    && var whole := p != s.top && s.t.ext[p] < nb + MIN_CHUNK_SIZE;
    && Live(s') == Live(s)[p := if whole then s.t.ext[p] else nb]
    && (if whole then s'.t == s.t else 0 < nb < s.t.ext[p] && s'.t == Split(s.t, p, nb))
    && s'.top == (if p == s.top then p + nb else s.top)
    && s'.dv == (
      if p == s.dv then if whole then 0 else p + nb
      else if !whole && IsSmall(nb) && p != s.top then p + nb
      else s.dv)
  }

  /** Where the free chunk in front of x starts, or x itself if that is in use. */
  ghost function FreeStart(s: State, x: Addr): Addr {
    if At(s.mem, x).pinuse || x !in s.t.pred then x else s.t.pred[x]
  }

  /** What the release of x does to top and dv: whichever of them is next to x takes it in, with
      the free chunk on the other side of it; only top takes in dv. */
  ghost predicate Retired(s: State, s': State, x: Addr)
    requires x in s.t.ext
  {
    Filed(s, s', FreeStart(s, x), s.t.End(x))
  }

  /** The same of a free chunk from p to n. */
  ghost predicate Filed(s: State, s': State, p: Addr, n: Addr) {
    && s'.top == (if n == s.top then p else s.top)
    && s'.dv == (
      if s.dv == 0 then 0
      else if p == s.dv then if n == s.top then 0 else p
      else if n == s.dv then p
      else s.dv)
  }

  // ------------------------------------------------------- which chunk serves

  /** Of the free chunks in bins that hold nb bytes, p is a least one, and the first in its bin if
      that is a small bin. */
  ghost predicate Best(s: State, p: Addr, nb: nat) {
    && Binnable(s, {}, p) && s.t.ext[p] >= nb && (IsSmall(s.t.ext[p]) ==> FirstIn(s, SmallIndex(s.t.ext[p]), p))
    && forall d {:trigger Binnable(s, {}, d)} :: Binnable(s, {}, d) && s.t.ext[d] >= nb ==> s.t.ext[p] <= s.t.ext[d]
  }

  ghost predicate FirstIn(s: State, i: nat, p: Addr) { i < |s.smalls| && s.smalls[i] != [] && p == s.smalls[i][0] }

  ghost predicate BinFits(s: State, nb: nat) { exists d: Addr :: Binnable(s, {}, d) && s.t.ext[d] >= nb }

  /** The dv serves the request: for a large one if no binned chunk that holds it is smaller; for
      a small one if no binned chunk is of its size or the next, small one. */
  ghost predicate DvServes(s: State, nb: nat) {
    nb <= s.dvsize && forall d {:trigger Binnable(s, {}, d)} :: Binnable(s, {}, d) && s.t.ext[d] >= nb ==>
      if IsSmall(nb) then s.t.ext[d] > nb + 8 || !IsSmall(s.t.ext[d]) else s.t.ext[d] >= s.dvsize
  }

  /** The chunk that serves a request: the dv, or else the best fit, or else the top. */
  ghost predicate Chosen(s: State, p: Addr, nb: nat) {
    if DvServes(s, nb) then p == s.dv
    else if BinFits(s, nb) then Best(s, p, nb)
    else p == s.top && nb < s.topsize
  }

  /** The bins have been passed over. */
  ghost predicate Passed(s: State, nb: nat) { if nb <= s.dvsize then DvServes(s, nb) else !BinFits(s, nb) }

  /** v is a tree chunk, and no tree chunk that holds nb bytes is smaller. */
  ghost predicate Fittest(s: State, v: Addr, nb: nat) {
    v in s.f.own && At(s.mem, v).size >= nb && forall c :: c in s.f.own && At(s.mem, c).size >= nb ==>
      At(s.mem, v).size <= At(s.mem, c).size
  }

  /** No tree chunk that holds nb bytes is smaller than a dv that does, and without one there
      is none. */
  ghost predicate DvFits(s: State, nb: nat) {
    forall c :: c in s.f.own && At(s.mem, c).size >= nb ==> nb <= s.dvsize <= At(s.mem, c).size
  }

  // ---------------------------------------------------------- the invariant

  /** The tree bin whose tree holds the ring of chunk a. */
  ghost predicate InTreeBin(s: State, a: Addr, i: nat) {
    a in s.f.own && s.f.own[a] in s.f.path && s.f.path[s.f.own[a]].bin == i
  }

  /** The segment in every state between calls: what do_check_malloc_state demands, and that no
      chunk overlaps another. */
  lemma SegmentInvariant(s: State, a: Addr)
    requires HeapOk(s, {}, {}) && a in s.t.ext
    ensures a in s.mem && s.mem[a].size == s.t.ext[a] && s.t.ext[a] % 8 == 0
      && (a != s.top ==> s.t.ext[a] >= MIN_CHUNK_SIZE)
    ensures forall b :: b in s.t.ext && b != a ==> a + s.t.ext[a] <= b || b + s.t.ext[b] <= a
    ensures a != s.top ==> var n := a + s.t.ext[a];
      && n in s.t.ext && (At(s.mem, n).pinuse <==> s.mem[a].cinuse)
      && (!s.mem[a].cinuse ==> At(s.mem, n).cinuse && At(s.mem, n).prevFoot == s.t.ext[a])
    ensures a in s.t.firsts ==> s.mem[a].pinuse
    ensures s.mem[a].cinuse ==> a != s.top && a != s.dv
    ensures !s.mem[a].cinuse && a != s.top && a != s.dv ==>
      if IsSmall(s.t.ext[a]) then SmallIndex(s.t.ext[a]) < |s.smalls| && a in s.smalls[SmallIndex(s.t.ext[a])]
        else InTreeBin(s, a, ComputeTreeIndex(s.t.ext[a]))
    ensures s.mem[a].cinuse || a == s.top || a == s.dv || !IsSmall(s.t.ext[a]) ==> forall i: nat :: i < |s.smalls| ==>
      a !in s.smalls[i]
    ensures forall i: nat :: i < |s.smalls| && i != SmallIndex(s.t.ext[a]) ==> a !in s.smalls[i]
    ensures s.mem[a].cinuse || a == s.top || a == s.dv || IsSmall(s.t.ext[a]) ==> a !in s.f.own
    ensures s.top in s.t.ext && s.topsize == s.t.ext[s.top]
      && (s.dv != 0 ==> s.dv in s.t.ext && s.dv != s.top && s.dvsize == s.t.ext[s.dv])
  {
    TopOk(s, {});
    DvSizes(s, {}, {});
    SplitTop0(s, {}, {}, a);
    if s.mem[a].cinuse { UsedIsNotTop(s, {}, {}, a); }
    if a != s.top { Around(s, a); }
    FirstFlag(s, a);
    ChunksApart(s, a);
    hide ShapeOk, HeadsOk, SmallOk, BinsOk, SpecialOk;
    assert BinnedAt(s, {}, a);
    Parts(s, {}, {});
    if a in s.f.own { TreeBinOf(s, a); }
  }

  // ------------------------------------------------------------ the caller's bytes

  ghost predicate SameHead(a: Chunk, b: Chunk) {
    a.size == b.size && a.cinuse == b.cinuse && a.pinuse == b.pinuse && a.prevFoot == b.prevFoot
  }

  /** What the owner of chunk x may do between calls: store anything anywhere from the link fields
      of the chunk to the foot field of the one behind it.  Any records may come to be read inside
      the chunk. */
  ghost predicate OwnStores(s: State, s': State, x: Addr)
    requires x in s.t.ext
  {
    && s' == s.(mem := s'.mem) && s.mem.Keys <= s'.mem.Keys && SameHead(At(s.mem, x), At(s'.mem, x))
    && At(s'.mem, s.t.End(x)) == At(s.mem, s.t.End(x)).(prevFoot := At(s'.mem, s.t.End(x)).prevFoot)
    && forall a: Addr {:trigger At(s'.mem, a)} :: a < x || s.t.End(x) < a ==> At(s'.mem, a) == At(s.mem, a)
  }

  /** None of that matters to the heap, or to the other owners. */
  lemma OwnBytes(s: State, s': State, x: Addr)
    requires HeapOk(s, {}, {}) && x in Live(s) && OwnStores(s, s', x)
    ensures HeapOk(s', {}, {}) && Live(s') == Live(s) && OwnersKept(s, s', {x})
  {
    hide HeapOk, OwnersKept, Overwritten;
    var c, foot := At(s'.mem, x), At(s'.mem, s.t.End(x)).prevFoot;
    OwnRecords(s, x, c, foot);
    OwnSame(s, s', x);
    InsideOnly(Overwritten(s, x, c, foot), s', x);
    KeptTrans(s, Overwritten(s, x, c, foot), s', {x}, {x});
    assert {x} + {x} == {x};
  }

  /** Outside the chunk its owner's stores are those to the records at both ends. */
  lemma OwnSame(s: State, s': State, x: Addr)
    requires HeapOk(s, {}, {}) && x in Live(s) && OwnStores(s, s', x)
    ensures var s2 := Overwritten(s, x, At(s'.mem, x), At(s'.mem, s.t.End(x)).prevFoot); Within(s2, s', x)
  {
    hide HeapOk;
    UsedChunk(s, x);
    UsedNext(s, x);
    HeadOf(s, {}, {}, x);
    MemHas(s, {}, {}, s.t.End(x));
  }

  /** Only records strictly inside chunk x differ. */
  ghost predicate Within(s: State, s': State, x: Addr) {
    && x in s.t.ext && s' == s.(mem := s'.mem) && s.mem.Keys <= s'.mem.Keys
    && forall a: Addr {:trigger At(s'.mem, a)} :: a <= x || s.t.End(x) <= a ==> At(s'.mem, a) == At(s.mem, a)
  }

  lemma WithinFacts(s: State, s': State, x: Addr)
    requires Within(s, s', x)
    ensures s' == s.(mem := s'.mem) && s.mem.Keys <= s'.mem.Keys
  {
  }

  lemma InsideOnly(s: State, s': State, x: Addr)
    requires HeapOk(s, {}, {}) && Within(s, s', x)
    ensures HeapOk(s', {}, {}) && Live(s') == Live(s) && OwnersKept(s, s', {x})
  {
    hide ShapeOk, HeadsOk, SpecialOk, SmallOk, BinsOk, BinnedOk, OwnersKept, Within;
    assert s' == s.(mem := s'.mem) && s.mem.Keys <= s'.mem.Keys by { WithinFacts(s, s', x); }
    StartsSame(s, s', x);
    InsideHeads(s, s');
    InsideBins(s, s', x);
    InsideKept(s, s', x);
  }

  lemma StartsSame(s: State, s': State, x: Addr)
    requires HeapOk(s, {}, {}) && Within(s, s', x)
    ensures forall a {:trigger At(s'.mem, a)} :: a in s.t.ext ==> At(s'.mem, a) == At(s.mem, a)
  {
    hide HeadsOk, SmallOk, BinsOk, BinnedOk, SpecialOk, Tiled, ShapeAt;
    forall a | a in s.t.ext ensures At(s'.mem, a) == At(s.mem, a) {
      if a != x { BlocksDisjoint(s.t, a, x); Behind(s.t, a); }
    }
  }

  lemma InsideHeads(s: State, s': State)
    requires HeapOk(s, {}, {}) && s' == s.(mem := s'.mem) && s.mem.Keys <= s'.mem.Keys
    requires forall a {:trigger At(s'.mem, a)} :: a in s.t.ext ==> At(s'.mem, a) == At(s.mem, a)
    ensures ShapeOk(s') && HeadsOk(s', {}) && SpecialOk(s', {}) && BinnedOk(s', {}) && Live(s') == Live(s)
  {
    hide SmallOk, BinsOk, Tiled;
    forall a | a in s'.t.ext ensures ShapeAt(s', a) { assert ShapeAt(s, a); }
    forall a | a in s'.t.ext ensures HeadAt(s', a) { assert HeadAt(s, a) && At(s'.mem, a) == At(s.mem, a); }
    forall b | b in s'.t.ext && !LooseEdge(s', {}, b) ensures EdgeAt(s', b) {
      assert EdgeAt(s, b) && At(s'.mem, b) == At(s.mem, b);
    }
    forall a ensures BinnedAt(s', {}, a) { assert BinnedAt(s, {}, a); }
  }

  lemma InsideBins(s: State, s': State, x: Addr)
    requires HeapOk(s, {}, {}) && Within(s, s', x)
    requires forall a {:trigger At(s'.mem, a)} :: a in s.t.ext ==> At(s'.mem, a) == At(s.mem, a)
    ensures SmallOk(s'.mem, s.smap, s.smalls) && BinsOk(s'.mem, s.tbins, s.tmap, s.f)
  {
    hide TreesOk, RingsOk, SmallBinOk, HeadsOk, SpecialOk, Tiled;
    assert ShapeAt(s, x);
    BinnedStarts(s);
    NodesPresent(s.mem, s.tbins, s.tmap, s.f.path);
    forall n | n in s.f.path ensures n in s'.mem && At(s'.mem, n) == At(s.mem, n) { NodesOwnThemselves(s.mem, s.f, n); }
    TreeFrame(s.mem, s'.mem, s.tbins, s.tmap, s.f.path);
    RingsSame(s.mem, s'.mem, s.f);
    forall a | a < HEAP_START && a in s.mem ensures s'.mem[a] == s.mem[a] { assert At(s'.mem, a) == At(s.mem, a); }
    SmallFrame(s.mem, s'.mem, s.smap, s.smalls);
  }

  /** What is in the bins are chunks. */
  lemma BinnedStarts(s: State)
    requires BinnedOk(s, {}) && |s.smalls| == NSMALLBINS
    ensures forall a :: a in s.f.own ==> a in s.t.ext
    ensures forall i: nat, a {:trigger a in s.smalls[i]} :: i < NSMALLBINS && a in s.smalls[i] ==> a in s.t.ext
  {
    forall a | a in s.f.own ensures a in s.t.ext { assert BinnedAt(s, {}, a); }
    forall i: nat, a | i < NSMALLBINS && a in s.smalls[i] ensures a in s.t.ext { assert BinnedAt(s, {}, a); }
  }

  lemma RingsSame(mem: Memory, mem': Memory, f: Forest)
    requires RingsOk(mem, f) && mem.Keys <= mem'.Keys && forall c :: c in f.own ==> At(mem', c) == At(mem, c)
    ensures RingsOk(mem', f)
  {
    forall n | n in f.ring ensures RingOf(mem', f.ring[n], n) {
      NodesOwnThemselves(mem, f, n);
      forall d | d in f.ring[n] ensures d in mem { NeighbourIn(mem, f.ring[n], d); }
      RingFrame(mem, mem', f.ring[n], n);
    }
  }

  lemma InsideKept(s: State, s': State, x: Addr)
    requires HeapOk(s, {}, {}) && Within(s, s', x)
    requires forall a {:trigger At(s'.mem, a)} :: a in s.t.ext ==> At(s'.mem, a) == At(s.mem, a)
    ensures OwnersKept(s, s', {x})
  {
    hide HeadsOk, SmallOk, BinsOk, BinnedOk, SpecialOk, Tiled, ShapeAt;
    forall u | u !in {x} ensures KeptFor(s, s', u) {
      if InUse(s, u) { BlocksDisjoint(s.t, u, x); Behind(s.t, u); }
    }
  }

  /** The stores to the records at both ends of the chunk. */
  function Overwritten(s: State, x: Addr, c: Chunk, foot: nat): State
    requires x in s.t.ext
  {
    var m := s.mem[x :=
      At(s.mem, x).(fd := c.fd, bk := c.bk, child0 := c.child0, child1 := c.child1, parent := c.parent,
      index := c.index)];
    s.(mem := SetFoot(m, s.t.End(x), foot))
  }

  lemma OwnRecords(s: State, x: Addr, c: Chunk, foot: nat)
    requires HeapOk(s, {}, {}) && x in Live(s)
    ensures HeapOk(Overwritten(s, x, c, foot), {}, {}) && Live(Overwritten(s, x, c, foot)) == Live(s)
    ensures OwnersKept(s, Overwritten(s, x, c, foot), {x})
  {
    hide HeapOk, OwnersKept;
    UsedChunk(s, x);
    UsedNeighbours(s, {}, {}, x);
    UsedNext(s, x);
    HeadOf(s, {}, {}, x);
    Loosen(s, {}, {}, x);
    assert {} + {x} == {x} && {x} - {x} == {};
    var n, c1 := s.t.End(x),
      At(s.mem, x).(fd := c.fd, bk := c.bk, child0 := c.child0, child1 := c.child1, parent := c.parent,
      index := c.index);
    MemHas(s, {}, {}, n);
    StoreLoose(s, {x}, {x}, x, c1);
    var s1 := s.(mem := s.mem[x := c1]);
    FootOk(s1, {x}, {x}, x, n, foot);
    var s2 := Overwritten(s, x, c, foot);
    OwnEdges(s, s2, x);
    Settle(s2, {x}, {x}, x);
    Unneeded(s2, {}, {x}, x);
    OthersKept(s, x, c1, n, foot);
  }

  lemma OthersKept(s: State, x: Addr, c: Chunk, n: Addr, foot: nat)
    requires HeapOk(s, {}, {}) && x in s.t.ext && x != s.top && s.t.End(x) == n && c.prevFoot == At(s.mem, x).prevFoot
    ensures OwnersKept(s, s.(mem := SetFoot(s.mem[x := c], n, foot)), {x})
  {
    hide HeapOk, OwnersKept, Tiled;
    Spot(s, {}, {}, x);
    Behind(s.t, x);
    StoreKeeps(s, x, c, {x});
    var s1 := s.(mem := s.mem[x := c]);
    StoreKeeps(s1, n, At(s1.mem, n).(prevFoot := foot), {x});
    KeptTrans(s, s1, s1.(mem := SetFoot(s1.mem, n, foot)), {x}, {x});
    assert {x} + {x} == {x};
  }

  lemma OwnEdges(s: State, s': State, x: Addr)
    requires HeapOk(s, {}, {}) && x in s.t.ext && At(s.mem, x).cinuse && x in s.mem && s.t.End(x) != x && s.t.HasNext(x)
    requires s'.t == s.t && s'.top == s.top && s'.mem.Keys == s.mem.Keys
    requires forall a {:trigger At(s'.mem, a)} :: a in s.mem ==>
      At(s'.mem, a).size == At(s.mem, a).size && At(s'.mem, a).cinuse == At(s.mem, a).cinuse
      && At(s'.mem, a).pinuse == At(s.mem, a).pinuse
      && (a != s.t.End(x) ==> At(s'.mem, a).prevFoot == At(s.mem, a).prevFoot)
    ensures HeadAt(s', x) && EdgeAt(s', x) && EdgeAt(s', s.t.End(x))
  {
    HeadOf(s, {}, {}, x);
    hide SmallOk, BinsOk, BinnedOk, SpecialOk, Tiled, ShapeAt;
    assert HeadAt(s, x) && EdgeAt(s, x) && EdgeAt(s, s.t.End(x));
    assert At(s'.mem, x).size == At(s.mem, x).size;
  }

  /** The foot field behind a loose chunk, whatever the chunk there is. */
  lemma FootOk(s: State, loose: set<Addr>, off: set<Addr>, x: Addr, n: Addr, foot: nat)
    requires HeapOk(s, loose, off) && x in loose && x in s.t.ext && s.t.HasNext(x) && s.t.End(x) == n && n in s.mem
    ensures HeapOk(s.(mem := SetFoot(s.mem, n, foot)), loose, off)
  {
    hide SmallOk, BinsOk, HeadsOk, ShapeOk;
    var s' := s.(mem := SetFoot(s.mem, n, foot));
    FootHeads(s, loose, x, n, foot);
    FootBins(s, n, foot);
    forall a ensures BinnedAt(s', off, a) { assert BinnedAt(s, off, a); }
  }

  lemma FootHeads(s: State, loose: set<Addr>, x: Addr, n: Addr, foot: nat)
    requires ShapeOk(s) && HeadsOk(s, loose) && x in loose && x in s.t.ext && s.t.HasNext(x) && s.t.End(x) == n
      && n in s.mem
    ensures ShapeOk(s.(mem := SetFoot(s.mem, n, foot))) && HeadsOk(s.(mem := SetFoot(s.mem, n, foot)), loose)
      && n >= HEAP_START
  {
    hide Tiled;
    var s' := s.(mem := SetFoot(s.mem, n, foot));
    NextFacts(s.t, x);
    assert ShapeAt(s, n);
    forall a | a in s'.t.ext ensures ShapeAt(s', a) { assert ShapeAt(s, a); }
    hide ShapeAt;
    forall a | a in s'.t.ext && a !in loose ensures HeadAt(s', a) { assert HeadAt(s, a); }
    forall b | b in s'.t.ext && !LooseEdge(s', loose, b) ensures EdgeAt(s', b) {
      assert !LooseEdge(s, loose, b) && EdgeAt(s, b);
    }
  }

  lemma FootBins(s: State, n: Addr, foot: nat)
    requires SmallOk(s.mem, s.smap, s.smalls) && BinsOk(s.mem, s.tbins, s.tmap, s.f) && n in s.mem && n >= HEAP_START
    ensures SmallOk(SetFoot(s.mem, n, foot), s.smap, s.smalls) && BinsOk(SetFoot(s.mem, n, foot), s.tbins, s.tmap, s.f)
  {
    hide TreesOk, RingsOk, SmallBinOk;
    var mem' := SetFoot(s.mem, n, foot);
    NodesPresent(s.mem, s.tbins, s.tmap, s.f.path);
    TreeFrame(s.mem, mem', s.tbins, s.tmap, s.f.path);
    FootRings(s.mem, s.f, n, foot);
    SmallFrame(s.mem, mem', s.smap, s.smalls);
  }

  lemma FootRings(mem: Memory, f: Forest, x: Addr, foot: nat)
    requires RingsOk(mem, f) && x in mem
    ensures RingsOk(SetFoot(mem, x, foot), f)
  {
    forall n | n in f.ring ensures RingOf(SetFoot(mem, x, foot), f.ring[n], n) {
      NodesOwnThemselves(mem, f, n);
      forall d | d in f.ring[n] ensures d in mem { NeighbourIn(mem, f.ring[n], d); }
      RingFrame(mem, SetFoot(mem, x, foot), f.ring[n], n);
    }
  }

  lemma ChunksApart(s: State, a: Addr)
    requires HeapOk(s, {}, {}) && a in s.t.ext
    ensures forall b :: b in s.t.ext && b != a ==> a + s.t.ext[a] <= b || b + s.t.ext[b] <= a
  {
    hide HeadsOk, SmallOk, BinsOk, BinnedOk, SpecialOk, Tiled, ShapeAt;
    forall b | b in s.t.ext && b != a ensures a + s.t.ext[a] <= b || b + s.t.ext[b] <= a { BlocksDisjoint(s.t, a, b); }
  }

  lemma FirstFlag(s: State, a: Addr)
    requires HeapOk(s, {}, {}) && a in s.t.ext
    ensures a in s.t.firsts ==> At(s.mem, a).pinuse
  {
    hide ShapeOk, SmallOk, BinsOk, BinnedOk, SpecialOk;
    assert EdgeAt(s, a);
  }

  lemma Around(s: State, a: Addr)
    requires HeapOk(s, {}, {}) && a in s.t.ext && a != s.top
    ensures var n := a + s.t.ext[a];
      && n in s.t.ext && (At(s.mem, n).pinuse <==> At(s.mem, a).cinuse)
      && (!At(s.mem, a).cinuse ==> At(s.mem, n).cinuse && At(s.mem, n).prevFoot == s.t.ext[a])
  {
    SplitTop(s, a);
    HeadOf(s, {}, {}, a);
    hide ShapeOk, SmallOk, BinsOk, BinnedOk, SpecialOk;
    assert EdgeAt(s, s.t.End(a));
  }

  lemma TreeBinOf(s: State, a: Addr)
    requires BinsOk(s.mem, s.tbins, s.tmap, s.f) && a in s.f.own && a in s.mem
      && MIN_LARGE_SIZE <= s.mem[a].size < SIZE_T_LIMIT
    ensures InTreeBin(s, a, ComputeTreeIndex(s.mem[a].size))
  {
    hide RingsOk, ComputeTreeIndex, InRegion, InBin;
    MemberFacts(s.mem, s.f, a);
    var n := s.f.own[a];
    assert Placed(At(s.mem, n), s.f.path[n]);
    IndexUnique(s.mem[a].size, s.f.path[n].bin);
  }


  // ------------------------------------------------------------- small bin map

  lemma {:induction false} NoBits(m: nat, w: nat)
    requires forall j: nat :: j >= w ==> !Bit(m, j)
    ensures m < Pow2(w)
  {
    if w > 0 {
      forall j: nat | j >= w - 1 ensures !Bit(m / 2, j) { assert !Bit(m, j + 1); }
      NoBits(m / 2, w - 1);
    } else {
      assert m > 0 ==> Bit(m, Lowest(m));
    }
  }

  lemma {:induction false} BitOfShl(x: nat, k: nat, j: nat)
    ensures Bit(x * Pow2(k), j) <==> j >= k && Bit(x, j - k)
  {
    if k > 0 {
      assert x * Pow2(k) == 2 * (x * Pow2(k - 1));
      if j > 0 { BitOfShl(x, k - 1, j - 1); }
    }
  }

  /** The map shifted right and back again: the lower bits are gone. */
  lemma ShiftedBack(m: nat, k: nat)
    requires m < WORD
    ensures Shr(m, k) * Pow2(k) < WORD
    ensures forall j: nat :: Bit(Shr(m, k) * Pow2(k), j) <==> j >= k && Bit(m, j)
  {
    hide Bit, Shr;
    ShrDiv(m, k);
    DivTimes(m, Pow2(k));
    hide Pow2;
    forall j: nat ensures Bit(Shr(m, k) * Pow2(k), j) <==> j >= k && Bit(m, j) {
      BitOfShl(Shr(m, k), k, j);
      if j >= k { BitOfShr(m, k, j - k); }
    }
  }

  lemma DivTimes(m: nat, d: nat)
    requires d >= 1
    ensures m / d * d <= m
  {
  }

  /** smallbits & 3, and ~smallbits & 1. */
  lemma LowBits(m: nat, k: nat)
    ensures And(Shr(m, k), 3) != 0 <==> Bit(m, k) || Bit(m, k + 1)
    ensures (1 - Shr(m, k) % 2 == 1) <==> !Bit(m, k)
    ensures Shr(m, k) == 0 ==> forall j: nat :: j >= k ==> !Bit(m, j)
  {
    var x := Shr(m, k);
    BitOfShr(m, k, 0);
    BitOfShr(m, k, 1);
    assert 3 / 2 == 1 && x / 2 / 2 >= 0 && And(x / 2 / 2, 0) == 0;
    assert And(x / 2, 1) == if x / 2 % 2 == 1 then 1 else 0;
    if x == 0 {
      forall j: nat | j >= k ensures !Bit(m, j) { BitOfShr(m, k, j - k); ZeroBits(j - k); }
    }
  }

  lemma SmallMapBound(s: State)
    requires SmallOk(s.mem, s.smap, s.smalls)
    ensures s.smap < WORD
  {
    hide Bit, Cycle;
    NoBits(s.smap, 32);
    Pow32();
  }

  function NoSmalls(): seq<seq<Addr>> { seq(NSMALLBINS, i => []) }

  /** init_bins: each small bin header points to itself. */
  method InitBins(mem0: Memory) returns (mem: Memory)
    ensures forall i: nat {:trigger SmallBinAt(i)} :: i < NSMALLBINS ==>
      SmallBinAt(i) in mem && mem[SmallBinAt(i)].fd == mem[SmallBinAt(i)].bk == SmallBinAt(i)
    ensures forall a :: a in mem0 && a >= HEAP_START ==> a in mem && mem[a] == mem0[a]
  {
    mem := mem0;
    var i: nat := 0;
    while i < NSMALLBINS
      invariant i <= NSMALLBINS
      invariant forall a :: a in mem0 && a >= HEAP_START ==> a in mem && mem[a] == mem0[a]
      invariant forall j: nat {:trigger SmallBinAt(j)} :: j < i ==>
        SmallBinAt(j) in mem && mem[SmallBinAt(j)].fd == mem[SmallBinAt(j)].bk == SmallBinAt(j)
    {
      HeadersApart(i, i);
      mem := mem[SmallBinAt(i) := NO_CHUNK.(fd := SmallBinAt(i), bk := SmallBinAt(i))];
      i := i + 1;
    }
  }

  class Malloc {
    /** The tree bins of malloc_state, which also hold the memory. */
    const trees: TreeBins
    var smallmap: nat
    var dv: Addr
    var dvsize: nat
    var top: Addr
    var topsize: nat
    ghost var tiles: Tiles
    ghost var smalls: seq<seq<Addr>>

    ghost function S(): State
      reads this, trees
    {
      State(trees.mem, tiles, trees.treebins, trees.treemap, trees.forest, smallmap, smalls, dv, dvsize, top, topsize)
    }

    ghost predicate Valid()
      reads this, trees
    {
      HeapOk(S(), {}, {})
    }

    /** init_bins and init_top: a segment of one free chunk. */
    constructor (base: Addr, size: nat)
      requires base >= HEAP_START && base % 8 == 0 && size > 0 && size % 8 == 0 && base + size < SIZE_T_LIMIT
      ensures Valid() && Live(S()) == map[] && top == base && topsize == size && fresh(trees)
    {
      hide HeapOk, Live;
      trees := new TreeBins();
      smallmap, dv, dvsize, top, topsize := 0, 0, 0, base, size;
      tiles := Tiles(map[base := size], map[], {base}, {base + size});
      smalls := NoSmalls();
      new;
      trees.mem := InitBins(map[base := NO_CHUNK.(size := size, pinuse := true)]);
      EmptyHeap(S());
    }

    // ------------------------------------------------------------------ bins

    /** insert_small_chunk */
    method InsertSmallChunk(p: Addr, z: nat)
      requires SmallOk(trees.mem, smallmap, smalls) && p >= HEAP_START && p in trees.mem && !InSmalls(smalls, p)
        && IsSmall(z)
      modifies this`smallmap, this`smalls, trees`mem
      ensures S() == SmallInserted(old(S()), p, z)
    {
      hide SmallOk, Bit, MarkBit;
      var i := SmallIndex(z);
      InsertSmallOk(trees.mem, smallmap, smalls, i, p);
      ghost var m0, map0 := trees.mem, smallmap;
      SmallsLength(trees.mem, smallmap, smalls);
      var b := SmallBinAt(i);
      var f := b;
      if !Bit(smallmap, i) {
        smallmap := MarkBit(smallmap, i);
      } else {
        f := trees.mem[b].fd;
        MarkedAlready(smallmap, i);
      }
      trees.mem := trees.mem[b := trees.mem[b].(fd := p)];
      trees.mem := trees.mem[f := trees.mem[f].(bk := p)];
      trees.mem := trees.mem[p := trees.mem[p].(fd := f)];
      trees.mem := trees.mem[p := trees.mem[p].(bk := b)];
      assert trees.mem == InsertMem(m0, b, f, p);
      smalls := smalls[i := [p] + smalls[i]];
    }

    /** unlink_small_chunk */
    method UnlinkSmallChunk(p: Addr, z: nat, ghost j: nat)
      requires SmallOk(trees.mem, smallmap, smalls) && IsSmall(z) && SmallIndex(z) < |smalls|
        && j < |smalls[SmallIndex(z)]| && smalls[SmallIndex(z)][j] == p
      modifies this`smallmap, this`smalls, trees`mem
      ensures S() == SmallUnlinked(old(S()), SmallIndex(z), j)
    {
      hide SmallOk, ClearBit;
      var i := SmallIndex(z);
      UnlinkSmallOk(trees.mem, smallmap, smalls, i, j);
      var f, b := trees.mem[p].fd, trees.mem[p].bk;
      if f == b {
        smallmap := ClearBit(smallmap, i);
        smalls := smalls[i := []];
      } else {
        trees.mem := trees.mem[f := trees.mem[f].(bk := b)];
        trees.mem := trees.mem[b := trees.mem[b].(fd := f)];
        smalls := smalls[i := Without(smalls[i], j)];
      }
    }

    /** unlink_first_small_chunk, for the chunk p = b->fd of the marked bin i. */
    method UnlinkFirstSmallChunk(b: Addr, p: Addr, i: nat)
      requires SmallOk(trees.mem, smallmap, smalls) && i < |smalls| && i < NSMALLBINS && smalls[i] != []
        && b == SmallBinAt(i) && p == smalls[i][0]
      modifies this`smallmap, this`smalls, trees`mem
      ensures S() == SmallUnlinked(old(S()), i, 0)
    {
      hide SmallOk, ClearBit;
      UnlinkSmallOk(trees.mem, smallmap, smalls, i, 0);
      ghost var m0 := trees.mem;
      var f := trees.mem[p].fd;
      if b == f {
        smallmap := ClearBit(smallmap, i);
        smalls := smalls[i := []];
      } else {
        trees.mem := trees.mem[b := trees.mem[b].(fd := f)];
        trees.mem := trees.mem[f := trees.mem[f].(bk := b)];
        assert trees.mem == LeaveMem(m0, p);
        smalls := smalls[i := Without(smalls[i], 0)];
      }
    }

    /** unlink_chunk, for a chunk in its bin. */
    method UnlinkChunk(p: Addr, z: nat, ghost loose: set<Addr>, ghost off: set<Addr>)
      requires HeapOk(S(), loose, off) && Binnable(S(), off, p) && z == tiles.ext[p]
      modifies this`smallmap, this`smalls, trees
      ensures HeapOk(S(), loose, off + {p}) && Relinked(old(S()), S()) && Live(S()) == old(Live(S()))
        && OwnersKept(old(S()), S(), {})
    {
      hide HeapOk, Relinked, Live, OwnersKept;
      ghost var s0 := S();
      Parts(s0, loose, off);
      ghost var j: nat := WhereBinned(s0, loose, off, p);
      if IsSmall(z) {
        UnlinkSmallChunk(p, z, j);
        SmallUnlinkOk(s0, loose, off, SmallIndex(z), j);
        KeepsRelinked(s0, S(), loose, off);
      } else {
        UnlinkLarge(p, loose, off);
      }
    }

    /** unlink_large_chunk */
    method UnlinkLarge(p: Addr, ghost loose: set<Addr>, ghost off: set<Addr>)
      requires HeapOk(S(), loose, off) && p in trees.forest.own
      modifies trees
      ensures HeapOk(S(), loose, off + {p}) && Relinked(old(S()), S()) && Live(S()) == old(Live(S()))
        && OwnersKept(old(S()), S(), {})
    {
      hide HeapOk, Relinked, Live, OwnersKept;
      ghost var s0 := S();
      Parts(s0, loose, off);
      trees.UnlinkLargeChunk(p);
      TreeUnlinkOk(s0, S(), loose, off, p);
      KeepsRelinked(s0, S(), loose, off);
    }

    /** insert_chunk, for a free chunk in no bin. */
    method InsertChunk(p: Addr, z: nat, ghost loose: set<Addr>, ghost off: set<Addr>)
      requires HeapOk(S(), loose, off) && Waiting(S(), loose, off, p) && z == tiles.ext[p]
      modifies this`smallmap, this`smalls, trees
      ensures HeapOk(S(), loose, off - {p}) && Relinked(old(S()), S()) && Live(S()) == old(Live(S()))
        && OwnersKept(old(S()), S(), {})
    {
      hide HeapOk, Relinked, Live, OwnersKept;
      ghost var s0 := S();
      Parts(s0, loose, off);
      WaitingFacts(s0, loose, off, p);
      if IsSmall(z) {
        InsertSmallChunk(p, z);
        SmallInsertOk(s0, loose, off, p);
      } else {
        trees.InsertLargeChunk(p, z);
        TreeInsertOk(s0, S(), loose, off, p);
      }
      KeepsRelinked(s0, S(), loose, off);
    }

    /** replace_dv: the free chunk p becomes the dv, and the old dv, of small size, is binned. */
    method ReplaceDv(p: Addr, z: nat)
      requires HeapOk(S(), {}, {p}) && Waiting(S(), {}, {p}, p) && z == tiles.ext[p] && IsSmall(dvsize)
      modifies this`smallmap, this`smalls, this`dv, this`dvsize, trees`mem
      ensures Valid() && Live(S()) == old(Live(S())) && tiles == old(tiles) && OwnersKept(old(S()), S(), {})
      ensures dv == p && dvsize == z
    {
      hide HeapOk, Live, OwnersKept;
      ghost var s0 := S();
      DvReplaced(s0, p, z);
      Parts(s0, {}, {p});
      var dvs := dvsize;
      if dvs != 0 {
        InsertSmallChunk(dv, dvs);
      }
      dvsize := z;
      dv := p;
    }

    // ------------------------------------------------------------ handing out

    /** The first chunk of a marked small bin comes off it. */
    method PopSmall(i: nat) returns (p: Addr)
      requires Valid() && i < NSMALLBINS && Bit(smallmap, i)
      modifies this`smallmap, this`smalls, trees`mem
      ensures HeapOk(S(), {}, {p}) && Waiting(S(), {}, {p}, p) && Relinked(old(S()), S()) && Live(S()) == old(Live(S()))
      ensures tiles.ext[p] == SmallIndex2Size(i) && p != 0 && OwnersKept(old(S()), S(), {})
      ensures Binnable(old(S()), {}, p) && FirstIn(old(S()), i, p)
    {
      hide HeapOk, Live, Bit, OwnersKept;
      ghost var s0 := S();
      Parts(s0, {}, {});
      FirstOfBin(s0, i);
      var b := SmallBinAt(i);
      p := trees.mem[b].fd;
      UnlinkFirstSmallChunk(b, p, i);
      SmallUnlinkOk(s0, {}, {}, i, 0);
      KeepsRelinked(s0, S(), {}, {});
      assert {} + {p} == {p};
    }

    /** set_inuse_and_pinuse: the whole chunk is handed out. */
    method UseWhole(p: Addr, z: nat)
      requires HeapOk(S(), {}, {p}) && Waiting(S(), {}, {p}, p) && z == tiles.ext[p]
      modifies trees`mem
      ensures Valid() && p !in old(Live(S())) && Live(S()) == old(Live(S()))[p := z] && OwnersKept(old(S()), S(), {})
    {
      hide HeapOk, Live, OwnersKept;
      UseOk(S(), {p}, p);
      KeepsUse(S(), {}, {p}, p);
      assert {p} - {p} == {};
      trees.mem := SetInuse(trees.mem, p, z);
    }

    /** set_size_and_pinuse_of_inuse_chunk and set_size_and_pinuse_of_free_chunk: the front of
        the chunk is handed out, the rest r is a free chunk. */
    method UseFront(p: Addr, nb: nat, rsize: nat) returns (r: Addr)
      requires HeapOk(S(), {}, {p}) && Waiting(S(), {}, {p}, p) && tiles.ext[p] == nb + rsize
      requires MIN_CHUNK_SIZE <= nb && nb % 8 == 0 && MIN_CHUNK_SIZE <= rsize
      modifies trees`mem, this`tiles
      ensures r == p + nb && HeapOk(S(), {}, {r}) && Waiting(S(), {}, {r}, r) && tiles == Split(old(tiles), p, nb)
        && tiles.ext[r] == rsize
      ensures p !in old(Live(S())) && Live(S()) == old(Live(S()))[p := nb] && OwnersKept(old(S()), S(), {})
    {
      hide HeapOk, Live, OwnersKept;
      CarveOk(S(), {p}, p, nb);
      KeepsCarve(S(), {}, {p}, p, nb);
      r := p + nb;
      assert {p} - {p} + {r} == {r};
      trees.mem := SetHead(trees.mem, p, nb, true);
      trees.mem := SetFree(trees.mem, r, rsize);
      tiles := Split(tiles, p, nb);
    }

    /** The unlinked chunk v = nb + rsize is handed out; a remainder large enough becomes dv. */
    method GrantKeepRest(v: Addr, nb: nat, rsize: nat)
      requires HeapOk(S(), {}, {v}) && Waiting(S(), {}, {v}, v) && tiles.ext[v] == nb + rsize && v != 0
      requires MIN_CHUNK_SIZE <= nb && nb % 8 == 0 && IsSmall(dvsize) && IsSmall(nb)
      modifies this, trees
      ensures Valid() && Granted(old(S()), S(), v, nb)
    {
      hide HeapOk, Live, OwnersKept;
      ghost var s0 := S();
      if rsize < MIN_CHUNK_SIZE {
        UseWhole(v, rsize + nb);
      } else {
        var r := UseFront(v, nb, rsize);
        ghost var s1 := S();
        ReplaceDv(r, rsize);
        KeptTwice(s0, s1, S());
      }
    }

    /** The same with the remainder put in its bin. */
    method GrantBinRest(v: Addr, nb: nat, rsize: nat)
      requires HeapOk(S(), {}, {v}) && Waiting(S(), {}, {v}, v) && tiles.ext[v] == nb + rsize && v != 0
      requires MIN_CHUNK_SIZE <= nb && nb % 8 == 0 && !IsSmall(nb)
      modifies this, trees
      ensures Valid() && Granted(old(S()), S(), v, nb)
    {
      hide HeapOk, Live, OwnersKept;
      ghost var s0 := S();
      if rsize < MIN_CHUNK_SIZE {
        UseWhole(v, rsize + nb);
      } else {
        var r := UseFront(v, nb, rsize);
        ghost var s1 := S();
        InsertChunk(r, rsize, {}, {r});
        KeptTwice(s0, s1, S());
        assert {r} - {r} == {};
      }
    }

    /** unlink_large_chunk, for the chunk that a search has found. */
    method TakeLarge(v: Addr)
      requires Valid() && v in trees.forest.own
      modifies trees
      ensures HeapOk(S(), {}, {v}) && Waiting(S(), {}, {v}, v) && Relinked(old(S()), S()) && Live(S()) == old(Live(S()))
      ensures v in tiles.ext && v != 0 && OwnersKept(old(S()), S(), {})
    {
      hide HeapOk, Live, Relinked, OwnersKept;
      ghost var s0 := S();
      TreeChunk(s0, {}, {}, v);
      UnlinkLarge(v, {}, {});
      assert {} + {v} == {v};
      Unlinked(s0, S(), {}, {}, v);
    }

    /** tmalloc_small: the least chunk of the trees, its remainder the new dv. */
    method TmallocSmall(nb: nat) returns (v: Addr)
      requires Valid() && MIN_CHUNK_SIZE <= nb && nb % 8 == 0 && IsSmall(nb) && trees.treemap != 0 && dvsize < nb
      modifies this, trees
      ensures Valid() && v != 0 && Granted(old(S()), S(), v, nb) && Fittest(old(S()), v, nb)
    {
      hide HeapOk, Live, Relinked, Waiting, BinsOk, OwnersKept;
      Parts(S(), {}, {});
      var rsize: nat;
      v, rsize := LeastChunk(trees.mem, trees.treebins, trees.treemap, nb, trees.forest);
      TreeChunk(S(), {}, {}, v);
      ghost var s0 := S();
      TakeLarge(v);
      ghost var s1 := S();
      GrantKeepRest(v, nb, rsize);
      KeptTwice(s0, s1, S());
    }

    /** tmalloc_large: the least chunk of the trees that fits, unless dv fits better. */
    method TmallocLarge(nb: nat) returns (v: Addr)
      requires Valid() && MIN_LARGE_SIZE <= nb < SIZE_T_LIMIT && nb % 8 == 0
      modifies this, trees
      ensures Valid() && (v != 0 ==> Granted(old(S()), S(), v, nb) && Fittest(old(S()), v, nb))
      ensures v != 0 && nb <= old(dvsize) ==> old(At(trees.mem, v).size) < old(dvsize)
      ensures v == 0 ==> S() == old(S()) && DvFits(S(), nb)
      ensures if v != 0 then Chosen(old(S()), v, nb) else Passed(old(S()), nb)
    {
      hide HeapOk, Live, Fittest, DvFits, Sub, Relinked, Waiting, BinsOk, OwnersKept, Chosen, Passed;
      Parts(S(), {}, {});
      var rsize: nat;
      v, rsize := BestFit(trees.mem, trees.treebins, trees.treemap, nb, trees.forest);
      BestChosen(S(), nb, v, rsize);
      LargeChosen(S(), nb, if v != 0 && rsize < Sub(dvsize, nb) then v else 0);
      if v != 0 && rsize < Sub(dvsize, nb) {
        ghost var s0 := S();
        TakeLarge(v);
        ghost var s1 := S();
        GrantBinRest(v, nb, rsize);
        KeptTwice(s0, s1, S());
      } else {
        v := 0;
      }
    }

    /** The part of dlmalloc for small requests before it turns to dv; null when it does. */
    method SmallRequest(nb: nat) returns (p: Addr)
      requires Valid() && MIN_CHUNK_SIZE <= nb && nb % 8 == 0 && IsSmall(nb)
      modifies this, trees
      ensures Valid() && (p != 0 ==> Granted(old(S()), S(), p, nb))
      ensures if p != 0 then Chosen(old(S()), p, nb) else S() == old(S()) && Passed(S(), nb)
    {
      hide HeapOk, Live, Bit, Shr, And, OwnersKept, Chosen, Passed, Granted, Fittest;
      Parts(S(), {}, {});
      var idx := SmallIndex(nb);
      var smallbits := Shr(smallmap, idx);
      LowBits(smallmap, idx);
      p := 0;
      if And(smallbits, 3) != 0 {
        p := ExactBin(nb, idx + (1 - smallbits % 2));
      } else if nb > dvsize {
        if smallbits != 0 {
          p := NextSmallBin(nb, idx, smallbits);
        } else if trees.treemap != 0 {
          ghost var s0 := S();
          p := TmallocSmall(nb);
          TreeChosen(s0, nb, p);
        } else {
          SmallPassed(S(), nb);
        }
      } else {
        SmallPassed(S(), nb);
      }
    }

    /** A chunk of the size of the request or the next serves it whole. */
    method ExactBin(nb: nat, idx: nat) returns (p: Addr)
      requires Valid() && MIN_CHUNK_SIZE <= nb && nb % 8 == 0 && IsSmall(nb) && Bit(smallmap, idx)
      requires idx == SmallIndex(nb) || (idx == SmallIndex(nb) + 1 && !Bit(smallmap, SmallIndex(nb)))
      modifies this, trees
      ensures Valid() && p != 0 && Granted(old(S()), S(), p, nb) && Chosen(old(S()), p, nb)
    {
      hide HeapOk, Live, Bit, OwnersKept, Chosen;
      ghost var s0 := S();
      InRange(S(), idx);
      p := PopSmall(idx);
      ghost var s1 := S();
      SmallChosen(s0, nb, idx, p);
      UseWhole(p, SmallIndex2Size(idx));
      KeptTwice(s0, s1, S());
    }

    /** The next nonempty small bin serves the request. */
    method NextSmallBin(nb: nat, idx: nat, smallbits: nat) returns (p: Addr)
      requires Valid() && MIN_CHUNK_SIZE <= nb && nb % 8 == 0 && IsSmall(nb) && idx == SmallIndex(nb)
        && smallbits == Shr(smallmap, idx) && smallbits != 0
      requires !Bit(smallmap, idx) && dvsize < nb
      modifies this, trees
      ensures Valid() && p != 0 && Granted(old(S()), S(), p, nb) && Chosen(old(S()), p, nb)
    {
      hide HeapOk, Live, Bit, Shr, OwnersKept, Chosen;
      Parts(S(), {}, {});
      ghost var s0 := S();
      ShiftedBack(smallmap, idx);
      var found, i := NextBin(smallbits * Pow2(idx), idx);
      SomeBin(S(), idx, found);
      p := PopSmall(i);
      ghost var s1 := S();
      SmallChosen(s0, nb, i, p);
      GrantKeepRest(p, nb, SmallIndex2Size(i) - nb);
      KeptTwice(s0, s1, S());
    }

    /** The dv serves the request; what is left of it, if that is a chunk, stays the dv. */
    method TakeDv(nb: nat) returns (p: Addr)
      requires Valid() && MIN_CHUNK_SIZE <= nb <= dvsize && nb % 8 == 0
      modifies this`dv, this`dvsize, this`tiles, trees`mem
      ensures Valid() && p != 0 && Granted(old(S()), S(), p, nb) && p == old(dv)
    {
      hide HeapOk, Live, OwnersKept;
      ghost var s0 := S();
      DvSizes(s0, {}, {});
      var rsize := dvsize - nb;
      p := dv;
      if rsize >= MIN_CHUNK_SIZE {
        DvCarveOk(s0, nb);
        var r := p + nb;
        dv := r;
        dvsize := rsize;
        trees.mem := SetFree(trees.mem, r, rsize);
        trees.mem := SetHead(trees.mem, p, nb, true);
        tiles := Split(tiles, p, nb);
        HeadsCommute(s0.mem, p, nb, rsize);
      } else {
        DvUseOk(s0);
        var dvs := dvsize;
        dvsize := 0;
        dv := 0;
        trees.mem := SetInuse(trees.mem, p, dvs);
      }
    }

    /** The front of the top serves the request. */
    method SplitTopChunk(nb: nat) returns (p: Addr)
      requires Valid() && MIN_CHUNK_SIZE <= nb < topsize && nb % 8 == 0
      modifies this`top, this`topsize, this`tiles, trees`mem
      ensures Valid() && p != 0 && Granted(old(S()), S(), p, nb) && p == old(top)
    {
      hide HeapOk, Live, OwnersKept;
      ghost var s0 := S();
      TopCarveOk(s0, nb);
      KeepsTopCarve(s0, nb);
      TopOk(s0, {});
      DvSizes(s0, {}, {});
      HeadOf(s0, {}, {}, s0.top);
      Cuts(s0, {}, {}, s0.top, nb);
      topsize := topsize - nb;
      var rsize := topsize;
      p := top;
      top := p + nb;
      trees.mem := SetHead(trees.mem, top, rsize, false);
      trees.mem := SetHead(trees.mem, p, nb, true);
      tiles := Split(tiles, p, nb);
    }

    /** dlmalloc; sys_alloc, the last resort, has nothing to give. */
    method Malloc(bytes: nat) returns (mem: Addr)
      requires Valid() && bytes < SIZE_T_LIMIT
      modifies this, trees
      ensures Valid() && (mem == 0 <==> NoneFits(old(S()), Needed(bytes)))
      ensures mem != 0 ==> mem > MEM_OFFSET && Granted(old(S()), S(), mem - MEM_OFFSET, Needed(bytes))
      ensures mem != 0 ==> Chosen(old(S()), mem - MEM_OFFSET, Needed(bytes))
      ensures mem == 0 ==> S() == old(S())
    {
      hide HeapOk, Live, NoneFits, DvFits, Fittest, OwnersKept, Chosen, Passed, Granted;
      NeededFacts(bytes);
      Bounds(S());
      var nb: nat;
      var p: Addr := 0;
      ghost var s0 := S();
      mem := 0;
      if bytes <= MAX_SMALL_REQUEST {
        nb := Needed(bytes);
        p := SmallRequest(nb);
      } else if bytes >= MAX_REQUEST {
        nb := SIZE_T_LIMIT - 1;
        TooBig(S(), Needed(bytes));
      } else {
        nb := Needed(bytes);
        if trees.treemap != 0 {
          p := TmallocLarge(nb);
        } else {
          LargeChosen(S(), nb, 0);
        }
      }
      if p == 0 {
        if bytes < MAX_REQUEST { AfterBins(s0, nb); }
        if nb <= dvsize {
          p := TakeDv(nb);
        } else if nb < topsize {
          p := SplitTopChunk(nb);
        }
      }
      if p != 0 {
        mem := p + MEM_OFFSET;
        SomethingFits(s0, S(), p, nb);
      }
    }

    // ------------------------------------------------------------- taking back

    /** Consolidate backward: the free chunk before x is taken out of its bin, unless it is the
        dv, and x becomes part of it. */
    method Backward(x: Addr) returns (p: Addr, psize: nat)
      requires Valid() && x in tiles.ext && x in trees.mem && trees.mem[x].cinuse && !trees.mem[x].pinuse
      modifies this`smallmap, this`smalls, this`tiles, trees
      ensures Freeing(S(), {p}, p) && tiles.ext[p] == psize && p + psize == x + old(tiles.ext[x]) && x !in tiles.ext
      ensures Live(S()) - {p} == old(Live(S())) - {x} && At(trees.mem, p + psize).pinuse
      ensures OwnersKept(old(S()), S(), {x}) && !InUse(old(S()), p) && p == FreeStart(old(S()), x)
    {
      hide HeapOk, Live, Freeing, Binnable, OwnersKept;
      ghost var s0 := S();
      BackwardReady(s0, x);
      var prevsize := trees.mem[x].prevFoot;
      p := x - prevsize;
      psize := trees.mem[x].size + prevsize;
      if p != dv {
        UnlinkChunk(p, prevsize, {}, {});
        assert {} + {p} == {p};
      } else {
        KeptSame(s0, S());
      }
      BackwardDone(s0, S(), x, p);
      tiles := Merge(tiles, p);
    }

    /** The new free chunk joins the top. */
    method JoinTop(p: Addr, psize: nat)
      requires Freeing(S(), {p}, p) && psize == tiles.ext[p] && p + psize == top
      modifies this`top, this`topsize, this`dv, this`dvsize, this`tiles, trees`mem
      ensures Valid() && Live(S()) == old(Live(S())) - {p} && OwnersKept(old(S()), S(), {p})
      ensures top == p && dv == if p == old(dv) then 0 else old(dv)
    {
      hide HeapOk, Live, OwnersKept;
      ghost var s0 := S();
      FreeingFacts(s0, {p}, p);
      ReleaseTop(s0, {p}, p);
      assert {p} - {s0.top} - {p} == {};
      topsize := topsize + psize;
      var tsize := topsize;
      top := p;
      trees.mem := SetHead(trees.mem, p, tsize, false);
      if p == dv {
        dv := 0;
        dvsize := 0;
      }
      tiles := Merge(tiles, p);
      KeepsJoinTop(s0, {p}, p, tsize, S());
    }

    /** The new free chunk and the dv behind it become the dv. */
    method JoinDv(p: Addr, psize: nat)
      requires Freeing(S(), {p}, p) && psize == tiles.ext[p] && p + psize == dv && p != dv && dv != top
      modifies this`dv, this`dvsize, this`tiles, trees`mem
      ensures Valid() && Live(S()) == old(Live(S())) - {p} && OwnersKept(old(S()), S(), {p}) && dv == p
    {
      hide HeapOk, Live, Freeing, OwnersKept;
      ghost var s0 := S();
      FreeingFacts(s0, {p}, p);
      DvFree(s0, p);
      JoinDvOk(s0, p);
      dvsize := dvsize + psize;
      var dsize := dvsize;
      dv := p;
      trees.mem := SetFree(trees.mem, p, dsize);
      tiles := Merge(tiles, p);
      KeepsMerged(s0, {p}, p, S());
    }

    /** The new free chunk and the binned one behind it become one, in its bin or as the dv. */
    method JoinNext(p: Addr, psize: nat, next: Addr)
      requires Freeing(S(), {p}, p) && psize == tiles.ext[p] && p + psize == next && next != dv && next != top
      requires next in trees.mem && !trees.mem[next].cinuse
      modifies this, trees
      ensures Valid() && Live(S()) == old(Live(S())) - {p} && OwnersKept(old(S()), S(), {p})
      ensures dv == old(dv) && top == old(top)
    {
      hide HeapOk, Live, Freeing, Binnable, OwnersKept;
      FreeingFacts(S(), {p}, p);
      JoinNextReady(S(), p, next);
      var nsize := trees.mem[next].size;
      ghost var s0 := S();
      UnlinkChunk(next, nsize, {p}, {p});
      ghost var s1 := S();
      JoinNextOk(s0, s1, p, next);
      trees.mem := SetFree(trees.mem, p, psize + nsize);
      tiles := Merge(tiles, p);
      ghost var s2 := S();
      JoinNextKept(s0, s1, s2, p, next);
      if p == dv {
        dvsize := psize + nsize;
        Unneeded(S(), {}, {p}, p);
        KeptSame(s2, S());
      } else {
        BecomesWaiting(S(), {p}, p);
        InsertChunk(p, psize + nsize, {}, {p});
      }
      assert {p} - {p} == {} && {p} + {} == {p};
      KeptTrans(s0, s2, S(), {p}, {});
    }

    /** set_free_with_pinuse, where the chunk behind is in use. */
    method SetFreeWithPinuse(p: Addr, psize: nat, next: Addr)
      requires Freeing(S(), {p}, p) && psize == tiles.ext[p] && p + psize == next && next in trees.mem
        && trees.mem[next].cinuse
      requires p == dv ==> psize == dvsize
      modifies trees`mem
      ensures HeapOk(S(), {}, {p}) && Live(S()) == old(Live(S())) - {p} && p in tiles.ext && p in trees.mem
        && !trees.mem[p].cinuse && p != top
      ensures OwnersKept(old(S()), S(), {p})
    {
      hide HeapOk, Live, Freeing, OwnersKept;
      ghost var s0 := S();
      FreeingFacts(s0, {p}, p);
      ReleaseHere(s0, {p}, p);
      trees.mem := SetPinuse(trees.mem, next, false);
      trees.mem := SetFree(trees.mem, p, psize);
      KeepsHere(s0, {p}, p, S());
    }

    /** dlfree */
    method Free(mem: Addr)
      requires Valid() && (mem != 0 ==> mem >= MEM_OFFSET && mem - MEM_OFFSET in Live(S()))
      modifies this, trees
      ensures Valid() && Live(S()) == if mem == 0 then old(Live(S())) else old(Live(S())) - {mem - MEM_OFFSET}
      ensures OwnersKept(old(S()), S(), if mem == 0 then {} else {mem - MEM_OFFSET})
      ensures if mem == 0 then S() == old(S())
        else mem - MEM_OFFSET in old(tiles).ext && Retired(old(S()), S(), mem - MEM_OFFSET)
    {
      hide HeapOk, Freeing, Binnable, OwnersKept;
      ghost var s0 := S();
      if mem == 0 { KeptSame(s0, S()); return; }
      var x := mem - MEM_OFFSET;
      UsedChunk(S(), x);
      hide Live;
      var p, psize := x, trees.mem[x].size;
      var next := x + psize;
      ghost var s1 := S();
      if !trees.mem[x].pinuse {
        p, psize := Backward(x);
        s1 := S();
        NextOf(S(), {p}, p);
        NotSpecial(S(), p);
        if p == dv && trees.mem[next].pinuse && trees.mem[next].cinuse {
          DvSizeFree(S(), p, psize);
          dvsize := psize;
          KeptSame(s1, S());
          ghost var s2 := S();
          SetFreeWithPinuse(p, psize, next);
          Unneeded(S(), {}, {p}, p);
          assert {p} - {p} == {} && {} + {p} == {p};
          KeptTrans(s1, s2, S(), {}, {p});
          FreedKept(s0, s1, S(), x, p);
          return;
        }
      } else {
        FreeAlone(S(), x);
        NextOf(S(), {p}, p);
        KeptSame(s0, s1);
        KeptMore(s0, s1, {}, {x});
      }
      Forward(p, psize, next);
      FreedKept(s0, s1, S(), x, p);
    }

    /** Consolidate forward, and file the result. */
    method Forward(p: Addr, psize: nat, next: Addr)
      requires Freeing(S(), {p}, p) && psize == tiles.ext[p] && p + psize == next && next in trees.mem
        && (p == dv ==> !trees.mem[next].cinuse)
      modifies this, trees
      ensures Valid() && Live(S()) == old(Live(S())) - {p} && OwnersKept(old(S()), S(), {p})
      ensures Filed(old(S()), S(), p, next)
    {
      hide HeapOk, Freeing, Binnable, Live, OwnersKept;
      ghost var s0 := S();
      NotSpecial(s0, p);
      if !trees.mem[next].cinuse {
        if next == top {
          JoinTop(p, psize);
        } else if next == dv {
          NextNotSelf(S(), p);
          JoinDv(p, psize);
        } else {
          JoinNext(p, psize, next);
        }
      } else {
        SetFreeWithPinuse(p, psize, next);
        ghost var s1 := S();
        BecomesWaiting(S(), {p}, p);
        InsertChunk(p, psize, {}, {p});
        assert {p} - {p} == {} && {p} + {} == {p};
        KeptTrans(s0, s1, S(), {p}, {});
      }
    }
  }

  lemma UsedChunk(s: State, x: Addr)
    requires HeapOk(s, {}, {}) && x in Live(s)
    ensures x in s.t.ext && x in s.mem && s.mem[x].cinuse && s.mem[x].size == s.t.ext[x]
  {
    hide HeapOk;
    SplitTop0(s, {}, {}, x);
  }

  lemma BackwardReady(s: State, x: Addr)
    requires HeapOk(s, {}, {}) && x in s.t.ext && x in s.mem && s.mem[x].cinuse && !s.mem[x].pinuse
    ensures s.mem[x].size == s.t.ext[x] && x in s.t.pred && s.t.pred[x] in s.t.ext
    ensures var p := s.t.pred[x];
      && s.mem[x].prevFoot == s.t.ext[p] && p + s.t.ext[p] == x && (p != s.dv ==> Binnable(s, {}, p))
      && p != s.top && p in s.mem && !s.mem[p].cinuse && p != x
    ensures At(s.mem, s.t.End(x)).pinuse && s.t.End(x) != s.t.pred[x]
  {
    hide HeapOk;
    UsedNeighbours(s, {}, {}, x);
    UsedNext(s, x);
  }

  /** The chunk behind one in use knows. */
  lemma UsedNext(s: State, x: Addr)
    requires HeapOk(s, {}, {}) && x in s.t.ext && At(s.mem, x).cinuse
    ensures At(s.mem, s.t.End(x)).pinuse && s.t.End(x) in s.t.ext && s.t.End(x) > x
  {
    UsedNeighbours(s, {}, {}, x);
    HeadOf(s, {}, {}, x);
    hide ShapeOk, SmallOk, BinsOk, BinnedOk, SpecialOk;
    assert EdgeAt(s, s.t.End(x));
  }

  lemma BackwardDone(s0: State, s: State, x: Addr, p: Addr)
    requires HeapOk(s0, {}, {}) && x in s0.t.ext && x in s0.mem && s0.mem[x].cinuse && !s0.mem[x].pinuse
      && x in s0.t.pred && p == s0.t.pred[x]
    requires if p == s0.dv then s == s0 else HeapOk(s, {}, {p}) && Relinked(s0, s) && Live(s) == Live(s0)
    ensures p in s.t.ext && s.t.End(p) == x
    ensures Freeing(MergeState(s, p), {p}, p) && MergeState(s, p).t.ext[p] == s.t.ext[p] + s.t.ext[x]
    ensures Live(MergeState(s, p)) - {p} == Live(s0) - {x} && x !in Merge(s.t, p).ext && MergeState(s, p).top == s.top
    ensures At(s.mem, x + s0.t.ext[x]).pinuse
    ensures !InUse(s0, p) && forall s': State :: s'.t == Merge(s.t, p) && s'.mem == s.mem && OwnersKept(s0, s, {}) ==>
      OwnersKept(s0, s', {x})
  {
    hide HeapOk, Live, Freeing, OwnersKept;
    BackwardReady(s0, x);
    UsedNext(s0, x);
    MemHas(s0, {}, {}, s0.t.End(x));
    if p == s0.dv {
      Spare(s0, {}, {}, p);
      assert {} + {p} == {p};
    }
    UsedNeighbours(s0, {}, {}, x);
    FreeBackward(s, x);
    Spot(s, {}, {p}, p);
    forall s': State | s'.t == Merge(s.t, p) && s'.mem == s.mem && OwnersKept(s0, s, {}) ensures OwnersKept(s0, s', {x})
    {
      KeepsBackward(s0, s, x, p, s');
    }
  }

  lemma DvSizeFree(s: State, p: Addr, z: nat)
    requires Freeing(s, {p}, p) && p == s.dv && z > 0
    ensures Freeing(s.(dvsize := z), {p}, p) && Live(s.(dvsize := z)) == Live(s)
  {
    hide HeapOk, Live;
    HeadOf(s, {p}, {p}, p);
    SetDv(s, {p}, {p}, p, z);
    assert s.(dv := p, dvsize := z) == s.(dvsize := z);
    LiveOf(s, s.(dvsize := z));
  }

  lemma FreeingFacts(s: State, off: set<Addr>, p: Addr)
    requires Freeing(s, off, p)
    ensures p in s.t.ext && s.t.HasNext(p) && s.t.End(p) in s.t.ext && s.t.End(p) != p && p != s.top && p in s.mem
      && s.t.ext[p] > 0
  {
    hide HeadsOk, SmallOk, BinsOk, BinnedOk, SpecialOk, ShapeOk;
    SplitTop(s, p);
    HeadOf(s, {p}, off, p);
  }

  /** A chunk in use behind a free one is neither top nor dv. */
  lemma NotSpecial(s: State, p: Addr)
    requires Freeing(s, {p}, p)
    ensures s.dv != 0 ==> s.dv != s.top
    ensures p in s.t.ext && p != 0 && s.top != p && var n := s.t.End(p);
      (At(s.mem, n).cinuse ==> n != s.top && (s.dv != 0 ==> n != s.dv)) && n != p && n != 0
  {
    hide HeadsOk, SmallOk, BinsOk, BinnedOk, ShapeOk;
    FreeingFacts(s, {p}, p);
    SplitTop(s, p);
  }

  lemma NextOf(s: State, off: set<Addr>, p: Addr)
    requires Freeing(s, off, p)
    ensures p in s.t.ext && s.t.End(p) in s.t.ext && s.t.End(p) in s.mem && s.t.ext[p] > 0
  {
    hide HeapOk;
    FreeingFacts(s, off, p);
    MemHas(s, {p}, off, s.t.End(p));
  }

  /** The chunk freed is the one exception, whether or not it was merged into the one before. */
  lemma FreedKept(s0: State, s1: State, s2: State, x: Addr, p: Addr)
    requires OwnersKept(s0, s1, {x}) && OwnersKept(s1, s2, {p}) && (p == x || !InUse(s0, p))
    ensures OwnersKept(s0, s2, {x})
  {
    hide OwnersKept;
    KeptTrans(s0, s1, s2, {x}, {p});
    if p == x {
      assert {x} + {p} == {x};
    } else {
      KeptFree(s0, s2, {x} + {p}, p);
      assert {x} + {p} - {p} == {x};
    }
  }

  lemma JoinNextKept(s0: State, s1: State, s2: State, p: Addr, next: Addr)
    requires Freeing(s0, {p}, p) && p in s0.t.ext && s0.t.End(p) == next && next in s0.t.ext && next != s0.top
      && next in s0.mem && !s0.mem[next].cinuse
    requires HeapOk(s1, {p}, {p} + {next}) && Relinked(s0, s1) && OwnersKept(s0, s1, {})
    requires s2.t == Merge(s1.t, p) && s2.mem == SetFree(s1.mem, p, s1.t.ext[p] + s1.t.ext[next])
    ensures OwnersKept(s0, s2, {p})
  {
    hide HeapOk, OwnersKept, Based;
    Spot(s1, {p}, {p} + {next}, p);
    Spot(s1, {p}, {p} + {next}, next);
    FreeMergedKeeps(s1, p, s2);
    KeptTrans(s0, s1, s2, {}, {p});
    assert {} + {p} == {p};
  }

  lemma DvFree(s: State, p: Addr)
    requires Freeing(s, {p}, p) && s.dv != 0 && s.dv != p
    ensures s.dv in s.t.ext && !At(s.mem, s.dv).cinuse && s.t.ext[s.dv] == s.dvsize
  {
    DvSizes(s, {p}, {p});
  }

  lemma NextNotSelf(s: State, p: Addr)
    requires Freeing(s, {p}, p)
    ensures p in s.t.ext && s.t.End(p) != p
  {
    FreeingFacts(s, {p}, p);
  }

  lemma JoinDvOk(s: State, p: Addr)
    requires Freeing(s, {p}, p) && p in s.t.ext && s.t.End(p) == s.dv && p != s.dv && s.dv != s.top
    ensures s.dv in s.t.ext && s.dvsize == s.t.ext[s.dv]
    ensures var z := s.t.ext[p] + s.dvsize;
      var s' := s.(t := Merge(s.t, p), mem := SetFree(s.mem, p, z), dv := p, dvsize := z);
      HeapOk(s', {}, {}) && Live(s') == Live(s) - {p}
  {
    hide HeapOk, Live;
    FreeingFacts(s, {p}, p);
    DvSizes(s, {p}, {p});
    NoZeroIn(s, {p}, {p});
    var d, z := s.dv, s.t.ext[p] + s.dvsize;
    Spare(s, {p}, {p}, d);
    SetDv(s, {p}, {p} + {d}, p, z);
    var s1 := s.(dv := p, dvsize := z);
    LiveOf(s, s1);
    ReleaseMerged(s1, {p} + {d}, p);
    assert {p} + {d} - {d} == {p} && {p} - {p} == {};
    var s2 := ReleasedMerged(s1, p);
    Unneeded(s2, {}, {p}, p);
  }

  lemma JoinNextReady(s: State, p: Addr, next: Addr)
    requires Freeing(s, {p}, p) && p in s.t.ext && s.t.End(p) == next && next != s.dv && next != s.top && next in s.mem
      && !s.mem[next].cinuse
    ensures HeapOk(s, {p}, {p}) && Binnable(s, {p}, next) && s.mem[next].size == s.t.ext[next]
  {
    hide HeapOk;
    FreeingFacts(s, {p}, p);
    SplitTop0(s, {p}, {p}, next);
  }

  lemma JoinNextOk(s0: State, s: State, p: Addr, next: Addr)
    requires Freeing(s0, {p}, p) && p in s0.t.ext && s0.t.End(p) == next && next != s0.dv && next != s0.top
      && next in s0.mem && !s0.mem[next].cinuse
    requires HeapOk(s, {p}, {p} + {next}) && Relinked(s0, s) && Live(s) == Live(s0)
    ensures next in s.t.ext
    ensures var s' := ReleasedMerged(s, p);
      && HeapOk(s', {}, {p}) && Live(s') == Live(s0) - {p} && !At(s'.mem, p).cinuse && p in s'.t.ext
      && s'.t.ext[p] == s.t.ext[p] + s.t.ext[next] && p != s'.top
  {
    hide HeapOk, Live;
    FreeingFacts(s0, {p}, p);
    ReleaseMerged(s, {p} + {next}, p);
    assert {p} + {next} - {next} == {p};
  }

  lemma BecomesWaiting(s: State, off: set<Addr>, p: Addr)
    requires p in s.t.ext && p in off && !At(s.mem, p).cinuse && p != s.top && p != s.dv
    ensures Waiting(s, {}, off, p)
  {
  }



  /** No free chunk could serve nb bytes (the top must be larger than what is cut off it). */
  ghost predicate NoneFits(s: State, nb: nat) {
    forall a {:trigger a in s.t.ext} :: a in s.t.ext && !At(s.mem, a).cinuse ==>
      s.t.ext[a] < nb || (a == s.top && s.t.ext[a] <= nb)
  }

  lemma Bounds(s: State)
    requires HeapOk(s, {}, {})
    ensures s.dvsize < SIZE_T_LIMIT - HEAP_START && s.topsize < SIZE_T_LIMIT - HEAP_START
  {
    hide HeapOk;
    DvSizes(s, {}, {});
    TopOk(s, {});
    SplitTop0(s, {}, {}, s.top);
    if s.dv != 0 { SplitTop0(s, {}, {}, s.dv); }
  }

  /** Requests from MAX_REQUEST on exceed every chunk. */
  lemma TooBig(s: State, nb: nat)
    requires HeapOk(s, {}, {}) && nb > SIZE_T_LIMIT - 4 * MIN_CHUNK_SIZE
    ensures NoneFits(s, nb)
  {
    hide HeapOk;
    forall a | a in s.t.ext && !At(s.mem, a).cinuse ensures s.t.ext[a] < nb { SplitTop0(s, {}, {}, a); }
  }

  /** With the bins passed over the dv serves the request, or else the top, or else no free chunk
      is left that fits. */
  lemma AfterBins(s: State, nb: nat)
    requires HeapOk(s, {}, {}) && Passed(s, nb)
    ensures if nb <= s.dvsize then Chosen(s, s.dv, nb)
      else if nb < s.topsize then Chosen(s, s.top, nb)
      else NoneFits(s, nb)
  {
    hide HeapOk;
    if nb > s.dvsize && nb >= s.topsize { NothingLeft(s, nb); }
  }

  /** With the searches and both special chunks out, no free chunk is left that fits. */
  lemma NothingLeft(s: State, nb: nat)
    requires HeapOk(s, {}, {}) && nb > s.dvsize && nb >= s.topsize && !BinFits(s, nb)
    ensures NoneFits(s, nb)
  {
    hide HeapOk, BinFits;
    TopOk(s, {});
    DvSizes(s, {}, {});
    NoZeroIn(s, {}, {});
    forall a | a in s.t.ext && !At(s.mem, a).cinuse ensures s.t.ext[a] < nb || (a == s.top && s.t.ext[a] <= nb) {
      if a != s.top && a != s.dv && s.t.ext[a] >= nb { FitsBin(s, a, nb); }
    }
  }

  lemma FitsBin(s: State, a: Addr, nb: nat)
    requires Binnable(s, {}, a) && s.t.ext[a] >= nb
    ensures BinFits(s, nb)
  {
  }

  /** What is handed out was free, and large enough. */
  lemma SomethingFits(s: State, s': State, p: Addr, nb: nat)
    requires Granted(s, s', p, nb)
    ensures !NoneFits(s, nb)
  {
    hide OwnersKept;
  }

  /** What a search of the trees settles for a large request. */
  lemma LargeChosen(s: State, nb: nat, v: Addr)
    requires HeapOk(s, {}, {}) && !IsSmall(nb)
    requires v != 0 ==> Fittest(s, v, nb) && (nb <= s.dvsize ==> At(s.mem, v).size < s.dvsize)
    requires v == 0 ==> s.tmap == 0 || DvFits(s, nb)
    ensures if v != 0 then Chosen(s, v, nb) else Passed(s, nb)
  {
    hide HeapOk;
    forall d | Binnable(s, {}, d) && s.t.ext[d] >= nb
      ensures d in s.f.own && At(s.mem, d).size == s.t.ext[d] && s.tmap != 0
    {
      LargeBinned(s, d);
    }
    if v != 0 { TreeChunk(s, {}, {}, v); }
  }

  lemma LargeBinned(s: State, d: Addr)
    requires HeapOk(s, {}, {}) && Binnable(s, {}, d) && !IsSmall(s.t.ext[d])
    ensures d in s.f.own && At(s.mem, d).size == s.t.ext[d] && s.tmap != 0
  {
    hide HeapOk;
    var j := WhereBinned(s, {}, {}, d);
    TreeChunk(s, {}, {}, d);
    if s.tmap == 0 { NoTrees(s, d); }
  }

  /** A small chunk is in a marked bin. */
  lemma SmallBinned(s: State, d: Addr)
    requires HeapOk(s, {}, {}) && Binnable(s, {}, d) && IsSmall(s.t.ext[d])
    ensures Bit(s.smap, SmallIndex(s.t.ext[d])) && s.t.ext[d] == SmallIndex2Size(SmallIndex(s.t.ext[d]))
  {
    hide HeapOk, Bit;
    var j := WhereBinned(s, {}, {}, d);
    SplitTop0(s, {}, {}, d);
    BinMarked(s, SmallIndex(s.t.ext[d]));
  }

  /** The first marked bin from that of the request on has the best fit. */
  lemma SmallChosen(s: State, nb: nat, i: nat, p: Addr)
    requires HeapOk(s, {}, {}) && IsSmall(nb) && nb % 8 == 0 && SmallIndex(nb) <= i < NSMALLBINS
    requires Binnable(s, {}, p) && s.t.ext[p] == SmallIndex2Size(i) && FirstIn(s, i, p)
    requires forall j: nat :: SmallIndex(nb) <= j < i ==> !Bit(s.smap, j)
    requires i <= SmallIndex(nb) + 1 || s.dvsize < nb
    ensures Chosen(s, p, nb)
  {
    hide HeapOk, Bit;
    forall d | Binnable(s, {}, d) && s.t.ext[d] >= nb ensures s.t.ext[p] <= s.t.ext[d] {
      if IsSmall(s.t.ext[d]) { SmallBinned(s, d); }
    }
  }

  /** With no small bin marked the best fit is in the trees. */
  lemma TreeChosen(s: State, nb: nat, v: Addr)
    requires HeapOk(s, {}, {}) && IsSmall(nb) && s.dvsize < nb && Fittest(s, v, nb)
    requires forall j: nat :: SmallIndex(nb) <= j ==> !Bit(s.smap, j)
    ensures Chosen(s, v, nb)
  {
    hide HeapOk, Bit;
    TreeChunk(s, {}, {}, v);
    forall d | Binnable(s, {}, d) && s.t.ext[d] >= nb ensures s.t.ext[v] <= s.t.ext[d] {
      if IsSmall(s.t.ext[d]) { SmallBinned(s, d); }
      LargeBinned(s, d);
    }
  }

  lemma SmallPassed(s: State, nb: nat)
    requires HeapOk(s, {}, {}) && IsSmall(nb) && nb % 8 == 0
    requires !Bit(s.smap, SmallIndex(nb)) && !Bit(s.smap, SmallIndex(nb) + 1)
    requires nb <= s.dvsize || (s.tmap == 0 && forall j: nat :: SmallIndex(nb) <= j ==> !Bit(s.smap, j))
    ensures Passed(s, nb)
  {
    hide HeapOk, Bit;
    forall d | Binnable(s, {}, d) && s.t.ext[d] >= nb
      ensures nb <= s.dvsize && (s.t.ext[d] > nb + 8 || !IsSmall(s.t.ext[d]))
    {
      if IsSmall(s.t.ext[d]) { SmallBinned(s, d); } else { LargeBinned(s, d); }
    }
  }

  lemma BinMarked(s: State, i: nat)
    requires HeapOk(s, {}, {}) && i < |s.smalls| && s.smalls[i] != []
    ensures Bit(s.smap, i)
  {
    hide ShapeOk, HeadsOk, BinsOk, BinnedOk, SpecialOk, Bit, Cycle;
    assert SmallBinOk(s.mem, s.smap, s.smalls, i);
  }

  lemma NoTrees(s: State, a: Addr)
    requires HeapOk(s, {}, {}) && s.tmap == 0
    ensures a !in s.f.own
  {
    hide ShapeOk, HeadsOk, SmallOk, BinnedOk, SpecialOk, TreesOk, RingsOk;
    if a in s.f.own {
      MemberFacts(s.mem, s.f, a);
      ZeroMap(s.mem, s.tbins, s.f.path, s.f.own[a]);
    }
  }

  lemma ZeroMap(mem: Memory, bins: seq<Addr>, path: Paths, n: Addr)
    requires TreesOk(mem, bins, 0, path)
    ensures n !in path
  {
    if n in path {
      BelowRoot(mem, bins, path, n);
      ZeroBits(path[n].bin);
    }
  }

  /** The dv cut in two. */
  lemma DvCarveOk(s: State, n: nat)
    requires HeapOk(s, {}, {}) && s.dv != 0 && MIN_CHUNK_SIZE <= n && n % 8 == 0 && n + MIN_CHUNK_SIZE <= s.dvsize
    ensures s.dv in s.t.ext && n < s.t.ext[s.dv] && s.dv !in Live(s)
    ensures var s' := Carved(s, s.dv, n).(dv := s.dv + n, dvsize := s.dvsize - n);
      HeapOk(s', {}, {}) && Live(s') == Live(s)[s.dv := n] && s.dv in s'.t.ext && s'.t.ext[s.dv] == n
        && OwnersKept(s, s', {})
  {
    hide HeapOk, Live, OwnersKept;
    DvSizes(s, {}, {});
    var p, e, z := s.dv, s.dv + n, s.dvsize - n;
    Spare(s, {}, {}, p);
    assert {} + {p} == {p} && {p} - {p} + {e} == {e} && {e} - {e} == {};
    SetDv(s, {}, {p}, 0, 0);
    var s1 := s.(dv := 0, dvsize := 0);
    LiveOf(s, s1);
    CarveOk(s1, {p}, p, n);
    var s2 := Carved(s1, p, n);
    Cuts(s, {}, {}, p, n);
    WaitingHead(s2, {}, {e}, e);
    SetDv(s2, {}, {e}, e, z);
    var s3 := s2.(dv := e, dvsize := z);
    Unneeded(s3, {}, {e}, e);
    LiveOf(s2, s3);
    assert s3 == Carved(s, p, n).(dv := e, dvsize := z);
    KeepsCarve(s1, {}, {p}, p, n);
    KeptApart(s, s1, s2, s3, {});
  }

  lemma WaitingHead(s: State, loose: set<Addr>, off: set<Addr>, p: Addr)
    requires HeapOk(s, loose, off) && Waiting(s, loose, off, p)
    ensures p in s.mem && s.mem[p].size == s.t.ext[p]
  {
    WaitingFacts(s, loose, off, p);
  }

  /** The dv handed out whole. */
  lemma DvUseOk(s: State)
    requires HeapOk(s, {}, {}) && s.dv != 0
    ensures s.dv in s.t.ext && s.dv !in Live(s)
    ensures var s' := Used(s, s.dv).(dv := 0, dvsize := 0);
      HeapOk(s', {}, {}) && Live(s') == Live(s)[s.dv := s.t.ext[s.dv]] && OwnersKept(s, s', {})
  {
    hide HeapOk, Live, OwnersKept;
    DvSizes(s, {}, {});
    var p := s.dv;
    Spare(s, {}, {}, p);
    assert {} + {p} == {p} && {p} - {p} == {};
    SetDv(s, {}, {p}, 0, 0);
    var s1 := s.(dv := 0, dvsize := 0);
    LiveOf(s, s1);
    UseOk(s1, {p}, p);
    assert Used(s1, p) == Used(s, p).(dv := 0, dvsize := 0);
    KeepsUse(s1, {}, {p}, p);
    KeptApart(s, s1, Used(s1, p), Used(s1, p), {});
  }

  /** The two heads may be stored in either order. */
  lemma HeadsCommute(mem: Memory, p: Addr, nb: nat, rsize: nat)
    requires nb > 0
    ensures SetHead(SetFree(mem, p + nb, rsize), p, nb, true) == SetFree(SetHead(mem, p, nb, true), p + nb, rsize)
  {
  }

  /** What the trees hold is free, and of the size it says. */
  lemma TreeChunk(s: State, loose: set<Addr>, off: set<Addr>, v: Addr)
    requires HeapOk(s, loose, off) && v in s.f.own && v !in loose
    ensures v in s.t.ext && v in s.mem && s.t.ext[v] == s.mem[v].size && !At(s.mem, v).cinuse && v != s.top
      && v != s.dv && v !in off && v != 0
    ensures s.t.ext[v] % 8 == 0 && s.t.ext[v] < SIZE_T_LIMIT && !IsSmall(s.t.ext[v])
  {
    assert BinnedAt(s, off, v);
    SplitTop0(s, loose, off, v);
    hide ShapeOk, HeadsOk, SmallOk, BinsOk, SpecialOk;
  }

  /** The outcome of the search, and of the comparison with dv in wrapped arithmetic. */
  lemma BestChosen(s: State, nb: nat, v: Addr, rsize: nat)
    requires HeapOk(s, {}, {}) && MIN_LARGE_SIZE <= nb < SIZE_T_LIMIT
    requires v == 0 ==> rsize == SIZE_T_LIMIT - nb && forall c :: c in s.f.own ==> At(s.mem, c).size < nb
    requires v != 0 ==> v in s.f.own && At(s.mem, v).size == nb + rsize
    requires v != 0 ==> forall c :: c in s.f.own && At(s.mem, c).size >= nb ==> At(s.mem, v).size <= At(s.mem, c).size
    ensures v != 0 ==> v in s.t.ext && s.t.ext[v] == nb + rsize && Fittest(s, v, nb)
    ensures v == 0 || rsize >= Sub(s.dvsize, nb) ==> DvFits(s, nb)
    ensures v != 0 && rsize < Sub(s.dvsize, nb) && nb <= s.dvsize ==> At(s.mem, v).size < s.dvsize
  {
    hide HeapOk, Sub;
    DvSizes(s, {}, {});
    if v != 0 { TreeChunk(s, {}, {}, v); }
    Wrapped(s.dvsize, nb);
  }

  lemma Wrapped(z: nat, nb: nat)
    requires z < SIZE_T_LIMIT && 0 < nb < SIZE_T_LIMIT
    ensures Sub(z, nb) == if z >= nb then z - nb else SIZE_T_LIMIT + z - nb
  {
  }

  /** The chunk that was unlinked waits. */
  lemma Unlinked(s: State, s': State, loose: set<Addr>, off: set<Addr>, v: Addr)
    requires Relinked(s, s') && v in s.t.ext && v in s.mem && !At(s.mem, v).cinuse && v != s.top && v != s.dv
      && v !in loose
    ensures Waiting(s', loose, off + {v}, v)
  {
  }

  lemma InRange(s: State, i: nat)
    requires HeapOk(s, {}, {}) && Bit(s.smap, i)
    ensures i < NSMALLBINS
  {
    hide ShapeOk, HeadsOk, BinsOk, BinnedOk, SpecialOk, Bit;
  }

  /** There is a marked bin above idx when some bit is left and idx itself is clear. */
  lemma SomeBin(s: State, idx: nat, found: bool)
    requires s.smap < WORD && Shr(s.smap, idx) != 0 && !Bit(s.smap, idx)
    requires forall j: nat :: Bit(Shr(s.smap, idx) * Pow2(idx), j) <==> j >= idx && Bit(s.smap, j)
    requires !found ==> forall j: nat :: idx < j < 32 ==> !Bit(Shr(s.smap, idx) * Pow2(idx), j)
    ensures found
  {
    hide Bit;
    var k := Lowest(Shr(s.smap, idx));
    BitOfShr(s.smap, idx, k);
    Pow32();
    if idx + k >= 32 { NoHighBits(s.smap, 32, idx + k); }
    assert Bit(Shr(s.smap, idx) * Pow2(idx), idx + k);
  }

  /** The old dv in its small bin, the new one in place. */
  lemma DvReplaced(s: State, p: Addr, z: nat)
    requires HeapOk(s, {}, {p}) && Waiting(s, {}, {p}, p) && z == s.t.ext[p] && IsSmall(s.dvsize)
    ensures s.dv == 0 <==> s.dvsize == 0
    ensures s.dvsize != 0 ==> s.dv in s.mem && s.dv >= HEAP_START && !InSmalls(s.smalls, s.dv)
    ensures s.dvsize == 0 ==> var s' := s.(dv := p, dvsize := z);
      HeapOk(s', {}, {}) && Live(s') == Live(s) && OwnersKept(s, s', {})
    ensures |s.smalls| == NSMALLBINS
    ensures s.dvsize != 0 ==> var s' := SmallInserted(s, s.dv, s.dvsize).(dv := p, dvsize := z);
      HeapOk(s', {}, {}) && Live(s') == Live(s) && OwnersKept(s, s', {})
  {
    hide HeapOk, Live, OwnersKept;
    Parts(s, {}, {p});
    DvSizes(s, {}, {p});
    var d, off := s.dv, {p} + {s.dv};
    Spare(s, {}, {p}, d);
    SplitTop0(s, {}, off, p);
    SetDv(s, {}, off, p, z);
    var s1 := s.(dv := p, dvsize := z);
    LiveOf(s, s1);
    Unneeded(s1, {}, off, p);
    if d == 0 {
      Unneeded(s1, {}, off - {p}, 0) by { NoZeroIn(s, {}, {p}); }
      KeptSame(s, s1);
      assert off - {p} - {0} == {};
    } else {
      assert off - {p} == {d};
      NotBinned(s, {}, {p}, d);
      SmallInsertOk(s1, {}, {d}, d);
      assert {d} - {d} == {};
      assert SmallInserted(s1, d, s.dvsize) == SmallInserted(s, d, s.dvsize).(dv := p, dvsize := z);
      KeepsRelinked(s1, SmallInserted(s1, d, s.dvsize), {}, {d});
      KeptApart(s, s1, SmallInserted(s1, d, s.dvsize), SmallInserted(s1, d, s.dvsize), {});
    }
  }

  lemma NoZeroIn(s: State, loose: set<Addr>, off: set<Addr>)
    requires HeapOk(s, loose, off)
    ensures 0 !in s.t.ext
  {
    hide HeadsOk, SmallOk, BinsOk, BinnedOk, SpecialOk;
    NoZero(s);
  }

  lemma SplitTop0(s: State, loose: set<Addr>, off: set<Addr>, p: Addr)
    requires HeapOk(s, loose, off) && p in s.t.ext && p !in loose
    ensures p in s.mem && s.mem[p].size == s.t.ext[p] && p >= HEAP_START && s.t.ext[p] % 8 == 0
    ensures s.t.ext[p] > 0 && p + s.t.ext[p] < SIZE_T_LIMIT && (p != s.top ==> s.t.ext[p] >= MIN_CHUNK_SIZE)
  {
    SplitTop(s, p);
    HeadOf(s, loose, off, p);
    hide ShapeOk, SmallOk, BinsOk, BinnedOk, SpecialOk;
    assert HeadAt(s, p);
  }

  /** What dvsize says about dv. */
  lemma DvSizes(s: State, loose: set<Addr>, off: set<Addr>)
    requires HeapOk(s, loose, off) && s.dv !in loose
    ensures s.dv == 0 <==> s.dvsize == 0
    ensures s.dv != 0 ==>
      s.dv in s.t.ext && s.dv in s.mem && s.dv != s.top && !At(s.mem, s.dv).cinuse && s.t.ext[s.dv] == s.dvsize
    ensures s.dv != 0 ==> s.dv >= HEAP_START && s.dvsize >= MIN_CHUNK_SIZE && s.dvsize % 8 == 0
    ensures s.dvsize < SIZE_T_LIMIT
  {
    if s.dv in s.t.ext { SplitTop0(s, loose, off, s.dv); }
    hide ShapeOk, HeadsOk, SmallOk, BinsOk, BinnedOk;
  }

  /** The chunk in front of a marked bin. */
  lemma FirstOfBin(s: State, i: nat)
    requires HeapOk(s, {}, {}) && i < NSMALLBINS && Bit(s.smap, i)
    ensures |s.smalls| == NSMALLBINS && s.smalls[i] != [] && SmallBinAt(i) in s.mem
      && s.mem[SmallBinAt(i)].fd == s.smalls[i][0]
    ensures var p := s.smalls[i][0]; Binnable(s, {}, p) && s.t.ext[p] == SmallIndex2Size(i) && p >= HEAP_START
  {
    hide Bit, Cycle, ShapeOk, HeadsOk, BinsOk, SpecialOk;
    assert SmallBinOk(s.mem, s.smap, s.smalls, i);
    UnlinkSmallOk(s.mem, s.smap, s.smalls, i, 0);
    var p := s.smalls[i][0];
    assert p in s.smalls[i] && BinnedAt(s, {}, p);
    SplitTop(s, p);
  }

  ghost predicate OnlyTop(s: State, base: Addr, size: nat) {
    && base >= HEAP_START && base % 8 == 0 && size > 0 && size % 8 == 0 && base + size < SIZE_T_LIMIT
    && s.t == Tiles(map[base := size], map[], {base}, {base + size}) && s.top == base && s.topsize == size && s.dv == 0
    && s.dvsize == 0
    && base in s.mem && s.mem[base] == NO_CHUNK.(size := size, pinuse := true)
  }

  ghost predicate NoBins(s: State) {
    && s.tbins == NoRoots() && s.tmap == 0 && s.f == Forest(map[], map[], map[])
    && s.smalls == NoSmalls() && s.smap == 0 && forall j: nat {:trigger SmallBinAt(j)} :: j < NSMALLBINS ==>
      SmallBinAt(j) in s.mem
  }

  lemma EmptyHeap(s: State)
    requires OnlyTop(s, s.top, s.topsize) && NoBins(s)
    ensures HeapOk(s, {}, {}) && Live(s) == map[]
  {
    EmptyTop(s);
    EmptyBins(s);
    hide ShapeOk, HeadsOk, SmallOk, BinsOk, BinnedOk;
    assert SpecialOk(s, {}) && Live(s) == map[];
  }

  lemma EmptyTop(s: State)
    requires OnlyTop(s, s.top, s.topsize)
    ensures ShapeOk(s) && HeadsOk(s, {})
  {
    forall a | a in s.t.ext ensures Followed(s.t, a) && Preceded(s.t, a) && ShapeAt(s, a) && HeadAt(s, a)
      && EdgeAt(s, a) { }
    forall a, b | a in s.t.ext && b in s.t.ext ensures Apart(s.t, a, b) { }
  }

  lemma EmptyBins(s: State)
    requires OnlyTop(s, s.top, s.topsize) && NoBins(s)
    ensures SmallOk(s.mem, s.smap, s.smalls) && BinsOk(s.mem, s.tbins, s.tmap, s.f) && BinnedOk(s, {})
  {
    forall i: nat ensures !Bit(0, i) { ZeroBits(i); }
    forall i: nat | i < NSMALLBINS ensures SmallBinOk(s.mem, s.smap, s.smalls, i) { assert SmallBinAt(i) in s.mem; }
    forall a ensures BinnedAt(s, {}, a) { }
    EmptyTrees(s.mem);
  }

  lemma SmallsLength(mem: Memory, smap: nat, smalls: seq<seq<Addr>>)
    requires SmallOk(mem, smap, smalls)
    ensures |smalls| == NSMALLBINS
  {
  }

  lemma MarkedAlready(m: nat, i: nat)
    requires Bit(m, i)
    ensures MarkBit(m, i) == m
  {
  }

  lemma Parts(s: State, loose: set<Addr>, off: set<Addr>)
    requires HeapOk(s, loose, off)
    ensures SmallOk(s.mem, s.smap, s.smalls) && BinsOk(s.mem, s.tbins, s.tmap, s.f) && |s.smalls| == NSMALLBINS
      && s.smap < WORD
  {
    hide ShapeOk, HeadsOk, BinsOk, BinnedOk, SpecialOk, Bit;
    SmallMapBound(s);
  }

  /** The place of a chunk in its bin. */
  lemma WhereBinned(s: State, loose: set<Addr>, off: set<Addr>, p: Addr) returns (j: nat)
    requires HeapOk(s, loose, off) && Binnable(s, off, p)
    ensures IsSmall(s.t.ext[p]) ==>
      SmallIndex(s.t.ext[p]) < |s.smalls| && j < |s.smalls[SmallIndex(s.t.ext[p])]|
      && s.smalls[SmallIndex(s.t.ext[p])][j] == p
    ensures !IsSmall(s.t.ext[p]) ==> p in s.f.own
  {
    hide ShapeOk, HeadsOk, BinsOk, SpecialOk, SmallBinOk;
    assert BinnedAt(s, off, p);
    j := 0;
    if IsSmall(s.t.ext[p]) {
      assert p in s.smalls[SmallIndex(s.t.ext[p])];
      j :| j < |s.smalls[SmallIndex(s.t.ext[p])]| && s.smalls[SmallIndex(s.t.ext[p])][j] == p;
    }
  }

  lemma WaitingFacts(s: State, loose: set<Addr>, off: set<Addr>, p: Addr)
    requires HeapOk(s, loose, off) && Waiting(s, loose, off, p)
    ensures p in s.mem && s.mem[p].size == s.t.ext[p] && p >= HEAP_START && p !in s.f.own && !InSmalls(s.smalls, p)
    ensures !IsSmall(s.t.ext[p]) ==> MIN_LARGE_SIZE <= s.t.ext[p]
    ensures MIN_CHUNK_SIZE <= s.t.ext[p] < SIZE_T_LIMIT
  {
    NotBinned(s, loose, off, p);
    SplitTop(s, p);
    hide ShapeOk, SmallOk, BinsOk, BinnedOk, SpecialOk;
    assert HeadAt(s, p);
  }
}
