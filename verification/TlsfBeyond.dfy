/** TLSF: a pool that holds more than its limit, for all sizes with which that can be. */
module TlsfBeyond {
  import opened Bits
  import opened Tiling
  import opened FreeLists
  import opened FreeIndex
  import opened BoundaryTags
  import opened TlsfMap
  import opened TlsfAnswer
  import opened TlsfLimit
  import opened TlsfHeap
  import opened TlsfSteps
  import opened TlsfPool

  // ---------------------------------------------------------------- regions

  /** The blocks of a region stop where another region begins. */
  lemma {:induction false} RegionStops(h: Heap, g: Regions, a: Addr, r: Addr)
    requires Ready(h, g, Slack({}, {}, {})) && a in h.t.ext && r in g.len && a < r && a in g.home && g.home[a] != r
    ensures g.home[a] in g.len && g.home[a] + g.len[g.home[a]] <= r
    decreases r - a
  {
    hide HeapOk, HdrAt, Regioned, Tiled;
    ReadyTiled(h, g, Slack({}, {}, {}));
    RegionOf(h, g, a);
    RegionStarts(h, g, r);
    BlocksDisjoint(h.t, a, r);
    NextFacts(h.t, a);
    BlockFacts(h, g, Slack({}, {}, {}), a);
    if h.t.HasNext(a) {
      RegionOf(h, g, h.t.End(a));
      RegionStops(h, g, h.t.End(a), r);
    }
  }

  lemma RegionStarts(h: Heap, g: Regions, r: Addr)
    requires Ready(h, g, Slack({}, {}, {})) && r in g.len
    ensures r in h.t.ext && r in h.t.firsts && r in g.home && g.home[r] == r
  {
    hide HdrAt, HdrsOk, FlagsOk, ListedOk, IndexOk;
    assert InRegion(h, g, r);
  }

  /** Each block lies in the region that is its home, and in no other. */
  lemma HomeIs(h: Heap, g: Regions, a: Addr, r: Addr)
    requires Ready(h, g, Slack({}, {}, {})) && a in h.t.ext && r in g.len && r <= a < r + g.len[r]
    ensures a in g.home && g.home[a] == r
  {
    hide HeapOk, HdrAt, Regioned, Tiled;
    RegionOf(h, g, a);
    var q := g.home[a];
    RegionStarts(h, g, r);
    RegionStarts(h, g, q);
    if q != r {
      if q < r { RegionStops(h, g, q, r); } else { RegionStops(h, g, r, q); }
    }
  }

  /** Two blocks of one region and their headers fit into it. */
  lemma TwoInRegion(h: Heap, g: Regions, a: Addr, b: Addr)
    requires Ready(h, g, Slack({}, {}, {})) && a in h.t.ext && b in h.t.ext && a != b
    requires a in g.home && b in g.home && g.home[a] == g.home[b]
    ensures g.home[a] in g.len && At(h, a).size + At(h, b).size + 2 * BHDR_OVERHEAD <= g.len[g.home[a]]
  {
    hide HeapOk, HdrAt, Regioned, Tiled;
    ReadyTiled(h, g, Slack({}, {}, {}));
    RegionOf(h, g, a);
    RegionOf(h, g, b);
    BlocksDisjoint(h.t, a, b);
    BlockFacts(h, g, Slack({}, {}, {}), a);
    BlockFacts(h, g, Slack({}, {}, {}), b);
  }

  /** Memory apart from all regions can be given to the pool. */
  lemma FreshFrom(h: Heap, g: Regions, lo: Addr, len: nat)
    requires Ready(h, g, Slack({}, {}, {})) && forall r :: r in g.len ==> Separate(r, g.len[r], lo, len)
    requires len > 0
    ensures FreshRegion(h.t, lo, len)
  {
    hide HeapOk, HdrAt, Tiled;
    forall a | a in h.t.ext ensures a + h.t.ext[a] <= lo || lo + len <= a { assert InRegion(h, g, a); }
    forall e | e in h.t.ends ensures e <= lo || lo + len < e {
      var r :| r in g.len && r + g.len[r] == e;
      RegionLong(h, g, r);
    }
  }

  lemma RegionLong(h: Heap, g: Regions, r: Addr)
    requires Ready(h, g, Slack({}, {}, {})) && r in g.len
    ensures g.len[r] > 0
  {
    hide HeapOk, HdrAt, Regioned, Tiled;
    RegionStarts(h, g, r);
    RegionOf(h, g, r);
    BlockFacts(h, g, Slack({}, {}, {}), r);
  }

  // ------------------------------------------------------------------ sizes

  /** The largest size of a class's lower end that a block of z bytes can serve. */
  function Chunky(z: nat): (x: nat)
    requires 4064 <= z
  {
    LogOfRoom(z);
    Floor(z, Pow2(Log2(z) - MAX_LOG2_SLI))
  }

  lemma LogOfRoom(z: nat)
    requires 4064 <= z
    ensures Log2(z) >= 11 && Pow2(Log2(z) - MAX_LOG2_SLI) > 0
  {
    hide Log2, Pow2;
    Log2Is(z);
    Pow2At5();
    Pow2Adds(5, 5);
    Pow2Adds(1, 10);
    PowersSmall();
    if Log2(z) < 11 { Pow2Grows(Log2(z), 11); }
  }

  lemma ChunkyIs(z: nat)
    requires 4064 <= z < TOO_LARGE
    ensures var x := Chunky(z);
      && 128 <= x <= z < 2 * x && x % MEM_ALIGN == 0 && x <= LARGEST_REQUEST && MappingSearch(x).0 == x
      && Request(x) == x
  {
    hide Log2, Pow2, Floor, MappingSearch, Shr, Request;
    LogOfRoom(z);
    var k := Log2(z) - MAX_LOG2_SLI;
    Log2Is(z);
    Pow2Adds(MAX_LOG2_SLI, k);
    Pow2At5();
    NextPower(k);
    Pow2Adds(6, k - 6);
    PowersSmall();
    FloorFacts(z, Pow2(k));
    var x := Chunky(z);
    FloorLarge(z, x, Pow2(k));
    Log2Unique(x, k + 5);
    SearchIs(x);
    FloorOfMultiple(x, Pow2(k));
    SearchBelow(x);
    SixteenIn(x, Pow2(k - 6));
    Aligned(x);
  }

  lemma FloorLarge(z: nat, x: nat, p: nat)
    requires p > 0 && 32 * p <= z < 64 * p && x <= z < x + p && x % p == 0
    ensures 32 * p <= x && z < 2 * x
  {
    var q := x / p;
    assert x == q * p;
    OneTimesMore(q, p);
    if q < 32 { MulMono(q + 1, 32, p); }
    MulMono(32, q, p);
  }

  lemma SixteenIn(x: nat, q: nat)
    requires q > 0 && x % (64 * q) == 0
    ensures x % 16 == 0
  {
    var m := x / (64 * q);
    assert x == m * (64 * q);
    assert m * (64 * q) == 16 * (m * (4 * q));
  }

  lemma Aligned(x: nat)
    requires x % MEM_ALIGN == 0 && 128 <= x < SIZE_LIMIT
    ensures Request(x) == x
  {
  }

  // --------------------------------------------------------------- the run

  /** A chunk that takes more than half of its region: x0 bytes of the initial one, x of others. */
  function Least(r: Addr, first: Addr, x0: nat, x: nat): nat { if r == first then x0 else x }

  ghost predicate HasChunk(live: map<Addr, nat>, r: Addr, n: nat, least: nat) {
    exists u :: u in live && live[u] >= least && r <= u < r + n
  }

  /** Every region has one, and nothing else of any size is used. */
  ghost predicate Crowded(live: map<Addr, nat>, len: map<Addr, nat>, first: Addr, x0: nat, x: nat) {
    && (forall r: Addr :: r in len ==> len[r] < 2 * BHDR_OVERHEAD + 2 * Least(r, first, x0, x))
    && (forall r: Addr :: r in len ==> HasChunk(live, r, len[r], Least(r, first, x0, x)))
    && (forall u: Addr :: u in live && live[u] > 0 ==>
      live[u] >= x || (live[u] >= x0 && first in len && first <= u < first + len[first]))
  }

  /** Then there is no room for a block of that size. */
  lemma NoRoomLeft(h: Heap, g: Regions, first: Addr, x0: nat, x: nat)
    requires Ready(h, g, Slack({}, {}, {})) && Crowded(Live(h), g.len, first, x0, x) && x0 <= x
    ensures forall a :: a in h.t.ext && At(h, a).free ==> At(h, a).size < x
  {
    hide Ready, HdrAt, Live;
    forall a | a in h.t.ext && At(h, a).free ensures At(h, a).size < x {
      var r: Addr := HomeOfBlock(h, g, a);
      assert HasChunk(Live(h), r, g.len[r], Least(r, first, x0, x));
      var u: Addr :| u in Live(h) && Live(h)[u] >= Least(r, first, x0, x) && r <= u < r + g.len[r];
      LiveFacts(h, u);
      HomeIs(h, g, u, r);
      TwoInRegion(h, g, a, u);
    }
  }

  lemma HomeOfBlock(h: Heap, g: Regions, a: Addr) returns (r: Addr)
    requires Ready(h, g, Slack({}, {}, {})) && a in h.t.ext
    ensures a in g.home && r == g.home[a] && r in g.len && r <= a < r + g.len[r]
  {
    hide HeapOk, HdrAt, Regioned;
    RegionOf(h, g, a);
    BlockFacts(h, g, Slack({}, {}, {}), a);
    r := g.home[a];
  }

  /** A block as large as that is in a region without a chunk. */
  lemma ChunkIsNew(h: Heap, g: Regions, len: map<Addr, nat>, live: map<Addr, nat>, first: Addr, x0: nat, x: nat,
      b: Addr)
      returns (q: Addr)
    requires Ready(h, g, Slack({}, {}, {})) && Crowded(live, len, first, x0, x) && x0 <= x
    requires b in Live(h) && Live(h)[b] >= x && b !in live
    requires forall u: Addr :: u in live ==> u in Live(h) && Live(h)[u] == live[u]
    requires forall r: Addr :: r in len ==> r in g.len && g.len[r] == len[r]
    ensures q in g.len && q !in len && q <= b < q + g.len[q]
  {
    hide Ready, HdrAt, Live;
    LiveFacts(h, b);
    q := HomeOfBlock(h, g, b);
    if q in len {
      assert HasChunk(live, q, len[q], Least(q, first, x0, x));
      var u: Addr :| u in live && live[u] >= Least(q, first, x0, x) && q <= u < q + len[q];
      LiveFacts(h, u);
      HomeIs(h, g, u, q);
      TwoInRegion(h, g, b, u);
    }
  }

  /** Chunks of larger blocks are not smaller. */
  lemma ChunkyGrows(z0: nat, z: nat)
    requires 4064 <= z0 <= z
    ensures Chunky(z0) <= Chunky(z)
  {
    hide Log2, Pow2, Floor;
    LogOfRoom(z0);
    LogOfRoom(z);
    LogMonotone(z0, z);
    Log2Is(z0);
    Log2Is(z);
    var k0, k := Log2(z0) - MAX_LOG2_SLI, Log2(z) - MAX_LOG2_SLI;
    FloorFacts(z0, Pow2(k0));
    FloorFacts(z, Pow2(k));
    if k0 == k {
      FloorGrows(z0, z, Pow2(k));
    } else {
      Pow2Adds(MAX_LOG2_SLI, k);
      Pow2At5();
      Pow2Adds(1, Log2(z0));
      PowersSmall();
      if Log2(z0) + 1 < Log2(z) { Pow2Grows(Log2(z0) + 1, Log2(z)); }
      FloorAtLeast(z, 32, Pow2(k));
    }
  }

  lemma FloorGrows(z0: nat, z: nat, p: nat)
    requires p > 0 && z0 <= z
    ensures Floor(z0, p) <= Floor(z, p)
  {
    DivMonotone(z0, z, p);
    MulMono(z0 / p, z / p, p);
  }

  lemma FloorAtLeast(z: nat, q: nat, p: nat)
    requires p > 0 && q * p <= z
    ensures Floor(z, p) >= q * p
  {
    DivBounds(z, p);
    if z / p < q {
      MulMono(z / p + 1, q, p);
      OneTimesMore(z / p, p);
    } else {
      MulMono(q, z / p, p);
    }
  }

  /** Where there is no room, the pool grows once and serves the request. */
  lemma MustGrow(h: Heap, g: Regions, p: Limits, n: nat, x: nat)
    requires Ready(h, g, Slack({}, {}, {})) && x <= LARGEST_REQUEST && MappingSearch(x).0 == x && Request(x) == x
    requires forall a :: a in h.t.ext && At(h, a).free ==> At(h, a).size < x
    requires p.growSize % PAGE_SIZE == 0 && 0 < p.growSize <= TOO_LARGE && MayGrow(p, n, x)
    ensures AnswerTo(Filled(h.x.lists), Request(x), p, n, 1) == Served(1)
  {
    hide Ready, HdrAt, MappingSearch, Request, TryOnce, AnswerTo, MayGrow, Filled;
    FitsExactly(h, g, x);
    OneGrowth(Filled(h.x.lists), x, p, n, 1);
  }

  lemma MayGrowPlain(p: Limits, k: nat, x: nat)
    requires Plain(p) && p.growSize > 0 && k <= Growths(p) && x + 2 * BHDR_OVERHEAD <= p.growSize
    ensures MayGrow(p, k, x)
  {
    hide Growths;
    GrowthsFit(k, p);
  }

  /** The chunk of a new region. */
  lemma MoreCrowded(h: Heap, g: Regions, h': Heap, g': Regions, first: Addr, x0: nat, x: nat, q: Addr, n: nat, b: Addr)
    requires Ready(h, g, Slack({}, {}, {})) && Ready(h', g', Slack({}, {}, {}))
    requires Crowded(Live(h), g.len, first, x0, x) && x0 <= x && q != first && n < 2 * BHDR_OVERHEAD + 2 * x
    requires q !in g.len && g'.len == g.len[q := n] && LastOf(q, n) !in Live(h)
    requires var live := Live(h)[LastOf(q, n) := 0];
      b !in live && b in Live(h') && Live(h')[b] >= x && Live(h') == live[b := Live(h')[b]]
    ensures Crowded(Live(h'), g'.len, first, x0, x)
  {
    hide Ready, Live, LastOf;
    var live := Live(h)[LastOf(q, n) := 0];
    SentinelCrowded(Live(h), g.len, first, x0, x, LastOf(q, n));
    var r := ChunkIsNew(h', g', g.len, live, first, x0, x, b);
    ChunkAdded(live, g.len, Live(h'), g'.len, first, x0, x, q, b);
  }

  lemma SentinelCrowded(live: map<Addr, nat>, len: map<Addr, nat>, first: Addr, x0: nat, x: nat, last: Addr)
    requires Crowded(live, len, first, x0, x) && last !in live
    ensures Crowded(live[last := 0], len, first, x0, x)
  {
    forall r: Addr | r in len ensures HasChunk(live[last := 0], r, len[r], Least(r, first, x0, x)) {
      assert HasChunk(live, r, len[r], Least(r, first, x0, x));
      var u: Addr :| u in live && live[u] >= Least(r, first, x0, x) && r <= u < r + len[r];
      assert u in live[last := 0];
    }
  }

  lemma ChunkAdded(live: map<Addr, nat>, len: map<Addr, nat>, live': map<Addr, nat>, len': map<Addr, nat>, first: Addr,
      x0: nat, x: nat, q: Addr, b: Addr)
    requires Crowded(live, len, first, x0, x) && q != first && q !in len && q in len' && len' == len[q := len'[q]]
    requires len'[q] < 2 * BHDR_OVERHEAD + 2 * x
    requires b !in live && b in live' && live'[b] >= x && live' == live[b := live'[b]] && q <= b < q + len'[q]
    ensures Crowded(live', len', first, x0, x)
  {
    forall r: Addr | r in len' ensures HasChunk(live', r, len'[r], Least(r, first, x0, x)) {
      if r != q {
        assert HasChunk(live, r, len[r], Least(r, first, x0, x));
        var u: Addr :| u in live && live[u] >= Least(r, first, x0, x) && r <= u < r + len[r];
        assert u in live';
      }
    }
  }

  lemma OneRegion(len: map<Addr, nat>, live: map<Addr, nat>, s: seq<Addr>, n: nat)
    requires |s| == 1
    ensures WithRegions(len, s, n) == len[s[0] := n] && WithSentinels(live, s, n) == live[LastOf(s[0], n) := 0]
  {
    hide LastOf;
    assert s[..|s| - 1] == [];
  }

  /** Memory apart from the pool is not in it. */
  lemma Outside(h: Heap, g: Regions, q: Addr, n: nat)
    requires Ready(h, g, Slack({}, {}, {})) && n >= PAGE_SIZE && forall r: Addr :: r in g.len ==>
      Separate(r, g.len[r], q, n)
    ensures q !in g.len && LastOf(q, n) !in Live(h) && FreshRegion(h.t, q, n)
  {
    hide Ready, HdrAt, Live;
    FreshFrom(h, g, q, n);
    if q in g.len { RegionLong(h, g, q); }
    if LastOf(q, n) in Live(h) { LiveFacts(h, LastOf(q, n)); }
  }

  /** A crowded pool answers such a request with a new region. */
  lemma FillReady(h: Heap, g: Regions, first: Addr, p: Limits, k: nat, q: Addr, x0: nat, x: nat)
    requires Ready(h, g, Slack({}, {}, {})) && Crowded(Live(h), g.len, first, x0, x) && x0 <= x
    requires Plain(p) && PAGE_SIZE <= p.growSize <= TOO_LARGE && p.growSize % PAGE_SIZE == 0 && k <= Growths(p)
    requires x == Chunky(p.growSize - 2 * BHDR_OVERHEAD)
    requires q > 0 && forall r: Addr :: r in g.len ==> Separate(r, g.len[r], q, p.growSize)
    ensures x < SIZE_LIMIT && Supplied(h.t, [q], p.growSize) && UsedLen(p.growSize) == p.growSize
    ensures AnswerTo(Filled(h.x.lists), Request(x), p, k, 1) == Served(1)
    ensures MappingSearch(Request(x)).0 == x && p.growSize < 2 * BHDR_OVERHEAD + 2 * x
    ensures q !in g.len && LastOf(q, p.growSize) !in Live(h)
  {
    hide Ready, HdrAt, Live, Crowded, MappingSearch, Request, AnswerTo, Filled, FreshRegion, MayGrow, Plain, Growths;
    var n := p.growSize;
    UsedWhole(n);
    ChunkyIs(n - 2 * BHDR_OVERHEAD);
    NoRoomLeft(h, g, first, x0, x);
    MayGrowPlain(p, k, x);
    MustGrow(h, g, p, k, x);
    Outside(h, g, q, n);
  }

  lemma FillDone(h: Heap, g: Regions, h': Heap, g': Regions, first: Addr, x0: nat, x: nat, q: Addr, n: nat, b: Addr)
    requires Ready(h, g, Slack({}, {}, {})) && Ready(h', g', Slack({}, {}, {}))
    requires Crowded(Live(h), g.len, first, x0, x) && x0 <= x && q != first && n < 2 * BHDR_OVERHEAD + 2 * x
    requires q !in g.len && LastOf(q, n) !in Live(h) && g'.len == WithRegions(g.len, [q], n)
    requires Granted(h, h', WithSentinels(Live(h), [q], n), b, x, Sentinels([q], n))
    ensures g'.len == g.len[q := n] && Crowded(Live(h'), g'.len, first, x0, x)
    ensures forall u: Addr :: u in Live(h) ==> u in Live(h') && Live(h')[u] == Live(h)[u]
  {
    hide Ready, Live, Crowded, WithRegions, WithSentinels, Sentinels, UsedKept, LastOf;
    OneRegion(g.len, Live(h), [q], n);
    MoreCrowded(h, g, h', g', first, x0, x, q, n, b);
  }

  /** A request that makes a crowded pool grow by the region at q, and fills it. */
  method FillOne(pool: Pool, q: Addr, ghost x0: nat, x: nat)
    requires pool.Valid() && Plain(pool.Sizes()) && PAGE_SIZE <= pool.growSize <= TOO_LARGE
    requires x == Chunky(pool.growSize - 2 * BHDR_OVERHEAD) && x0 <= x && pool.numRegions <= Growths(pool.Sizes())
    requires Crowded(Live(pool.H()), pool.regions.len, pool.first, x0, x)
    requires q > 0 && q != pool.first
    requires forall r: Addr :: r in pool.regions.len ==> Separate(r, pool.regions.len[r], q, pool.growSize)
    modifies pool
    ensures pool.Valid() && pool.first == old(pool.first) && q !in old(pool.regions.len)
    ensures pool.regions.len == old(pool.regions.len)[q := pool.growSize]
    ensures Crowded(Live(pool.H()), pool.regions.len, pool.first, x0, x)
    ensures forall u: Addr :: u in old(Live(pool.H())) ==>
      u in Live(pool.H()) && Live(pool.H())[u] == old(Live(pool.H()))[u]
  {
    hide Ready, HdrAt, Live, Crowded, MappingSearch, Request, AnswerTo, Filled, Total, Sized, WithRegions,
      WithSentinels,
      Granted, Supplied, Chunky, Growths, Plain, UsedLen, Sentinels, LastOf, Separate, Enlarged;
    ghost var h, g, n := pool.H(), pool.regions, pool.growSize;
    FillReady(h, g, pool.first, pool.Sizes(), pool.numRegions, q, x0, x);
    var ptr, fault, taken := pool.Malloc(x, [q]);
    assert [q][..taken] == [q];
    FillDone(h, g, pool.H(), pool.regions, pool.first, x0, x, q, n, ptr - BHDR_OVERHEAD);
  }

  lemma FirstReady(h: Heap, g: Regions, p: Limits, region: Addr, n: nat, x0: nat)
    requires Ready(h, g, Slack({}, {}, {})) && region in h.t.ext && PAGE_SIZE <= n <= TOO_LARGE
    requires At(h, region) == FirstHdr(n) && x0 == Chunky(n - 2 * BHDR_OVERHEAD)
    requires 0 < p.growSize <= TOO_LARGE && p.growSize % PAGE_SIZE == 0
    ensures x0 < SIZE_LIMIT && Supplied(h.t, [], p.growSize) && MappingSearch(Request(x0)).0 == x0 > 0
    ensures AnswerTo(Filled(h.x.lists), Request(x0), p, 1, 0) == Served(0)
    ensures n < 2 * BHDR_OVERHEAD + 2 * x0
  {
    hide Ready, HdrAt, MappingSearch, Request, AnswerTo, Filled, TryOnce, FreshRegion;
    ChunkyIs(n - 2 * BHDR_OVERHEAD);
    FitsExactly(h, g, x0);
    OneGrowth(Filled(h.x.lists), x0, p, 1, 0);
  }

  lemma FirstDone(h: Heap, h': Heap, g': Regions, region: Addr, n: nat, x0: nat, x: nat, b: Addr)
    requires Ready(h', g', Slack({}, {}, {})) && g'.len == map[region := n] && Live(h) == map[LastOf(region, n) := 0]
    requires Granted(h, h', WithSentinels(Live(h), [], n), b, x0, Sentinels([], n))
    requires n < 2 * BHDR_OVERHEAD + 2 * x0 && 0 < x0
    ensures Crowded(Live(h'), g'.len, region, x0, x)
    ensures b in Live(h') && Live(h')[b] >= x0 && region <= b < region + n
  {
    hide Ready, Live, UsedKept, LastOf;
    LiveFacts(h', b);
    var r: Addr := HomeOfBlock(h', g', b);
    assert HasChunk(Live(h'), region, n, x0);
  }

  /** The first request fills the initial region. */
  method FillFirst(pool: Pool, ghost region: Addr, x0: nat, ghost x: nat) returns (ptr: Addr)
    requires pool.Valid() && PAGE_SIZE <= pool.initSize <= TOO_LARGE && 0 < pool.growSize <= TOO_LARGE
    requires x0 == Chunky(pool.initSize - 2 * BHDR_OVERHEAD) && pool.numRegions == 1
    requires pool.regions.len == map[region := pool.initSize] && pool.first == region && region in pool.tiles.ext
    requires At(pool.H(), region) == FirstHdr(pool.initSize)
    requires Live(pool.H()) == map[LastOf(region, pool.initSize) := 0]
    modifies pool
    ensures pool.Valid() && pool.first == region && pool.regions.len == map[region := pool.initSize]
    ensures Crowded(Live(pool.H()), pool.regions.len, region, x0, x)
    ensures ptr >= BHDR_OVERHEAD && ptr - BHDR_OVERHEAD in Live(pool.H()) && Live(pool.H())[ptr - BHDR_OVERHEAD] >= x0
    ensures region <= ptr - BHDR_OVERHEAD < region + pool.initSize
  {
    hide Ready, HdrAt, Live, Crowded, MappingSearch, Request, AnswerTo, Filled, Total, Sized, Granted, Supplied, Chunky,
      UsedLen, Sentinels, LastOf, Enlarged;
    ghost var h, n := pool.H(), pool.initSize;
    FirstReady(h, pool.regions, pool.Sizes(), region, n, x0);
    var fault, taken;
    ptr, fault, taken := pool.Malloc(x0, []);
    ghost var none: seq<Addr> := [];
    assert none[..taken] == none;
    SentinelsAnyLen(Live(h), UsedLen(pool.growSize), n);
    FirstDone(h, pool.H(), pool.regions, region, n, x0, x, ptr - BHDR_OVERHEAD);
  }

  lemma SentinelsAnyLen(live: map<Addr, nat>, m: nat, n: nat)
    ensures WithSentinels(live, [], m) == WithSentinels(live, [], n) && Sentinels([], m) == Sentinels([], n)
  {
  }

  /** Only that block was used in the initial region. */
  lemma FirstAlone(h: Heap, g: Regions, first: Addr, x0: nat, x: nat, b: Addr, u: Addr)
    requires Ready(h, g, Slack({}, {}, {})) && Crowded(Live(h), g.len, first, x0, x) && 0 < x0 <= x && first in g.len
    requires b in Live(h) && Live(h)[b] >= x0 && first <= b < first + g.len[first]
    requires u in Live(h) && Live(h)[u] > 0 && u in g.home && g.home[u] == first
    ensures u == b
  {
    hide Ready, HdrAt, Live, HasChunk;
    LiveFacts(h, b);
    LiveFacts(h, u);
    HomeIs(h, g, b, first);
    if u != b { TwoInRegion(h, g, b, u); }
  }

  /** With it the region goes back. */
  lemma FirstReturned(h: Heap, g: Regions, h': Heap, g': Regions, first: Addr, x0: nat, x: nat, b: Addr)
    requires Ready(h, g, Slack({}, {}, {})) && Crowded(Live(h), g.len, first, x0, x) && 0 < x0 <= x && first in g.len
    requires b in Live(h) && Live(h)[b] >= x0 && first <= b < first + g.len[first] && 0 !in g.len
    requires Returned(h, g, h', g', b)
    ensures g'.len == g.len - {first} && Crowded(Live(h'), g'.len, 0, x0, x)
  {
    hide Ready, HdrAt, Live, HasChunk, UsedKept, LastOf;
    LiveFacts(h, b);
    HomeIs(h, g, b, first);
    if InUse(h', g, first) {
      var u: Addr :| u in Live(h') && Live(h')[u] > 0 && u in g.home && g.home[u] == first;
      FirstAlone(h, g, first, x0, x, b, u);
    }
    var last := LastOf(first, g.len[first]);
    LastIsEmpty(h, g, first);
    forall r: Addr | r in g'.len ensures HasChunk(Live(h'), r, g'.len[r], Least(r, 0, x0, x)) {
      OtherChunk(h, g, Live(h'), first, x0, x, b, last, r);
    }
    forall u: Addr | u in Live(h') && Live(h')[u] > 0 ensures Live(h')[u] >= x {
      if Live(h)[u] < x {
        LiveFacts(h, u);
        HomeIs(h, g, u, first);
        FirstAlone(h, g, first, x0, x, b, u);
      }
    }
  }

  lemma LastIsEmpty(h: Heap, g: Regions, r: Addr)
    requires Ready(h, g, Slack({}, {}, {})) && r in g.len
    ensures LastOf(r, g.len[r]) in Live(h) ==> Live(h)[LastOf(r, g.len[r])] == 0
  {
    hide HeapOk, HdrAt, Tiled, Live, Regioned;
    var last := LastOf(r, g.len[r]);
    if last in Live(h) {
      LiveFacts(h, last);
      ReadyTiled(h, g, Slack({}, {}, {}));
      RegionLong(h, g, r);
      HomeIs(h, g, last, r);
      RegionOf(h, g, last);
      BlockFacts(h, g, Slack({}, {}, {}), last);
    }
  }

  lemma OtherChunk(h: Heap, g: Regions, live': map<Addr, nat>, first: Addr, x0: nat, x: nat, b: Addr, last: Addr,
      r: Addr)
    requires Ready(h, g, Slack({}, {}, {})) && Crowded(Live(h), g.len, first, x0, x) && 0 < x0 <= x && first in g.len
    requires first <= b < first + g.len[first] && b in Live(h) && live' == Live(h) - {b} - {last}
    requires last in Live(h) ==> Live(h)[last] == 0
    requires r in g.len && r != first
    ensures HasChunk(live', r, g.len[r], x)
  {
    hide Ready, HdrAt, Live;
    assert HasChunk(Live(h), r, g.len[r], x);
    var u: Addr :| u in Live(h) && Live(h)[u] >= x && r <= u < r + g.len[r];
    LiveFacts(h, u);
    LiveFacts(h, b);
    HomeIs(h, g, u, r);
    HomeIs(h, g, b, first);
    assert u in live';
  }

  /** The system still has all the regions from the i-th on. */
  ghost predicate Clear(len: map<Addr, nat>, supply: seq<Addr>, i: nat, n: nat) {
    forall r: Addr, j: nat {:trigger r in len, supply[j]} ::
      r in len && i <= j < |supply| ==> Separate(r, len[r], supply[j], n)
  }

  ghost predicate Spread(supply: seq<Addr>, n: nat) {
    && (forall j :: 0 <= j < |supply| ==> supply[j] > 0)
    && (forall i, j :: 0 <= i < j < |supply| ==> Separate(supply[i], n, supply[j], n))
  }

  lemma ClearNext(len: map<Addr, nat>, len': map<Addr, nat>, supply: seq<Addr>, i: nat, n: nat)
    requires Clear(len, supply, i, n) && Spread(supply, n) && i < |supply| && len' == len[supply[i] := n]
    requires supply[i] !in len
    ensures Clear(len', supply, i + 1, n) && |len'| == |len| + 1
  {
    hide Separate;
    assert len'.Keys == len.Keys + {supply[i]};
  }

  method OneMore(pool: Pool, supply: seq<Addr>, i: nat, ghost x0: nat, x: nat)
    requires pool.Valid() && Plain(pool.Sizes()) && PAGE_SIZE <= pool.growSize <= TOO_LARGE
    requires x == Chunky(pool.growSize - 2 * BHDR_OVERHEAD) && x0 <= x && pool.numRegions <= Growths(pool.Sizes())
    requires Crowded(Live(pool.H()), pool.regions.len, pool.first, x0, x)
    requires i < |supply| && Spread(supply, pool.growSize) && Clear(pool.regions.len, supply, i, pool.growSize)
    modifies pool
    ensures pool.Valid() && pool.first == old(pool.first) && pool.numRegions == old(pool.numRegions) + 1
    ensures Crowded(Live(pool.H()), pool.regions.len, pool.first, x0, x)
    ensures Clear(pool.regions.len, supply, i + 1, pool.growSize)
    ensures forall r: Addr :: r in old(pool.regions.len) ==>
      r in pool.regions.len && pool.regions.len[r] == old(pool.regions.len)[r]
    ensures forall u: Addr :: u in old(Live(pool.H())) ==>
      u in Live(pool.H()) && Live(pool.H())[u] == old(Live(pool.H()))[u]
  {
    hide Ready, HdrAt, Live, Crowded, Total, Chunky, Growths, Plain;
    ghost var len := pool.regions.len;
    if supply[i] in len { RegionLong(pool.H(), pool.regions, supply[i]); }
    FillOne(pool, supply[i], x0, x);
    ClearNext(len, pool.regions.len, supply, i, pool.growSize);
  }

  /** How large the blocks are, and how many regions are filled. */
  method StartSizes(p: Limits) returns (x0: nat, x: nat, m: nat)
    requires Plain(p) && 0 < p.initSize <= TOO_LARGE && p.growSize <= TOO_LARGE && !Safe(p)
    requires p.initSize % PAGE_SIZE == 0 && p.growSize % PAGE_SIZE == 0
    ensures PAGE_SIZE <= p.initSize < p.growSize && m == Growths(p) && (m + 1) * p.growSize > p.maxSize
    ensures x0 == Chunky(p.initSize - 2 * BHDR_OVERHEAD) && x == Chunky(p.growSize - 2 * BHDR_OVERHEAD) && 0 < x0 <= x
  {
    hide Chunky, Growths;
    if p.growSize <= p.initSize { SmallGrowthSafe(p); }
    SafeIs(p);
    assert p.initSize >= PAGE_SIZE by { assert p.initSize == PAGE_SIZE * (p.initSize / PAGE_SIZE); }
    m := Growths(p);
    x0, x := Chunky(p.initSize - 2 * BHDR_OVERHEAD), Chunky(p.growSize - 2 * BHDR_OVERHEAD);
    ChunkyIs(p.initSize - 2 * BHDR_OVERHEAD);
    ChunkyGrows(p.initSize - 2 * BHDR_OVERHEAD, p.growSize - 2 * BHDR_OVERHEAD);
  }

  /** A pool with its initial region filled. */
  method OpenFilled(init: nat, max: nat, grow: nat, region: Addr)
      returns (pool: Pool, ptr: Addr, x0: nat, x: nat, m: nat)
    requires init <= max < SIZE_LIMIT && grow < SIZE_LIMIT && region > 0
    requires var p := Limits(RoundUpPage(init), RoundUpPage(max), RoundUpPage(grow));
      Plain(p) && 0 < p.initSize <= TOO_LARGE && p.growSize <= TOO_LARGE && !Safe(p)
    ensures fresh(pool) && pool.Valid() && pool.first == region && pool.numRegions == 1
    ensures pool.Sizes() == Limits(RoundUpPage(init), RoundUpPage(max), RoundUpPage(grow))
    ensures var p := pool.Sizes();
      && PAGE_SIZE <= p.initSize < p.growSize && m == Growths(p) && (m + 1) * p.growSize > p.maxSize
      && x == Chunky(p.growSize - 2 * BHDR_OVERHEAD) && 0 < x0 <= x
    ensures pool.regions.len == map[region := pool.initSize]
    ensures Crowded(Live(pool.H()), pool.regions.len, region, x0, x)
    ensures ptr >= BHDR_OVERHEAD && ptr - BHDR_OVERHEAD in Live(pool.H()) && Live(pool.H())[ptr - BHDR_OVERHEAD] >= x0
    ensures region <= ptr - BHDR_OVERHEAD < region + pool.initSize
  {
    hide Ready, HdrAt, Live, Crowded, Total, Sized, Chunky, Growths, Plain, LastOf, RoundUpPage, UsedLen, Safe;
    WholePages(init);
    WholePages(grow);
    UsedWhole(RoundUpPage(init));
    var made, fault := Pool.Create(init, max, grow, true, region);
    pool := made;
    x0, x, m := StartSizes(pool.Sizes());
    ptr := FillFirst(pool, region, x0, x);
  }

  /** Once the first block is freed the pool has room for one more region than it is made for. */
  method FreeFirst(pool: Pool, ptr: Addr, ghost region: Addr, ghost x0: nat, ghost x: nat)
    requires pool.Valid() && pool.first == region && region in pool.regions.len && 0 < x0 <= x
    requires Crowded(Live(pool.H()), pool.regions.len, region, x0, x)
    requires ptr >= BHDR_OVERHEAD && ptr - BHDR_OVERHEAD in Live(pool.H()) && Live(pool.H())[ptr - BHDR_OVERHEAD] >= x0
    requires region <= ptr - BHDR_OVERHEAD < region + pool.regions.len[region]
    modifies pool
    ensures pool.Valid() && pool.first == 0 && pool.regions.len == old(pool.regions.len) - {region}
    ensures pool.numRegions == old(pool.numRegions) - 1
    ensures Crowded(Live(pool.H()), pool.regions.len, 0, x0, x)
  {
    hide Ready, HdrAt, Live, Crowded, Total, Returned, Sized;
    ghost var h, g := pool.H(), pool.regions;
    SizedNotNull(g.len, region, pool.Sizes());
    pool.Free(ptr);
    FirstReturned(h, g, pool.H(), pool.regions, region, x0, x, ptr - BHDR_OVERHEAD);
    OneLess(g.len, pool.regions.len, region);
  }

  lemma OneLess(len: map<Addr, nat>, len': map<Addr, nat>, r: Addr)
    requires r in len && len' == len - {r}
    ensures |len'| == |len| - 1 && r !in len'
  {
    assert len.Keys == len'.Keys + {r};
  }

  lemma ClearLess(len: map<Addr, nat>, len': map<Addr, nat>, supply: seq<Addr>, i: nat, n: nat, r: Addr)
    requires Clear(len, supply, i, n) && len' == len - {r}
    ensures Clear(len', supply, i, n)
  {
    hide Separate;
  }

  lemma SizedNotNull(len: map<Addr, nat>, first: Addr, p: Limits)
    requires Sized(len, first, p)
    ensures 0 !in len
  {
  }

  /** Grows the pool by the first m regions. */
  method FillAll(pool: Pool, supply: seq<Addr>, m: nat, ghost region: Addr, ghost x0: nat, x: nat, ghost b: Addr)
    requires pool.Valid() && Plain(pool.Sizes()) && PAGE_SIZE <= pool.growSize <= TOO_LARGE
    requires x == Chunky(pool.growSize - 2 * BHDR_OVERHEAD) && 0 < x0 <= x && m == Growths(pool.Sizes())
    requires pool.first == region && pool.numRegions == 1 && pool.regions.len == map[region := pool.initSize]
    requires Crowded(Live(pool.H()), pool.regions.len, region, x0, x)
    requires b in Live(pool.H()) && Live(pool.H())[b] >= x0
    requires m < |supply| && Spread(supply, pool.growSize) && Clear(pool.regions.len, supply, 0, pool.growSize)
    modifies pool
    ensures pool.Valid() && pool.first == region && pool.numRegions == m + 1
    ensures Crowded(Live(pool.H()), pool.regions.len, region, x0, x)
    ensures b in Live(pool.H()) && Live(pool.H())[b] >= x0
    ensures region in pool.regions.len && pool.regions.len[region] == pool.initSize
    ensures Clear(pool.regions.len, supply, m, pool.growSize)
  {
    hide Ready, HdrAt, Live, Crowded, Total, Sized, Chunky, Growths, Plain, Clear, Spread;
    var i := 0;
    while i < m
      invariant i <= m && pool.Valid() && pool.first == region && pool.numRegions == i + 1
      invariant Crowded(Live(pool.H()), pool.regions.len, region, x0, x)
      invariant b in Live(pool.H()) && Live(pool.H())[b] >= x0
      invariant region in pool.regions.len && pool.regions.len[region] == pool.initSize
      invariant Clear(pool.regions.len, supply, i, pool.growSize)
    {
      OneMore(pool, supply, i, x0, x);
      i := i + 1;
    }
  }

  /** A run that takes a pool beyond its limit, for all sizes with which that can be: the initial
      region and as many more as the check allows are filled with one block each; the first block
      is freed, and its region goes back; then the pool grows once more. */
  method ExceedLimit(init: nat, max: nat, grow: nat, region: Addr, supply: seq<Addr>) returns (pool: Pool)
    requires init <= max < SIZE_LIMIT && grow < SIZE_LIMIT
    requires var p := Limits(RoundUpPage(init), RoundUpPage(max), RoundUpPage(grow));
      && Plain(p) && 0 < p.initSize <= TOO_LARGE && p.growSize <= TOO_LARGE && !Safe(p)
      && |supply| == Growths(p) + 1 && Spread(supply, p.growSize)
      && Clear(map[region := p.initSize], supply, 0, p.growSize)
    requires region > 0
    ensures fresh(pool) && pool.Valid()
    ensures pool.Sizes() == Limits(RoundUpPage(init), RoundUpPage(max), RoundUpPage(grow))
    ensures Held(pool.regions.len) > pool.maxSize
  {
    hide Ready, HdrAt, Live, Crowded, Total, Sized, Chunky, Growths, Plain, Clear, Spread, Held, RoundUpPage, Safe;
    var ptr, x0, x, m;
    pool, ptr, x0, x, m := OpenFilled(init, max, grow, region);
    FillAll(pool, supply, m, region, x0, x, ptr - BHDR_OVERHEAD);
    ghost var len := pool.regions.len;
    FreeFirst(pool, ptr, region, x0, x);
    ClearLess(len, pool.regions.len, supply, m, pool.growSize, region);
    OneMore(pool, supply, m, x0, x);
    Beyond(pool.regions.len, pool.Sizes(), m);
  }

  lemma Beyond(len: map<Addr, nat>, p: Limits, m: nat)
    requires Sized(len, 0, p) && p.initSize < WORD_LIMIT && p.growSize < WORD_LIMIT && |len| == m + 1
    requires (m + 1) * p.growSize > p.maxSize
    ensures Held(len) > p.maxSize
  {
    hide Sized, Held;
    HeldIs(len, 0, p);
  }
}
