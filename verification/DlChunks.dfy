/** The head and foot macros of dlmalloc, and what each use of them does to the heap. */
module DlChunks {
  import opened Tiling
  import opened DlTrie
  import opened DlBins
  import opened DlSmall
  import opened DlHeap
  import opened DlSteps

  // ----------------------------------------------------------------- macros

  function Head(c: Chunk, z: nat, inuse: bool): Chunk { c.(size := z, pinuse := true, cinuse := inuse) }

  /** set_size_and_pinuse_of_inuse_chunk, and the head of a new top */
  function SetHead(mem: Memory, p: Addr, z: nat, inuse: bool): Memory { mem[p := Head(At(mem, p), z, inuse)] }

  function SetPinuse(mem: Memory, n: Addr, v: bool): Memory { mem[n := At(mem, n).(pinuse := v)] }

  function SetFoot(mem: Memory, n: Addr, z: nat): Memory { mem[n := At(mem, n).(prevFoot := z)] }

  /** set_inuse_and_pinuse */
  function SetInuse(mem: Memory, p: Addr, z: nat): Memory { SetPinuse(SetHead(mem, p, z, true), p + z, true) }

  /** set_size_and_pinuse_of_free_chunk */
  function SetFree(mem: Memory, p: Addr, z: nat): Memory { SetFoot(SetHead(mem, p, z, false), p + z, z) }

  // ------------------------------------------------------------- neighbours

  /** The chunk before q, if any, is in use. */
  ghost predicate Based(s: State, q: Addr) {
    q in s.t.firsts || (q in s.t.pred && s.t.pred[q] in s.t.ext && s.t.pred[q] < q && At(s.mem, s.t.pred[q]).cinuse)
  }

  /** A free chunk other than the top lies between chunks in use. */
  lemma FreeNeighbours(s: State, loose: set<Addr>, off: set<Addr>, x: Addr)
    requires HeapOk(s, loose, off) && x in s.t.ext && x != s.top && !At(s.mem, x).cinuse
    requires !LooseEdge(s, loose, x) && x !in loose
    ensures Based(s, x) && s.t.HasNext(x) && x in s.mem && s.mem[x].size == s.t.ext[x]
    ensures s.t.End(x) !in loose ==>
      s.t.End(x) in s.mem && s.t.End(x) in s.t.ext && At(s.mem, s.t.End(x)).cinuse && s.t.End(x) != s.top
        && s.t.End(x) != x && !At(s.mem, s.t.End(x)).pinuse
  {
    hide Tiled, SmallOk, BinsOk, BinnedOk;
    assert HeadAt(s, x) && EdgeAt(s, x) && ShapeAt(s, x);
    NextFacts(s.t, x);
    if x !in s.t.firsts { PredFacts(s.t, x); }
    var n := s.t.End(x);
    assert n !in loose ==> EdgeAt(s, n);
  }

  /** Below the top and on top of a used chunk, the size and flags of x are right after all. */
  lemma SettleOk(s: State, loose: set<Addr>, off: set<Addr>, x: Addr)
    requires HeapOk(s, loose, off) && x in s.t.ext && x in s.mem && s.mem[x].size == s.t.ext[x] && s.mem[x].pinuse
    requires Based(s, x) || LooseEdge(s, loose - {x}, x)
    requires s.t.HasNext(x) ==> LooseEdge(s, loose - {x}, s.t.End(x)) || EdgeAt(s, s.t.End(x))
    requires x == s.top ==> !At(s.mem, x).cinuse && s.topsize == At(s.mem, x).size
    requires x == s.dv ==> !At(s.mem, x).cinuse && s.dvsize == At(s.mem, x).size
    ensures HeapOk(s, loose - {x}, off)
  {
    hide HeapOk;
    Settle(s, loose, off, x);
  }

  // -------------------------------------------------------------- whole chunk

  function Used(s: State, x: Addr): State
    requires x in s.t.ext
  {
    s.(mem := SetInuse(s.mem, x, s.t.ext[x]))
  }

  /** A waiting chunk is handed out whole. */
  lemma UseOk(s: State, off: set<Addr>, x: Addr)
    requires HeapOk(s, {}, off) && Waiting(s, {}, off, x)
    ensures x !in Live(s) && HeapOk(Used(s, x), {}, off - {x}) && Live(Used(s, x)) == Live(s)[x := s.t.ext[x]]
  {
    hide HeapOk, Tiled;
    FreeNeighbours(s, {}, off, x);
    var n, z := s.t.End(x), s.t.ext[x];
    Loosen(s, {}, off, x);
    var s1 := s.(mem := SetHead(s.mem, x, z, true));
    assert {} + {x} == {x} && off + {x} == off;
    StoreLoose(s, {x}, off, x, Head(At(s.mem, x), z, true));
    StoreNext(s1, {x}, off, x, n, true, s1.mem[n].prevFoot);
    var s2 := Used(s, x);
    assert s2.mem == s1.mem[n := s1.mem[n].(pinuse := true, prevFoot := s1.mem[n].prevFoot)];
    assert EdgeAt(s2, n) by { HeadOf(s, {}, off, x); }
    SettleOk(s2, {x}, off, x);
    assert {x} - {x} == {};
    Unneeded(s2, {}, off, x);
  }

  /** Where the tiling puts the neighbour. */
  lemma HeadOf(s: State, loose: set<Addr>, off: set<Addr>, x: Addr)
    requires HeapOk(s, loose, off) && x in s.t.ext
    ensures s.t.HasNext(x) ==>
      s.t.End(x) in s.t.ext && s.t.End(x) !in s.t.firsts && s.t.End(x) in s.t.pred && s.t.pred[s.t.End(x)] == x
    ensures s.t.ext[x] > 0 && x >= HEAP_START
  {
    hide HeadsOk, SmallOk, BinsOk, BinnedOk;
    NextFacts(s.t, x);
    assert ShapeAt(s, x);
  }

  lemma Specials(s: State, loose: set<Addr>, off: set<Addr>)
    requires HeapOk(s, loose, off)
    ensures s.top in s.t.ext && (s.dv != 0 ==> s.dv in s.t.ext && s.dv != s.top) && 0 !in s.t.ext
  {
    hide HeadsOk, SmallOk, BinsOk, BinnedOk, Tiled;
    NoZero(s);
  }

  // ------------------------------------------------------------------- carve

  /** Chunk x handed out with n bytes; the rest is a free chunk. */
  function Carved(s: State, x: Addr, n: nat): State
    requires x in s.t.ext && 0 < n < s.t.ext[x]
  {
    s.(t := Split(s.t, x, n), mem := SetFree(SetHead(s.mem, x, n, true), x + n, s.t.ext[x] - n))
  }

  lemma CarveOk(s: State, off: set<Addr>, x: Addr, n: nat)
    requires HeapOk(s, {}, off) && Waiting(s, {}, off, x) && MIN_CHUNK_SIZE <= n && n % 8 == 0
      && s.t.ext[x] >= n + MIN_CHUNK_SIZE
    ensures x !in Live(s) && HeapOk(Carved(s, x, n), {}, off - {x} + {x + n})
      && Waiting(Carved(s, x, n), {}, off - {x} + {x + n}, x + n)
    ensures Live(Carved(s, x, n)) == Live(s)[x := n] && Carved(s, x, n).t.ext[x + n] == s.t.ext[x] - n
  {
    hide HeapOk, Tiled, Split;
    FreeNeighbours(s, {}, off, x);
    HeadOf(s, {}, off, x);
    Loosen(s, {}, off, x);
    assert {} + {x} == {x} && off + {x} == off;
    Cuts(s, {x}, off, x, n);
    SplitOk(s, {x}, off, x, n, Head(At(s.mem, x + n), s.t.ext[x] - n, false));
    CarveHeads(s, off, x, n);
    CarveLive(s, off, x, n);
  }

  /** What cutting x does to the tiling, for the two pieces and the chunk behind them. */
  lemma Cuts(s: State, loose: set<Addr>, off: set<Addr>, x: Addr, n: nat)
    requires HeapOk(s, loose, off) && x in s.t.ext && 0 < n < s.t.ext[x]
    ensures x + n !in s.t.ext
    ensures var t := Split(s.t, x, n); var e := x + n;
      && x in t.ext && t.ext[x] == n && e in t.ext && t.ext[e] == s.t.ext[x] - n && t.HasNext(x) && t.End(x) == e
      && e !in t.firsts && e in t.pred && t.pred[e] == x && (t.HasNext(e) <==> s.t.HasNext(x))
      && t.End(e) == s.t.End(x) && t.firsts == s.t.firsts
      && (s.t.HasNext(x) ==>
        t.End(e) in t.ext && t.End(e) !in t.firsts && t.End(e) in t.pred && t.pred[t.End(e)] == e && t.End(e) > e)
      && (x !in s.t.firsts ==> x in s.t.pred && x in t.pred && t.pred[x] == s.t.pred[x] && s.t.pred[x] != e)
      && t.ext == s.t.ext[x := n][e := s.t.ext[x] - n]
  {
    hide HeadsOk, SmallOk, BinsOk, BinnedOk, Tiled, SpecialOk;
    SplitTiled(s.t, x, n);
    CutFacts(s.t, x, n);
    if s.t.HasNext(x) { NextFacts(Split(s.t, x, n), x + n); }
    if x !in s.t.firsts { PredFacts(s.t, x); }
  }

  lemma CarveHeads(s: State, off: set<Addr>, x: Addr, n: nat)
    requires HeapOk(s, {}, off) && Waiting(s, {}, off, x) && MIN_CHUNK_SIZE <= n && n % 8 == 0
      && s.t.ext[x] >= n + MIN_CHUNK_SIZE
    requires HeapOk(SplitState(s, x, n, Head(At(s.mem, x + n), s.t.ext[x] - n, false)), {x} + {x + n}, off + {x + n})
    ensures HeapOk(Carved(s, x, n), {}, off - {x} + {x + n})
  {
    hide HeapOk, Tiled, Split;
    var e, z, nx := x + n, s.t.ext[x] - n, s.t.End(x);
    FreeNeighbours(s, {}, off, x);
    Cuts(s, {}, off, x, n);
    Specials(s, {}, off);
    var s1 := SplitState(s, x, n, Head(At(s.mem, e), z, false));
    var s2 := s1.(mem := s1.mem[x := Head(At(s1.mem, x), n, true)]);
    var off', both := off + {e}, {x} + {e};
    StoreLoose(s1, both, off', x, Head(At(s1.mem, x), n, true));
    StoreNext(s2, both, off', e, nx, At(s2.mem, nx).pinuse, z);
    var s3 := s2.(mem := s2.mem[nx := s2.mem[nx].(pinuse := At(s2.mem, nx).pinuse, prevFoot := z)]);
    SettleOk(s3, both, off', x);
    assert both - {x} == {e};
    SettleOk(s3, {e}, off', e);
    assert {e} - {e} == {};
    Unneeded(s3, {}, off', x);
    assert s3 == Carved(s, x, n) && off' - {x} == off - {x} + {e};
  }

  lemma CarveLive(s: State, off: set<Addr>, x: Addr, n: nat)
    requires HeapOk(s, {}, off) && Waiting(s, {}, off, x) && 0 < n < s.t.ext[x]
    ensures Live(Carved(s, x, n)) == Live(s)[x := n] && Waiting(Carved(s, x, n), {}, off - {x} + {x + n}, x + n)
    ensures Carved(s, x, n).t.ext[x + n] == s.t.ext[x] - n && x !in Live(s)
  {
    hide HeapOk, Split, Live;
    Specials(s, {}, off);
    Cuts(s, {}, off, x, n);
    if s.t.HasNext(x) { assert s.t.End(x) != x + n; }
    CarveFlags(s, x, n);
    CutLive(s, Carved(s, x, n), x, n);
  }

  lemma CarveFlags(s: State, x: Addr, n: nat)
    requires x in s.t.ext && 0 < n < s.t.ext[x]
    ensures forall a {:trigger At(Carved(s, x, n).mem, a)} :: a != x && a != x + n ==>
      At(Carved(s, x, n).mem, a).cinuse == At(s.mem, a).cinuse
    ensures At(Carved(s, x, n).mem, x).cinuse && !At(Carved(s, x, n).mem, x + n).cinuse
  {
  }

  /** The chunks in use after one of them has been cut out of x. */
  lemma CutLive(s: State, s': State, x: Addr, n: nat)
    requires x in s.t.ext && 0 < n < s.t.ext[x] && s'.t.ext == s.t.ext[x := n][x + n := s.t.ext[x] - n]
      && x + n !in s.t.ext
    requires forall a {:trigger At(s'.mem, a)} :: a != x && a != x + n ==> At(s'.mem, a).cinuse == At(s.mem, a).cinuse
    requires !At(s.mem, x).cinuse && At(s'.mem, x).cinuse && !At(s'.mem, x + n).cinuse
    ensures x !in Live(s) && Live(s') == Live(s)[x := n]
  {
  }

  /** The front of the top is handed out. */
  function TopCarved(s: State, n: nat): State
    requires s.top in s.t.ext && 0 < n < s.t.ext[s.top]
  {
    var z := s.t.ext[s.top] - n;
    s.(t := Split(s.t, s.top, n), mem := SetHead(SetHead(s.mem, s.top + n, z, false), s.top, n, true),
      top := s.top + n, topsize := z)
  }

  lemma TopOk(s: State, off: set<Addr>)
    requires HeapOk(s, {}, off)
    ensures s.top in s.t.ext && s.t.ext[s.top] == s.topsize && !s.t.HasNext(s.top) && Based(s, s.top)
      && !At(s.mem, s.top).cinuse
  {
    hide SmallOk, BinsOk, BinnedOk, Tiled;
    assert ShapeAt(s, s.top) && HeadAt(s, s.top) && EdgeAt(s, s.top);
    if s.top !in s.t.firsts { PredFacts(s.t, s.top); }
  }

  lemma TopCarveOk(s: State, n: nat)
    requires HeapOk(s, {}, {}) && MIN_CHUNK_SIZE <= n < s.topsize && n % 8 == 0
    ensures s.top in s.t.ext && n < s.t.ext[s.top] && s.top !in Live(s)
    ensures HeapOk(TopCarved(s, n), {}, {}) && Live(TopCarved(s, n)) == Live(s)[s.top := n]
  {
    hide HeapOk, Tiled, Split, Live;
    TopOk(s, {});
    Specials(s, {}, {});
    HeadOf(s, {}, {}, s.top);
    Loosen(s, {}, {}, s.top);
    assert {} + {s.top} == {s.top};
    Cuts(s, {s.top}, {s.top}, s.top, n);
    SplitOk(s, {s.top}, {s.top}, s.top, n, Head(At(s.mem, s.top + n), s.t.ext[s.top] - n, false));
    TopCarveHeads(s, n);
    CutLive(s, TopCarved(s, n), s.top, n);
  }

  lemma TopSize(s: State, loose: set<Addr>, off: set<Addr>, z: nat)
    requires HeapOk(s, loose, off) && s.top in loose
    ensures HeapOk(s.(topsize := z), loose, off)
  {
    hide SmallOk, BinsOk;
    var s' := s.(topsize := z);
    ShapeSame(s, s');
    HeadsSame(s, s', loose);
    hide ShapeOk, HeadsOk;
    forall a ensures BinnedAt(s', off, a) { assert BinnedAt(s, off, a); }
  }

  lemma TopCarveHeads(s: State, n: nat)
    requires HeapOk(s, {}, {}) && MIN_CHUNK_SIZE <= n < s.topsize && n % 8 == 0 && s.top in s.t.ext
      && n < s.t.ext[s.top]
    requires HeapOk(SplitState(s, s.top, n, Head(At(s.mem, s.top + n), s.t.ext[s.top] - n, false)),
      {s.top} + {s.top + n}, {s.top} + {s.top + n})
    ensures HeapOk(TopCarved(s, n), {}, {})
  {
    hide HeapOk, Tiled, Split;
    var x, e, z := s.top, s.top + n, s.t.ext[s.top] - n;
    TopOk(s, {});
    Specials(s, {}, {});
    Cuts(s, {}, {}, x, n);
    var s1 := SplitState(s, x, n, Head(At(s.mem, e), z, false));
    var both := {x} + {e};
    TopSize(s1, both, both, z);
    var s2 := s1.(topsize := z);
    StoreLoose(s2, both, both, x, Head(At(s2.mem, x), n, true));
    var s3 := s2.(mem := s2.mem[x := Head(At(s2.mem, x), n, true)]);
    SettleOk(s3, both, both, x);
    assert both - {x} == {e};
    SettleOk(s3, {e}, both, e);
    assert {e} - {e} == {};
    Unneeded(s3, {}, both, x);
    Unneeded(s3, {}, both - {x}, e);
    assert s3 == TopCarved(s, n) && both - {x} - {e} == {};
  }

  // ----------------------------------------------------------------- release

  /** Chunk q is being freed: it is not in the bins, its head is out of date, and no chunk
      before it is free. */
  ghost predicate Freeing(s: State, off: set<Addr>, q: Addr) {
    HeapOk(s, {q}, off) && q in off && q in s.t.ext && q in s.mem && q != s.top && Based(s, q)
  }

  /** The chunk to free, with nothing free before it. */
  lemma FreeAlone(s: State, x: Addr)
    requires HeapOk(s, {}, {}) && x in s.t.ext && At(s.mem, x).cinuse && s.mem[x].pinuse
    ensures Freeing(s, {x}, x) && x != s.dv
  {
    hide HeapOk;
    Loosen(s, {}, {}, x);
    assert {} + {x} == {x};
    UsedNeighbours(s, {}, {}, x);
  }

  /** What a chunk in use tells about the one before and the one behind it. */
  lemma UsedNeighbours(s: State, loose: set<Addr>, off: set<Addr>, x: Addr)
    requires HeapOk(s, loose, off) && x in s.t.ext && At(s.mem, x).cinuse && x !in loose && !LooseEdge(s, loose, x)
    ensures x in s.mem && x != s.top && x != s.dv && s.t.HasNext(x) && s.mem[x].size == s.t.ext[x]
    ensures s.mem[x].pinuse ==> Based(s, x)
    ensures !s.mem[x].pinuse ==>
      x !in s.t.firsts && x in s.t.pred && var p := s.t.pred[x];
      && p in s.t.ext && p + s.t.ext[p] == x && p in s.mem && !s.mem[p].cinuse && s.mem[x].prevFoot == s.t.ext[p]
      && p != s.top && p != x && s.t.HasNext(p)
  {
    hide SmallOk, BinsOk, BinnedOk, Tiled;
    assert HeadAt(s, x) && EdgeAt(s, x) && ShapeAt(s, x);
    if x !in s.t.firsts { PredFacts(s.t, x); assert ShapeAt(s, s.t.pred[x]); }
  }

  /** The chunk to free, merged with the free one before it that is in no bin. */
  lemma FreeBackward(s: State, x: Addr)
    requires x in s.t.ext && At(s.mem, x).cinuse && x in s.mem && !s.mem[x].pinuse && x in s.t.pred
    requires HeapOk(s, {}, {s.t.pred[x]})
    ensures var p := s.t.pred[x];
      && p in s.t.ext && s.t.End(p) == x && s.mem[x].prevFoot == s.t.ext[p]
      && Freeing(MergeState(s, p), {p}, p) && MergeState(s, p).t.ext[p] == s.t.ext[p] + s.t.ext[x]
      && Live(MergeState(s, p)) - {p} == Live(s) - {x}
  {
    hide HeapOk, Tiled, Merge, Live;
    var p := s.t.pred[x];
    UsedNeighbours(s, {}, {p}, x);
    FreeNeighbours(s, {}, {p}, p);
    Loosen(s, {}, {p}, p);
    assert {} + {p} == {p} && {p} + {p} == {p};
    Loosen(s, {p}, {p}, x);
    MergeOk(s, {p} + {x}, {p} + {x}, p);
    assert {p} + {x} - {x} == {p};
    Joins(s, {}, {p}, p);
    MergeLive(s, p);
  }

  /** What merging x with y, the chunk behind it, does to the tiling. */
  lemma Joins(s: State, loose: set<Addr>, off: set<Addr>, x: Addr)
    requires HeapOk(s, loose, off) && x in s.t.ext && s.t.HasNext(x)
    ensures s.t.End(x) in s.t.ext && s.t.End(x) != x && Tiled(Merge(s.t, x))
    ensures var t := Merge(s.t, x); var y := s.t.End(x);
      && x in t.ext && t.ext[x] == s.t.ext[x] + s.t.ext[y] && t.End(x) == s.t.End(y)
      && (t.HasNext(x) <==> s.t.HasNext(y)) && t.firsts == s.t.firsts
      && (s.t.HasNext(y) ==>
        t.End(x) in t.ext && t.End(x) in s.t.ext && t.End(x) !in t.firsts && t.End(x) in t.pred
        && t.pred[t.End(x)] == x && t.End(x) > y && t.End(x) != x)
      && (x !in s.t.firsts && x in s.t.pred ==>
        x in t.pred && t.pred[x] == s.t.pred[x]
        && (s.t.pred[x] in s.t.ext && s.t.pred[x] != y ==> s.t.pred[x] in t.ext))
      && t.ext == (s.t.ext - {y})[x := s.t.ext[x] + s.t.ext[y]]
  {
    hide HeadsOk, SmallOk, BinsOk, BinnedOk, Tiled, SpecialOk;
    var y := s.t.End(x);
    NextFacts(s.t, x);
    MergeTiled(s.t, x);
    MergeFacts(s.t, x);
    if s.t.HasNext(y) { NextFacts(Merge(s.t, x), x); NextFacts(s.t, y); }
  }

  lemma MergeLive(s: State, x: Addr)
    requires x in s.t.ext && s.t.End(x) in s.t.ext && s.t.End(x) != x
    requires Merge(s.t, x).ext == (s.t.ext - {s.t.End(x)})[x := s.t.ext[x] + s.t.ext[s.t.End(x)]]
    ensures Live(MergeState(s, x)) - {x} == Live(s) - {x} - {s.t.End(x)}
    ensures !At(s.mem, x).cinuse ==> Live(MergeState(s, x)) - {x} == Live(s) - {s.t.End(x)}
    ensures !At(s.mem, s.t.End(x)).cinuse ==> Live(MergeState(s, x)) - {x} == Live(s) - {x}
  {
    hide Merge;
  }

  /** The chunk behind a free one is in use. */
  lemma BehindFree(s: State, loose: set<Addr>, off: set<Addr>, y: Addr)
    requires HeapOk(s, loose, off) && y in s.t.ext && y != s.top && !At(s.mem, y).cinuse && y !in loose
    ensures y in s.mem && s.mem[y].size == s.t.ext[y] && s.t.HasNext(y) && s.t.End(y) in s.t.ext && s.t.End(y) in s.mem
    ensures var n := s.t.End(y); n !in loose ==> At(s.mem, n).cinuse && n != s.top && !At(s.mem, n).pinuse && n != s.dv
  {
    hide SmallOk, BinsOk, BinnedOk, Tiled;
    assert HeadAt(s, y) && ShapeAt(s, y);
    NextFacts(s.t, y);
    assert s.t.End(y) !in loose ==> EdgeAt(s, s.t.End(y));
  }

  lemma ReleasedLive(s: State, s': State, q: Addr)
    requires s'.t.ext == s.t.ext && !At(s'.mem, q).cinuse
    requires forall a {:trigger At(s'.mem, a)} :: a != q ==> At(s'.mem, a).cinuse == At(s.mem, a).cinuse
    ensures Live(s') == Live(s) - {q}
  {
  }

  /** The freed chunk where the next one is in use: its foot, and the neighbour's flag. */
  function ReleasedHere(s: State, q: Addr): State
    requires q in s.t.ext
  {
    var z := s.t.ext[q];
    s.(mem := SetFree(SetPinuse(s.mem, s.t.End(q), false), q, z), dvsize := if q == s.dv then z else s.dvsize)
  }

  lemma ReleaseHere(s: State, off: set<Addr>, q: Addr)
    requires Freeing(s, off, q) && s.t.HasNext(q) && At(s.mem, s.t.End(q)).cinuse
    ensures HeapOk(ReleasedHere(s, q), {}, off) && Live(ReleasedHere(s, q)) == Live(s) - {q}
      && !At(ReleasedHere(s, q).mem, q).cinuse
  {
    hide HeapOk, Tiled, Live;
    var n, z := s.t.End(q), s.t.ext[q];
    HeadOf(s, {q}, off, q);
    Specials(s, {q}, off);
    MemHas(s, {q}, off, n);
    if q == s.dv { SetDv(s, {q}, off, q, z); }
    var s0 := s.(dvsize := if q == s.dv then z else s.dvsize);
    StoreNext(s0, {q}, off, q, n, false, z);
    var s1 := s0.(mem := s0.mem[n := s0.mem[n].(pinuse := false, prevFoot := z)]);
    StoreLoose(s1, {q}, off, q, Head(At(s1.mem, q), z, false));
    var s2 := s1.(mem := s1.mem[q := Head(At(s1.mem, q), z, false)]);
    UsedIsNotTop(s, {q}, off, n);
    assert EdgeAt(s2, n);
    SettleOk(s2, {q}, off, q);
    assert {q} - {q} == {} && s2 == ReleasedHere(s, q);
    ReleasedLive(s, s2, q);
  }

  lemma MemHas(s: State, loose: set<Addr>, off: set<Addr>, a: Addr)
    requires HeapOk(s, loose, off) && a in s.t.ext
    ensures a in s.mem
  {
    hide ShapeOk, SmallOk, BinsOk, BinnedOk;
  }

  lemma UsedIsNotTop(s: State, loose: set<Addr>, off: set<Addr>, n: Addr)
    requires HeapOk(s, loose, off) && n !in loose && n in s.t.ext && At(s.mem, n).cinuse
    ensures n != s.top && n != s.dv
  {
    hide HeadsOk, SmallOk, BinsOk, BinnedOk, Tiled, ShapeAt;
    NoZero(s);
  }

  /** The freed chunk merged with the free one behind it. */
  function ReleasedMerged(s: State, q: Addr): State
    requires q in s.t.ext && s.t.End(q) in s.t.ext
  {
    var z := s.t.ext[q] + s.t.ext[s.t.End(q)];
    s.(t := Merge(s.t, q), mem := SetFree(s.mem, q, z), dvsize := if q == s.dv then z else s.dvsize)
  }

  lemma ReleaseMerged(s: State, off: set<Addr>, q: Addr)
    requires Freeing(s, off, q) && s.t.HasNext(q) && s.t.End(q) in off && s.t.End(q) != s.top && s.t.End(q) != s.dv
      && !At(s.mem, s.t.End(q)).cinuse
    ensures s.t.End(q) in s.t.ext
    ensures var s' := ReleasedMerged(s, q);
      && HeapOk(s', {}, off - {s.t.End(q)}) && Live(s') == Live(s) - {q} && !At(s'.mem, q).cinuse && q in s'.t.ext
      && s'.t.ext[q] == s.t.ext[q] + s.t.ext[s.t.End(q)]
  {
    hide HeapOk, Tiled, Live, Merge;
    var y := s.t.End(q);
    HeadOf(s, {q}, off, q);
    Specials(s, {q}, off);
    Joins(s, {q}, off, q);
    BehindFree(s, {q}, off, y);
    MergeOk(s, {q}, off, q);
    MergeLive(s, q);
    var z, n, off' := s.t.ext[q] + s.t.ext[y], s.t.End(y), off - {y};
    assert {q} - {y} == {q};
    var s0 := MergeState(s, q);
    if q == s0.dv { SetDv(s0, {q}, off', q, z); }
    var s1 := s0.(dvsize := if q == s.dv then z else s.dvsize);
    StoreNext(s1, {q}, off', q, n, At(s1.mem, n).pinuse, z);
    var s2 := s1.(mem := s1.mem[n := s1.mem[n].(pinuse := At(s1.mem, n).pinuse, prevFoot := z)]);
    StoreLoose(s2, {q}, off', q, Head(At(s2.mem, q), z, false));
    var s3 := s2.(mem := s2.mem[q := Head(At(s2.mem, q), z, false)]);
    assert EdgeAt(s3, n);
    SettleOk(s3, {q}, off', q);
    assert {q} - {q} == {} && s3 == ReleasedMerged(s, q);
    ReleasedLive(s0, s3, q);
  }

  /** The freed chunk merged into the top. */
  function ReleasedTop(s: State, q: Addr): State
    requires q in s.t.ext && s.t.End(q) in s.t.ext
  {
    var z := s.t.ext[q] + s.topsize;
    s.(t := Merge(s.t, q), mem := SetHead(s.mem, q, z, false), top := q, topsize := z,
       dv := if q == s.dv then 0 else s.dv, dvsize := if q == s.dv then 0 else s.dvsize)
  }

  lemma ReleaseTop(s: State, off: set<Addr>, q: Addr)
    requires Freeing(s, off, q) && s.t.HasNext(q) && s.t.End(q) == s.top
    ensures s.t.End(q) in s.t.ext
    ensures var s' := ReleasedTop(s, q); HeapOk(s', {}, off - {s.top} - {q}) && Live(s') == Live(s) - {q}
  {
    hide HeapOk, Tiled, Live, Merge;
    HeadOf(s, {q}, off, q);
    Specials(s, {q}, off);
    Joins(s, {q}, off, q);
    TopHead(s, {q}, off);
    if q == s.dv { SetDv(s, {q}, off, 0, 0); }
    var s0 := s.(dv := if q == s.dv then 0 else s.dv, dvsize := if q == s.dv then 0 else s.dvsize);
    MergeOk(s0, {q}, off, q);
    MergeLive(s, q);
    var z, off' := s.t.ext[q] + s.topsize, off - {s.top};
    assert {q} - {s.top} == {q};
    var s1 := MergeState(s0, q);
    TopSize(s1, {q}, off', z);
    var s2 := s1.(topsize := z);
    StoreLoose(s2, {q}, off', q, Head(At(s2.mem, q), z, false));
    var s3 := s2.(mem := SetHead(s2.mem, q, z, false));
    SettleOk(s3, {q}, off', q);
    assert {q} - {q} == {} && s3 == ReleasedTop(s, q);
    Unneeded(s3, {}, off', q);
    LiveOf(MergeState(s, q), s1);
    ReleasedLive(s1, s3, q);
  }

  lemma LiveOf(s: State, s': State)
    requires s'.t == s.t && s'.mem == s.mem
    ensures Live(s') == Live(s)
  {
  }

  lemma TopHead(s: State, loose: set<Addr>, off: set<Addr>)
    requires HeapOk(s, loose, off) && s.top !in loose
    ensures s.top in s.t.ext && s.t.ext[s.top] == s.topsize && !s.t.HasNext(s.top) && !At(s.mem, s.top).cinuse
  {
    hide SmallOk, BinsOk, BinnedOk, Tiled;
    assert ShapeAt(s, s.top) && HeadAt(s, s.top);
  }
}
