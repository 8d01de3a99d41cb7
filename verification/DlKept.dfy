/** What dlmalloc leaves alone: the bytes of the chunks in use, from their link fields to the
    foot field of the chunk behind, which belong to the caller. */
module DlKept {
  import opened Tiling
  import opened DlTrie
  import opened DlBins
  import opened DlTreeOps
  import opened DlSmall
  import opened DlHeap
  import opened DlSteps
  import opened DlChunks

  ghost predicate SameLinks(a: Chunk, b: Chunk) {
    a.fd == b.fd && a.bk == b.bk && a.child0 == b.child0 && a.child1 == b.child1 && a.parent == b.parent
      && a.index == b.index
  }

  ghost predicate InUse(s: State, x: Addr) { x in s.t.ext && At(s.mem, x).cinuse }

  /** If x is in use in s, it is in s', with its size and its bytes. */
  ghost predicate KeptFor(s: State, s': State, x: Addr) {
    InUse(s, x) ==>
      && InUse(s', x) && s'.t.ext[x] == s.t.ext[x] && SameLinks(At(s.mem, x), At(s'.mem, x))
      && (s.t.HasNext(x) ==> s'.t.HasNext(x) && At(s'.mem, s.t.End(x)).prevFoot == At(s.mem, s.t.End(x)).prevFoot)
      && forall y {:trigger At(s'.mem, y)} :: x < y < s.t.End(x) ==> At(s'.mem, y) == At(s.mem, y)
  }

  /** The chunks in use, but for those in e, are still there, and hold what they held. */
  ghost predicate OwnersKept(s: State, s': State, e: set<Addr>) {
    forall x {:trigger KeptFor(s, s', x)} :: x !in e ==> KeptFor(s, s', x)
  }

  lemma KeptSame(s: State, s': State)
    requires s'.mem == s.mem && s'.t == s.t
    ensures OwnersKept(s, s', {})
  {
  }

  lemma KeptTrans(s: State, s1: State, s2: State, e: set<Addr>, e1: set<Addr>)
    requires OwnersKept(s, s1, e) && OwnersKept(s1, s2, e1)
    ensures OwnersKept(s, s2, e + e1)
  {
    hide KeptFor;
    forall x | x !in e + e1 ensures KeptFor(s, s2, x) { KeptStep(s, s1, s2, x); }
  }

  lemma KeptTwice(s: State, s1: State, s2: State)
    requires OwnersKept(s, s1, {}) && OwnersKept(s1, s2, {})
    ensures OwnersKept(s, s2, {})
  {
    hide OwnersKept;
    var none: set<Addr> := {};
    KeptTrans(s, s1, s2, none, none);
    assert none + none == none;
  }

  lemma KeptStep(s: State, s1: State, s2: State, x: Addr)
    requires KeptFor(s, s1, x) && KeptFor(s1, s2, x)
    ensures KeptFor(s, s2, x)
  {
    if InUse(s, x) {
      assert s1.t.End(x) == s.t.End(x);
      forall y | x < y < s.t.End(x) ensures At(s2.mem, y) == At(s.mem, y) { assert At(s1.mem, y) == At(s.mem, y); }
    }
  }

  /** A chunk that was not in use has nothing to keep. */
  lemma KeptFree(s: State, s': State, e: set<Addr>, x: Addr)
    requires OwnersKept(s, s', e) && !InUse(s, x)
    ensures OwnersKept(s, s', e - {x})
  {
  }

  lemma KeptMore(s: State, s': State, e: set<Addr>, e': set<Addr>)
    requires OwnersKept(s, s', e) && e <= e'
    ensures OwnersKept(s, s', e')
  {
    hide KeptFor;
  }

  lemma Behind(t: Tiles, a: Addr)
    requires Tiled(t) && a in t.ext
    ensures t.ext[a] > 0
      && (t.HasNext(a) ==> t.End(a) in t.ext && t.End(a) in t.pred && t.pred[t.End(a)] == a && t.End(a) != a)
  {
    NextFacts(t, a);
  }

  // -------------------------------------------------------------- one store

  /** A store to the start of a chunk: only its owner minds a change of the links, and only the
      owner of the chunk before it a change of the foot. */
  lemma StoreKeeps(s: State, a: Addr, c: Chunk, e: set<Addr>)
    requires Tiled(s.t) && a in s.t.ext
    requires At(s.mem, a).cinuse && a !in e ==> SameLinks(At(s.mem, a), c) && c.cinuse
    requires c.prevFoot == At(s.mem, a).prevFoot || (a in s.t.pred && (s.t.pred[a] in e || !InUse(s, s.t.pred[a])))
    ensures OwnersKept(s, s.(mem := s.mem[a := c]), e)
  {
    hide Tiled;
    var s' := s.(mem := s.mem[a := c]);
    forall x | x !in e ensures KeptFor(s, s', x) {
      if InUse(s, x) {
        NextFacts(s.t, x);
        if x != a { BlocksDisjoint(s.t, a, x); }
        NextFacts(s.t, a);
      }
    }
  }

  /** A store strictly inside a chunk that no one owns. */
  lemma InnerKeeps(s: State, f: Addr, a: Addr, c: Chunk, e: set<Addr>)
    requires Tiled(s.t) && f in s.t.ext && f < a < s.t.End(f) && (f in e || !InUse(s, f))
    ensures OwnersKept(s, s.(mem := s.mem[a := c]), e)
  {
    hide Tiled;
    var s' := s.(mem := s.mem[a := c]);
    if a in s.t.ext { BlocksDisjoint(s.t, f, a); NextFacts(s.t, a); }
    forall x | x !in e ensures KeptFor(s, s', x) {
      if InUse(s, x) {
        NextFacts(s.t, x);
        BlocksDisjoint(s.t, f, x);
      }
    }
  }

  /** Another tiling of the same memory. */
  lemma TilingKeeps(s: State, s': State, e: set<Addr>)
    requires s'.mem == s.mem
    requires forall x :: x in s.t.ext && x !in e ==>
      x in s'.t.ext && s'.t.ext[x] == s.t.ext[x] && (s.t.HasNext(x) ==> s'.t.HasNext(x))
    ensures OwnersKept(s, s', e)
  {
  }

  // ------------------------------------------------------------- operations

  /** The bins only touch links of free chunks, and the bin headers. */
  lemma RelinkKeeps(s: State, s': State)
    requires Relinked(s, s') && ShapeOk(s)
    ensures OwnersKept(s, s', {})
  {
    hide Tiled;
    forall x: Addr ensures KeptFor(s, s', x) {
      if InUse(s, x) {
        assert ShapeAt(s, x);
        assert At(s'.mem, x) == At(s.mem, x);
        forall y | x < y < s.t.End(x) ensures At(s'.mem, y) == At(s.mem, y) {
          if y in s.t.ext { BlocksDisjoint(s.t, x, y); NextFacts(s.t, y); }
        }
        if s.t.HasNext(x) { assert SameHeap(At(s.mem, s.t.End(x)), At(s'.mem, s.t.End(x))); }
      }
    }
  }

  lemma UseKeeps(s: State, x: Addr)
    requires Tiled(s.t) && x in s.t.ext && !At(s.mem, x).cinuse && s.t.End(x) in s.t.ext
    ensures OwnersKept(s, Used(s, x), {})
  {
    hide Tiled, OwnersKept;
    Behind(s.t, x);
    var z, n := s.t.ext[x], s.t.End(x);
    StoreKeeps(s, x, Head(At(s.mem, x), z, true), {});
    var s1 := s.(mem := SetHead(s.mem, x, z, true));
    StoreKeeps(s1, n, At(s1.mem, n).(pinuse := true), {});
    KeptTwice(s, s1, Used(s, x));
  }

  /** Both heads of a chunk that is cut, before the cut. */
  function CutHeads(mem: Memory, x: Addr, n: nat, z: nat): Memory { SetHead(SetHead(mem, x + n, z, false), x, n, true) }

  lemma CutKeeps(s: State, s': State, x: Addr, n: nat)
    requires Tiled(s.t) && x in s.t.ext && !At(s.mem, x).cinuse && 0 < n < s.t.ext[x]
    requires s'.t == Split(s.t, x, n) && s'.mem == CutHeads(s.mem, x, n, s.t.ext[x] - n)
    ensures OwnersKept(s, s', {})
  {
    hide Tiled, OwnersKept, Split;
    var z := s.t.ext[x] - n;
    InnerKeeps(s, x, x + n, Head(At(s.mem, x + n), z, false), {});
    var s1 := s.(mem := SetHead(s.mem, x + n, z, false));
    StoreKeeps(s1, x, Head(At(s1.mem, x), n, true), {});
    var s2 := s1.(mem := SetHead(s1.mem, x, n, true));
    forall b | b in s2.t.ext && b != x
      ensures b in s'.t.ext && s'.t.ext[b] == s2.t.ext[b] && (s2.t.HasNext(b) ==> s'.t.HasNext(b))
    {
      CutOthers(s.t, x, n, b);
    }
    TilingKeeps(s2, s', {x});
    KeptTwice(s, s1, s2);
    KeptTrans(s, s2, s', {}, {x});
    KeptFree(s, s', {} + {x}, x);
    assert {} + {x} - {x} == {};
  }

  /** The front of a free chunk is handed out, with the foot of the rest. */
  lemma CarveKeeps(s: State, x: Addr, n: nat)
    requires Tiled(s.t) && x in s.t.ext && !At(s.mem, x).cinuse && 0 < n < s.t.ext[x] && s.t.HasNext(x)
    ensures OwnersKept(s, Carved(s, x, n), {})
  {
    hide Tiled, OwnersKept, Split;
    Behind(s.t, x);
    var z, nx := s.t.ext[x] - n, s.t.End(x);
    StoreKeeps(s, nx, At(s.mem, nx).(prevFoot := z), {});
    var s1 := s.(mem := SetFoot(s.mem, nx, z));
    var s2 := s1.(mem := CutHeads(s1.mem, x, n, z), t := Split(s.t, x, n));
    CutKeeps(s1, s2, x, n);
    KeptTwice(s, s1, s2);
    assert s2.mem == Carved(s, x, n).mem;
    assert s2 == Carved(s, x, n);
  }

  /** The head of a chunk q of n bytes, and the foot and the flag behind it. */
  function FreedHeads(mem: Memory, q: Addr, n: nat): Memory {
    SetHead(mem[q + n := At(mem, q + n).(pinuse := false, prevFoot := n)], q, n, false)
  }

  lemma FreeHeadKeeps(s: State, q: Addr)
    requires Tiled(s.t) && q in s.t.ext && s.t.HasNext(q)
    ensures OwnersKept(s, s.(mem := FreedHeads(s.mem, q, s.t.ext[q])), {q})
  {
    hide Tiled, OwnersKept;
    Behind(s.t, q);
    var n := s.t.End(q);
    var c := At(s.mem, n).(pinuse := false, prevFoot := s.t.ext[q]);
    StoreKeeps(s, n, c, {q});
    var s1 := s.(mem := s.mem[n := c]);
    StoreKeeps(s1, q, Head(At(s1.mem, q), s.t.ext[q], false), {q});
    KeptTrans(s, s1, s.(mem := FreedHeads(s.mem, q, s.t.ext[q])), {q}, {q});
    assert {q} + {q} == {q};
  }

  lemma HereKeeps(s: State, q: Addr, s': State)
    requires Tiled(s.t) && q in s.t.ext && s.t.HasNext(q) && s'.t == s.t
    requires s'.mem == SetFree(SetPinuse(s.mem, s.t.End(q), false), q, s.t.ext[q])
    ensures OwnersKept(s, s', {q})
  {
    hide Tiled, OwnersKept;
    Behind(s.t, q);
    FreeHeadKeeps(s, q);
    var s1 := s.(mem := FreedHeads(s.mem, q, s.t.ext[q]));
    assert s1.mem == s'.mem;
    KeptSame(s1, s');
    KeptTrans(s, s1, s', {q}, {});
    assert {q} + {} == {q};
  }

  /** Two chunks become one. */
  lemma MergeKeeps(s: State, s': State, x: Addr)
    requires Tiled(s.t) && x in s.t.ext && s.t.HasNext(x) && s.t.End(x) in s.t.ext && s'.t == Merge(s.t, x)
      && s'.mem == s.mem
    ensures OwnersKept(s, s', {x, s.t.End(x)})
  {
    hide Tiled, OwnersKept;
    Behind(s.t, x);
    var y := s.t.End(x);
    forall b | b in s.t.ext && b !in {x, y}
      ensures b in s'.t.ext && s'.t.ext[b] == s.t.ext[b] && (s.t.HasNext(b) ==> s'.t.HasNext(b))
    {
      MergeOther(s.t, x, b);
    }
    TilingKeeps(s, s', {x, y});
  }

  lemma MergeOther(t: Tiles, x: Addr, b: Addr)
    requires Tiled(t) && x in t.ext && t.HasNext(x) && t.End(x) in t.ext && b in t.ext && b != x && b != t.End(x)
    ensures b in Merge(t, x).ext && Merge(t, x).ext[b] == t.ext[b] && (t.HasNext(b) ==> Merge(t, x).HasNext(b))
  {
  }

  /** The free chunk behind the one being freed becomes part of it. */
  lemma FreeMergedKeeps(s: State, q: Addr, s': State)
    requires Tiled(s.t) && q in s.t.ext && s.t.HasNext(q) && s.t.End(q) in s.t.ext && s.t.HasNext(s.t.End(q))
      && !InUse(s, s.t.End(q))
    requires s'.t == Merge(s.t, q) && s'.mem == SetFree(s.mem, q, s.t.ext[q] + s.t.ext[s.t.End(q)])
    ensures OwnersKept(s, s', {q})
  {
    hide Tiled, OwnersKept, Merge;
    Behind(s.t, q);
    var y := s.t.End(q);
    Behind(s.t, y);
    var z, n := s.t.ext[q] + s.t.ext[y], s.t.End(y);
    StoreKeeps(s, n, At(s.mem, n).(prevFoot := z), {q});
    var s1 := s.(mem := SetFoot(s.mem, n, z));
    StoreKeeps(s1, q, Head(At(s1.mem, q), z, false), {q});
    var s2 := s1.(mem := SetHead(s1.mem, q, z, false));
    assert s2.mem == s'.mem;
    MergeKeeps(s2, s', q);
    KeptTrans(s, s1, s2, {q}, {q});
    KeptTrans(s, s2, s', {q} + {q}, {q, y});
    KeptFree(s, s', {q} + {q} + {q, y}, y);
    assert {q} + {q} + {q, y} - {y} == {q};
  }

  /** The chunk being freed becomes part of the top. */
  lemma FreeTopKeeps(s: State, q: Addr, z: nat, s': State)
    requires Tiled(s.t) && q in s.t.ext && s.t.HasNext(q) && s.t.End(q) in s.t.ext && !InUse(s, s.t.End(q))
    requires s'.t == Merge(s.t, q) && s'.mem == SetHead(s.mem, q, z, false)
    ensures OwnersKept(s, s', {q})
  {
    hide Tiled, OwnersKept, Merge;
    Behind(s.t, q);
    var y := s.t.End(q);
    StoreKeeps(s, q, Head(At(s.mem, q), z, false), {q});
    var s1 := s.(mem := SetHead(s.mem, q, z, false));
    MergeKeeps(s1, s', q);
    KeptTrans(s, s1, s', {q}, {q, y});
    KeptFree(s, s', {q} + {q, y}, y);
    assert {q} + {q, y} - {y} == {q};
  }

  // ------------------------------------------------- the same on a whole heap

  lemma Spot(s: State, loose: set<Addr>, off: set<Addr>, x: Addr)
    requires HeapOk(s, loose, off) && x in s.t.ext
    ensures Tiled(s.t) && ShapeOk(s) && (s.t.HasNext(x) <==> x != s.top) && s.t.ext[x] > 0
    ensures x != s.top ==> s.t.End(x) in s.t.ext && s.t.End(x) != x
  {
    hide HeadsOk, SmallOk, BinsOk, BinnedOk, SpecialOk, Tiled;
    assert ShapeAt(s, x);
    NextFacts(s.t, x);
  }

  lemma KeepsRelinked(s: State, s': State, loose: set<Addr>, off: set<Addr>)
    requires HeapOk(s, loose, off) && Relinked(s, s')
    ensures OwnersKept(s, s', {})
  {
    hide ShapeOk, HeadsOk, SmallOk, BinsOk, BinnedOk, SpecialOk, OwnersKept, Relinked;
    RelinkKeeps(s, s');
  }

  lemma KeepsUse(s: State, loose: set<Addr>, off: set<Addr>, x: Addr)
    requires HeapOk(s, loose, off) && x in s.t.ext && !At(s.mem, x).cinuse && x != s.top
    ensures OwnersKept(s, Used(s, x), {})
  {
    hide HeapOk, OwnersKept, Tiled;
    Spot(s, loose, off, x);
    UseKeeps(s, x);
  }

  lemma KeepsCarve(s: State, loose: set<Addr>, off: set<Addr>, x: Addr, n: nat)
    requires HeapOk(s, loose, off) && x in s.t.ext && !At(s.mem, x).cinuse && x != s.top && 0 < n < s.t.ext[x]
    ensures OwnersKept(s, Carved(s, x, n), {})
  {
    hide HeapOk, OwnersKept, Tiled;
    Spot(s, loose, off, x);
    CarveKeeps(s, x, n);
  }

  lemma KeepsTopCarve(s: State, n: nat)
    requires HeapOk(s, {}, {}) && s.top in s.t.ext && 0 < n < s.t.ext[s.top]
    ensures OwnersKept(s, TopCarved(s, n), {})
  {
    hide HeapOk, OwnersKept, Tiled;
    TopOk(s, {});
    Spot(s, {}, {}, s.top);
    CutKeeps(s, TopCarved(s, n), s.top, n);
  }

  /** The state as it was left, dv and its size aside. */
  lemma KeptApart(s: State, s1: State, s2: State, s': State, e: set<Addr>)
    requires OwnersKept(s1, s2, e) && s1.mem == s.mem && s1.t == s.t && s2.mem == s'.mem && s2.t == s'.t
    ensures OwnersKept(s, s', e)
  {
    forall x | x !in e ensures KeptFor(s, s', x) { assert KeptFor(s1, s2, x); }
  }

  /** x is freed and becomes part of the free chunk p before it, which has left its bin. */
  lemma KeepsBackward(s0: State, s: State, x: Addr, p: Addr, s': State)
    requires OwnersKept(s0, s, {}) && !InUse(s0, p) && Tiled(s.t) && p in s.t.ext && s.t.HasNext(p) && s.t.End(p) == x
      && x in s.t.ext
    requires s'.t == Merge(s.t, p) && s'.mem == s.mem
    ensures OwnersKept(s0, s', {x})
  {
    hide OwnersKept, Tiled, Merge;
    MergeKeeps(s, s', p);
    KeptTrans(s0, s, s', {}, {p, x});
    KeptFree(s0, s', {} + {p, x}, p);
    if p == x { Behind(s.t, p); }
    assert {} + {p, x} - {p} == {x};
  }

  lemma KeepsHere(s: State, off: set<Addr>, q: Addr, s': State)
    requires Freeing(s, off, q) && s'.t == s.t && s'.mem == SetFree(SetPinuse(s.mem, s.t.End(q), false), q, s.t.ext[q])
    ensures OwnersKept(s, s', {q})
  {
    hide HeapOk, OwnersKept, Tiled, Based;
    Spot(s, {q}, off, q);
    HereKeeps(s, q, s');
  }

  lemma KeepsMerged(s: State, off: set<Addr>, q: Addr, s': State)
    requires Freeing(s, off, q) && s.t.End(q) in s.t.ext && s.t.End(q) != s.top && !At(s.mem, s.t.End(q)).cinuse
    requires s'.t == Merge(s.t, q) && s'.mem == SetFree(s.mem, q, s.t.ext[q] + s.t.ext[s.t.End(q)])
    ensures OwnersKept(s, s', {q})
  {
    hide HeapOk, OwnersKept, Tiled, Based, Merge;
    Spot(s, {q}, off, q);
    Spot(s, {q}, off, s.t.End(q));
    FreeMergedKeeps(s, q, s');
  }

  lemma KeepsJoinTop(s: State, off: set<Addr>, q: Addr, z: nat, s': State)
    requires Freeing(s, off, q) && s.t.End(q) == s.top && s.top in s.t.ext && s'.t == Merge(s.t, q)
      && s'.mem == SetHead(s.mem, q, z, false)
    ensures OwnersKept(s, s', {q})
  {
    hide HeapOk, OwnersKept, Tiled, Based, Merge;
    Spot(s, {q}, off, q);
    TopHead(s, {q}, off);
    FreeTopKeeps(s, q, z, s');
  }
}
