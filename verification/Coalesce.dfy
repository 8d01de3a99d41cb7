/** The stages of allocation and release that xvmalloc and TLSF have in common. */
module Coalesce {
  import opened Tiling
  import opened FreeLists
  import opened HeapMem
  import opened FreeIndex
  import opened BoundaryTags

  ghost predicate SameHdrsBut(h: Heap, h': Heap, a: Addr) {
    forall b {:trigger At(h', b)} :: b in h.t.ext && b != a ==> At(h', b) == At(h, b)
  }

  /** The physical neighbours of block a are in use. */
  ghost predicate BetweenUsed(h: Heap, a: Addr)
    requires a in h.t.ext
  {
    && (a !in h.t.firsts ==> a in h.t.pred && !At(h, h.t.pred[a]).free)
    && (h.t.HasNext(a) ==> !At(h, h.t.End(a)).free)
  }

  /** Block a, taken off the lists, is off limits to its successor for a while. */
  lemma Loosen(r: Rules, h: Heap, d: Slack, a: Addr, d': Slack)
    requires HeapOk(r, h, d) && a in h.t.ext && a in d.off
    requires d' == Slack(d.off, d.loose + {a}, d.open) || d' == Slack(d.off, d.loose + {a}, d.open + {a})
    ensures HeapOk(r, h, d')
  {
    hide IndexOk, ListedOk, At, Tiled;
    Neighbours(r, h, d, a);
    assert a in d'.open || h.t.ext[a] == r.y.hs + Round4(At(h, a).size);
    Settle(r, h, d, a, d');
  }

  /** A block too small for the lists is off and on them at once. */
  lemma SmallOff(r: Rules, h: Heap, d: Slack, a: Addr, off': set<Addr>)
    requires HeapOk(r, h, d) && a in h.t.ext && !Listable(r, At(h, a)) && SameBut(d.off, off', a) && d.open <= off'
    ensures HeapOk(r, h, d.(off := off'))
  {
    hide IndexOk, ListedOk, At, Tiled;
    Neighbours(r, h, d, a);
    Settle(r, h, d, a, d.(off := off'));
  }

  // ---------------------------------------------------------------- merging

  /** Block a swallows its successor: one store to its size. */
  function Swallow(r: Rules, h: Heap, a: Addr): Heap
    requires a in h.t.ext && h.t.End(a) in h.t.ext
  {
    var c := At(h, a);
    StoreHdr(r, MergeBlocks(h, a), a, c.(size := c.size + At(h, h.t.End(a)).size + r.y.hs))
  }

  lemma SwallowOk(r: Rules, h: Heap, d: Slack, a: Addr, b: Addr)
    requires HeapOk(r, h, d) && a in h.t.ext && h.t.HasNext(a) && h.t.End(a) == b && b in h.t.ext
    requires d.open == {} && d.off == {a, b} && d.loose <= {a, b}
    requires At(h, a).size % 4 == 0 && At(h, b).size % 4 == 0 && r.y.hs % 4 == 0
    ensures HeapOk(r, Swallow(r, h, a), Slack({a}, {a}, {})) && UsedKept(r, h, Swallow(r, h, a), {a, b})
    ensures At(Swallow(r, h, a), a) == At(h, a).(size := At(h, a).size + At(h, b).size + r.y.hs)
    ensures SameHdrsBut(MergeBlocks(h, a), Swallow(r, h, a), a)
  {
    hide FlagAt, IndexOk, Tiled, At, FlagsOk, PutHdr, UsedKept, KeptAt, Merge, HeapOk, Roomy, HdrsOk, ListedAt;
    var h1 := MergeBlocks(h, a);
    var d1 := MergeSlack(d, a, b);
    SwallowFacts(r, h, d, a, b);
    assert d1 == Slack({a}, {a}, {a}) by { assert {a, b} + {a} - {b} == {a}; assert d.loose + {a} - {b} == {a}; }
    var c := At(h, a).(size := At(h, a).size + At(h, b).size + r.y.hs);
    SwallowFlags(r, h1, d1, a, c);
    StoreOk(r, h1, d1, a, c, Slack({a}, {a}, {}));
    UsedKeptTrans(r, h, h1, Swallow(r, h, a), {a, b}, {a});
    assert {a, b} + {a} == {a, b};
  }

  lemma SwallowFacts(r: Rules, h: Heap, d: Slack, a: Addr, b: Addr)
    requires HeapOk(r, h, d) && a in h.t.ext && h.t.HasNext(a) && h.t.End(a) == b && b in h.t.ext
    requires d.open == {} && d.off == {a, b} && d.loose <= {a, b}
    requires At(h, a).size % 4 == 0 && At(h, b).size % 4 == 0 && r.y.hs % 4 == 0
    ensures var h1 := MergeBlocks(h, a);
      && HeapOk(r, h1, MergeSlack(d, a, b)) && UsedKept(r, h, h1, {a, b}) && a in h1.t.ext && a !in h1.x.place && a != b
      && h1.t.ext[a] == r.y.hs + Round4(At(h, a).size + At(h, b).size + r.y.hs)
      && (forall x :: At(h1, x) == At(h, x))
  {
    hide FlagAt, IndexOk, Tiled, FlagsOk, UsedKept, Roomy, HeapOk, HdrAt, Round4;
    HeapParts(r, h, d);
    NextFacts(h.t, a);
    assert ListedAt(r, h, d.off, a) && ListedAt(r, h, d.off, b);
    MergeOk(r, h, d, a);
    RoundSum(At(h, a).size, At(h, b).size, r.y.hs);
  }

  lemma RoundSum(x: nat, y: nat, hs: nat)
    requires x % 4 == 0 && y % 4 == 0 && hs % 4 == 0
    ensures Round4(x) == x && Round4(y) == y && Round4(x + y + hs) == x + y + hs
  {
  }

  lemma SwallowFlags(r: Rules, h: Heap, d: Slack, a: Addr, c: Hdr)
    requires HeapOk(r, h, d) && a in h.t.ext && d == Slack({a}, {a}, {a}) && c == At(h, a).(size := c.size)
    ensures FlagAt(r, StoreHdr(r, h, a, c), a, {a})
    ensures h.t.HasNext(a) ==> FlagAt(r, StoreHdr(r, h, a, c), h.t.End(a), {a})
  {
    hide FlagAt, HeapOk, At, PutHdr;
    OwnFlag(r, h, d, a, c, {a});
    if h.t.HasNext(a) { NextFlag(r, h, d, a, c, {a}); }
  }

  /** The neighbours of the merged block are the outer neighbours of its parts. */
  lemma SwallowNeighbours(r: Rules, h: Heap, a: Addr)
    requires Tiled(h.t) && a in h.t.ext && h.t.HasNext(a) && h.t.End(a) in h.t.ext
      && At(h, a).free == At(Swallow(r, h, a), a).free
    requires SameHdrsBut(MergeBlocks(h, a), Swallow(r, h, a), a)
    requires a !in h.t.firsts ==> a in h.t.pred && !At(h, h.t.pred[a]).free
    requires h.t.HasNext(h.t.End(a)) ==> !At(h, h.t.End(h.t.End(a))).free
    ensures a in Swallow(r, h, a).t.ext && BetweenUsed(Swallow(r, h, a), a)
  {
    hide Tiled, PutHdr, HdrAt;
    var b := h.t.End(a);
    var h' := Swallow(r, h, a);
    NextFacts(h.t, a);
    NextFacts(h.t, b);
    if a !in h.t.firsts { PredFacts(h.t, a); assert At(h', h.t.pred[a]) == At(h, h.t.pred[a]); }
    if h.t.HasNext(b) {
      var c := h.t.End(b);
      assert c in MergeBlocks(h, a).t.ext && c != a;
      assert h'.t.End(a) == c && At(h', c) == At(MergeBlocks(h, a), c);
    }
  }

  // --------------------------------------------------- cutting off the rest

  /** What the flags say of a free block that is off its list. */
  lemma TakenFlags(r: Rules, h: Heap, a: Addr)
    requires HeapOk(r, h, Slack({a}, {}, {})) && a in h.t.ext && At(h, a).free
    ensures !At(h, a).prevFree && FlagAt(r, h, a, {})
    ensures h.t.HasNext(a) ==> var b := h.t.End(a);
      && b in h.t.ext && b !in h.t.firsts && b in h.t.pred && h.t.pred[b] == a && b > a
      && At(h, b).prevFree && !At(h, b).free && (r.always ==> At(h, b).prev == r.name(a))
  {
    hide HeapOk, At;
    Neighbours(r, h, Slack({a}, {}, {}), a);
  }

  /** h' is h with block a cut behind its first size payload bytes, the rest free. */
  ghost predicate Cut(r: Rules, h: Heap, h': Heap, a: Addr, size: nat) {
    && a in h.t.ext && r.y.hs > 0 && 2 * r.y.hs + size <= h.t.ext[a] && h'.t == Split(h.t, a, r.y.hs + size)
    && a + r.y.hs + size !in h.t.ext
    && At(h', a + r.y.hs + size) == Hdr(h.t.ext[a] - size - 2 * r.y.hs, r.name(a), true, false)
    && forall b {:trigger At(h', b)} :: b in h.t.ext ==> At(h', b) == At(h, b)
  }

  /** What renaming the successor needs to know. */
  ghost predicate Renamable(r: Rules, h: Heap, a: Addr, e: Addr) {
    && a in h.t.ext && e in h.t.ext && h.t.HasNext(a) && h.t.End(a) == e && e > a && At(h, e).free
    && (h.t.HasNext(e) ==> var nb := h.t.End(e); nb in h.t.ext && nb > e && At(h, nb).prevFree && !At(h, nb).free)
    && h.t.ext[e] == r.y.hs + At(h, e).size
  }

  lemma CutRenamable(r: Rules, h: Heap, h': Heap, a: Addr, size: nat)
    requires HeapOk(r, h, Slack({a}, {}, {})) && Cut(r, h, h', a, size) && At(h, a).free
    ensures Renamable(r, h', a, a + r.y.hs + size) && (h'.t.HasNext(a + r.y.hs + size) <==> h.t.HasNext(a))
  {
    hide Tiled, HdrAt, Split, HeapOk, FlagAt;
    TakenFlags(r, h, a);
    HeapParts(r, h, Slack({a}, {}, {}));
    CutFacts(h.t, a, r.y.hs + size);
    if h.t.HasNext(a) { assert At(h', h.t.End(a)) == At(h, h.t.End(a)); }
  }

  /** The outcome of a cut, seen from block a. */
  lemma CutCarved(r: Rules, h: Heap, h1: Heap, h': Heap, a: Addr, size: nat)
    requires HeapOk(r, h, Slack({a}, {}, {})) && Cut(r, h, h1, a, size) && At(h, a).free && size % 4 == 0
    requires h'.t == h1.t && forall b :: b in h1.t.ext && b <= a + r.y.hs + size ==> At(h', b) == At(h1, b)
    ensures Carved(r, h', a, Hdr(size, 0, false, false)) && At(h', a) == At(h, a)
  {
    hide FlagAt, Tiled, HdrAt, Split, HeapOk;
    TakenFlags(r, h, a);
    HeapParts(r, h, Slack({a}, {}, {}));
    CutFacts(h.t, a, r.y.hs + size);
    assert At(h', a) == At(h1, a) == At(h, a);
    CutFlag(r, h, h1, h', a, size);
    assert At(h', a + r.y.hs + size) == At(h1, a + r.y.hs + size);
  }

  lemma CutFlag(r: Rules, h: Heap, h1: Heap, h': Heap, a: Addr, size: nat)
    requires Tiled(h.t) && FlagAt(r, h, a, {}) && Cut(r, h, h1, a, size) && At(h', a) == At(h, a)
    requires h'.t == h1.t && forall b :: b in h1.t.ext && b <= a + r.y.hs + size ==> At(h', b) == At(h1, b)
    ensures FlagAt(r, h', a, {})
  {
    hide FlagAt, Tiled, HdrAt, Split;
    CutFacts(h.t, a, r.y.hs + size);
    if a !in h.t.firsts {
      PredFacts(h.t, a);
      var p := h.t.pred[a];
      SplitKeepsBlocks(h.t, a, r.y.hs + size, p);
      assert At(h', p) == At(h1, p) == At(h, p);
    }
    FlagSame(r, h, h', a, {});
  }

  /** The store of the header of the rest. */
  lemma RemainderCut(r: Rules, h: Heap, a: Addr, size: nat)
    requires HeapOk(r, h, Slack({a}, {}, {})) && a in h.t.ext && At(h, a).free && h.t.ext[a] == r.y.hs + At(h, a).size
    requires size % 4 == 0 && r.y.hs % 4 == 0 && At(h, a).size % 4 == 0 && At(h, a).size >= size + r.y.hs
    ensures var e := a + r.y.hs + size; var c := Hdr(At(h, a).size - size - r.y.hs, r.name(a), true, false);
      && 0 < r.y.hs + size < h.t.ext[a]
      && (var h' := SplitHdr(r, h, a, r.y.hs + size, c);
        HeapOk(r, h', Slack({a, e}, {a, e}, {a})) && UsedKept(r, h, h', {a}) && Cut(r, h, h', a, size))
  {
    hide HeapOk, At, PutHdr, Split, UsedKept, Round4;
    var d, n, c := Slack({a}, {}, {}), r.y.hs + size, Hdr(At(h, a).size - size - r.y.hs, r.name(a), true, false);
    OffNotListed(r, h, d, a);
    RoundRest(At(h, a).size, size, r.y.hs);
    SplitOk(r, h, d, a, n, c);
    assert SplitSlack(d, a, a + n) == Slack({a, a + n}, {a, a + n}, {a});
    UsedKeptFree(r, h, SplitHdr(r, h, a, n, c), {a, a + n}, a + n);
    assert {a, a + n} - {a + n} == {a};
  }

  lemma RoundRest(total: nat, size: nat, hs: nat)
    requires total % 4 == 0 && size % 4 == 0 && hs % 4 == 0 && total >= size + hs
    ensures Round4(total - size - hs) == total - size - hs
  {
    var x, y, z := total / 4, size / 4, hs / 4;
    assert total - size - hs == 4 * (x - y - z);
  }

  lemma OffNotListed(r: Rules, h: Heap, d: Slack, a: Addr)
    requires HeapOk(r, h, d) && a in d.off
    ensures a !in h.x.place && r.y.hs > 0
  {
    hide FlagsOk, HdrsOk, IndexOk, Tiled;
    assert ListedAt(r, h, d.off, a);
  }

  // --------------------------------------------------- finishing allocation

  /** Behind a block just cut in two, the old successor is told of the new free part. */
  lemma FollowOk(r: Rules, h: Heap, off: set<Addr>, a: Addr, e: Addr, nb: Addr)
    requires HeapOk(r, h, Slack(off, {a, e}, {a})) && a in h.t.ext && e in h.t.ext && h.t.HasNext(a) && h.t.End(a) == e
    requires h.t.HasNext(e) && h.t.End(e) == nb && nb in h.t.ext && !At(h, nb).free && At(h, e).free
    requires nb !in off
    ensures var c := At(h, nb).(prev := r.name(e), prevFree := true); var h' := StoreHdr(r, h, nb, c);
      && HeapOk(r, h', Slack(off, {a}, {a})) && UsedKept(r, h, h', {}) && At(h', nb) == c && SameHdrsBut(h, h', nb)
  {
    hide FlagAt, IndexOk, Tiled, At, FlagsOk, PutHdr, KeptAt, Roomy;
    var d, c := Slack(off, {a, e}, {a}), At(h, nb).(prev := r.name(e), prevFree := true);
    var h' := StoreHdr(r, h, nb, c);
    Neighbours(r, h, d, a);
    Neighbours(r, h, d, e);
    assert ListedAt(r, h, off, nb);
    RenameFlag(r, h, a, e, nb, h', c);
    if h.t.HasNext(nb) { NextFlag(r, h, d, nb, c, d.loose); }
    StoreOk(r, h, d, nb, c, d);
    StoreKeeps(r, h, nb, c);
    RenameSettle(r, h', a, e, nb);
    assert SameBut(d.loose, {a}, e);
    Settle(r, h', d, e, Slack(off, {a}, {a}));
  }

  /** The same where it knew of a free predecessor before. */
  lemma RenameOk(r: Rules, h: Heap, off: set<Addr>, a: Addr, e: Addr, nb: Addr)
    requires HeapOk(r, h, Slack(off, {a, e}, {a})) && a in h.t.ext && e in h.t.ext && h.t.HasNext(a) && h.t.End(a) == e
    requires h.t.HasNext(e) && h.t.End(e) == nb && nb in h.t.ext && At(h, nb).prevFree && !At(h, nb).free
      && At(h, e).free
    requires nb !in off
    ensures var c := At(h, nb).(prev := r.name(e)); var h' := StoreHdr(r, h, nb, c);
      && HeapOk(r, h', Slack(off, {a}, {a})) && UsedKept(r, h, h', {}) && At(h', nb) == c && SameHdrsBut(h, h', nb)
  {
    hide HeapOk, UsedKept, SameHdrsBut, StoreHdr, HdrAt;
    FollowOk(r, h, off, a, e, nb);
    assert At(h, nb).(prev := r.name(e), prevFree := true) == At(h, nb).(prev := r.name(e));
  }

  lemma RenameFlag(r: Rules, h: Heap, a: Addr, e: Addr, nb: Addr, h': Heap, c: Hdr)
    requires h' == StoreHdr(r, h, nb, c) && nb !in h.t.firsts && nb in h.t.pred && h.t.pred[nb] == e
    ensures FlagAt(r, h', nb, {a, e})
  {
  }

  lemma RenameSettle(r: Rules, h: Heap, a: Addr, e: Addr, nb: Addr)
    requires e !in h.t.firsts && e in h.t.pred && h.t.pred[e] == a && nb !in h.t.firsts && nb in h.t.pred
      && h.t.pred[nb] == e
    requires At(h, e).free && At(h, nb).prevFree && !At(h, nb).free && At(h, nb).prev == r.name(e)
    ensures FlagAt(r, h, e, {a}) && FlagAt(r, h, nb, {a})
  {
  }

  /** The part behind the cut is the last of its region. */
  lemma NoRenameOk(r: Rules, h: Heap, off: set<Addr>, a: Addr, e: Addr)
    requires HeapOk(r, h, Slack(off, {a, e}, {a})) && a in h.t.ext && e in h.t.ext && h.t.HasNext(a) && h.t.End(a) == e
    requires !h.t.HasNext(e)
    ensures HeapOk(r, h, Slack(off, {a}, {a}))
  {
    hide IndexOk, Tiled, At, FlagsOk, ListedOk;
    var d := Slack(off, {a, e}, {a});
    Neighbours(r, h, d, a);
    assert FlagAt(r, h, e, {a});
    assert SameBut(d.loose, {a}, e);
    Settle(r, h, d, e, Slack(off, {a}, {a}));
  }

  /** Block a is ready to be handed out. */
  ghost predicate Carved(r: Rules, h: Heap, a: Addr, c: Hdr) {
    && a in h.t.ext && h.t.ext[a] == r.y.hs + Round4(c.size) && FlagAt(r, h, a, {})
    && (h.t.HasNext(a) ==> !At(h, h.t.End(a)).prevFree && (r.always ==> At(h, h.t.End(a)).prev == r.name(a)))
  }

  /** The store that hands out block a. */
  lemma UseOk(r: Rules, h: Heap, a: Addr, c: Hdr)
    requires HeapOk(r, h, Slack({a}, {a}, {a})) && Carved(r, h, a, c) && !c.free
    requires c.prevFree == At(h, a).prevFree && c.prev == At(h, a).prev
    ensures HeapOk(r, StoreHdr(r, h, a, c), Slack({}, {}, {})) && UsedKept(r, h, StoreHdr(r, h, a, c), {a})
    ensures At(StoreHdr(r, h, a, c), a) == c && SameHdrsBut(h, StoreHdr(r, h, a, c), a)
  {
    hide IndexOk, Tiled, At, FlagsOk, PutHdr, KeptAt, Roomy;
    var d := Slack({a}, {a}, {a});
    Neighbours(r, h, d, a);
    assert ListedAt(r, h, {a}, a);
    StoreFrame(r, h, a, c);
    StoreOk(r, h, d, a, c, Slack({}, {}, {}));
  }

  // ------------------------------------------------------ finishing release

  /** The successor learns that block a is free. */
  lemma SealOk(r: Rules, h: Heap, a: Addr, nb: Addr)
    requires HeapOk(r, h, Slack({}, {a}, {})) && a in h.t.ext && h.t.HasNext(a) && h.t.End(a) == nb && nb in h.t.ext
    requires BetweenUsed(h, a) && At(h, a).free
    ensures var c := At(h, nb).(prevFree := true, prev := r.name(a)); var h' := StoreHdr(r, h, nb, c);
      && HeapOk(r, h', Slack({}, {}, {})) && UsedKept(r, h, h', {}) && At(h', nb) == c && SameHdrsBut(h, h', nb)
  {
    hide IndexOk, Tiled, At, FlagsOk, PutHdr, KeptAt, Roomy;
    var d, c := Slack({}, {a}, {}), At(h, nb).(prevFree := true, prev := r.name(a));
    var h' := StoreHdr(r, h, nb, c);
    Neighbours(r, h, d, a);
    StoreFrame(r, h, nb, c);
    assert ListedAt(r, h, {}, nb);
    if h.t.HasNext(nb) { NextFlag(r, h, d, nb, c, {a}); }
    StoreOk(r, h, d, nb, c, d);
    StoreKeeps(r, h, nb, c);
    SealSettle(r, h, h', a, nb);
    Settle(r, h', d, a, Slack({}, {}, {}));
  }

  lemma SealSettle(r: Rules, h: Heap, h': Heap, a: Addr, nb: Addr)
    requires FlagAt(r, h, a, {a}) && a in h.t.ext && BetweenUsed(h, a) && h'.t == h.t && At(h', a) == At(h, a)
      && At(h, a).free
    requires a !in h.t.firsts ==> a in h.t.pred && h.t.pred[a] != nb && h.t.pred[a] in h.t.ext && h.t.pred[a] != a
    requires SameHdrsBut(h, h', nb) && nb !in h.t.firsts && nb in h.t.pred && h.t.pred[nb] == a && nb != a
    requires At(h', nb).prevFree && At(h', nb).prev == r.name(a) && !At(h', nb).free
    ensures FlagAt(r, h', a, {}) && FlagAt(r, h', nb, {})
  {
    hide HdrAt;
    if a !in h.t.firsts { assert At(h', h.t.pred[a]) == At(h, h.t.pred[a]); }
  }

  /** No block follows. */
  lemma SealLastOk(r: Rules, h: Heap, a: Addr)
    requires HeapOk(r, h, Slack({}, {a}, {})) && a in h.t.ext && !h.t.HasNext(a) && BetweenUsed(h, a)
    ensures HeapOk(r, h, Slack({}, {}, {}))
  {
    hide IndexOk, Tiled, At, FlagsOk, ListedOk;
    Neighbours(r, h, Slack({}, {a}, {}), a);
    Settle(r, h, Slack({}, {a}, {}), a, Slack({}, {}, {}));
  }
}
