/** Regions of memory cut into blocks.  Shared by the allocators: what splitting a block,
    merging two neighbours, and adding or dropping a whole region do to the partition. */
module Tiling {

  /** `ext` gives the length of each block by its start, `pred` the block before each block
      that does not begin a region, `firsts` and `ends` where regions begin and end. */
  datatype Tiles = Tiles(ext: map<nat, nat>, pred: map<nat, nat>, firsts: set<nat>, ends: set<nat>) {
    function End(a: nat): nat requires a in ext { a + ext[a] }
    predicate HasNext(a: nat) requires a in ext { End(a) !in ends }
  }

  /** Block a is followed by a block, or ends its region. */
  ghost predicate Followed(t: Tiles, a: nat)
    requires a in t.ext
  {
    t.ext[a] > 0 && (t.HasNext(a) ==>
      t.End(a) in t.ext && t.End(a) !in t.firsts && t.End(a) in t.pred && t.pred[t.End(a)] == a)
  }

  /** Block a is preceded by the block its pred names, or begins its region. */
  ghost predicate Preceded(t: Tiles, a: nat) {
    a in t.firsts || (a in t.pred && t.pred[a] in t.ext && t.pred[a] + t.ext[t.pred[a]] == a && a !in t.ends)
  }

  ghost predicate Apart(t: Tiles, a: nat, b: nat)
    requires a in t.ext
  {
    a < b ==> a + t.ext[a] <= b
  }

  ghost predicate Tiled(t: Tiles) {
    && t.firsts <= t.ext.Keys && t.pred.Keys == t.ext.Keys - t.firsts
    && (forall a {:trigger Followed(t, a)} :: a in t.ext ==> Followed(t, a))
    && (forall a {:trigger Preceded(t, a)} :: a in t.ext ==> Preceded(t, a))
    && (forall a, b {:trigger Apart(t, a, b)} :: a in t.ext && b in t.ext ==> Apart(t, a, b))
    && (forall a, e {:trigger a in t.ext, e in t.ends} :: a in t.ext && e in t.ends && a < e ==> a + t.ext[a] <= e)
  }

  /** Blocks do not overlap. */
  lemma BlocksDisjoint(t: Tiles, a: nat, b: nat)
    requires Tiled(t) && a in t.ext && b in t.ext && a != b
    ensures a + t.ext[a] <= b || b + t.ext[b] <= a
  {
    assert Apart(t, a, b) && Apart(t, b, a);
  }

  lemma NextFacts(t: Tiles, a: nat)
    requires Tiled(t) && a in t.ext
    ensures t.ext[a] > 0
    ensures t.HasNext(a) ==> t.End(a) in t.ext && t.End(a) !in t.firsts && t.pred[t.End(a)] == a
  {
    assert Followed(t, a);
  }

  lemma PredFacts(t: Tiles, a: nat)
    requires Tiled(t) && a in t.ext && a !in t.firsts
    ensures t.pred[a] in t.ext && t.End(t.pred[a]) == a && t.HasNext(t.pred[a]) && t.pred[a] < a
  {
    assert Preceded(t, a) && Followed(t, t.pred[a]);
  }

  // -------------------------------------------------------------- splitting

  function Split(t: Tiles, a: nat, n: nat): Tiles
    requires a in t.ext && 0 < n < t.ext[a]
  {
    var pred' := t.pred[a + n := a];
    t.(ext := t.ext[a := n][a + n := t.ext[a] - n], pred := if t.HasNext(a) then pred'[t.End(a) := a + n] else pred')
  }

  lemma SplitTiled(t: Tiles, a: nat, n: nat)
    requires Tiled(t) && a in t.ext && 0 < n < t.ext[a]
    ensures a + n !in t.ext && a + n !in t.ends && Tiled(Split(t, a, n))
  {
    var s := Split(t, a, n);
    assert Followed(t, a);
    if a + n in t.ext { BlocksDisjoint(t, a, a + n); }
    var e := a + n;
    assert e !in t.ends;
    forall b | b in s.ext ensures Followed(s, b) { SplitFollowed(t, a, n, b); }
    forall b | b in s.ext ensures Preceded(s, b) { SplitPreceded(t, a, n, b); }
    forall b, c | b in s.ext && c in s.ext ensures Apart(s, b, c) { SplitApart(t, a, n, b, c); }
  }

  lemma SplitFollowed(t: Tiles, a: nat, n: nat, b: nat)
    requires Tiled(t) && a in t.ext && 0 < n < t.ext[a] && b in Split(t, a, n).ext && a + n !in t.ext
      && a + n !in t.ends
    ensures Followed(Split(t, a, n), b)
  {
    assert Followed(t, a);
    if b != a + n { assert Followed(t, b); }
  }

  lemma SplitPreceded(t: Tiles, a: nat, n: nat, b: nat)
    requires Tiled(t) && a in t.ext && 0 < n < t.ext[a] && b in Split(t, a, n).ext && a + n !in t.ext
      && a + n !in t.ends
    ensures Preceded(Split(t, a, n), b)
  {
    assert Followed(t, a);
    if b != a + n { assert Preceded(t, b); }
  }

  lemma SplitApart(t: Tiles, a: nat, n: nat, b: nat, c: nat)
    requires Tiled(t) && a in t.ext && 0 < n < t.ext[a] && b in Split(t, a, n).ext && c in Split(t, a, n).ext
    ensures Apart(Split(t, a, n), b, c)
  {
    var ob, oc := if b == a + n then a else b, if c == a + n then a else c;
    assert Apart(t, ob, oc) && Apart(t, oc, ob);
  }

  /** The tiling after the cut. */
  lemma CutFacts(t: Tiles, a: nat, n: nat)
    requires Tiled(t) && a in t.ext && 0 < n < t.ext[a]
    ensures Split(t, a, n).firsts == t.firsts && Split(t, a, n).ends == t.ends
    ensures var s := Split(t, a, n); var e := a + n;
      && a in s.ext && s.ext[a] == n && e in s.ext && s.ext[e] == t.ext[a] - n && s.HasNext(a) && s.End(a) == e
      && e !in s.firsts && e in s.pred && s.pred[e] == a
      && (s.HasNext(e) <==> t.HasNext(a)) && (t.HasNext(a) ==> t.End(a) in s.ext && t.End(a) > e)
      && s.End(e) == t.End(a) && (a in s.firsts <==> a in t.firsts)
      && (a !in t.firsts ==> a in t.pred && a in s.pred && s.pred[a] == t.pred[a] && t.pred[a] in t.ext)
  {
    SplitTiled(t, a, n);
    NextFacts(t, a);
    if a !in t.firsts { PredFacts(t, a); }
  }

  /** The cut as the other blocks see it. */
  lemma CutOthers(t: Tiles, a: nat, n: nat, b: nat)
    requires Tiled(t) && a in t.ext && 0 < n < t.ext[a] && b in t.ext && b != a
    ensures var s := Split(t, a, n);
      && b in s.ext && s.ext[b] == t.ext[b] && (s.HasNext(b) <==> t.HasNext(b)) && s.End(b) == t.End(b)
      && (b in s.firsts <==> b in t.firsts)
      && (b !in t.firsts ==> b in t.pred && t.pred[b] in t.ext && b in s.pred && s.pred[b] == if t.pred[b] == a
        then a + n else t.pred[b])
  {
    SplitTiled(t, a, n);
    NextFacts(t, a);
    if b !in t.firsts { PredFacts(t, b); }
  }

  lemma SplitKeepsBlocks(t: Tiles, a: nat, n: nat, b: nat)
    requires a in t.ext && 0 < n < t.ext[a] && b in t.ext
    ensures b in Split(t, a, n).ext
  {
  }

  // --------------------------------------------------------------- merging

  function Merge(t: Tiles, a: nat): Tiles
    requires a in t.ext && t.End(a) in t.ext
  {
    var b := t.End(a);
    t.(ext := (t.ext - {b})[a := t.ext[a] + t.ext[b]],
       pred := if t.HasNext(b) then (t.pred - {b})[t.End(b) := a] else t.pred - {b})
  }

  lemma MergeTiled(t: Tiles, a: nat)
    requires Tiled(t) && a in t.ext && t.HasNext(a)
    ensures t.End(a) in t.ext && Tiled(Merge(t, a))
  {
    NextFacts(t, a);
    NextFacts(t, t.End(a));
    var s := Merge(t, a);
    forall c | c in s.ext ensures Followed(s, c) { MergeFollowed(t, a, c); }
    forall c | c in s.ext ensures Preceded(s, c) { MergePreceded(t, a, c); }
    forall c, d | c in s.ext && d in s.ext ensures Apart(s, c, d) { MergeApart(t, a, c, d); }
    forall c, e | c in s.ext && e in s.ends && c < e ensures c + s.ext[c] <= e { MergeEnds(t, a, c, e); }
  }

  lemma MergeEnds(t: Tiles, a: nat, c: nat, e: nat)
    requires Tiled(t) && a in t.ext && t.HasNext(a) && t.End(a) in t.ext && c in Merge(t, a).ext && e in t.ends && c < e
    ensures c + Merge(t, a).ext[c] <= e
  {
    var b := t.End(a);
    assert c in t.ext && b in t.ext;
  }

  lemma MergeFollowed(t: Tiles, a: nat, c: nat)
    requires Tiled(t) && a in t.ext && t.HasNext(a) && t.End(a) in t.ext && c in t.ext && c != t.End(a)
    ensures Followed(Merge(t, a), c)
  {
    NextFacts(t, a);
    NextFacts(t, c);
    NextFacts(t, t.End(a));
    BlocksDisjoint(t, c, t.End(a));
  }

  lemma MergePreceded(t: Tiles, a: nat, c: nat)
    requires Tiled(t) && a in t.ext && t.HasNext(a) && t.End(a) in t.ext && c in t.ext && c != t.End(a)
    ensures Preceded(Merge(t, a), c)
  {
    NextFacts(t, a);
    NextFacts(t, t.End(a));
    assert Preceded(t, c);
    if c !in t.firsts {
      PredFacts(t, c);
      NextFacts(t, t.pred[c]);
    }
  }

  lemma MergeApart(t: Tiles, a: nat, c: nat, d: nat)
    requires Tiled(t) && a in t.ext && t.HasNext(a) && t.End(a) in t.ext && c in t.ext && d in t.ext
    requires c != t.End(a) && d != t.End(a)
    ensures Apart(Merge(t, a), c, d)
  {
    NextFacts(t, a);
    assert Apart(t, c, d) && Apart(t, t.End(a), d) && Apart(t, d, t.End(a));
  }

  // ---------------------------------------------------------------- regions

  function AddRegion(t: Tiles, lo: nat, len: nat): Tiles {
    t.(ext := t.ext[lo := len], firsts := t.firsts + {lo}, ends := t.ends + {lo + len})
  }

  lemma AddRegionTiled(t: Tiles, lo: nat, len: nat)
    requires Tiled(t) && len > 0
    requires forall a :: a in t.ext ==> a + t.ext[a] <= lo || lo + len <= a
    requires forall e :: e in t.ends ==> e <= lo || lo + len < e
    ensures lo !in t.ext && Tiled(AddRegion(t, lo, len))
  {
    var s := AddRegion(t, lo, len);
    if lo in t.ext { NextFacts(t, lo); }
    forall a | a in s.ext ensures Followed(s, a) {
      if a != lo { assert Followed(t, a); }
    }
    forall a | a in s.ext ensures Preceded(s, a) {
      if a != lo { assert Preceded(t, a); if a !in t.firsts { PredFacts(t, a); } }
    }
    forall a, b | a in s.ext && b in s.ext ensures Apart(s, a, b) {
      if a != lo && b != lo { assert Apart(t, a, b); }
      if a != lo { assert Followed(t, a); }
    }
  }

  function DropRegion(t: Tiles, lo: nat): Tiles
    requires lo in t.ext
  {
    t.(ext := t.ext - {lo}, firsts := t.firsts - {lo}, ends := t.ends - {t.End(lo)})
  }

  lemma DropRegionTiled(t: Tiles, lo: nat)
    requires Tiled(t) && lo in t.firsts && !t.HasNext(lo)
    ensures Tiled(DropRegion(t, lo))
  {
    var s := DropRegion(t, lo);
    assert Followed(t, lo);
    forall a | a in s.ext ensures Followed(s, a) {
      assert Followed(t, a);
      BlocksDisjoint(t, a, lo);
      assert Followed(t, lo);
    }
    forall a | a in s.ext ensures Preceded(s, a) {
      assert Preceded(t, a);
      if a !in t.firsts { PredFacts(t, a); }
    }
    forall a, b | a in s.ext && b in s.ext ensures Apart(s, a, b) {
      assert Apart(t, a, b);
    }
  }
}
