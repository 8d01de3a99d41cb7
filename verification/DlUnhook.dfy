/** Taking a node out of a tree: as a leaf, or by putting another chunk in its place. */
module DlUnhook {
  import opened Bits
  import opened DlIndex
  import opened DlTrie
  import opened DlForest

  /** The pointer to x in its parent is overwritten with r. */
  function HookMem(mem: Memory, x: Addr, r: Addr): Memory {
    match At(mem, x).parent
    case Above(p) => mem[p := At(mem, p).SetChild(At(mem, p).child0 != x, r)]
    case _ => mem
  }

  function HookBins(mem: Memory, bins: seq<Addr>, x: Addr, r: Addr): seq<Addr> {
    match At(mem, x).parent
    case BinSlot(i) => if i < |bins| then bins[i := r] else bins
    case _ => bins
  }

  /** The root test `X == *H` tells roots from inner nodes. */
  lemma RootTest(mem: Memory, bins: seq<Addr>, tmap: nat, path: Paths, x: Addr)
    requires TreesOk(mem, bins, tmap, path) && x in path
    ensures At(mem, x).index < NTREEBINS
    ensures bins[At(mem, x).index] == x <==> At(mem, x).parent == BinSlot(At(mem, x).index)
    ensures At(mem, x).parent != BinSlot(At(mem, x).index) ==> At(mem, x).parent.Above? && At(mem, x).parent.a in path
  {
    hide InBin, InRegion, SizesUnique, ChildrenLinked;
    assert ParentLinked(mem, bins, path, x);
  }

  /** Which of its parent's children x is. */
  lemma SideOf(mem: Memory, bins: seq<Addr>, path: Paths, x: Addr)
    requires ParentsLinked(mem, bins, path) && ChildrenLinked(mem, path) && x in path && 0 !in path
      && path[x].bits != []
    ensures At(mem, x).parent.Above? && At(mem, x).parent.a in path && path[At(mem, x).parent.a] == Init(path[x])
    ensures At(mem, x).parent.a != x
    ensures (At(mem, At(mem, x).parent.a).child0 != x) == Last(path[x])
    ensures At(mem, At(mem, x).parent.a).Child(Last(path[x])) == x
    ensures At(mem, At(mem, x).parent.a).Child(!Last(path[x])) != x
  {
    assert ParentLinked(mem, bins, path, x);
    var p := At(mem, x).parent.a;
    assert ChildLinked(mem, path, p, !Last(path[x]));
    assert Last(Down(path[p], !Last(path[x]))) == !Last(path[x]);
  }

  /** A child pointer to x in another node is the one its parent holds. */
  lemma OnlyParentPoints(mem: Memory, bins: seq<Addr>, path: Paths, x: Addr, n: Addr, c: bool)
    requires ParentsLinked(mem, bins, path) && ChildrenLinked(mem, path) && x in path && 0 !in path && n in path
    requires At(mem, n).Child(c) == x
    ensures path[x].bits != [] && At(mem, x).parent == Above(n) && c == Last(path[x])
  {
    assert ChildLinked(mem, path, n, c) && ParentLinked(mem, bins, path, x);
    assert Init(path[x]) == path[n];
    PlaceUnique(mem, bins, path, n, At(mem, x).parent.a);
  }

  // -------------------------------------------------------------- leaves

  lemma LeafPlaced(mem: Memory, mem': Memory, path: Paths, x: Addr)
    requires NodesPlaced(mem, path) && SizesUnique(mem, path) && mem'.Keys == mem.Keys
    requires forall n :: n in mem ==> mem'[n].size == mem[n].size && mem'[n].index == mem[n].index
    ensures NodesPlaced(mem', path - {x}) && SizesUnique(mem', path - {x})
  {
    hide InBin, InRegion, ValidPos;
  }

  lemma HookKeepsSizes(mem: Memory, x: Addr, r: Addr)
    requires At(mem, x).parent.Above? ==> At(mem, x).parent.a in mem
    ensures HookMem(mem, x, r).Keys == mem.Keys
    ensures forall n :: n in mem ==>
      HookMem(mem, x, r)[n].size == mem[n].size && HookMem(mem, x, r)[n].index == mem[n].index
  {
  }

  /** A leaf goes. */
  lemma RemoveLeaf(mem: Memory, bins: seq<Addr>, tmap: nat, path: Paths, x: Addr)
    requires TreesOk(mem, bins, tmap, path) && x in path && At(mem, x).child0 == 0 && At(mem, x).child1 == 0
    ensures TreesOk(HookMem(mem, x, 0), HookBins(mem, bins, x, 0),
                    if At(mem, x).parent.BinSlot? then ClearBit(tmap, At(mem, x).index) else tmap, path - {x})
  {
    hide InBin, InRegion;
    assert ParentLinked(mem, bins, path, x);
    HookKeepsSizes(mem, x, 0);
    LeafPlaced(mem, HookMem(mem, x, 0), path, x);
    assert 0 !in path;
    assert Placed(At(mem, x), path[x]);
    LeafLinks(mem, bins, path, x);
    LeafRoots(mem, bins, tmap, path, x);
    hide HookMem, HookBins, ChildrenLinked, ParentsLinked, NodesPlaced, SizesUnique;
  }

  lemma LeafLinks(mem: Memory, bins: seq<Addr>, path: Paths, x: Addr)
    requires ChildrenLinked(mem, path) && ParentsLinked(mem, bins, path) && 0 !in path && x in path
    requires forall n :: n in path ==> n in mem
    requires At(mem, x).child0 == 0 && At(mem, x).child1 == 0
    ensures ChildrenLinked(HookMem(mem, x, 0), path - {x})
    ensures ParentsLinked(HookMem(mem, x, 0), HookBins(mem, bins, x, 0), path - {x})
  {
    var mem', bins', path' := HookMem(mem, x, 0), HookBins(mem, bins, x, 0), path - {x};
    assert ParentLinked(mem, bins, path, x);
    if path[x].bits != [] { SideOf(mem, bins, path, x); }
    forall n | n in path' ensures ParentLinked(mem', bins', path', n) {
      assert ParentLinked(mem, bins, path, n);
    }
    forall n, c | n in path' ensures ChildLinked(mem', path', n, c) {
      assert ChildLinked(mem, path, n, c);
      if At(mem, n).Child(c) == x { OnlyParentPoints(mem, bins, path, x, n, c); }
    }
  }

  lemma LeafRoots(mem: Memory, bins: seq<Addr>, tmap: nat, path: Paths, x: Addr)
    requires RootsLinked(bins, tmap, path) && ParentsLinked(mem, bins, path) && 0 !in path && x in path
    requires At(mem, x).index == path[x].bin < NTREEBINS
    ensures RootsLinked(HookBins(mem, bins, x, 0),
                        if At(mem, x).parent.BinSlot? then ClearBit(tmap, At(mem, x).index) else tmap, path - {x})
  {
    assert ParentLinked(mem, bins, path, x);
    hide Bit, ClearBit;
    MapBelow(tmap, At(mem, x).index);
  }

  // --------------------------------------------------------- replacements

  /** r takes over the parent field and the children of x. */
  function AdoptMem(mem: Memory, x: Addr, r: Addr): Memory {
    var c0, c1 := At(mem, x).child0, At(mem, x).child1;
    var m1 := mem[r := At(mem, r).(parent := At(mem, x).parent)];
    var m2 := if c0 != 0 then m1[r := At(m1, r).(child0 := c0)] else m1;
    var m3 := if c0 != 0 then m2[c0 := At(m2, c0).(parent := Above(r))] else m2;
    var m4 := if c1 != 0 then m3[r := At(m3, r).(child1 := c1)] else m3;
    if c1 != 0 then m4[c1 := At(m4, c1).(parent := Above(r))] else m4
  }

  /** r stands outside the trees, has no children, and its size belongs at the place of x. */
  ghost predicate CanReplace(mem: Memory, path: Paths, x: Addr, r: Addr) {
    && x in path && r in mem && r != 0 && r !in path && At(mem, r).child0 == 0 && At(mem, r).child1 == 0
    && Placed(At(mem, r), path[x])
    && forall n :: n in path && n != x ==> At(mem, n).size != At(mem, r).size
  }

  function ReplaceMem(mem: Memory, x: Addr, r: Addr): Memory {
    AdoptMem(HookMem(mem, x, r), x, r)
  }

  /** The chunk at each address after the replacement. */
  lemma ReplacedAt(mem: Memory, bins: seq<Addr>, path: Paths, x: Addr, r: Addr, n: Addr)
    requires ChildrenLinked(mem, path) && ParentsLinked(mem, bins, path) && 0 !in path
      && (forall m :: m in path ==> m in mem)
    requires x in path && r in mem && r !in path && r != 0 && At(mem, r).child0 == 0 && At(mem, r).child1 == 0
    ensures var mem' := ReplaceMem(mem, x, r); var c0, c1 := At(mem, x).child0, At(mem, x).child1;
      var o, o' := At(mem, n), At(mem', n);
      && mem'.Keys == mem.Keys
      && (n == r ==> o' == o.(parent := At(mem, x).parent, child0 := c0, child1 := c1))
      && (n != r && n in path && path[x].bits != [] && At(mem, x).parent == Above(n) ==>
        o' == o.SetChild(Last(path[x]), r))
      && (n != r && n != 0 && (n == c0 || n == c1) ==> o' == o.(parent := Above(r)))
      && (n != r && At(mem, x).parent != Above(n) && (n == 0 || (n != c0 && n != c1)) ==> o' == o)
  {
    assert ParentLinked(mem, bins, path, x) && ChildLinked(mem, path, x, false) && ChildLinked(mem, path, x, true);
    if path[x].bits != [] { SideOf(mem, bins, path, x); }
  }

  function Replaced(path: Paths, x: Addr, r: Addr): Paths
    requires x in path
  {
    (path - {x})[r := path[x]]
  }

  lemma ReplaceLinks(mem: Memory, bins: seq<Addr>, path: Paths, x: Addr, r: Addr)
    requires ChildrenLinked(mem, path) && ParentsLinked(mem, bins, path) && 0 !in path
      && (forall m :: m in path ==> m in mem)
    requires x in path && r in mem && r !in path && r != 0 && At(mem, r).child0 == 0 && At(mem, r).child1 == 0
    ensures ParentsLinked(ReplaceMem(mem, x, r), HookBins(mem, bins, x, r), Replaced(path, x, r))
    ensures ChildrenLinked(ReplaceMem(mem, x, r), Replaced(path, x, r))
  {
    ReplacedAt(mem, bins, path, x, r, r);
    var path' := Replaced(path, x, r);
    forall n | n in path' ensures ParentLinked(ReplaceMem(mem, x, r), HookBins(mem, bins, x, r), path', n) {
      ReplaceParent(mem, bins, path, x, r, n);
    }
    forall n, c | n in path' ensures ChildLinked(ReplaceMem(mem, x, r), path', n, c) {
      ReplaceChild(mem, bins, path, x, r, n, c);
    }
  }

  lemma ReplaceParent(mem: Memory, bins: seq<Addr>, path: Paths, x: Addr, r: Addr, n: Addr)
    requires ChildrenLinked(mem, path) && ParentsLinked(mem, bins, path) && 0 !in path
      && (forall m :: m in path ==> m in mem)
    requires x in path && r in mem && r !in path && r != 0 && At(mem, r).child0 == 0 && At(mem, r).child1 == 0
    requires n in Replaced(path, x, r)
    ensures ParentLinked(ReplaceMem(mem, x, r), HookBins(mem, bins, x, r), Replaced(path, x, r), n)
  {
    if n == r {
      ReplaceParentOfNew(mem, bins, path, x, r);
    } else if path[n].bits == [] {
      ReplaceParentOfRoot(mem, bins, path, x, r, n);
    } else {
      ReplaceParentOfInner(mem, bins, path, x, r, n);
    }
  }

  lemma ReplaceParentOfNew(mem: Memory, bins: seq<Addr>, path: Paths, x: Addr, r: Addr)
    requires ChildrenLinked(mem, path) && ParentsLinked(mem, bins, path) && 0 !in path
      && (forall m :: m in path ==> m in mem)
    requires x in path && r in mem && r !in path && r != 0 && At(mem, r).child0 == 0 && At(mem, r).child1 == 0
    ensures ParentLinked(ReplaceMem(mem, x, r), HookBins(mem, bins, x, r), Replaced(path, x, r), r)
  {
    hide ReplaceMem;
    ReplacedAt(mem, bins, path, x, r, r);
    assert ParentLinked(mem, bins, path, x);
    if path[x].bits != [] {
      SideOf(mem, bins, path, x);
      ReplacedAt(mem, bins, path, x, r, At(mem, x).parent.a);
    }
  }

  lemma ReplaceParentOfRoot(mem: Memory, bins: seq<Addr>, path: Paths, x: Addr, r: Addr, n: Addr)
    requires ChildrenLinked(mem, path) && ParentsLinked(mem, bins, path) && 0 !in path
      && (forall m :: m in path ==> m in mem)
    requires x in path && r in mem && r !in path && r != 0 && At(mem, r).child0 == 0 && At(mem, r).child1 == 0
    requires n in path && n != x && path[n].bits == []
    ensures ParentLinked(ReplaceMem(mem, x, r), HookBins(mem, bins, x, r), Replaced(path, x, r), n)
  {
    hide ReplaceMem;
    ReplacedAt(mem, bins, path, x, r, n);
    assert ParentLinked(mem, bins, path, n) && ParentLinked(mem, bins, path, x);
    assert ChildLinked(mem, path, x, false) && ChildLinked(mem, path, x, true);
  }

  lemma ReplaceParentOfInner(mem: Memory, bins: seq<Addr>, path: Paths, x: Addr, r: Addr, n: Addr)
    requires ChildrenLinked(mem, path) && ParentsLinked(mem, bins, path) && 0 !in path
      && (forall m :: m in path ==> m in mem)
    requires x in path && r in mem && r !in path && r != 0 && At(mem, r).child0 == 0 && At(mem, r).child1 == 0
    requires n in path && n != x && path[n].bits != []
    ensures ParentLinked(ReplaceMem(mem, x, r), HookBins(mem, bins, x, r), Replaced(path, x, r), n)
  {
    hide ReplaceMem, HookBins;
    SideOf(mem, bins, path, n);
    if At(mem, n).parent == Above(x) {
      ReplaceParentOfChild(mem, bins, path, x, r, n);
    } else {
      ReplaceParentOfOther(mem, bins, path, x, r, n);
    }
  }

  lemma ReplaceParentOfChild(mem: Memory, bins: seq<Addr>, path: Paths, x: Addr, r: Addr, n: Addr)
    requires ChildrenLinked(mem, path) && ParentsLinked(mem, bins, path) && 0 !in path
      && (forall m :: m in path ==> m in mem)
    requires x in path && r in mem && r !in path && r != 0 && At(mem, r).child0 == 0 && At(mem, r).child1 == 0
    requires n in path && n != x && path[n].bits != [] && At(mem, n).parent == Above(x)
    ensures ParentLinked(ReplaceMem(mem, x, r), HookBins(mem, bins, x, r), Replaced(path, x, r), n)
  {
    hide ReplaceMem, HookBins;
    SideOf(mem, bins, path, n);
    ReplacedAt(mem, bins, path, x, r, n);
    ReplacedAt(mem, bins, path, x, r, r);
  }

  lemma ReplaceParentOfOther(mem: Memory, bins: seq<Addr>, path: Paths, x: Addr, r: Addr, n: Addr)
    requires ChildrenLinked(mem, path) && ParentsLinked(mem, bins, path) && 0 !in path
      && (forall m :: m in path ==> m in mem)
    requires x in path && r in mem && r !in path && r != 0 && At(mem, r).child0 == 0 && At(mem, r).child1 == 0
    requires n in path && n != x && path[n].bits != [] && At(mem, n).parent != Above(x)
    ensures ParentLinked(ReplaceMem(mem, x, r), HookBins(mem, bins, x, r), Replaced(path, x, r), n)
  {
    hide ReplaceMem, HookBins;
    SideOf(mem, bins, path, n);
    ReplacedAt(mem, bins, path, x, r, n);
    ReplacedAt(mem, bins, path, x, r, At(mem, n).parent.a);
    NoChildOf(mem, bins, path, x, n);
    if path[x].bits != [] { SideOf(mem, bins, path, x); } else { assert ParentLinked(mem, bins, path, x); }
  }

  lemma NoChildOf(mem: Memory, bins: seq<Addr>, path: Paths, x: Addr, n: Addr)
    requires ChildrenLinked(mem, path) && ParentsLinked(mem, bins, path) && 0 !in path
    requires x in path && n in path && path[n].bits != [] && At(mem, n).parent != Above(x)
    ensures n != At(mem, x).child0 && n != At(mem, x).child1
  {
    if n == At(mem, x).child0 { OnlyParentPoints(mem, bins, path, n, x, false); }
    if n == At(mem, x).child1 { OnlyParentPoints(mem, bins, path, n, x, true); }
  }

  lemma ReplaceChild(mem: Memory, bins: seq<Addr>, path: Paths, x: Addr, r: Addr, n: Addr, c: bool)
    requires ChildrenLinked(mem, path) && ParentsLinked(mem, bins, path) && 0 !in path
      && (forall m :: m in path ==> m in mem)
    requires x in path && r in mem && r !in path && r != 0 && At(mem, r).child0 == 0 && At(mem, r).child1 == 0
    requires n in Replaced(path, x, r)
    ensures ChildLinked(ReplaceMem(mem, x, r), Replaced(path, x, r), n, c)
  {
    hide ReplaceMem;
    ReplacedAt(mem, bins, path, x, r, n);
    assert ParentLinked(mem, bins, path, x);
    if n == r {
      assert ChildLinked(mem, path, x, c);
      if At(mem, x).Child(c) == x { OnlyParentPoints(mem, bins, path, x, x, c); SideOf(mem, bins, path, x); }
    } else {
      assert ChildLinked(mem, path, n, c);
      if At(mem, n).Child(c) == x {
        OnlyParentPoints(mem, bins, path, x, n, c);
        if n == At(mem, x).child0 || n == At(mem, x).child1 { ChildNotParent(mem, path, x, n, c); }
      } else if path[x].bits != [] && At(mem, x).parent == Above(n) {
        SideOf(mem, bins, path, x);
      }
    }
  }

  /** The parent of x is not its child. */
  lemma ChildNotParent(mem: Memory, path: Paths, x: Addr, n: Addr, c: bool)
    requires ChildrenLinked(mem, path) && x in path && n in path && 0 !in path && At(mem, n).Child(c) == x
    ensures At(mem, x).child0 != n && At(mem, x).child1 != n
  {
    assert ChildLinked(mem, path, n, c) && ChildLinked(mem, path, x, false) && ChildLinked(mem, path, x, true);
    assert |path[x].bits| == |path[n].bits| + 1;
    assert |Down(path[x], false).bits| == |Down(path[x], true).bits| == |path[x].bits| + 1;
  }

  lemma ReplaceSizes(mem: Memory, bins: seq<Addr>, path: Paths, x: Addr, r: Addr, n: Addr)
    requires ChildrenLinked(mem, path) && ParentsLinked(mem, bins, path) && 0 !in path
      && (forall m :: m in path ==> m in mem)
    requires CanReplace(mem, path, x, r) && n in Replaced(path, x, r)
    ensures var o := At(ReplaceMem(mem, x, r), n); o.size == At(mem, n).size && o.index == At(mem, n).index
    ensures ReplaceMem(mem, x, r).Keys == mem.Keys
  {
    hide ReplaceMem, Placed;
    ReplacedAt(mem, bins, path, x, r, n);
    if path[x].bits == [] { assert ParentLinked(mem, bins, path, x); }
  }

  /** r takes the place of x. */
  lemma ReplaceNode(mem: Memory, bins: seq<Addr>, tmap: nat, path: Paths, x: Addr, r: Addr)
    requires TreesOk(mem, bins, tmap, path) && CanReplace(mem, path, x, r)
    ensures TreesOk(ReplaceMem(mem, x, r), HookBins(mem, bins, x, r), tmap, Replaced(path, x, r))
  {
    assert 0 !in path && forall m :: m in path ==> m in mem;
    ReplaceLinks(mem, bins, path, x, r);
    hide ReplaceMem, Placed, ChildrenLinked, ParentsLinked, RootsLinked;
    var mem', path' := ReplaceMem(mem, x, r), Replaced(path, x, r);
    assert NodesPlaced(mem', path') && SizesUnique(mem', path') by {
      forall n | n in path' ensures At(mem', n).size == At(mem, n).size && At(mem', n).index == At(mem, n).index
        && n in mem'
      {
        ReplaceSizes(mem, bins, path, x, r, n);
      }
      SamePlaced(mem, mem', path, x, r);
    }
    ReplaceRoots(mem, bins, tmap, path, x, r);
  }

  lemma SamePlaced(mem: Memory, mem': Memory, path: Paths, x: Addr, r: Addr)
    requires NodesPlaced(mem, path) && SizesUnique(mem, path) && CanReplace(mem, path, x, r)
    requires forall n :: n in Replaced(path, x, r) ==>
      At(mem', n).size == At(mem, n).size && At(mem', n).index == At(mem, n).index && n in mem'
    ensures NodesPlaced(mem', Replaced(path, x, r)) && SizesUnique(mem', Replaced(path, x, r))
  {
    hide InBin, InRegion, ValidPos;
  }

  lemma ReplaceRoots(mem: Memory, bins: seq<Addr>, tmap: nat, path: Paths, x: Addr, r: Addr)
    requires RootsLinked(bins, tmap, path) && ParentsLinked(mem, bins, path) && x in path && r !in path && r != 0
      && 0 !in path
    ensures RootsLinked(HookBins(mem, bins, x, r), tmap, Replaced(path, x, r))
  {
    hide Bit;
    assert ParentLinked(mem, bins, path, x);
  }
}
