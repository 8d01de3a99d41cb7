/** Well-formed tree bins: do_check_treebin and do_check_tree as predicates over the memory,
    and what they imply about the way sizes are ordered in a trie. */
module DlForest {
  import opened Bits
  import opened DlIndex
  import opened DlTrie

  /** Place of each tree node. */
  type Paths = map<Addr, Pos>

  /** A node stands in its bin at a place whose region holds its size. */
  ghost predicate Placed(c: Chunk, p: Pos) {
    ValidPos(p) && c.index == p.bin && InBin(c.size, c.index) && c.size < SIZE_T_LIMIT && InRegion(c.size, p)
  }

  ghost predicate NodesPlaced(mem: Memory, path: Paths) {
    forall n :: n in path ==> n in mem && n != 0 && Placed(At(mem, n), path[n])
  }

  ghost predicate SizesUnique(mem: Memory, path: Paths) {
    forall m, n :: m in path && n in path && At(mem, m).size == At(mem, n).size ==> m == n
  }

  /** A child pointer leads one step down. */
  ghost predicate ChildLinked(mem: Memory, path: Paths, n: Addr, b: bool)
    requires n in path
  {
    At(mem, n).Child(b) == 0 || (At(mem, n).Child(b) in path && path[At(mem, n).Child(b)] == Down(path[n], b))
  }

  ghost predicate ChildrenLinked(mem: Memory, path: Paths) {
    forall n, b {:trigger ChildLinked(mem, path, n, b)} :: n in path ==> ChildLinked(mem, path, n, b)
  }

  /** A parent field leads one step up, or from a root to its bin. */
  ghost predicate ParentLinked(mem: Memory, bins: seq<Addr>, path: Paths, n: Addr)
    requires n in path
  {
    if path[n].bits == [] then
      At(mem, n).parent == BinSlot(path[n].bin) && path[n].bin < |bins| && bins[path[n].bin] == n
    else
      && At(mem, n).parent.Above? && At(mem, n).parent.a in path && path[At(mem, n).parent.a] == Init(path[n])
      && At(mem, At(mem, n).parent.a).Child(Last(path[n])) == n
  }

  ghost predicate ParentsLinked(mem: Memory, bins: seq<Addr>, path: Paths) {
    forall n {:trigger ParentLinked(mem, bins, path, n)} :: n in path ==> ParentLinked(mem, bins, path, n)
  }

  /** Each bin slot names the root of its tree, and its treemap bit says whether it has one. */
  ghost predicate RootsLinked(bins: seq<Addr>, tmap: nat, path: Paths) {
    && |bins| == NTREEBINS && tmap < Pow2(32)
    && forall i: nat {:trigger bins[i]} :: i < NTREEBINS ==>
         && (Bit(tmap, i) <==> bins[i] != 0)
         && (bins[i] != 0 ==> bins[i] in path && path[bins[i]] == Pos(i, []))
  }

  ghost predicate TreesOk(mem: Memory, bins: seq<Addr>, tmap: nat, path: Paths) {
    && NodesPlaced(mem, path) && SizesUnique(mem, path) && RootsLinked(bins, tmap, path)
    && ChildrenLinked(mem, path) && ParentsLinked(mem, bins, path)
  }

  // ------------------------------------------------- uniqueness and subtrees

  lemma {:induction false} PlaceUnique(mem: Memory, bins: seq<Addr>, path: Paths, m: Addr, n: Addr)
    requires ParentsLinked(mem, bins, path) && m in path && n in path && path[m] == path[n]
    ensures m == n
    decreases |path[m].bits|
  {
    assert ParentLinked(mem, bins, path, m) && ParentLinked(mem, bins, path, n);
    if path[m].bits != [] {
      PlaceUnique(mem, bins, path, At(mem, m).parent.a, At(mem, n).parent.a);
    }
  }

  ghost predicate Below(path: Paths, m: Addr, t: Addr) {
    m in path && t in path && path[m].bin == path[t].bin && path[t].bits <= path[m].bits
  }

  /** A node below t that is not t lies below one of the children of t. */
  lemma {:induction false} BelowChild(mem: Memory, bins: seq<Addr>, path: Paths, m: Addr, t: Addr)
    requires ParentsLinked(mem, bins, path) && ChildrenLinked(mem, path) && Below(path, m, t) && m != t && 0 !in path
    ensures |path[t].bits| < |path[m].bits|
    ensures var b := path[m].bits[|path[t].bits|]; At(mem, t).Child(b) != 0 && Below(path, m, At(mem, t).Child(b))
    decreases |path[m].bits|
  {
    var tb, mb := path[t].bits, path[m].bits;
    if |tb| == |mb| {
      assert tb == mb;
      PlaceUnique(mem, bins, path, m, t);
    } else {
      assert ParentLinked(mem, bins, path, m);
      var p := At(mem, m).parent.a;
      if |tb| + 1 == |mb| {
        assert path[p].bits == tb;
        PlaceUnique(mem, bins, path, p, t);
      } else {
        assert tb <= path[p].bits && path[p].bits[|tb|] == mb[|tb|];
        PrefixOfInit(At(mem, t).Child(mb[|tb|]), path, p, m);
        BelowChild(mem, bins, path, p, t);
      }
    }
  }

  lemma PrefixOfInit(c: Addr, path: Paths, p: Addr, m: Addr)
    requires m in path && p in path && path[m].bits != [] && path[p] == Init(path[m])
    ensures Below(path, p, c) ==> Below(path, m, c)
  {
  }

  /** Everything below t has a size in the region of t. */
  lemma BelowRegion(mem: Memory, path: Paths, m: Addr, t: Addr)
    requires NodesPlaced(mem, path) && Below(path, m, t)
    ensures InRegion(At(mem, m).size, path[t])
  {
    RegionNested(path[t], path[m]);
  }

  /** All nodes of a bin lie below its root. */
  lemma {:induction false} BelowRoot(mem: Memory, bins: seq<Addr>, path: Paths, m: Addr)
    requires ParentsLinked(mem, bins, path) && m in path
    ensures path[m].bin < |bins| && Below(path, m, bins[path[m].bin])
    decreases |path[m].bits|
  {
    assert ParentLinked(mem, bins, path, m);
    if path[m].bits != [] {
      BelowRoot(mem, bins, path, At(mem, m).parent.a);
    }
  }

  lemma HalvesOrdered(p: Pos, x: nat, y: nat)
    requires ValidPos(p) && |p.bits| < Height(p.bin) && InRegion(x, Down(p, false)) && InRegion(y, Down(p, true))
    ensures x < y
  {
    DownRegion(p, false);
    DownRegion(p, true);
  }

  // ------------------------------------------------------ changes to the trees

  /** A chunk that starts a tree of its own, or a leaf: no children, ring of itself. */
  function FreshNode(c: Chunk, i: nat, parent: Parent, x: Addr): Chunk {
    c.(index := i, child0 := 0, child1 := 0, parent := parent, fd := x, bk := x)
  }

  /** x can be added: it is a chunk outside the trees whose size no node has. */
  ghost predicate CanAdd(mem: Memory, path: Paths, x: Addr, i: nat) {
    && x in mem && x != 0 && x !in path && InBin(mem[x].size, i) && mem[x].size < SIZE_T_LIMIT
    && forall n :: n in path ==> At(mem, n).size != mem[x].size
  }

  lemma MapBelow(tmap: nat, i: nat)
    requires tmap < Pow2(32) && i < 32
    ensures SetBit(tmap, i) < Pow2(32) && ClearBit(tmap, i) < Pow2(32)
  {
    Pow2Grows(i, 32);
    OrBelow(tmap, Pow2(i), 32);
    AndNotBelow(tmap, Pow2(i));
  }

  /** Adding one node keeps all nodes placed and their sizes distinct. */
  lemma AddedPlaced(mem: Memory, mem': Memory, path: Paths, x: Addr, p: Pos)
    requires NodesPlaced(mem, path) && SizesUnique(mem, path) && CanAdd(mem, path, x, p.bin) && InRegion(mem[x].size, p)
    requires mem'.Keys == mem.Keys && mem'[x].index == p.bin
    requires forall n :: n in mem ==> mem'[n].size == mem[n].size && (n != x ==> mem'[n].index == mem[n].index)
    ensures NodesPlaced(mem', path[x := p]) && SizesUnique(mem', path[x := p])
  {
    hide InBin, InRegion;
    assert ValidPos(p) by { hide *; InRegionValid(mem[x].size, p); }
  }

  lemma InRegionValid(s: nat, p: Pos)
    requires InRegion(s, p)
    ensures ValidPos(p)
  {
  }

  lemma AddRoot(mem: Memory, bins: seq<Addr>, tmap: nat, path: Paths, x: Addr, i: nat)
    requires TreesOk(mem, bins, tmap, path) && CanAdd(mem, path, x, i) && i < NTREEBINS && bins[i] == 0
    ensures TreesOk(mem[x := FreshNode(mem[x], i, BinSlot(i), x)], bins[i := x], SetBit(tmap, i), path[x := Pos(i, [])])
  {
    hide InBin, InRegion, Bit, SetBit, Placed, ChildrenLinked, ParentsLinked, NodesPlaced, SizesUnique;
    RootRegion(mem[x].size, i);
    MapBelow(tmap, i);
    AddedPlaced(mem, mem[x := FreshNode(mem[x], i, BinSlot(i), x)], path, x, Pos(i, []));
    NodesNotNull(mem, path);
    AddRootLinks(mem, bins, path, x, i);
  }

  lemma NodesNotNull(mem: Memory, path: Paths)
    requires NodesPlaced(mem, path)
    ensures 0 !in path
  {
  }

  lemma AddRootLinks(mem: Memory, bins: seq<Addr>, path: Paths, x: Addr, i: nat)
    requires ChildrenLinked(mem, path) && ParentsLinked(mem, bins, path) && 0 !in path
    requires x in mem && x !in path && i < |bins| && bins[i] == 0
    ensures ChildrenLinked(mem[x := FreshNode(mem[x], i, BinSlot(i), x)], path[x := Pos(i, [])])
    ensures ParentsLinked(mem[x := FreshNode(mem[x], i, BinSlot(i), x)], bins[i := x], path[x := Pos(i, [])])
  {
    var mem', path', bins' := mem[x := FreshNode(mem[x], i, BinSlot(i), x)], path[x := Pos(i, [])], bins[i := x];
    forall n | n in path' ensures ParentLinked(mem', bins', path', n) {
      if n != x { assert ParentLinked(mem, bins, path, n); }
    }
    forall n, b | n in path' ensures ChildLinked(mem', path', n, b) {
      if n != x { assert ChildLinked(mem, path, n, b); }
    }
  }

  function LeafMem(mem: Memory, path: Paths, x: Addr, t: Addr, b: bool): Memory
    requires x in mem && t in mem && t in path
  {
    mem[x := FreshNode(mem[x], path[t].bin, Above(t), x)][t := mem[t].SetChild(b, x)]
  }

  lemma AddLeaf(mem: Memory, bins: seq<Addr>, tmap: nat, path: Paths, x: Addr, t: Addr, b: bool)
    requires TreesOk(mem, bins, tmap, path) && t in path && t in mem && At(mem, t).Child(b) == 0
    requires CanAdd(mem, path, x, path[t].bin) && InRegion(mem[x].size, Down(path[t], b))
    ensures TreesOk(LeafMem(mem, path, x, t, b), bins, tmap, path[x := Down(path[t], b)])
  {
    hide InBin, InRegion, Bit, Placed, ChildrenLinked, ParentsLinked, SizesUnique;
    assert 0 !in path;
    AddedPlaced(mem, LeafMem(mem, path, x, t, b), path, x, Down(path[t], b));
    AddLeafLinks(mem, bins, path, x, t, b);
  }

  lemma AddLeafLinks(mem: Memory, bins: seq<Addr>, path: Paths, x: Addr, t: Addr, b: bool)
    requires ChildrenLinked(mem, path) && ParentsLinked(mem, bins, path) && 0 !in path
    requires t in path && t in mem && At(mem, t).Child(b) == 0 && x in mem && x !in path && x != 0
    ensures ChildrenLinked(LeafMem(mem, path, x, t, b), path[x := Down(path[t], b)])
    ensures ParentsLinked(LeafMem(mem, path, x, t, b), bins, path[x := Down(path[t], b)])
  {
    var mem', path' := LeafMem(mem, path, x, t, b), path[x := Down(path[t], b)];
    assert Init(path'[x]) == path[t];
    forall n | n in path' ensures ParentLinked(mem', bins, path', n) {
      if n != x { assert ParentLinked(mem, bins, path, n); }
    }
    forall n, c | n in path' ensures ChildLinked(mem', path', n, c) {
      if n != x { assert ChildLinked(mem, path, n, c); }
    }
  }
}
