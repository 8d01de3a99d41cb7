/** insert_large_chunk and unlink_large_chunk on the malloc state. */
module DlTreeOps {
  import opened Bits
  import opened DlIndex
  import opened DlTrie
  import opened DlForest
  import opened DlUnhook
  import opened DlRing
  import opened Lists
  import opened DlBins

  const TOP_BIT := 0x8000_0000_0000_0000

  /** (K >> (SIZE_T_BITSIZE-1)) & 1 */
  function SignBit(k: int): bool { k / TOP_BIT % 2 == 1 }

  /** A node of another size has room below it. */
  lemma RoomBelow(c: Chunk, p: Pos, s: nat)
    requires Placed(c, p) && InRegion(s, p) && c.size != s
    ensures |p.bits| < Height(p.bin)
  {
  }

  /** Following the key of s keeps every node of size s below the current one. */
  lemma FollowKey(mem: Memory, bins: seq<Addr>, tmap: nat, path: Paths, t: Addr, s: nat, m: Addr)
    requires TreesOk(mem, bins, tmap, path) && t in path && InRegion(s, path[t]) && At(mem, t).size != s
    requires Below(path, m, t) && At(mem, m).size == s
    ensures var c := At(mem, t).Child(SignBit(Key(s, path[t]))); c != 0 && Below(path, m, c)
  {
    hide Key, InRegion, InBin;
    NodesPresent(mem, bins, tmap, path);
    assert Placed(At(mem, t), path[t]);
    RoomBelow(At(mem, t), path[t], s);
    KeyStep(s, path[t]);
    BelowChild(mem, bins, path, m, t);
    var b := path[m].bits[|path[t].bits|];
    assert ChildLinked(mem, path, t, b);
    BelowRegion(mem, path, m, At(mem, t).Child(b));
    if b != SignBit(Key(s, path[t])) {
      HalvesOrdered(path[t], s, s);
    }
  }

  /** Heads and feet are the concern of the heap; the bins only touch link fields. */
  ghost predicate SameHeap(a: Chunk, b: Chunk) {
    a.prevFoot == b.prevFoot && a.size == b.size && a.pinuse == b.pinuse && a.cinuse == b.cinuse
  }

  /** What an operation on the bins leaves alone. */
  ghost predicate LinksOnly(mem: Memory, mem': Memory, touched: set<Addr>) {
    && mem'.Keys == mem.Keys
    && (forall c :: c in mem ==> SameHeap(mem[c], mem'[c]))
    && (forall c :: c in mem && c !in touched ==> mem'[c] == mem[c])
  }

  // ------------------------------------------------------- insertion: cases

  /** The forest with x as a node of its own at place p. */
  function NodeForest(f: Forest, x: Addr, p: Pos): Forest {
    Forest(f.path[x := p], f.ring[x := [x]], f.own[x := x])
  }

  lemma InsertRootOk(mem: Memory, bins: seq<Addr>, tmap: nat, f: Forest, x: Addr, i: nat)
    requires BinsOk(mem, bins, tmap, f) && x in mem && x != 0 && x !in f.own
    requires InBin(mem[x].size, i) && mem[x].size < SIZE_T_LIMIT && !Bit(tmap, i)
    ensures i < |bins|
    ensures BinsOk(mem[x := FreshNode(mem[x], i, BinSlot(i), x)], bins[i := x], SetBit(tmap, i),
      NodeForest(f, x, Pos(i, [])))
  {
    hide InBin, InRegion, Bit, SetBit, RingsOk, TreesOk;
    OutsideTrees(mem, f, x);
    NoSuchSize(mem, bins, tmap, f.path, x, i);
    AddRoot(mem, bins, tmap, f.path, x, i);
    FreshRings(mem, mem[x := FreshNode(mem[x], i, BinSlot(i), x)], f, x, Pos(i, []));
  }

  lemma OutsideTrees(mem: Memory, f: Forest, x: Addr)
    requires RingsOk(mem, f) && x !in f.own
    ensures x !in f.path
  {
    if x in f.path { NodesOwnThemselves(mem, f, x); }
  }

  lemma NoSuchSize(mem: Memory, bins: seq<Addr>, tmap: nat, path: Paths, x: Addr, i: nat)
    requires TreesOk(mem, bins, tmap, path) && x in mem && x != 0 && x !in path
    requires InBin(mem[x].size, i) && mem[x].size < SIZE_T_LIMIT && !Bit(tmap, i)
    ensures i < NTREEBINS == |bins| && bins[i] == 0 && CanAdd(mem, path, x, i)
  {
    hide InRegion, Bit;
    NodesPresent(mem, bins, tmap, path);
    forall n | n in path ensures At(mem, n).size != mem[x].size {
      BelowRoot(mem, bins, path, n);
      assert Placed(At(mem, n), path[n]);
      if At(mem, n).size == mem[x].size { BinsDisjoint(mem[x].size, i, path[n].bin); }
    }
  }

  lemma FreshRings(mem: Memory, mem': Memory, f: Forest, x: Addr, p: Pos)
    requires RingsOk(mem, f) && x !in f.own && x != 0 && x in mem' && At(mem', x).fd == x && At(mem', x).bk == x
    requires forall c :: c in mem && c != x ==> c in mem' && SameRingPart(At(mem, c), At(mem', c), c in f.path)
    ensures RingsOk(mem', NodeForest(f, x, p))
  {
    hide RingsOk;
    forall c | c in f.own ensures c in mem' && SameRingPart(At(mem, c), At(mem', c), c in f.path) {
      MemberFacts(mem, f, c);
    }
    InsertNode(mem, mem', f, x, p);
  }

  lemma InsertLeafOk(mem: Memory, bins: seq<Addr>, tmap: nat, f: Forest, x: Addr, t: Addr, s: nat)
    requires BinsOk(mem, bins, tmap, f) && x in mem && x != 0 && x !in f.own && mem[x].size == s < SIZE_T_LIMIT
    requires t in f.path && t in mem && InRegion(s, f.path[t]) && mem[t].size != s && InBin(s, f.path[t].bin)
    requires forall m :: m in f.path && At(mem, m).size == s ==> Below(f.path, m, t)
    requires At(mem, t).Child(SignBit(Key(s, f.path[t]))) == 0
    ensures var b := SignBit(Key(s, f.path[t]));
      BinsOk(LeafMem(mem, f.path, x, t, b), bins, tmap, NodeForest(f, x, Down(f.path[t], b)))
  {
    hide InBin, InRegion, RingsOk, TreesOk, Key;
    OutsideTrees(mem, f, x);
    LeafRegion(mem, bins, tmap, f.path, t, s);
    forall m | m in f.path ensures At(mem, m).size != s {
      if At(mem, m).size == s { FollowKey(mem, bins, tmap, f.path, t, s, m); }
    }
    var b := SignBit(Key(s, f.path[t]));
    AddLeaf(mem, bins, tmap, f.path, x, t, b);
    FreshRings(mem, LeafMem(mem, f.path, x, t, b), f, x, Down(f.path[t], b));
  }

  lemma LeafRegion(mem: Memory, bins: seq<Addr>, tmap: nat, path: Paths, t: Addr, s: nat)
    requires TreesOk(mem, bins, tmap, path) && t in path && InRegion(s, path[t]) && At(mem, t).size != s
    ensures ValidPos(path[t]) && |path[t].bits| < Height(path[t].bin)
    ensures 0 <= Key(s, path[t]) < SIZE_T_LIMIT && InRegion(s, Down(path[t], SignBit(Key(s, path[t]))))
    ensures 2 * Key(s, path[t]) % SIZE_T_LIMIT == Key(s, Down(path[t], SignBit(Key(s, path[t]))))
  {
    hide InRegion, InBin, Key;
    assert Placed(At(mem, t), path[t]);
    RoomBelow(At(mem, t), path[t], s);
    KeyStep(s, path[t]);
  }

  lemma MembersAdded(mem: Memory, mem': Memory, bins: seq<Addr>, tmap: nat, f: Forest, f': Forest, x: Addr, s: nat)
    requires BinsOk(mem, bins, tmap, f) && f'.own.Keys == f.own.Keys + {x} && mem'.Keys == mem.Keys && x in mem
      && mem[x].size == s
    requires forall c :: c in mem ==> SameHeap(mem[c], mem'[c])
    ensures Members(mem', f') == Members(mem, f)[x := s]
  {
    hide RingsOk;
    forall c | c in f.own ensures c in mem { MemberFacts(mem, f, c); }
  }

  /** A chunk outside the bins may change at will. */
  lemma OutsideFree(mem: Memory, bins: seq<Addr>, tmap: nat, f: Forest, x: Addr, c: Chunk)
    requires BinsOk(mem, bins, tmap, f) && x in mem && x !in f.own
    ensures BinsOk(mem[x := c], bins, tmap, f)
  {
    hide TreesOk, RingsOk;
    OutsideTrees(mem, f, x);
    NodesPresent(mem, bins, tmap, f.path);
    TreeFrame(mem, mem[x := c], bins, tmap, f.path);
    OutsideRings(mem, f, x, c);
  }

  lemma OutsideRings(mem: Memory, f: Forest, x: Addr, c: Chunk)
    requires RingsOk(mem, f) && x in mem && x !in f.own
    ensures RingsOk(mem[x := c], f)
  {
    forall n | n in f.ring ensures RingOf(mem[x := c], f.ring[n], n) {
      NodesOwnThemselves(mem, f, n);
      forall d | d in f.ring[n] ensures d in mem { NeighbourIn(mem, f.ring[n], d); }
      RingFrame(mem, mem[x := c], f.ring[n], n);
    }
  }

  // --------------------------------------------------------- removal: cases

  /** A chunk is alone in its ring exactly when its bk field names itself. */
  lemma AloneTest(mem: Memory, f: Forest, x: Addr)
    requires RingsOk(mem, f) && x in f.own
    ensures x in mem && f.own[x] in f.ring && x in f.ring[f.own[x]]
    ensures mem[x].bk == x <==> x in f.path && f.ring[x] == [x]
    ensures mem[x].bk != x ==> |f.ring[f.own[x]]| >= 2
    ensures mem[x].parent == NoParent ==> x !in f.path || mem[x].parent == NoParent
  {
    MemberFacts(mem, f, x);
    var r := f.ring[f.own[x]];
    var j: nat :| j < |r| && r[j] == x;
    assert Linked(mem, r, j);
    if |r| == 1 { assert r == [x]; }
  }

  /** Only nodes have a parent. */
  lemma ParentTest(mem: Memory, bins: seq<Addr>, tmap: nat, f: Forest, x: Addr)
    requires BinsOk(mem, bins, tmap, f) && x in f.own
    ensures x in mem && (At(mem, x).parent == NoParent <==> x !in f.path)
  {
    hide InBin, InRegion;
    MemberFacts(mem, f, x);
    if x in f.path { assert ParentLinked(mem, bins, f.path, x); }
  }

  /** The children of a node below x are nodes below x. */
  lemma ChildBelow(mem: Memory, bins: seq<Addr>, tmap: nat, path: Paths, x: Addr, r: Addr, b: bool)
    requires TreesOk(mem, bins, tmap, path) && Below(path, r, x) && At(mem, r).Child(b) != 0
    ensures var c := At(mem, r).Child(b);
      c in mem && Below(path, c, x) && c != x && |path[c].bits| == |path[r].bits| + 1
    ensures At(mem, At(mem, r).Child(b)).parent == Above(r)
    ensures (At(mem, r).child0 != At(mem, r).Child(b)) == b
    ensures |path[r].bits| < Height(path[r].bin)
  {
    hide InRegion, InBin;
    NodesPresent(mem, bins, tmap, path);
    var c := At(mem, r).Child(b);
    assert ChildLinked(mem, path, r, b) && ChildLinked(mem, path, r, !b);
    assert Last(Down(path[r], b)) == b && Last(Down(path[r], !b)) == !b;
    assert path[c].bits[..|path[r].bits|] == path[r].bits;
    assert Placed(At(mem, c), path[c]) && |path[c].bits| == |path[r].bits| + 1;
    OnlyParentPoints(mem, bins, path, c, r, b);
  }

  function NoRoots(): seq<Addr> { seq(NTREEBINS, i => 0) }

  lemma EmptyTrees(mem: Memory)
    ensures BinsOk(mem, NoRoots(), 0, Forest(map[], map[], map[]))
  {
    forall i: nat ensures !Bit(0, i) { ZeroBits(i); }
  }

  class TreeBins {
    var mem: Memory
    var treebins: seq<Addr>
    var treemap: nat
    ghost var forest: Forest

    ghost predicate Valid()
      reads this
    {
      BinsOk(mem, treebins, treemap, forest)
    }

    /** No tree has a chunk. */
    constructor ()
      ensures Valid() && mem == map[] && treebins == NoRoots() && treemap == 0 && forest == Forest(map[], map[], map[])
    {
      mem, treebins, treemap := map[], NoRoots(), 0;
      forest := Forest(map[], map[], map[]);
      EmptyTrees(map[]);
    }

    /** The loop of insert_large_chunk: down the tree along the bits of s, to a node of size s
        or to a missing child on the branch that s takes. */
    method Descend(s: nat, i: nat) returns (t: Addr, k: nat)
      requires Valid() && InBin(s, i) && s < SIZE_T_LIMIT && Bit(treemap, i)
      ensures t in mem && t in forest.path && k == Key(s, forest.path[t]) && InRegion(s, forest.path[t])
      ensures forest.path[t].bin == i == mem[t].index
      ensures mem[t].size == s || mem[t].Child(SignBit(k)) == 0
      ensures forall m :: m in forest.path && At(mem, m).size == s ==> Below(forest.path, m, t)
    {
      ghost var path := forest.path;
      Entry(mem, treebins, treemap, path, s, i);
      hide BinsOk, TreesOk, InBin, InRegion, Key, Bit;
      t := treebins[i];
      k := s * Pow2(LeftShift(i)) % SIZE_T_LIMIT;
      NodesPresent(mem, treebins, treemap, path);
      while mem[t].size != s
        invariant t in mem && t in path && path[t].bin == i && InRegion(s, path[t]) && k == Key(s, path[t])
        invariant forall m :: m in path && At(mem, m).size == s ==> Below(path, m, t)
        decreases Height(i) - |path[t].bits|
      {
        LeafRegion(mem, treebins, treemap, path, t, s);
        var c := mem[t].Child(SignBit(k));
        if c == 0 { break; }
        StepDown(mem, treebins, treemap, path, t, s);
        t := c;
        k := 2 * k % SIZE_T_LIMIT;
      }
      NodeIndex(mem, treebins, treemap, path, t);
    }

    /** insert_large_chunk. */
    method InsertLargeChunk(x: Addr, s: nat)
      requires Valid() && x in mem && x != 0 && x !in forest.own && mem[x].size == s
      requires MIN_LARGE_SIZE <= s < SIZE_T_LIMIT
      modifies this
      ensures Valid() && forest.own.Keys == old(forest.own.Keys) + {x}
      ensures Members(mem, forest) == old(Members(mem, forest))[x := s]
      ensures LinksOnly(old(mem), mem, old(forest.own.Keys) + {x})
    {
      hide BinsOk, ComputeTreeIndex, Bit, SetBit, Members, Key, LeafMem, ChainMem;
      var i := ComputeTreeIndex(s);
      ghost var m0, bins0, tmap0, f0 := mem, treebins, treemap, forest;
      IndexInBin(s);
      OutsideFree(mem, treebins, treemap, forest, x, mem[x].(index := i, child0 := 0, child1 := 0));
      mem := mem[x := mem[x].(index := i, child0 := 0, child1 := 0)];
      if !Bit(treemap, i) {
        AddAsRoot(x, i);
      } else {
        var t, k := Descend(s, i);
        if mem[t].size != s {
          AddAsLeaf(x, t, k, s);
        } else {
          AddToRing(x, t);
        }
      }
      MembersAdded(m0, mem, bins0, tmap0, f0, forest, x, s);
    }

    method AddAsRoot(x: Addr, i: nat)
      requires Valid() && x in mem && x != 0 && x !in forest.own && mem[x].size < SIZE_T_LIMIT
      requires InBin(mem[x].size, i) && !Bit(treemap, i) && mem[x].index == i && mem[x].child0 == 0
        && mem[x].child1 == 0
      modifies this
      ensures Valid() && forest.own == old(forest.own)[x := x]
      ensures LinksOnly(old(mem), mem, old(forest.own.Keys) + {x})
    {
      hide BinsOk, InBin, Bit, SetBit;
      InsertRootOk(mem, treebins, treemap, forest, x, i);
      ghost var m1 := mem;
      treemap := SetBit(treemap, i);
      treebins := treebins[i := x];
      mem := mem[x := mem[x].(parent := BinSlot(i))];
      mem := mem[x := mem[x].(fd := x, bk := x)];
      assert mem == m1[x := FreshNode(m1[x], i, BinSlot(i), x)];
      forest := NodeForest(forest, x, Pos(i, []));
    }

    method AddAsLeaf(x: Addr, t: Addr, k: nat, s: nat)
      requires Valid() && x in mem && x != 0 && x !in forest.own && mem[x].size == s && s < SIZE_T_LIMIT
      requires t in mem && t in forest.path && k == Key(s, forest.path[t]) && InRegion(s, forest.path[t])
      requires InBin(s, forest.path[t].bin) && mem[x].index == forest.path[t].bin
      requires mem[x].child0 == 0 && mem[x].child1 == 0 && mem[t].size != s && mem[t].Child(SignBit(k)) == 0
      requires forall m :: m in forest.path && At(mem, m).size == s ==> Below(forest.path, m, t)
      modifies this
      ensures Valid() && forest.own == old(forest.own)[x := x]
      ensures LinksOnly(old(mem), mem, old(forest.own.Keys) + {x})
    {
      hide BinsOk, Key, InRegion, InBin;
      ghost var m1 := mem;
      InsertLeafOk(mem, treebins, treemap, forest, x, t, s);
      InsideOwn(mem, treebins, treemap, forest, t);
      mem := mem[t := mem[t].SetChild(SignBit(k), x)];
      mem := mem[x := mem[x].(parent := Above(t), fd := x, bk := x)];
      assert mem == LeafMem(m1, forest.path, x, t, SignBit(k));
      forest := NodeForest(forest, x, Down(forest.path[t], SignBit(k)));
    }

    method AddToRing(x: Addr, t: Addr)
      requires Valid() && x in mem && x != 0 && x !in forest.own && t in forest.path && t in mem
      requires mem[x].size == mem[t].size && mem[x].index == mem[t].index && mem[x].child0 == 0 && mem[x].child1 == 0
      modifies this
      ensures Valid() && forest.own == old(forest.own)[x := t]
      ensures LinksOnly(old(mem), mem, old(forest.own.Keys) + {x})
    {
      hide BinsOk, LinksOnly;
      ghost var m1 := mem;
      ChainLinksOnly(mem, treebins, treemap, forest, t, x);
      InsertChained(mem, treebins, treemap, forest, x, t);
      InsideOwn(mem, treebins, treemap, forest, t);
      mem := mem[x := mem[x].(parent := NoParent)];
      var f := mem[t].fd;
      mem := mem[t := mem[t].(fd := x)];
      mem := mem[f := mem[f].(bk := x)];
      mem := mem[x := mem[x].(fd := f, bk := t)];
      assert mem == ChainMem(m1, t, x);
      forest := ChainForest(forest, t, x);
    }

    /** The replacement for a lone node: the rightmost leaf below it, or null.  `rp` and `side`
        are the RP pointer, the child field that holds it. */
    method FindLeaf(x: Addr) returns (r: Addr, rp: Addr, side: bool)
      requires Valid() && x in forest.path && x in mem
      ensures r == 0 <==> mem[x].child0 == 0 && mem[x].child1 == 0
      ensures r != 0 ==> r in mem && r != x && Below(forest.path, r, x) && mem[r].child0 == 0 && mem[r].child1 == 0
      ensures r != 0 ==> rp in mem && mem[r].parent == Above(rp) && (mem[rp].child0 != r) == side
    {
      ghost var path := forest.path;
      hide InRegion, InBin, RingsOk, TreesOk;
      rp, side := x, true;
      r := mem[x].child1;
      if r == 0 {
        side := false;
        r := mem[x].child0;
      }
      if r != 0 {
        ChildBelow(mem, treebins, treemap, path, x, x, side);
        while mem[r].child1 != 0 || mem[r].child0 != 0
          invariant r != 0 && r in mem && r != x && Below(path, r, x)
          invariant rp in mem && mem[r].parent == Above(rp) && (mem[rp].child0 != r) == side
          invariant |path[r].bits| <= Height(path[x].bin)
          decreases Height(path[x].bin) - |path[r].bits|
        {
          rp, side := r, mem[r].child1 != 0;
          ChildBelow(mem, treebins, treemap, path, x, r, side);
          r := mem[r].Child(side);
        }
      }
    }

    /** The last part of unlink_large_chunk: r, if any, takes the place of the node x. */
    method Relink(x: Addr, r: Addr)
      requires TreesOk(mem, treebins, treemap, forest.path) && x in forest.path && x in mem
      requires r != 0 ==> CanReplace(mem, forest.path, x, r)
      requires r == 0 ==> mem[x].child0 == 0 && mem[x].child1 == 0
      modifies this`mem, this`treebins, this`treemap
      ensures treebins == HookBins(old(mem), old(treebins), x, r)
      ensures r == 0 ==> mem == HookMem(old(mem), x, 0)
      ensures r != 0 ==> mem == ReplaceMem(old(mem), x, r)
      ensures treemap == if r == 0 && old(mem)[x].parent.BinSlot? then ClearBit(old(treemap), old(mem)[x].index)
        else old(treemap)
    {
      hide InRegion, InBin, SizesUnique, ClearBit;
      RootTest(mem, treebins, treemap, forest.path, x);
      RelinkPresent(mem, treebins, treemap, forest.path, x);
      var xp, i := mem[x].parent, mem[x].index;
      ghost var m0 := mem;
      if treebins[i] == x {
        treebins := treebins[i := r];
        if r == 0 {
          treemap := ClearBit(treemap, i);
        }
      } else {
        if mem[xp.a].child0 == x {
          mem := mem[xp.a := mem[xp.a].(child0 := r)];
        } else {
          mem := mem[xp.a := mem[xp.a].(child1 := r)];
        }
      }
      assert mem == HookMem(m0, x, r);
      if r != 0 {
        Adopt(x, r);
      }
    }

    method Adopt(x: Addr, r: Addr)
      requires x in mem && r in mem && x != r
      requires (mem[x].child0 != 0 ==> mem[x].child0 in mem) && (mem[x].child1 != 0 ==> mem[x].child1 in mem)
      requires mem[x].child0 != x && mem[x].child1 != x
      modifies this`mem
      ensures mem == AdoptMem(old(mem), x, r)
    {
      mem := mem[r := mem[r].(parent := mem[x].parent)];
      var c0 := mem[x].child0;
      if c0 != 0 {
        mem := mem[r := mem[r].(child0 := c0)];
        mem := mem[c0 := mem[c0].(parent := Above(r))];
      }
      var c1 := mem[x].child1;
      if c1 != 0 {
        mem := mem[r := mem[r].(child1 := c1)];
        mem := mem[c1 := mem[c1].(parent := Above(r))];
      }
    }

    /** First part of unlink_large_chunk, for a chunk that shares its ring: the neighbours
        close up, and the chunk before x is its replacement. */
    method LeaveRing(x: Addr) returns (r: Addr, ghost f': Forest)
      requires Valid() && x in forest.own && x in mem && mem[x].bk != x
      modifies this`mem
      ensures LinksOnly(old(mem), mem, forest.own.Keys)
      ensures x in mem && mem[x].parent == old(mem)[x].parent
      ensures mem[x].parent == NoParent ==> BinsOk(mem, treebins, treemap, f')
      ensures mem[x].parent != NoParent ==> Relinkable(mem, treebins, treemap, forest.path, x, r, f')
      ensures f'.own.Keys == forest.own.Keys - {x}
      ensures r != 0 && r in forest.own && r in mem
    {
      hide BinsOk, TreesOk, LinksOnly;
      ghost var m0 := mem;
      SharedFacts(mem, treebins, treemap, forest, x);
      r := mem[x].bk;
      var f := mem[x].fd;
      mem := mem[f := mem[f].(bk := r)];
      mem := mem[r := mem[r].(fd := f)];
      assert mem == LeaveMem(m0, x);
      if mem[x].parent == NoParent {
        f' := RemoveChainedAny(m0, treebins, treemap, forest, x);
      } else {
        f' := HeadlessForest(forest, x);
      }
    }

    /** First part for a chunk alone in its ring: the leaf that replaces it is cut off. */
    method CutLeaf(x: Addr) returns (r: Addr, ghost path': Paths, ghost f': Forest)
      requires Valid() && x in forest.own && x in mem && mem[x].bk == x
      modifies this`mem
      ensures LinksOnly(old(mem), mem, forest.own.Keys)
      ensures x in mem && mem[x].parent == old(mem)[x].parent && mem[x].parent != NoParent
      ensures Relinkable(mem, treebins, treemap, path', x, r, f')
      ensures f'.own.Keys == forest.own.Keys - {x}
      ensures path'.Keys <= forest.path.Keys && (r != 0 ==> r in forest.path && r in mem)
    {
      hide BinsOk, TreesOk, LinksOnly;
      LoneFacts(mem, treebins, treemap, forest, x);
      var rp, side;
      r, rp, side := FindLeaf(x);
      path' := forest.path;
      f' := DropForest(forest, forest.path - {x}, x);
      if r != 0 {
        LoneInner(mem, treebins, treemap, forest, x, r);
        path' := forest.path - {r};
        f' := DropForest(forest, Replaced(forest.path - {r}, x, r), x);
        mem := mem[rp := mem[rp].SetChild(side, 0)];
        assert mem == HookMem(old(mem), r, 0);
      }
    }

    /** unlink_large_chunk. */
    method UnlinkLargeChunk(x: Addr)
      requires Valid() && x in forest.own
      modifies this
      ensures Valid() && forest.own.Keys == old(forest.own.Keys) - {x}
      ensures Members(mem, forest) == old(Members(mem, forest)) - {x}
      ensures LinksOnly(old(mem), mem, old(forest.own.Keys))
    {
      hide BinsOk, TreesOk, LinksOnly, Members, CanReplace;
      ghost var m0, f0, bins0, tmap0 := mem, forest, treebins, treemap;
      ParentTest(mem, treebins, treemap, forest, x);
      OwnsNodes(mem, treebins, treemap, forest);
      var r;
      ghost var path', f' := forest.path, forest;
      if mem[x].bk != x {
        r, f' := LeaveRing(x);
      } else {
        r, path', f' := CutLeaf(x);
      }
      if mem[x].parent != NoParent {
        RelinkLinks(m0, mem, treebins, treemap, path', x, r, f0.own.Keys);
        forest := forest.(path := path');
        Relink(x, r);
      }
      forest := f';
      MembersRemoved(m0, mem, bins0, tmap0, f0, forest, x);
    }
  }

  /** m is ready for x to be replaced by r (or dropped), and f' describes the result. */
  ghost predicate Relinkable(m: Memory, bins: seq<Addr>, tmap: nat, path: Paths, x: Addr, r: Addr, f': Forest) {
    && TreesOk(m, bins, tmap, path) && x in path && x in m
    && (r != 0 ==> CanReplace(m, path, x, r) && BinsOk(ReplaceMem(m, x, r), HookBins(m, bins, x, r), tmap, f'))
    && (r == 0 ==> m[x].child0 == 0 && m[x].child1 == 0)
    && (r == 0 ==> var tmap' := if m[x].parent.BinSlot? then ClearBit(tmap, m[x].index) else tmap;
                   BinsOk(HookMem(m, x, 0), HookBins(m, bins, x, 0), tmap', f'))
  }

  lemma MembersRemoved(mem: Memory, mem': Memory, bins: seq<Addr>, tmap: nat, f: Forest, f': Forest, x: Addr)
    requires BinsOk(mem, bins, tmap, f) && f'.own.Keys == f.own.Keys - {x} && LinksOnly(mem, mem', f.own.Keys)
    ensures Members(mem', f') == Members(mem, f) - {x}
  {
    hide TreesOk, RingsOk;
    forall c | c in f.own ensures c in mem { MemberFacts(mem, f, c); }
  }

  lemma RemoveChainedAny(mem: Memory, bins: seq<Addr>, tmap: nat, f: Forest, x: Addr) returns (f': Forest)
    requires BinsOk(mem, bins, tmap, f) && x in f.own && x in mem && mem[x].parent == NoParent
    ensures BinsOk(LeaveMem(mem, x), bins, tmap, f') && f'.own.Keys == f.own.Keys - {x}
  {
    hide TreesOk;
    ParentTest(mem, bins, tmap, f, x);
    MemberFacts(mem, f, x);
    var n := f.own[x];
    var j := RingIndex(f.ring[n], x);
    RemoveChained(mem, bins, tmap, f, x, j);
    f' := Forest(f.path, f.ring[n := Without(f.ring[n], j)], f.own - {x});
  }

  lemma SharedFacts(mem: Memory, bins: seq<Addr>, tmap: nat, f: Forest, x: Addr)
    requires BinsOk(mem, bins, tmap, f) && x in f.own && x in mem && mem[x].bk != x
    ensures mem[x].fd in f.own && mem[x].bk in f.own && mem[x].fd in mem && mem[x].bk in mem && mem[x].bk != 0
    ensures LinksOnly(mem, LeaveMem(mem, x), f.own.Keys) && At(LeaveMem(mem, x), x).parent == mem[x].parent
    ensures mem[x].parent != NoParent ==>
      && x in f.path && x in f.ring && |f.ring[x]| >= 2
      && Relinkable(LeaveMem(mem, x), bins, tmap, f.path, x, mem[x].bk, HeadlessForest(f, x))
      && HeadlessForest(f, x).own.Keys == f.own.Keys - {x}
  {
    hide TreesOk, CanReplace;
    AloneTest(mem, f, x);
    ParentTest(mem, bins, tmap, f, x);
    MemberFacts(mem, f, x);
    NeighbourIn(mem, f.ring[f.own[x]], x);
    MemberFacts(mem, f, mem[x].bk);
    if mem[x].parent != NoParent { RemoveHead(mem, bins, tmap, f, x); }
  }

  lemma LoneFacts(mem: Memory, bins: seq<Addr>, tmap: nat, f: Forest, x: Addr)
    requires BinsOk(mem, bins, tmap, f) && x in f.own && x in mem && mem[x].bk == x
    ensures x in f.path && mem[x].parent != NoParent && LinksOnly(mem, mem, f.own.Keys)
    ensures mem[x].child0 == 0 && mem[x].child1 == 0 ==>
      Relinkable(mem, bins, tmap, f.path, x, 0, DropForest(f, f.path - {x}, x))
  {
    hide TreesOk;
    AloneTest(mem, f, x);
    ParentTest(mem, bins, tmap, f, x);
    if mem[x].child0 == 0 && mem[x].child1 == 0 { RemoveLone(mem, bins, tmap, f, x); }
  }

  lemma LoneInner(mem: Memory, bins: seq<Addr>, tmap: nat, f: Forest, x: Addr, r: Addr)
    requires BinsOk(mem, bins, tmap, f) && x in f.path && x in mem && mem[x].bk == x
    requires r in mem && r != x && r != 0 && Below(f.path, r, x) && mem[r].child0 == 0 && mem[r].child1 == 0
    requires mem[r].parent.Above?
    ensures Relinkable(HookMem(mem, r, 0), bins, tmap, f.path - {r}, x, r,
      DropForest(f, Replaced(f.path - {r}, x, r), x))
    ensures LinksOnly(mem, HookMem(mem, r, 0), f.own.Keys)
    ensures At(HookMem(mem, r, 0), x).parent == mem[x].parent && x in HookMem(mem, r, 0)
  {
    hide TreesOk, CanReplace;
    NodesOwnThemselves(mem, f, x);
    AloneTest(mem, f, x);
    RemoveInner(mem, bins, tmap, f, x, r);
    LeafCanReplace(mem, bins, tmap, f.path, x, r);
    RootTest(mem, bins, tmap, f.path, r);
    NodesOwnThemselves(mem, f, mem[r].parent.a);
    MemberFacts(mem, f, mem[r].parent.a);
  }

  lemma RelinkLinks(m0: Memory, m1: Memory, bins: seq<Addr>, tmap: nat, path: Paths, x: Addr, r: Addr, own: set<Addr>)
    requires LinksOnly(m0, m1, own) && TreesOk(m1, bins, tmap, path) && x in path && path.Keys <= own
    requires r != 0 ==> r in own && r in m1
    ensures LinksOnly(m0, if r == 0 then HookMem(m1, x, 0) else ReplaceMem(m1, x, r), own)
  {
    RelinkPresent(m1, bins, tmap, path, x);
    hide InRegion, InBin, SizesUnique, NodesPlaced, RootsLinked;
    assert ParentLinked(m1, bins, path, x) && ChildLinked(m1, path, x, false) && ChildLinked(m1, path, x, true);
    assert At(m1, x).Child(false) == m1[x].child0 && At(m1, x).Child(true) == m1[x].child1;
    HookLinks(m0, m1, x, r, own);
    if r != 0 { AdoptLinks(m0, HookMem(m1, x, r), x, r, own); }
  }

  lemma HookLinks(m0: Memory, m1: Memory, x: Addr, r: Addr, own: set<Addr>)
    requires LinksOnly(m0, m1, own)
      && (At(m1, x).parent.Above? ==> At(m1, x).parent.a in own && At(m1, x).parent.a in m1)
    ensures LinksOnly(m0, HookMem(m1, x, r), own)
  {
  }

  lemma AdoptLinks(m0: Memory, m1: Memory, x: Addr, r: Addr, own: set<Addr>)
    requires LinksOnly(m0, m1, own) && r in own && r in m1
    requires At(m1, x).child0 != 0 ==> At(m1, x).child0 in own && At(m1, x).child0 in m1
    requires At(m1, x).child1 != 0 ==> At(m1, x).child1 in own && At(m1, x).child1 in m1
    ensures LinksOnly(m0, AdoptMem(m1, x, r), own)
  {
    hide LinksOnly;
    var c0, c1 := At(m1, x).child0, At(m1, x).child1;
    var m2 := OneLink(m0, m1, r, At(m1, r).(parent := At(m1, x).parent), own);
    if c0 != 0 {
      m2 := OneLink(m0, m2, r, At(m2, r).(child0 := c0), own);
      m2 := OneLink(m0, m2, c0, At(m2, c0).(parent := Above(r)), own);
    }
    if c1 != 0 {
      m2 := OneLink(m0, m2, r, At(m2, r).(child1 := c1), own);
      m2 := OneLink(m0, m2, c1, At(m2, c1).(parent := Above(r)), own);
    }
  }

  lemma OneLink(m0: Memory, m1: Memory, a: Addr, c: Chunk, own: set<Addr>) returns (m2: Memory)
    requires LinksOnly(m0, m1, own) && a in own && a in m1 && SameHeap(At(m1, a), c)
    ensures m2 == m1[a := c] && LinksOnly(m0, m2, own)
  {
    m2 := m1[a := c];
  }

  lemma OwnsNodes(mem: Memory, bins: seq<Addr>, tmap: nat, f: Forest)
    requires BinsOk(mem, bins, tmap, f)
    ensures f.path.Keys <= f.own.Keys
  {
    forall n | n in f.path ensures n in f.own { NodesOwnThemselves(mem, f, n); }
  }

  lemma RelinkPresent(mem: Memory, bins: seq<Addr>, tmap: nat, path: Paths, x: Addr)
    requires TreesOk(mem, bins, tmap, path) && x in path
    ensures x in mem && (mem[x].parent.Above? ==> mem[x].parent.a in mem && mem[x].parent.a != x)
    ensures mem[x].child0 != x && mem[x].child1 != x
    ensures (mem[x].child0 != 0 ==> mem[x].child0 in mem) && (mem[x].child1 != 0 ==> mem[x].child1 in mem)
    ensures mem[x].parent.BinSlot? ==> mem[x].parent.i == mem[x].index
  {
    hide InRegion, InBin, SizesUnique;
    NodesPresent(mem, bins, tmap, path);
    assert ParentLinked(mem, bins, path, x) && ChildLinked(mem, path, x, false) && ChildLinked(mem, path, x, true);
    assert At(mem, x).Child(false) == mem[x].child0 && At(mem, x).Child(true) == mem[x].child1;
    assert Placed(At(mem, x), path[x]);
    if path[x].bits != [] { SideOf(mem, bins, path, x); }
    if mem[x].child0 == x { OnlyParentPoints(mem, bins, path, x, x, false); }
    if mem[x].child1 == x { OnlyParentPoints(mem, bins, path, x, x, true); }
  }

  lemma NodeIndex(mem: Memory, bins: seq<Addr>, tmap: nat, path: Paths, t: Addr)
    requires TreesOk(mem, bins, tmap, path) && t in path
    ensures t in mem && mem[t].index == path[t].bin
  {
    assert Placed(At(mem, t), path[t]);
  }

  lemma ChainLinksOnly(mem: Memory, bins: seq<Addr>, tmap: nat, f: Forest, t: Addr, x: Addr)
    requires BinsOk(mem, bins, tmap, f) && t in f.path && x in mem && x !in f.own
    ensures LinksOnly(mem, ChainMem(mem, t, x), f.own.Keys + {x})
  {
    hide BinsOk;
    InsideOwn(mem, bins, tmap, f, t);
  }

  /** A node, its neighbours in its ring, and the chunks in general: all are members. */
  lemma InsideOwn(mem: Memory, bins: seq<Addr>, tmap: nat, f: Forest, t: Addr)
    requires BinsOk(mem, bins, tmap, f) && t in f.path
    ensures t in f.own && t in mem && At(mem, t).fd in f.own && At(mem, t).fd in mem && t in f.ring && f.ring[t] != []
  {
    NodesOwnThemselves(mem, f, t);
    NeighbourIn(mem, f.ring[t], t);
  }

  lemma Entry(mem: Memory, bins: seq<Addr>, tmap: nat, path: Paths, s: nat, i: nat)
    requires TreesOk(mem, bins, tmap, path) && InBin(s, i) && s < SIZE_T_LIMIT && Bit(tmap, i)
    ensures i < |bins| && bins[i] in path && bins[i] in mem && path[bins[i]].bin == i && InRegion(s, path[bins[i]])
    ensures s * Pow2(LeftShift(i)) % SIZE_T_LIMIT == Key(s, path[bins[i]])
    ensures forall m :: m in path && At(mem, m).size == s ==> Below(path, m, bins[i])
  {
    hide Key, InRegion, Bit;
    NodesPresent(mem, bins, tmap, path);
    RootRegion(s, i);
    KeyStart(s, i);
    forall m | m in path && At(mem, m).size == s ensures Below(path, m, bins[i]) {
      assert Placed(At(mem, m), path[m]);
      BinsDisjoint(s, i, path[m].bin);
      BelowRoot(mem, bins, path, m);
    }
  }

  lemma StepDown(mem: Memory, bins: seq<Addr>, tmap: nat, path: Paths, t: Addr, s: nat)
    requires TreesOk(mem, bins, tmap, path) && t in path && InRegion(s, path[t]) && At(mem, t).size != s
    requires At(mem, t).Child(SignBit(Key(s, path[t]))) != 0
    requires forall m :: m in path && At(mem, m).size == s ==> Below(path, m, t)
    ensures var c := At(mem, t).Child(SignBit(Key(s, path[t])));
      && c in path && c in mem && path[c] == Down(path[t], SignBit(Key(s, path[t])))
      && forall m :: m in path && At(mem, m).size == s ==> Below(path, m, c)
  {
    hide Key, InRegion;
    assert ChildLinked(mem, path, t, SignBit(Key(s, path[t])));
    forall m | m in path && At(mem, m).size == s ensures Below(path, m, At(mem, t).Child(SignBit(Key(s, path[t])))) {
      FollowKey(mem, bins, tmap, path, t, s, m);
    }
  }
}
