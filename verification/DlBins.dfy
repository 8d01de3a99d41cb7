/** The tree bins with their rings of equal-sized chunks: how each macro changes them. */
module DlBins {
  import opened Bits
  import opened DlIndex
  import opened DlTrie
  import opened DlForest
  import opened DlUnhook
  import opened DlRing
  import opened Lists

  /** Ghost view of the tree bins: the place of each tree node, the ring that hangs off it
      (itself first), and for every chunk in the bins the node of its ring. */
  datatype Forest = Forest(path: Paths, ring: map<Addr, seq<Addr>>, own: map<Addr, Addr>)

  /** A chained member: free of tree links, and equal to its node in size. */
  ghost predicate Chained(c: Chunk, n: Chunk) {
    c.parent == NoParent && c.child0 == 0 && c.child1 == 0 && c.size == n.size && c.index == n.index
  }

  /** The ring of node n: of all its members only n has a parent. */
  ghost predicate RingOf(mem: Memory, r: seq<Addr>, n: Addr) {
    Cycle(mem, r) && r[0] == n && forall c :: c in r && c != n ==> Chained(At(mem, c), At(mem, n))
  }

  ghost predicate RingsOk(mem: Memory, f: Forest) {
    && f.ring.Keys == f.path.Keys
    && (forall n {:trigger RingOf(mem, f.ring[n], n)} :: n in f.ring ==> RingOf(mem, f.ring[n], n))
    && (forall n, c {:trigger c in f.ring[n]} :: n in f.ring && c in f.ring[n] ==> c in f.own && f.own[c] == n)
    && (forall c :: c in f.own ==> f.own[c] in f.ring && c in f.ring[f.own[c]])
  }

  ghost predicate BinsOk(mem: Memory, bins: seq<Addr>, tmap: nat, f: Forest) {
    TreesOk(mem, bins, tmap, f.path) && RingsOk(mem, f)
  }

  /** The chunks in the bins, with their sizes. */
  ghost function Members(mem: Memory, f: Forest): map<Addr, nat> {
    map c | c in f.own :: At(mem, c).size
  }

  lemma NodesOwnThemselves(mem: Memory, f: Forest, n: Addr)
    requires RingsOk(mem, f) && n in f.path
    ensures n in f.own && f.own[n] == n && RingOf(mem, f.ring[n], n)
  {
    assert RingOf(mem, f.ring[n], n) && f.ring[n][0] in f.ring[n];
  }

  lemma MemberFacts(mem: Memory, f: Forest, c: Addr)
    requires RingsOk(mem, f) && c in f.own
    ensures f.own[c] in f.path && c in mem && c != 0 && RingOf(mem, f.ring[f.own[c]], f.own[c]) && c in f.ring[f.own[c]]
    ensures c in f.path ==> f.own[c] == c
    ensures c !in f.path ==> Chained(At(mem, c), At(mem, f.own[c]))
    ensures At(mem, c).size == At(mem, f.own[c]).size
  {
    var n := f.own[c];
    assert RingOf(mem, f.ring[n], n);
    var r := f.ring[n];
    var j: nat :| j < |r| && r[j] == c;
    assert Linked(mem, r, j);
    if c in f.path { NodesOwnThemselves(mem, f, c); }
  }

  /** Rings do not feel changes to the tree links of their nodes. */
  lemma RingFrame(mem: Memory, mem': Memory, r: seq<Addr>, n: Addr)
    requires RingOf(mem, r, n)
    requires forall c :: c in r ==> c in mem' && SameRingPart(At(mem, c), At(mem', c), c == n)
    ensures RingOf(mem', r, n)
  {
    CycleFrame(mem, mem', r);
    assert r[0] in r;
  }

  ghost predicate SameRingPart(a: Chunk, b: Chunk, node: bool) {
    && a.fd == b.fd && a.bk == b.bk && a.size == b.size && a.index == b.index
    && (node || (a.parent == b.parent && a.child0 == b.child0 && a.child1 == b.child1))
  }

  // -------------------------------------------------------------- insertion

  /** A chunk that becomes a node of its own. */
  lemma InsertNode(mem: Memory, mem': Memory, f: Forest, x: Addr, p: Pos)
    requires RingsOk(mem, f) && x !in f.own && x in mem' && x != 0 && At(mem', x).fd == x && At(mem', x).bk == x
    requires forall c :: c in f.own ==> c in mem' && SameRingPart(At(mem, c), At(mem', c), c in f.path)
    ensures RingsOk(mem', Forest(f.path[x := p], f.ring[x := [x]], f.own[x := x]))
  {
    var f' := Forest(f.path[x := p], f.ring[x := [x]], f.own[x := x]);
    NewCycle(mem', x);
    if x in f.path { NodesOwnThemselves(mem, f, x); }
    forall n | n in f'.ring ensures RingOf(mem', f'.ring[n], n) {
      if n != x {
        NodesOwnThemselves(mem, f, n);
        forall c | c in f.ring[n] ensures c in mem' && SameRingPart(At(mem, c), At(mem', c), c == n) {
          if c in f.path { NodesOwnThemselves(mem, f, c); }
        }
        RingFrame(mem, mem', f.ring[n], n);
      }
    }
  }

  /** The trees only depend on the tree fields of their nodes. */
  lemma TreeFrame(mem: Memory, mem': Memory, bins: seq<Addr>, tmap: nat, path: Paths)
    requires TreesOk(mem, bins, tmap, path)
    requires forall n :: n in path ==> n in mem' && SameTreePart(At(mem, n), At(mem', n))
    ensures TreesOk(mem', bins, tmap, path)
  {
    hide InBin, InRegion, ValidPos;
    forall n | n in path ensures ParentLinked(mem', bins, path, n) { assert ParentLinked(mem, bins, path, n); }
    forall n, b | n in path ensures ChildLinked(mem', path, n, b) { assert ChildLinked(mem, path, n, b); }
  }

  ghost predicate SameTreePart(a: Chunk, b: Chunk) {
    a.size == b.size && a.index == b.index && a.parent == b.parent && a.child0 == b.child0 && a.child1 == b.child1
  }

  /** x with its own fields set, linked in behind t. */
  function ChainMem(mem: Memory, t: Addr, x: Addr): Memory {
    JoinMem(mem[x := At(mem, x).(index := At(mem, t).index, child0 := 0, child1 := 0, parent := NoParent)], t, x)
  }

  function ChainForest(f: Forest, t: Addr, x: Addr): Forest
    requires t in f.ring && f.ring[t] != []
  {
    Forest(f.path, f.ring[t := [t, x] + f.ring[t][1..]], f.own[x := t])
  }

  /** Which chunks the links of a ring can name. */
  lemma NeighbourIn(mem: Memory, r: seq<Addr>, c: Addr)
    requires Cycle(mem, r) && c in r
    ensures c in mem && At(mem, c).fd in r && At(mem, c).bk in r && At(mem, c).fd in mem && At(mem, c).bk in mem
  {
    var j: nat :| j < |r| && r[j] == c;
    assert Linked(mem, r, j);
    assert Linked(mem, r, if j + 1 < |r| then j + 1 else 0) && Linked(mem, r, if j > 0 then j - 1 else |r| - 1);
  }

  lemma InsertChained(mem: Memory, bins: seq<Addr>, tmap: nat, f: Forest, x: Addr, t: Addr)
    requires BinsOk(mem, bins, tmap, f) && t in f.path && x !in f.own && x in mem && x != 0
    requires At(mem, x).size == At(mem, t).size
    ensures t in mem && t != x && mem[t].fd in mem && f.ring[t] != []
    ensures BinsOk(ChainMem(mem, t, x), bins, tmap, ChainForest(f, t, x))
  {
    hide TreesOk, RingOf, ChainMem, Cycle;
    NodesOwnThemselves(mem, f, t);
    ChainRing(mem, f.ring[t], t, x);
    var r, mem', f' := f.ring[t], ChainMem(mem, t, x), ChainForest(f, t, x);
    ChainTrees(mem, bins, tmap, f, x, t);
    forall n | n in f'.ring ensures RingOf(mem', f'.ring[n], n) {
      if n != t { OtherRing(mem, mem', f, t, n, x); }
    }
    assert forall c :: c in f'.ring[t] <==> c == x || c in r;
  }

  /** The ring itself, with x behind its node t. */
  lemma ChainRing(mem: Memory, r: seq<Addr>, t: Addr, x: Addr)
    requires RingOf(mem, r, t) && x !in r && x in mem && x != 0 && At(mem, x).size == At(mem, t).size
    ensures r != [] && r[0] == t && t in r && t in mem && t != x && mem[t].fd in mem
    ensures RingOf(ChainMem(mem, t, x), [t, x] + r[1..], t) && ChainMem(mem, t, x).Keys == mem.Keys
    ensures forall c :: c in mem && c !in r && c != x ==> At(ChainMem(mem, t, x), c) == At(mem, c)
  {
    hide Linked;
    assert r[0] in r;
    NeighbourIn(mem, r, t);
    var m1 := mem[x := At(mem, x).(index := At(mem, t).index, child0 := 0, child1 := 0, parent := NoParent)];
    forall c | c in r ensures c in mem { NeighbourIn(mem, r, c); }
    CycleFrame(mem, m1, r);
    JoinCycle(m1, r, x);
  }

  lemma ChainTrees(mem: Memory, bins: seq<Addr>, tmap: nat, f: Forest, x: Addr, t: Addr)
    requires BinsOk(mem, bins, tmap, f) && t in f.path && x !in f.own && x in mem && t in mem && t != x
      && mem[t].fd in mem
    ensures TreesOk(ChainMem(mem, t, x), bins, tmap, f.path)
  {
    hide TreesOk, RingsOk, RingOf;
    if x in f.path { NodesOwnThemselves(mem, f, x); }
    NodesPresent(mem, bins, tmap, f.path);
    TreeFrame(mem, ChainMem(mem, t, x), bins, tmap, f.path);
  }

  lemma NodesPresent(mem: Memory, bins: seq<Addr>, tmap: nat, path: Paths)
    requires TreesOk(mem, bins, tmap, path)
    ensures 0 !in path && forall n :: n in path ==> n in mem
  {
  }

  /** Links of one ring may change without the other rings noticing. */
  lemma OtherRing(mem: Memory, mem': Memory, f: Forest, t: Addr, n: Addr, x: Addr)
    requires RingsOk(mem, f) && t in f.ring && n in f.ring && n != t && mem.Keys <= mem'.Keys && x !in f.ring[n]
    requires forall c :: c in mem && c !in f.ring[t] && c != x ==> SameRingPart(At(mem, c), At(mem', c), c in f.path)
    ensures RingOf(mem', f.ring[n], n)
  {
    NodesOwnThemselves(mem, f, n);
    forall c | c in f.ring[n] ensures c in mem' && SameRingPart(At(mem, c), At(mem', c), c == n) {
      NeighbourIn(mem, f.ring[n], c);
      if c in f.path { NodesOwnThemselves(mem, f, c); }
      assert f.own[c] == n;
      assert c !in f.ring[t];
    }
    RingFrame(mem, mem', f.ring[n], n);
  }

  // ---------------------------------------------------------------- removal

  lemma RingIndex(r: seq<Addr>, x: Addr) returns (j: nat)
    requires x in r && Distinct(r)
    ensures j < |r| && r[j] == x && x !in Without(r, j)
    ensures forall c :: c in Without(r, j) <==> c in r && c != x
  {
    j :| j < |r| && r[j] == x;
    WithoutMembers(r, j);
  }

  /** Unlinking x from its neighbours changes no tree field. */
  lemma LeaveTrees(mem: Memory, bins: seq<Addr>, tmap: nat, path: Paths, x: Addr)
    requires TreesOk(mem, bins, tmap, path) && x in mem && mem[x].fd in mem && mem[x].bk in mem
    ensures TreesOk(LeaveMem(mem, x), bins, tmap, path)
  {
    TreeFrame(mem, LeaveMem(mem, x), bins, tmap, path);
  }

  /** After x has left the ring of n, the other rings stand. */
  lemma LeaveOthers(mem: Memory, f: Forest, x: Addr, n: Addr, m: Addr)
    requires RingsOk(mem, f) && x in f.own && f.own[x] == n && m in f.ring && m != n
    ensures x in mem && mem[x].fd in mem && mem[x].bk in mem && RingOf(LeaveMem(mem, x), f.ring[m], m)
  {
    MemberFacts(mem, f, x);
    NeighbourIn(mem, f.ring[n], x);
    assert x !in f.ring[m];
    OtherRing(mem, LeaveMem(mem, x), f, n, m, x);
  }

  /** A chained chunk leaves its ring. */
  lemma RemoveChained(mem: Memory, bins: seq<Addr>, tmap: nat, f: Forest, x: Addr, j: nat)
    requires BinsOk(mem, bins, tmap, f) && x in f.own && x !in f.path
    requires j < |f.ring[f.own[x]]| && f.ring[f.own[x]][j] == x
    ensures x in mem && mem[x].fd in mem && mem[x].bk in mem
    ensures BinsOk(LeaveMem(mem, x), bins, tmap,
      Forest(f.path, f.ring[f.own[x] := Without(f.ring[f.own[x]], j)], f.own - {x}))
  {
    hide TreesOk;
    var n := f.own[x];
    var r := f.ring[n];
    MemberFacts(mem, f, x);
    NeighbourIn(mem, r, x);
    var j' := RingIndex(r, x);
    assert j' == j;
    LeaveCycle(mem, r, j);
    LeaveTrees(mem, bins, tmap, f.path, x);
    var mem', f' := LeaveMem(mem, x), Forest(f.path, f.ring[n := Without(r, j)], f.own - {x});
    forall m | m in f'.ring ensures RingOf(mem', f'.ring[m], m) {
      if m != n { LeaveOthers(mem, f, x, n, m); }
    }
  }

  /** The ring that is left when its node leaves: the member before it comes first. */
  function HeadlessRing(r: seq<Addr>): seq<Addr>
    requires |r| >= 2
  {
    [r[|r| - 1]] + r[1..|r| - 1]
  }

  lemma HeadlessCycle(mem: Memory, r: seq<Addr>)
    requires Cycle(mem, r) && |r| >= 2
    ensures r[0] in mem && mem[r[0]].fd in mem && mem[r[0]].bk in mem && mem[r[0]].bk == r[|r| - 1]
    ensures Cycle(LeaveMem(mem, r[0]), HeadlessRing(r))
    ensures forall c :: c in HeadlessRing(r) <==> c in r && c != r[0]
  {
    assert Linked(mem, r, 0);
    LeaveCycle(mem, r, 0);
    var s := Without(r, 0);
    assert s == r[1..];
    RotateCycle(LeaveMem(mem, r[0]), s);
    assert [s[|s| - 1]] + s[..|s| - 1] == HeadlessRing(r);
    forall c ensures c in HeadlessRing(r) <==> c in r && c != r[0] {
      assert c in HeadlessRing(r) <==> c in s;
      assert c in r <==> c == r[0] || c in s;
      assert r[0] !in s;
    }
  }

  function HeadlessForest(f: Forest, x: Addr): Forest
    requires x in f.path && x in f.ring && |f.ring[x]| >= 2
  {
    var r := f.ring[x][|f.ring[x]| - 1];
    Forest(Replaced(f.path, x, r), (f.ring - {x})[r := HeadlessRing(f.ring[x])],
           map c | c in f.own && c != x :: if f.own[c] == x then r else f.own[c])
  }

  /** Chunks that are no nodes, and links of nodes other than tree links, keep their values
      when r replaces x. */
  lemma ReplaceRingPart(mem: Memory, bins: seq<Addr>, tmap: nat, path: Paths, x: Addr, r: Addr, c: Addr)
    requires TreesOk(mem, bins, tmap, path) && CanReplace(mem, path, x, r) && c in mem
    ensures c in ReplaceMem(mem, x, r) && SameRingPart(At(mem, c), At(ReplaceMem(mem, x, r), c), c == r || c in path)
  {
    hide SizesUnique, NodesPlaced, RootsLinked, ReplaceMem;
    NodesPresent(mem, bins, tmap, path);
    ReplacedAt(mem, bins, path, x, r, c);
    assert ParentLinked(mem, bins, path, x) && ChildLinked(mem, path, x, false) && ChildLinked(mem, path, x, true);
    assert At(mem, x).Child(false) == At(mem, x).child0 && At(mem, x).Child(true) == At(mem, x).child1;
  }

  /** The node of a ring of several chunks leaves; its predecessor in the ring takes its place. */
  lemma RemoveHead(mem: Memory, bins: seq<Addr>, tmap: nat, f: Forest, x: Addr)
    requires BinsOk(mem, bins, tmap, f) && x in f.path && x in f.ring && |f.ring[x]| >= 2
    ensures x in mem && mem[x].fd in mem && mem[x].bk in mem && mem[x].bk == f.ring[x][|f.ring[x]| - 1]
    ensures var m := LeaveMem(mem, x); var r := mem[x].bk;
      && CanReplace(m, f.path, x, r) && TreesOk(m, bins, tmap, f.path)
      && BinsOk(ReplaceMem(m, x, r), HookBins(m, bins, x, r), tmap, HeadlessForest(f, x))
  {
    hide TreesOk;
    NodesOwnThemselves(mem, f, x);
    HeadlessCycle(mem, f.ring[x]);
    var m, r := LeaveMem(mem, x), mem[x].bk;
    LeaveTrees(mem, bins, tmap, f.path, x);
    HeadCanReplace(mem, bins, tmap, f, x);
    ReplaceNode(m, bins, tmap, f.path, x, r);
    HeadRings(mem, bins, tmap, f, x);
  }

  lemma HeadCanReplace(mem: Memory, bins: seq<Addr>, tmap: nat, f: Forest, x: Addr)
    requires BinsOk(mem, bins, tmap, f) && x in f.path && x in f.ring && |f.ring[x]| >= 2
    requires x in mem && mem[x].fd in mem && mem[x].bk in mem && mem[x].bk == f.ring[x][|f.ring[x]| - 1]
    ensures CanReplace(LeaveMem(mem, x), f.path, x, mem[x].bk)
  {
    hide TreesOk, CanReplace, Cycle;
    var r := mem[x].bk;
    NodesOwnThemselves(mem, f, x);
    assert r in f.ring[x] by { assert f.ring[x][|f.ring[x]| - 1] in f.ring[x]; }
    assert r != x by { HeadlessCycle(mem, f.ring[x]); assert r == HeadlessRing(f.ring[x])[0]; }
    MemberFacts(mem, f, r);
    assert f.own[r] == x;
    assert r !in f.path;
    ChainedCanReplace(mem, bins, tmap, f.path, x, r);
  }

  /** A chunk of the size of node x, and outside the tree, can stand in for x. */
  lemma ChainedCanReplace(mem: Memory, bins: seq<Addr>, tmap: nat, path: Paths, x: Addr, r: Addr)
    requires TreesOk(mem, bins, tmap, path) && x in path && x in mem && r in mem && r != 0 && r !in path
    requires mem[x].fd in mem && mem[x].bk in mem && Chained(At(mem, r), At(mem, x))
    ensures CanReplace(LeaveMem(mem, x), path, x, r)
  {
    hide InBin, InRegion, ValidPos;
    assert Placed(At(mem, x), path[x]);
  }

  lemma HeadRings(mem: Memory, bins: seq<Addr>, tmap: nat, f: Forest, x: Addr)
    requires BinsOk(mem, bins, tmap, f) && x in f.path && x in f.ring && |f.ring[x]| >= 2
    requires x in mem && mem[x].fd in mem && mem[x].bk in mem && mem[x].bk == f.ring[x][|f.ring[x]| - 1]
    requires TreesOk(LeaveMem(mem, x), bins, tmap, f.path) && CanReplace(LeaveMem(mem, x), f.path, x, mem[x].bk)
    ensures RingsOk(ReplaceMem(LeaveMem(mem, x), x, mem[x].bk), HeadlessForest(f, x))
  {
    hide TreesOk, CanReplace, ReplaceMem, LeaveMem;
    var m, r := LeaveMem(mem, x), mem[x].bk;
    var mem', f' := ReplaceMem(m, x, r), HeadlessForest(f, x);
    NodesOwnThemselves(mem, f, x);
    HeadlessCycle(mem, f.ring[x]);
    HeadNotNode(mem, f, x, r);
    assert f'.ring.Keys == f'.path.Keys;
    forall n | n in f'.ring ensures RingOf(mem', f'.ring[n], n) {
      if n == r { HeadRing(mem, bins, tmap, f, x); } else { HeadOther(mem, bins, tmap, f, x, n); }
    }
    forall n, c | n in f'.ring && c in f'.ring[n] ensures c in f'.own && f'.own[c] == n {
      if n == r { assert c in f.ring[x]; } else { assert c in f.ring[n]; }
    }
    forall c | c in f'.own ensures f'.own[c] in f'.ring && c in f'.ring[f'.own[c]] {
      if f.own[c] == x { assert c in HeadlessRing(f.ring[x]); } else {
        assert f.own[c] != r by { HeadNotNode(mem, f, x, r); }
      }
    }
  }

  /** The predecessor of a node in its ring is not a node itself. */
  lemma HeadNotNode(mem: Memory, f: Forest, x: Addr, r: Addr)
    requires RingsOk(mem, f) && x in f.path && x in f.ring && |f.ring[x]| >= 2 && r == f.ring[x][|f.ring[x]| - 1]
    ensures r !in f.path && r !in f.ring
  {
    NodesOwnThemselves(mem, f, x);
    assert r in f.ring[x];
    if r in f.path { NodesOwnThemselves(mem, f, r); }
  }

  lemma HeadOther(mem: Memory, bins: seq<Addr>, tmap: nat, f: Forest, x: Addr, n: Addr)
    requires BinsOk(mem, bins, tmap, f) && x in f.path && x in f.ring && n in f.ring && n != x
    requires x in mem && mem[x].fd in mem && mem[x].bk in mem
    requires TreesOk(LeaveMem(mem, x), bins, tmap, f.path) && CanReplace(LeaveMem(mem, x), f.path, x, mem[x].bk)
    ensures RingOf(ReplaceMem(LeaveMem(mem, x), x, mem[x].bk), f.ring[n], n)
  {
    hide TreesOk, CanReplace, ReplaceMem, LeaveMem;
    var m, r := LeaveMem(mem, x), mem[x].bk;
    NodesOwnThemselves(mem, f, x);
    NodesOwnThemselves(mem, f, n);
    NeighbourIn(mem, f.ring[x], x);
    LeaveOthers(mem, f, x, x, n);
    forall c | c in f.ring[n] ensures c in ReplaceMem(m, x, r)
      && SameRingPart(At(m, c), At(ReplaceMem(m, x, r), c), c == n)
    {
      NeighbourIn(m, f.ring[n], c);
      ReplaceRingPart(m, bins, tmap, f.path, x, r, c);
      assert c in f.own && f.own[c] == n;
      if c in f.path { NodesOwnThemselves(mem, f, c); }
      assert r in f.own && f.own[r] == x;
    }
    RingFrame(m, ReplaceMem(m, x, r), f.ring[n], n);
  }

  lemma HeadRing(mem: Memory, bins: seq<Addr>, tmap: nat, f: Forest, x: Addr)
    requires BinsOk(mem, bins, tmap, f) && x in f.path && x in f.ring && |f.ring[x]| >= 2
    requires x in mem && mem[x].fd in mem && mem[x].bk in mem && mem[x].bk == f.ring[x][|f.ring[x]| - 1]
    requires TreesOk(LeaveMem(mem, x), bins, tmap, f.path) && CanReplace(LeaveMem(mem, x), f.path, x, mem[x].bk)
    ensures RingOf(ReplaceMem(LeaveMem(mem, x), x, mem[x].bk), HeadlessRing(f.ring[x]), mem[x].bk)
  {
    hide TreesOk, CanReplace, ReplaceMem;
    var m, r, r' := LeaveMem(mem, x), mem[x].bk, HeadlessRing(f.ring[x]);
    NodesOwnThemselves(mem, f, x);
    HeadlessCycle(mem, f.ring[x]);
    assert r in f.ring[x];
    MemberFacts(mem, f, r);
    forall c | c in r' ensures c in ReplaceMem(m, x, r) && SameRingPart(At(m, c), At(ReplaceMem(m, x, r), c), c == r)
      && Chained(At(m, c), At(m, r))
    {
      assert c in f.ring[x] && c != x && f.own[c] == x;
      NeighbourIn(mem, f.ring[x], c);
      MemberFacts(mem, f, c);
      ReplaceRingPart(m, bins, tmap, f.path, x, r, c);
    }
    CycleFrame(m, ReplaceMem(m, x, r), r');
  }

  function DropForest(f: Forest, path': Paths, x: Addr): Forest {
    Forest(path', f.ring - {x}, f.own - {x})
  }

  /** A node without companions goes: what remains of the rings. */
  lemma DropRing(mem: Memory, mem': Memory, f: Forest, path': Paths, x: Addr)
    requires RingsOk(mem, f) && x in f.path && f.ring[x] == [x] && path'.Keys == f.path.Keys - {x}
    requires forall c :: c in f.own ==> c in mem' && SameRingPart(At(mem, c), At(mem', c), c in f.path)
    ensures RingsOk(mem', DropForest(f, path', x))
  {
    var f' := DropForest(f, path', x);
    forall n | n in f'.ring ensures RingOf(mem', f'.ring[n], n) {
      NodesOwnThemselves(mem, f, n);
      forall c | c in f.ring[n] ensures c in mem' && SameRingPart(At(mem, c), At(mem', c), c == n) {
        assert f.own[c] == n;
        if c in f.path { NodesOwnThemselves(mem, f, c); }
      }
      RingFrame(mem, mem', f.ring[n], n);
    }
    NodesOwnThemselves(mem, f, x);
    forall n, c | n in f'.ring && c in f'.ring[n] ensures c in f'.own && f'.own[c] == n {
      assert c in f.ring[n];
    }
    forall c | c in f'.own ensures f'.own[c] in f'.ring && c in f'.ring[f'.own[c]] {
      assert c in f.ring[f.own[c]] && f.own[c] != x;
    }
  }

  lemma HookRingPart(mem: Memory, bins: seq<Addr>, tmap: nat, path: Paths, x: Addr, r: Addr, c: Addr)
    requires TreesOk(mem, bins, tmap, path) && x in path && c in mem
    ensures c in HookMem(mem, x, r) && SameRingPart(At(mem, c), At(HookMem(mem, x, r), c), c in path)
  {
    hide SizesUnique, NodesPlaced, RootsLinked;
    assert ParentLinked(mem, bins, path, x);
  }

  /** A lone leaf leaves. */
  lemma RemoveLone(mem: Memory, bins: seq<Addr>, tmap: nat, f: Forest, x: Addr)
    requires BinsOk(mem, bins, tmap, f) && x in f.path && x in f.ring && f.ring[x] == [x]
    requires At(mem, x).child0 == 0 && At(mem, x).child1 == 0
    ensures BinsOk(HookMem(mem, x, 0), HookBins(mem, bins, x, 0),
                   if At(mem, x).parent.BinSlot? then ClearBit(tmap, At(mem, x).index) else tmap,
                   DropForest(f, f.path - {x}, x))
  {
    hide TreesOk, HookMem;
    RemoveLeaf(mem, bins, tmap, f.path, x);
    forall c | c in f.own ensures c in HookMem(mem, x, 0)
      && SameRingPart(At(mem, c), At(HookMem(mem, x, 0), c), c in f.path)
    {
      MemberFacts(mem, f, c);
      HookRingPart(mem, bins, tmap, f.path, x, 0, c);
    }
    DropRing(mem, HookMem(mem, x, 0), f, f.path - {x}, x);
  }

  /** A leaf r below x, cut off from its own parent, can stand in for x. */
  lemma LeafCanReplace(mem: Memory, bins: seq<Addr>, tmap: nat, path: Paths, x: Addr, r: Addr)
    requires TreesOk(mem, bins, tmap, path) && Below(path, r, x) && r != x
    requires At(mem, r).child0 == 0 && At(mem, r).child1 == 0
    ensures path[r].bits != [] && At(mem, r).parent.Above?
    ensures TreesOk(HookMem(mem, r, 0), bins, tmap, path - {r}) && CanReplace(HookMem(mem, r, 0), path - {r}, x, r)
  {
    NodesPresent(mem, bins, tmap, path);
    BelowChild(mem, bins, path, r, x);
    assert ParentLinked(mem, bins, path, r);
    RemoveLeaf(mem, bins, tmap, path, r);
    RegionNested(path[x], path[r]);
    HookKeepsSizes(mem, r, 0);
    assert Placed(At(mem, r), path[r]) && Placed(At(mem, x), path[x]);
    SideOf(mem, bins, path, r);
    hide InBin, Lo, Width, TreesOk, ChildrenLinked, ParentsLinked, RootsLinked, ValidPos;
    PlacedAbove(At(mem, r), path[r], path[x]);
  }

  lemma PlacedAbove(c: Chunk, q: Pos, p: Pos)
    requires Placed(c, q) && p.bin == q.bin && p.bits <= q.bits
    ensures Placed(c, p)
  {
    RegionNested(p, q);
  }

  /** A lone inner node leaves; a leaf below it takes its place. */
  lemma RemoveInner(mem: Memory, bins: seq<Addr>, tmap: nat, f: Forest, x: Addr, r: Addr)
    requires BinsOk(mem, bins, tmap, f) && x in f.path && x in f.ring && f.ring[x] == [x]
    requires Below(f.path, r, x) && r != x && At(mem, r).child0 == 0 && At(mem, r).child1 == 0
    ensures var m := HookMem(mem, r, 0);
      BinsOk(ReplaceMem(m, x, r), HookBins(m, bins, x, r), tmap, DropForest(f, Replaced(f.path - {r}, x, r), x))
  {
    hide TreesOk, HookMem, ReplaceMem, CanReplace;
    LeafCanReplace(mem, bins, tmap, f.path, x, r);
    var m := HookMem(mem, r, 0);
    ReplaceNode(m, bins, tmap, f.path - {r}, x, r);
    forall c | c in f.own ensures c in ReplaceMem(m, x, r)
      && SameRingPart(At(mem, c), At(ReplaceMem(m, x, r), c), c in f.path)
    {
      MemberFacts(mem, f, c);
      HookRingPart(mem, bins, tmap, f.path, r, 0, c);
      ReplaceRingPart(m, bins, tmap, f.path - {r}, x, r, c);
    }
    DropRing(mem, ReplaceMem(m, x, r), f, Replaced(f.path - {r}, x, r), x);
  }
}
