/** Circular doubly linked lists of chunks: the rings of equal sizes in the tree bins. */
module DlRing {
  import opened DlTrie
  import opened Lists

  function Next(r: seq<Addr>, j: nat): Addr
    requires j < |r|
  {
    if j + 1 < |r| then r[j + 1] else r[0]
  }

  function Prev(r: seq<Addr>, j: nat): Addr
    requires j < |r|
  {
    if j > 0 then r[j - 1] else r[|r| - 1]
  }

  ghost predicate Linked(mem: Memory, r: seq<Addr>, j: nat)
    requires j < |r|
  {
    r[j] in mem && r[j] != 0 && At(mem, r[j]).fd == Next(r, j) && At(mem, r[j]).bk == Prev(r, j)
  }

  /** r is a closed list: fd leads to the next member, bk to the previous one. */
  ghost predicate Cycle(mem: Memory, r: seq<Addr>) {
    r != [] && Distinct(r) && forall j: nat {:trigger Linked(mem, r, j)} :: j < |r| ==> Linked(mem, r, j)
  }

  /** Only the link fields of members matter. */
  lemma CycleFrame(mem: Memory, mem': Memory, r: seq<Addr>)
    requires Cycle(mem, r)
    requires forall c :: c in r ==> c in mem' && At(mem', c).fd == At(mem, c).fd && At(mem', c).bk == At(mem, c).bk
    ensures Cycle(mem', r)
  {
    forall j: nat | j < |r| ensures Linked(mem', r, j) { assert Linked(mem, r, j) && r[j] in r; }
  }

  lemma NewCycle(mem: Memory, x: Addr)
    requires x in mem && x != 0 && At(mem, x).fd == x && At(mem, x).bk == x
    ensures Cycle(mem, [x])
  {
    forall j: nat | j < 1 ensures Linked(mem, [x], j) { }
  }

  function JoinMem(mem: Memory, t: Addr, x: Addr): Memory {
    var f := At(mem, t).fd;
    var m1 := mem[t := At(mem, t).(fd := x)];
    var m2 := m1[f := At(m1, f).(bk := x)];
    m2[x := At(m2, x).(fd := f, bk := t)]
  }

  /** x enters the ring behind its first member. */
  lemma JoinCycle(mem: Memory, r: seq<Addr>, x: Addr)
    requires Cycle(mem, r) && x !in r && x in mem && x != 0
    ensures r[0] in mem && At(mem, r[0]).fd in mem && Cycle(JoinMem(mem, r[0], x), [r[0], x] + r[1..])
  {
    assert Linked(mem, r, 0);
    if |r| > 1 { assert Linked(mem, r, 1); }
    var mem', r' := JoinMem(mem, r[0], x), [r[0], x] + r[1..];
    forall j: nat | j < |r'| ensures Linked(mem', r', j) {
      if j >= 2 { assert Linked(mem, r, j - 1) && r'[j] == r[j - 1]; }
    }
  }

  function LeaveMem(mem: Memory, x: Addr): Memory {
    var f, r := At(mem, x).fd, At(mem, x).bk;
    var m1 := mem[f := At(mem, f).(bk := r)];
    m1[r := At(m1, r).(fd := f)]
  }

  /** The j-th member leaves the ring. */
  lemma LeaveCycle(mem: Memory, r: seq<Addr>, j: nat)
    requires Cycle(mem, r) && j < |r| && |r| >= 2
    ensures r[j] in mem && At(mem, r[j]).fd in mem && At(mem, r[j]).bk in mem
    ensures Cycle(LeaveMem(mem, r[j]), Without(r, j))
  {
    var b, a := if j > 0 then j - 1 else |r| - 1, if j + 1 < |r| then j + 1 else 0;
    assert Linked(mem, r, j) && Linked(mem, r, a) && Linked(mem, r, b);
    var mem', r' := LeaveMem(mem, r[j]), Without(r, j);
    assert |r'| == |r| - 1;
    forall k: nat | k < |r'| ensures Linked(mem', r', k) {
      var o := if k < j then k else k + 1;
      assert r'[k] == r[o] && Linked(mem, r, o);
      LeaveLinks(mem, r, j, k);
    }
  }

  /** Neighbours in the shortened ring are the old neighbours, skipping the one that left. */
  lemma LeaveLinks(mem: Memory, r: seq<Addr>, j: nat, k: nat)
    requires j < |r| && |r| >= 2 && k < |r| - 1 && Distinct(r)
    ensures var o := if k < j then k else k + 1; var r' := Without(r, j);
      && Next(r', k) == (if Next(r, o) == r[j] then Next(r, j) else Next(r, o))
      && Prev(r', k) == (if Prev(r, o) == r[j] then Prev(r, j) else Prev(r, o))
  {
  }

  /** The last member becomes the first. */
  lemma RotateCycle(mem: Memory, r: seq<Addr>)
    requires Cycle(mem, r)
    ensures Cycle(mem, [r[|r| - 1]] + r[..|r| - 1])
  {
    var r' := [r[|r| - 1]] + r[..|r| - 1];
    forall j: nat | j < |r'| ensures Linked(mem, r', j) {
      var o := if j == 0 then |r| - 1 else j - 1;
      assert Linked(mem, r, o) && r'[j] == r[o];
    }
  }
}
