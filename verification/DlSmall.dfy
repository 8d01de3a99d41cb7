/** The small bins of dlmalloc: circular lists with a header chunk each, and their bitmap. */
module DlSmall {
  import opened Bits
  import opened DlTrie
  import opened DlRing
  import opened DlBins
  import opened DlTreeOps
  import opened Lists

  const NSMALLBINS: nat := 32
  const MIN_CHUNK_SIZE: nat := 32

  /** Addresses of heap chunks start here; the bin headers lie below. */
  const HEAP_START: nat := 0x1000

  function SmallIndex(s: nat): nat { s / 8 }

  function SmallIndex2Size(i: nat): nat { i * 8 }

  predicate IsSmall(s: nat) { SmallIndex(s) < NSMALLBINS }

  /** The header of small bin i, used as a chunk of which only the links exist. */
  function SmallBinAt(i: nat): Addr { 16 * (i + 1) }

  lemma HeadersApart(i: nat, j: nat)
    requires i < NSMALLBINS && j < NSMALLBINS
    ensures 0 < SmallBinAt(i) < HEAP_START && (i != j ==> SmallBinAt(i) != SmallBinAt(j))
  {
  }

  /** List l hangs off the header of bin i.  The links of an empty bin are not looked at. */
  ghost predicate SmallBinOk(mem: Memory, smap: nat, smalls: seq<seq<Addr>>, i: nat)
    requires i < |smalls|
  {
    && SmallBinAt(i) in mem && (Bit(smap, i) <==> smalls[i] != [])
    && (smalls[i] != [] ==> Cycle(mem, [SmallBinAt(i)] + smalls[i]))
  }

  ghost predicate SmallOk(mem: Memory, smap: nat, smalls: seq<seq<Addr>>) {
    && |smalls| == NSMALLBINS && (forall i: nat :: i >= NSMALLBINS ==> !Bit(smap, i))
    && (forall i: nat {:trigger SmallBinOk(mem, smap, smalls, i)} :: i < NSMALLBINS ==>
      SmallBinOk(mem, smap, smalls, i))
    && (forall i: nat, a {:trigger a in smalls[i]} :: i < NSMALLBINS && a in smalls[i] ==> a >= HEAP_START && a in mem)
    && (forall i: nat, j: nat, a {:trigger a in smalls[i], a in smalls[j]} ::
      i < NSMALLBINS && j < NSMALLBINS && a in smalls[i] && a in smalls[j] ==> i == j)
  }

  ghost predicate InSmalls(smalls: seq<seq<Addr>>, a: Addr) {
    exists i: nat :: i < |smalls| && a in smalls[i]
  }

  /** What the small bins do not look at may change. */
  lemma SmallFrame(mem: Memory, mem': Memory, smap: nat, smalls: seq<seq<Addr>>)
    requires SmallOk(mem, smap, smalls) && mem.Keys <= mem'.Keys
    requires forall a :: a < HEAP_START && a in mem ==> mem'[a] == mem[a]
    requires forall i: nat, a :: i < NSMALLBINS && a in smalls[i] ==>
      At(mem', a).fd == At(mem, a).fd && At(mem', a).bk == At(mem, a).bk
    ensures SmallOk(mem', smap, smalls)
  {
    hide Bit, Cycle;
    forall i: nat | i < NSMALLBINS ensures SmallBinOk(mem', smap, smalls, i) {
      assert SmallBinOk(mem, smap, smalls, i);
      HeadersApart(i, i);
      if smalls[i] != [] { CycleFrame(mem, mem', [SmallBinAt(i)] + smalls[i]); }
    }
  }

  // -------------------------------------------------------------- insertion

  /** The stores of insert_small_chunk; F is the header itself in an empty bin. */
  function InsertMem(mem: Memory, b: Addr, f: Addr, p: Addr): Memory {
    var m1 := mem[b := At(mem, b).(fd := p)];
    var m2 := m1[f := At(m1, f).(bk := p)];
    var m3 := m2[p := At(m2, p).(fd := f)];
    m3[p := At(m3, p).(bk := b)]
  }

  /** A bin does not notice what happens in another one. */
  lemma OtherBin(mem: Memory, mem': Memory, smap: nat, smap': nat, smalls: seq<seq<Addr>>, smalls': seq<seq<Addr>>,
      i: nat, j: nat, p: Addr)
    requires SmallOk(mem, smap, smalls) && i < NSMALLBINS && j < NSMALLBINS && i != j && !(p in smalls[j])
      && p >= HEAP_START
    requires |smalls'| == NSMALLBINS && smalls'[j] == smalls[j] && (Bit(smap', j) <==> Bit(smap, j))
      && mem'.Keys == mem.Keys
    requires forall a :: a in mem && a != p && a != SmallBinAt(i) && a !in smalls[i] ==> mem'[a] == mem[a]
    ensures SmallBinOk(mem', smap', smalls', j)
  {
    hide Bit, Cycle;
    HeadersApart(i, j);
    assert SmallBinOk(mem, smap, smalls, j);
    if smalls[j] != [] {
      forall c | c in [SmallBinAt(j)] + smalls[j]
        ensures c in mem' && At(mem', c).fd == At(mem, c).fd && At(mem', c).bk == At(mem, c).bk
      {
        if c in smalls[j] { assert c !in smalls[i]; }
      }
      CycleFrame(mem, mem', [SmallBinAt(j)] + smalls[j]);
    }
  }

  /** mark_smallmap, where the bin was empty. */
  function MarkBit(m: nat, i: nat): (r: nat)
    ensures forall j: nat :: Bit(r, j) <==> Bit(m, j) || i == j
  {
    if Bit(m, i) then m else SetBit(m, i)
  }

  /** Where the stores of an insertion go. */
  lemma InsertFrame(mem: Memory, b: Addr, f: Addr, p: Addr)
    requires b in mem && f in mem && p in mem
    ensures InsertMem(mem, b, f, p).Keys == mem.Keys
    ensures forall a :: a in mem && a != p && a != b && a != f ==> InsertMem(mem, b, f, p)[a] == mem[a]
    ensures forall a :: a in mem ==> SameHeap(mem[a], InsertMem(mem, b, f, p)[a])
  {
  }

  /** Chunk p enters small bin i at the front. */
  lemma InsertSmallOk(mem: Memory, smap: nat, smalls: seq<seq<Addr>>, i: nat, p: Addr)
    requires SmallOk(mem, smap, smalls) && i < NSMALLBINS && p >= HEAP_START && p in mem && !InSmalls(smalls, p)
    ensures var b := SmallBinAt(i); var f := if Bit(smap, i) then At(mem, b).fd else b;
      && b in mem && f in mem && f != p
      && SmallOk(InsertMem(mem, b, f, p), MarkBit(smap, i), smalls[i := [p] + smalls[i]])
      && (forall a :: a in mem && a != p && a != b && a !in smalls[i] ==> InsertMem(mem, b, f, p)[a] == mem[a])
      && InsertMem(mem, b, f, p).Keys == mem.Keys
      && (forall a :: a in mem ==> SameHeap(mem[a], InsertMem(mem, b, f, p)[a]))
  {
    hide Bit, MarkBit, Cycle, InsertMem;
    var b := SmallBinAt(i);
    assert SmallBinOk(mem, smap, smalls, i);
    HeadersApart(i, i);
    assert p !in smalls[i];
    var f := if Bit(smap, i) then At(mem, b).fd else b;
    InsertRing(mem, b, smalls[i], p, f);
    InsertFrame(mem, b, f, p);
    var mem', smap', smalls' := InsertMem(mem, b, f, p), MarkBit(smap, i), smalls[i := [p] + smalls[i]];
    forall j: nat | j < NSMALLBINS ensures SmallBinOk(mem', smap', smalls', j) {
      if j == i {
        assert [b] + smalls'[i] == [b, p] + smalls[i];
      } else {
        OtherBin(mem, mem', smap, smap', smalls, smalls', i, j, p);
      }
    }
    InsertDistinct(smalls, i, p);
  }

  lemma InsertDistinct(smalls: seq<seq<Addr>>, i: nat, p: Addr)
    requires i < |smalls| && !InSmalls(smalls, p)
    requires forall j: nat, k: nat, a {:trigger a in smalls[j], a in smalls[k]} ::
      j < |smalls| && k < |smalls| && a in smalls[j] && a in smalls[k] ==> j == k
    ensures var s := smalls[i := [p] + smalls[i]];
      forall j: nat, k: nat, a {:trigger a in s[j], a in s[k]} :: j < |s| && k < |s| && a in s[j] && a in s[k] ==>
        j == k
  {
    var s := smalls[i := [p] + smalls[i]];
    forall j: nat, k: nat, a | j < |s| && k < |s| && a in s[j] && a in s[k] ensures j == k {
      if a != p { assert a in smalls[j] && a in smalls[k]; }
    }
  }

  /** Insertion behind the header, seen from the ring. */
  lemma InsertRing(mem: Memory, b: Addr, l: seq<Addr>, p: Addr, f: Addr)
    requires b in mem && b != 0 && p in mem && p != 0 && p != b && p !in l && b !in l
    requires if l == [] then f == b else Cycle(mem, [b] + l) && f == At(mem, b).fd
    ensures f in mem && f != p && (f == b || f in l) && Cycle(InsertMem(mem, b, f, p), [b, p] + l)
  {
    if l == [] {
      var m0 := mem[b := At(mem, b).(fd := b, bk := b)];
      NewCycle(m0, b);
      JoinCycle(m0, [b], p);
      assert JoinMem(m0, b, p) == InsertMem(mem, b, b, p);
      assert [b, p] + [b][1..] == [b, p] + l;
    } else {
      var r := [b] + l;
      assert Linked(mem, r, 0);
      assert f == r[1] && f in l;
      assert Linked(mem, r, 1);
      assert p !in r;
      JoinCycle(mem, r, p);
      assert JoinMem(mem, b, p) == InsertMem(mem, b, f, p);
      assert [b, p] + r[1..] == [b, p] + l;
    }
  }

  // ---------------------------------------------------------------- removal

  /** Chunk p, the j-th of its bin, leaves; only the map changes when it was the last one. */
  lemma UnlinkSmallOk(mem: Memory, smap: nat, smalls: seq<seq<Addr>>, i: nat, j: nat)
    requires SmallOk(mem, smap, smalls) && i < NSMALLBINS && j < |smalls[i]|
    ensures var p, b := smalls[i][j], SmallBinAt(i);
      && p in mem && b in mem && At(mem, p).fd in mem && At(mem, p).bk in mem
      && (At(mem, p).fd == At(mem, p).bk == b <==> |smalls[i]| == 1)
      && (At(mem, p).fd == At(mem, p).bk <==> |smalls[i]| == 1)
      && (j == 0 ==> At(mem, p).bk == b && (At(mem, p).fd == b <==> |smalls[i]| == 1) && At(mem, b).fd == p)
      && p != b && At(mem, p).fd != p
    ensures |smalls[i]| == 1 ==> SmallOk(mem, ClearBit(smap, i), smalls[i := []])
    ensures |smalls[i]| > 1 ==> var p, b := smalls[i][j], SmallBinAt(i); var mem' := LeaveMem(mem, p);
      && SmallOk(mem', smap, smalls[i := Without(smalls[i], j)])
      && (forall a :: a in mem && a != b && a !in smalls[i] ==> mem'[a] == mem[a]) && mem'.Keys == mem.Keys
      && (forall a :: a in mem ==> SameHeap(mem[a], mem'[a]))
  {
    hide Bit, ClearBit;
    var b, l := SmallBinAt(i), smalls[i];
    var p := l[j];
    var r := [b] + l;
    assert SmallBinOk(mem, smap, smalls, i) && p in smalls[i];
    HeadersApart(i, i);
    RingNeighbours(mem, b, l, j);
    if |l| == 1 {
      UnlinkLast(mem, smap, smalls, i);
    } else {
      UnlinkOne(mem, smap, smalls, i, j);
    }
  }

  lemma RingNeighbours(mem: Memory, b: Addr, l: seq<Addr>, j: nat)
    requires Cycle(mem, [b] + l) && j < |l|
    ensures var p := l[j];
      && p in mem && b in mem && p != b && At(mem, p).fd in [b] + l && At(mem, p).bk in [b] + l && At(mem, p).fd in mem
      && At(mem, p).bk in mem
      && (At(mem, p).fd == At(mem, p).bk <==> |l| == 1) && (|l| == 1 ==> At(mem, p).fd == b)
      && (j == 0 ==> At(mem, p).bk == b && (At(mem, p).fd == b <==> |l| == 1) && At(mem, b).fd == p)
      && At(mem, p).fd != p && At(mem, p).bk != p
  {
    var r := [b] + l;
    assert Linked(mem, r, 0) && Linked(mem, r, j + 1) && r[j + 1] == l[j] && r[j + 1] != r[0];
    NeighbourIn(mem, r, l[j]);
  }

  lemma UnlinkLast(mem: Memory, smap: nat, smalls: seq<seq<Addr>>, i: nat)
    requires SmallOk(mem, smap, smalls) && i < NSMALLBINS && |smalls[i]| == 1
    ensures SmallOk(mem, ClearBit(smap, i), smalls[i := []])
  {
    hide Bit, ClearBit, Cycle;
    var smalls' := smalls[i := []];
    forall j: nat | j < NSMALLBINS ensures SmallBinOk(mem, ClearBit(smap, i), smalls', j) {
      assert SmallBinOk(mem, smap, smalls, j);
    }
    forall j: nat, k: nat, a | j < NSMALLBINS && k < NSMALLBINS && a in smalls'[j] && a in smalls'[k] ensures j == k {
      assert a in smalls[j] && a in smalls[k];
    }
  }

  lemma UnlinkOne(mem: Memory, smap: nat, smalls: seq<seq<Addr>>, i: nat, j: nat)
    requires SmallOk(mem, smap, smalls) && i < NSMALLBINS && j < |smalls[i]| && |smalls[i]| > 1
    ensures var p, b := smalls[i][j], SmallBinAt(i); var mem' := LeaveMem(mem, p);
      && SmallOk(mem', smap, smalls[i := Without(smalls[i], j)])
      && (forall a :: a in mem && a != b && a !in smalls[i] ==> mem'[a] == mem[a]) && mem'.Keys == mem.Keys
      && (forall a :: a in mem ==> SameHeap(mem[a], mem'[a]))
  {
    hide Bit, Cycle;
    var b, l := SmallBinAt(i), smalls[i];
    var p, r := l[j], [b] + l;
    assert SmallBinOk(mem, smap, smalls, i);
    HeadersApart(i, i);
    RingNeighbours(mem, b, l, j);
    LeaveCycle(mem, r, j + 1);
    assert Without(r, j + 1) == [b] + Without(l, j);
    var mem', smalls' := LeaveMem(mem, p), smalls[i := Without(l, j)];
    forall k: nat | k < NSMALLBINS ensures SmallBinOk(mem', smap, smalls', k) {
      if k != i { assert p in smalls[i] && p !in smalls[k]; OtherBin(mem, mem', smap, smap, smalls, smalls', i, k, p); }
    }
    WithoutDistinct(smalls, i, j);
  }

  lemma WithoutDistinct(smalls: seq<seq<Addr>>, i: nat, j: nat)
    requires i < |smalls| && j < |smalls[i]|
    requires forall m: nat, k: nat, a {:trigger a in smalls[m], a in smalls[k]} ::
      m < |smalls| && k < |smalls| && a in smalls[m] && a in smalls[k] ==> m == k
    ensures var s := smalls[i := Without(smalls[i], j)];
      && (forall m: nat, k: nat, a {:trigger a in s[m], a in s[k]} :: m < |s| && k < |s| && a in s[m] && a in s[k] ==>
        m == k)
      && (forall m: nat, a {:trigger a in s[m]} :: m < |s| && a in s[m] ==> a in smalls[m])
  {
    var s := smalls[i := Without(smalls[i], j)];
    forall m: nat, a | m < |s| && a in s[m] ensures a in smalls[m] { }
    forall m: nat, k: nat, a | m < |s| && k < |s| && a in s[m] && a in s[k] ensures m == k {
      assert a in smalls[m] && a in smalls[k];
    }
  }
}
