/** Free lists whose links live inside the free blocks, with their two-level bitmaps. */
module FreeIndex {
  import opened Bits
  import opened Tiling
  import opened FreeLists
  import opened Lists
  import opened TwoLevel
  import opened HeapMem

  /** Ghost view of an index: the members of each list and the list of each member. */
  datatype Index = Index(lists: seq<seq<Addr>>, place: map<Addr, nat>)

  ghost predicate IndexOk(link: Links, heads: seq<Addr>, fl: nat, sl: seq<nat>, x: Index, w: nat) {
    ListsOk(link, heads, x.lists, x.place) && MapsOk(fl, sl, x.lists, w)
  }

  /** No header changes, and no payload of a block that is neither listed nor a. */
  ghost predicate IndexOnly<H>(m: Mem<H>, m': Mem<H>, t: Tiles, place: map<Addr, nat>, a: Addr, y: Layout) {
    && (forall b :: b in t.ext && b in m.hdr ==> b in m'.hdr && m'.hdr[b] == m.hdr[b])
    && (forall u {:trigger BytesKept(m, m', t, u, y)} :: u in t.ext && u !in place && u != a ==>
      BytesKept(m, m', t, u, y))
  }

  lemma IndexOnlyTrans<H>(m: Mem<H>, m1: Mem<H>, m2: Mem<H>, t: Tiles, place: map<Addr, nat>, a: Addr, y: Layout)
    requires IndexOnly(m, m1, t, place, a, y) && IndexOnly(m1, m2, t, place, a, y)
    ensures IndexOnly(m, m2, t, place, a, y)
  {
    forall u | u in t.ext && u !in place && u != a ensures BytesKept(m, m2, t, u, y) {
      assert BytesKept(m, m1, t, u, y) && BytesKept(m1, m2, t, u, y);
    }
  }

  /** One link store at a listed block or at a. */
  lemma LinkStore<H>(m: Mem<H>, t: Tiles, place: map<Addr, nat>, a: Addr, b: Addr, l: Link, y: Layout)
    requires Tiled(t) && Roomy(t, place, y) && b in t.ext && t.ext[b] >= y.hs + y.ls && (b == a || b in place)
    ensures IndexOnly(m, PutLink(m, b, l, y), t, place, a, y)
    ensures b in PutLink(m, b, l, y).link && PutLink(m, b, l, y).link[b] == l
      && LinksKept(m, PutLink(m, b, l, y), place, b)
    ensures a in t.ext && t.ext[a] >= y.hs + y.ls && a != b && a in m.link ==>
      a in PutLink(m, b, l, y).link && PutLink(m, b, l, y).link[a] == m.link[a]
  {
    PutLinkFrame(m, t, place, b, l, y);
    if a in t.ext && a != b { BlocksDisjoint(t, a, b); }
  }

  // ------------------------------------------------------------------ push

  /** The stores of an insertion at the head. */
  function PushMem<H>(m: Mem<H>, head: Addr, a: Addr, y: Layout): Mem<H> {
    var m1 := PutLink(m, a, Link(0, head), y);
    if head != 0 then PutLink(m1, head, LinkAt(m1.link, head).(prev := a), y) else m1
  }

  lemma PushStores<H>(m: Mem<H>, t: Tiles, x: Index, heads: seq<Addr>, a: Addr, i: nat, y: Layout)
    requires Tiled(t) && Roomy(t, x.place, y) && ListsOk(m.link, heads, x.lists, x.place) && i < |x.lists|
    requires a in t.ext && a != 0 && a !in x.place && t.ext[a] >= y.hs + y.ls
    ensures IndexOnly(m, PushMem(m, heads[i], a, y), t, x.place, a, y)
    ensures forall b :: b in x.place || b == a ==>
      b in PushMem(m, heads[i], a, y).link
        && PushMem(m, heads[i], a, y).link[b] == LinkAt(Pushed(m.link, heads[i], a), b)
  {
    hide IndexOnly, PutLink;
    var head := heads[i];
    HeadFacts(m.link, heads, x.lists, x.place, i);
    var m1 := PutLink(m, a, Link(0, head), y);
    LinkStore(m, t, x.place, a, a, Link(0, head), y);
    forall b | b in x.place ensures b in m.link { var j := ListedFacts(m.link, heads, x.lists, x.place, b); }
    if head != 0 {
      LinkStore(m1, t, x.place, a, head, LinkAt(m1.link, head).(prev := a), y);
      IndexOnlyTrans(m, m1, PushMem(m, head, a, y), t, x.place, a, y);
    }
    forall b | b in x.place || b == a
      ensures b in PushMem(m, head, a, y).link && PushMem(m, head, a, y).link[b] == LinkAt(Pushed(m.link, head, a), b)
    {
      assert b != a ==> b in m.link && b in m1.link && m1.link[b] == m.link[b];
    }
  }

  function PushIndex(x: Index, i: nat, a: Addr): Index
    requires i < |x.lists|
  {
    Index(x.lists[i := [a] + x.lists[i]], x.place[a := i])
  }

  /** Inserting block a at the head of list i and marking both bitmap levels. */
  lemma PushOk<H>(m: Mem<H>, t: Tiles, x: Index, heads: seq<Addr>, fl: nat, sl: seq<nat>, w: nat, f: nat, s: nat,
      a: Addr, y: Layout)
    requires Tiled(t) && Roomy(t, x.place, y) && IndexOk(m.link, heads, fl, sl, x, w)
    requires f < |sl| && s < w && Flat(f, s, w) < |x.lists|
    requires a in t.ext && a != 0 && a !in x.place && t.ext[a] >= y.hs + y.ls
    ensures var i := Flat(f, s, w); var m' := PushMem(m, heads[i], a, y);
      && IndexOk(m'.link, heads[i := a], SetBit(fl, f), sl[f := SetBit(sl[f], s)], PushIndex(x, i, a), w)
      && IndexOnly(m, m', t, x.place, a, y) && Roomy(t, PushIndex(x, i, a).place, y)
  {
    hide IndexOnly, MapsOk, SetBit, PushMem, Flat;
    var i := Flat(f, s, w);
    PushStores(m, t, x, heads, a, i, y);
    Push(m.link, heads, x.lists, x.place, i, a);
    Mark(fl, sl, x.lists, w, f, s, [a] + x.lists[i]);
    ListsFrame(Pushed(m.link, heads[i], a), PushMem(m, heads[i], a, y).link, heads[i := a],
               x.lists[i := [a] + x.lists[i]], x.place[a := i]);
  }

  // --------------------------------------------------------------- removal

  /** The stores that close the gap around a. */
  function CloseMem<H>(m: Mem<H>, a: Addr, y: Layout): Mem<H> {
    var p, n := LinkAt(m.link, a).prev, LinkAt(m.link, a).next;
    var m1 := if p != 0 then PutLink(m, p, LinkAt(m.link, p).(next := n), y) else m;
    if n != 0 then PutLink(m1, n, LinkAt(m1.link, n).(prev := p), y) else m1
  }

  lemma CloseStores<H>(m: Mem<H>, t: Tiles, x: Index, heads: seq<Addr>, a: Addr, y: Layout)
    requires Tiled(t) && Roomy(t, x.place, y) && ListsOk(m.link, heads, x.lists, x.place) && a in x.place
    ensures IndexOnly(m, CloseMem(m, a, y), t, x.place, a, y)
    ensures forall b :: b in x.place && b != a ==>
      b in CloseMem(m, a, y).link && CloseMem(m, a, y).link[b] == LinkAt(Closed(m.link, a), b)
  {
    hide IndexOnly, PutLink, Tiled, ListsOk;
    var j := ListedFacts(m.link, heads, x.lists, x.place, a);
    var p, n := m.link[a].prev, m.link[a].next;
    forall b | b in x.place ensures b in m.link { var jb := ListedFacts(m.link, heads, x.lists, x.place, b); }
    var m1 := if p != 0 then PutLink(m, p, LinkAt(m.link, p).(next := n), y) else m;
    if p != 0 { LinkStore(m, t, x.place, a, p, LinkAt(m.link, p).(next := n), y); }
    else { IndexOnlyRefl(m, t, x.place, a, y); }
    if n != 0 {
      LinkStore(m1, t, x.place, a, n, LinkAt(m1.link, n).(prev := p), y);
      IndexOnlyTrans(m, m1, CloseMem(m, a, y), t, x.place, a, y);
    }
    forall b | b in x.place && b != a
      ensures b in CloseMem(m, a, y).link && CloseMem(m, a, y).link[b] == LinkAt(Closed(m.link, a), b)
    {
      assert b in m.link && b in m1.link && (b != p ==> m1.link[b] == m.link[b]);
    }
  }

  lemma IndexOnlyRefl<H>(m: Mem<H>, t: Tiles, place: map<Addr, nat>, a: Addr, y: Layout)
    ensures IndexOnly(m, m, t, place, a, y)
  {
    forall u | u in t.ext ensures BytesKept(m, m, t, u, y) { }
  }

  function DropIndex(x: Index, a: Addr, j: nat): Index
    requires a in x.place && x.place[a] < |x.lists| && j < |x.lists[x.place[a]]|
  {
    Index(x.lists[x.place[a] := Without(x.lists[x.place[a]], j)], x.place - {a})
  }

  /** Heads and bitmaps once the j-th member of list Flat(f, s) is gone. */
  function DropHeads(heads: seq<Addr>, i: nat, next: Addr, j: nat): seq<Addr>
    requires i < |heads|
  {
    if j == 0 then heads[i := next] else heads
  }

  function DropMaps(fl: nat, sl: seq<nat>, f: nat, s: nat, emptied: bool): (nat, seq<nat>)
    requires f < |sl|
  {
    if emptied then Unmarked(fl, sl, f, s) else (fl, sl)
  }

  lemma DropOk<H>(m: Mem<H>, t: Tiles, x: Index, heads: seq<Addr>, fl: nat, sl: seq<nat>, w: nat, f: nat, s: nat,
      a: Addr, j: nat, y: Layout)
    requires Tiled(t) && Roomy(t, x.place, y) && IndexOk(m.link, heads, fl, sl, x, w)
    requires a in x.place && f < |sl| && s < w && x.place[a] == Flat(f, s, w) < |x.lists|
    requires j < |x.lists[x.place[a]]| && x.lists[x.place[a]][j] == a
    ensures a in m.link
    ensures var i := x.place[a]; var m' := CloseMem(m, a, y); var emptied := |x.lists[i]| == 1;
      var maps := DropMaps(fl, sl, f, s, emptied);
      && IndexOk(m'.link, DropHeads(heads, i, m.link[a].next, j), maps.0, maps.1, DropIndex(x, a, j), w)
      && IndexOnly(m, m', t, x.place, a, y) && Roomy(t, DropIndex(x, a, j).place, y)
  {
    hide IndexOnly, MapsOk, ClearBit, CloseMem, Flat, Unmarked;
    var i := x.place[a];
    CloseStores(m, t, x, heads, a, y);
    Remove(m.link, heads, x.lists, x.place, a, j);
    var j' := ListedFacts(m.link, heads, x.lists, x.place, a);
    SamePosition(m.link, heads, x, a, j, j');
    var l' := Without(x.lists[i], j);
    if |x.lists[i]| == 1 {
      assert l' == [];
      Unmark(fl, sl, x.lists, w, f, s);
    } else {
      Keep(fl, sl, x.lists, w, i, l');
    }
    ListsFrame(Closed(m.link, a), CloseMem(m, a, y).link,
      heads[i := if j == 0 then NextOf(x.lists[i], 0) else heads[i]],
               x.lists[i := l'], x.place - {a});
    assert heads[i := heads[i]] == heads;
  }

  lemma SamePosition(link: Links, heads: seq<Addr>, x: Index, a: Addr, j: nat, k: nat)
    requires ListsOk(link, heads, x.lists, x.place) && a in x.place && x.place[a] < |x.lists|
    requires j < |x.lists[x.place[a]]| && k < |x.lists[x.place[a]]|
      && x.lists[x.place[a]][j] == x.lists[x.place[a]][k] == a
    ensures j == k
  {
    assert ListOk(link, heads[x.place[a]], x.lists[x.place[a]]);
  }
}
