/** Arrays of doubly linked free lists, as xvmalloc and TLSF keep them: null-terminated,
    changed at the head, or in the middle by a member that is merged away. */
module FreeLists {
  import opened Lists

  type Addr = nat

  datatype Link = Link(prev: Addr, next: Addr)

  type Links = map<Addr, Link>

  function LinkAt(link: Links, a: Addr): Link {
    if a in link then link[a] else Link(0, 0)
  }

  function NextOf(l: seq<Addr>, j: nat): Addr { if j + 1 < |l| then l[j + 1] else 0 }

  function PrevOf(l: seq<Addr>, j: nat): Addr
    requires j <= |l|
  {
    if j > 0 then l[j - 1] else 0
  }

  ghost predicate Node(link: Links, l: seq<Addr>, j: nat)
    requires j < |l|
  {
    l[j] != 0 && l[j] in link && link[l[j]] == Link(PrevOf(l, j), NextOf(l, j))
  }

  /** l is what the list starting at head holds, in order. */
  ghost predicate ListOk(link: Links, head: Addr, l: seq<Addr>) {
    && head == (if l == [] then 0 else l[0]) && Distinct(l)
    && forall j: nat {:trigger Node(link, l, j)} :: j < |l| ==> Node(link, l, j)
  }

  /** `place` gives for each listed block the index of its one list. */
  ghost predicate ListsOk(link: Links, heads: seq<Addr>, lists: seq<seq<Addr>>, place: map<Addr, nat>) {
    && |heads| == |lists|
    && (forall i: nat {:trigger ListOk(link, heads[i], lists[i])} :: i < |lists| ==> ListOk(link, heads[i], lists[i]))
    && (forall i: nat, a {:trigger a in lists[i]} :: i < |lists| && a in lists[i] ==> a in place && place[a] == i)
    && (forall a {:trigger a in place} :: a in place ==> place[a] < |lists| && a in lists[place[a]])
  }

  lemma ListFrame(link: Links, link': Links, head: Addr, l: seq<Addr>)
    requires ListOk(link, head, l) && forall a :: a in l ==> a in link' && link'[a] == LinkAt(link, a)
    ensures ListOk(link', head, l)
  {
    forall j: nat | j < |l| ensures Node(link', l, j) { assert Node(link, l, j) && l[j] in l; }
  }

  /** Only the links of listed blocks matter. */
  lemma ListsFrame(link: Links, link': Links, heads: seq<Addr>, lists: seq<seq<Addr>>, place: map<Addr, nat>)
    requires ListsOk(link, heads, lists, place)
    requires forall a :: a in place ==> a in link' && link'[a] == LinkAt(link, a)
    ensures ListsOk(link', heads, lists, place)
  {
    forall i: nat | i < |lists| ensures ListOk(link', heads[i], lists[i]) {
      assert ListOk(link, heads[i], lists[i]);
      ListFrame(link, link', heads[i], lists[i]);
    }
  }

  lemma ListedFacts(link: Links, heads: seq<Addr>, lists: seq<seq<Addr>>, place: map<Addr, nat>, a: Addr)
    returns (j: nat)
    requires ListsOk(link, heads, lists, place) && a in place
    ensures a != 0 && a in link && place[a] < |lists| && j < |lists[place[a]]| && lists[place[a]][j] == a
    ensures link[a] == Link(PrevOf(lists[place[a]], j), NextOf(lists[place[a]], j))
    ensures heads[place[a]] == a <==> j == 0
    ensures link[a].prev != 0 ==> link[a].prev in place && link[a].prev != a
    ensures link[a].next != 0 ==> link[a].next in place && link[a].next != a && link[a].next != link[a].prev
    ensures (link[a].prev == 0 <==> j == 0) && (link[a].next == 0 <==> j + 1 == |lists[place[a]]|)
  {
    var l := lists[place[a]];
    assert ListOk(link, heads[place[a]], l);
    j :| j < |l| && l[j] == a;
    assert Node(link, l, j);
    if j > 0 { assert l[j - 1] in l && Node(link, l, j - 1); }
    if j + 1 < |l| { assert l[j + 1] in l && Node(link, l, j + 1); }
  }

  lemma HeadFacts(link: Links, heads: seq<Addr>, lists: seq<seq<Addr>>, place: map<Addr, nat>, i: nat)
    requires ListsOk(link, heads, lists, place) && i < |lists|
    ensures heads[i] == 0 <==> lists[i] == []
    ensures heads[i] != 0 ==> heads[i] in place && place[heads[i]] == i && heads[i] in link && link[heads[i]].prev == 0
  {
    assert ListOk(link, heads[i], lists[i]);
    if lists[i] != [] { assert Node(link, lists[i], 0) && lists[i][0] in lists[i]; }
  }

  // ------------------------------------------------------- insert at the head

  function Pushed(link: Links, head: Addr, a: Addr): Links {
    var m := link[a := Link(0, head)];
    if head != 0 then m[head := LinkAt(m, head).(prev := a)] else m
  }

  lemma PushList(link: Links, head: Addr, l: seq<Addr>, a: Addr)
    requires ListOk(link, head, l) && a != 0 && a !in l
    ensures ListOk(Pushed(link, head, a), a, [a] + l)
  {
    var link', l' := Pushed(link, head, a), [a] + l;
    forall j: nat | j < |l'| ensures Node(link', l', j) {
      if j > 0 { assert Node(link, l, j - 1) && l'[j] == l[j - 1]; }
    }
  }

  lemma Push(link: Links, heads: seq<Addr>, lists: seq<seq<Addr>>, place: map<Addr, nat>, i: nat, a: Addr)
    requires ListsOk(link, heads, lists, place) && i < |lists| && a != 0 && a !in place
    ensures ListsOk(Pushed(link, heads[i], a), heads[i := a], lists[i := [a] + lists[i]], place[a := i])
  {
    var link', heads', lists', place' := Pushed(link, heads[i], a), heads[i := a], lists[i := [a] + lists[i]],
      place[a := i];
    HeadFacts(link, heads, lists, place, i);
    assert ListOk(link, heads[i], lists[i]);
    assert a !in lists[i];
    PushList(link, heads[i], lists[i], a);
    forall k: nat | k < |lists'| ensures ListOk(link', heads'[k], lists'[k]) {
      if k != i {
        assert ListOk(link, heads[k], lists[k]);
        forall b | b in lists[k] ensures b in link' && link'[b] == LinkAt(link, b) {
          assert b in place && place[b] == k;
          var j := ListedFacts(link, heads, lists, place, b);
        }
        ListFrame(link, link', heads[k], lists[k]);
      }
    }
    forall k: nat, b | k < |lists'| && b in lists'[k] ensures b in place' && place'[b] == k {
      if k == i && b != a { assert b in lists[i]; }
    }
  }

  // ---------------------------------------------------------------- removal

  /** The neighbours of a close up. */
  function Closed(link: Links, a: Addr): Links {
    var p, n := LinkAt(link, a).prev, LinkAt(link, a).next;
    var m := if p != 0 then link[p := LinkAt(link, p).(next := n)] else link;
    if n != 0 then m[n := LinkAt(m, n).(prev := p)] else m
  }

  lemma CloseList(link: Links, head: Addr, l: seq<Addr>, j: nat)
    requires ListOk(link, head, l) && j < |l|
    ensures ListOk(Closed(link, l[j]), if j == 0 then NextOf(l, 0) else head, Without(l, j))
  {
    var link', l' := Closed(link, l[j]), Without(l, j);
    assert Node(link, l, j);
    forall k: nat | k < |l'| ensures Node(link', l', k) {
      var o := if k < j then k else k + 1;
      assert Node(link, l, o) && l'[k] == l[o];
      CloseNeighbours(l, j, k);
    }
  }

  lemma CloseNeighbours(l: seq<Addr>, j: nat, k: nat)
    requires j < |l| && k < |l| - 1
    ensures var o := if k < j then k else k + 1; var l' := Without(l, j);
      && NextOf(l', k) == (if k + 1 == j then NextOf(l, j) else NextOf(l, o))
      && PrevOf(l', k) == (if k == j then PrevOf(l, j) else PrevOf(l, o))
  {
  }

  /** Removal of block a, the j-th of its list. */
  lemma Remove(link: Links, heads: seq<Addr>, lists: seq<seq<Addr>>, place: map<Addr, nat>, a: Addr, j: nat)
    requires ListsOk(link, heads, lists, place) && a in place && place[a] < |lists|
    requires j < |lists[place[a]]| && lists[place[a]][j] == a
    ensures var i := place[a];
      ListsOk(Closed(link, a), heads[i := if j == 0 then NextOf(lists[i], 0) else heads[i]],
              lists[i := Without(lists[i], j)], place - {a})
  {
    var i := place[a];
    var l := lists[i];
    var link', heads', lists' := Closed(link, a), heads[i := if j == 0 then NextOf(l, 0) else heads[i]],
      lists[i := Without(l, j)];
    assert ListOk(link, heads[i], l);
    CloseList(link, heads[i], l, j);
    WithoutMembers(l, j);
    var j' := ListedFacts(link, heads, lists, place, a);
    forall k: nat | k < |lists'| ensures ListOk(link', heads'[k], lists'[k]) {
      if k != i { CloseOther(link, heads, lists, place, a, k); }
    }
  }

  lemma CloseOther(link: Links, heads: seq<Addr>, lists: seq<seq<Addr>>, place: map<Addr, nat>, a: Addr, k: nat)
    requires ListsOk(link, heads, lists, place) && a in place && k < |lists| && k != place[a]
    ensures ListOk(Closed(link, a), heads[k], lists[k])
  {
    assert ListOk(link, heads[k], lists[k]);
    var j := ListedFacts(link, heads, lists, place, a);
    var l := lists[place[a]];
    if j > 0 { assert l[j - 1] in l; }
    if j + 1 < |l| { assert l[j + 1] in l; }
    forall b | b in lists[k] ensures b in Closed(link, a) && Closed(link, a)[b] == LinkAt(link, b) {
      assert b in place && place[b] == k;
      var jb := ListedFacts(link, heads, lists, place, b);
    }
    ListFrame(link, Closed(link, a), heads[k], lists[k]);
  }
}
