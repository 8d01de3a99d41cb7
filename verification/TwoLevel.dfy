/** Two-level bitmaps over an array of free lists: one word of w bits for each group of w
    lists, and one summary word with a bit for each group. */
module TwoLevel {
  import opened Bits
  import opened FreeLists

  function Flat(f: nat, s: nat, w: nat): nat { f * w + s }

  lemma FlatUnique(f: nat, s: nat, g: nat, r: nat, w: nat)
    requires s < w && r < w && Flat(f, s, w) == Flat(g, r, w)
    ensures f == g && s == r
  {
    if f < g { assert (f + 1) * w <= g * w by { MulMono(f + 1, g, w); } }
    if g < f { assert (g + 1) * w <= f * w by { MulMono(g + 1, f, w); } }
  }

  predicate NonEmpty(lists: seq<seq<Addr>>, i: nat) { i < |lists| && lists[i] != [] }

  ghost predicate WordOk(word: nat, f: nat, lists: seq<seq<Addr>>, w: nat) {
    forall s: nat {:trigger Bit(word, s)} :: Bit(word, s) <==> s < w && NonEmpty(lists, Flat(f, s, w))
  }

  /** Both levels say which lists are empty. */
  ghost predicate MapsOk(fl: nat, sl: seq<nat>, lists: seq<seq<Addr>>, w: nat) {
    && w > 0 && |lists| <= |sl| * w
    && (forall f: nat {:trigger WordOk(sl[f], f, lists, w)} :: f < |sl| ==> WordOk(sl[f], f, lists, w))
    && (forall f: nat {:trigger Bit(fl, f)} :: Bit(fl, f) <==> f < |sl| && sl[f] != 0)
  }

  /** List i gains a member. */
  lemma Mark(fl: nat, sl: seq<nat>, lists: seq<seq<Addr>>, w: nat, f: nat, s: nat, l: seq<Addr>)
    requires MapsOk(fl, sl, lists, w) && f < |sl| && s < w && Flat(f, s, w) < |lists| && l != []
    ensures MapsOk(SetBit(fl, f), sl[f := SetBit(sl[f], s)], lists[Flat(f, s, w) := l], w)
  {
    hide Bit, SetBit;
    var lists', sl' := lists[Flat(f, s, w) := l], sl[f := SetBit(sl[f], s)];
    forall g: nat | g < |sl| ensures WordOk(sl'[g], g, lists', w) {
      assert WordOk(sl[g], g, lists, w);
      forall r: nat ensures Bit(sl'[g], r) <==> r < w && NonEmpty(lists', Flat(g, r, w)) {
        if r < w && Flat(g, r, w) == Flat(f, s, w) { FlatUnique(g, r, f, s, w); }
      }
    }
    assert Bit(sl'[f], s);
    NonZeroHasBit(sl'[f], s);
  }

  function Unmarked(fl: nat, sl: seq<nat>, f: nat, s: nat): (nat, seq<nat>)
    requires f < |sl|
  {
    var sl' := sl[f := ClearBit(sl[f], s)];
    (if sl'[f] == 0 then ClearBit(fl, f) else fl, sl')
  }

  /** List i becomes empty. */
  lemma Unmark(fl: nat, sl: seq<nat>, lists: seq<seq<Addr>>, w: nat, f: nat, s: nat)
    requires MapsOk(fl, sl, lists, w) && f < |sl| && s < w && NonEmpty(lists, Flat(f, s, w))
    ensures MapsOk(Unmarked(fl, sl, f, s).0, Unmarked(fl, sl, f, s).1, lists[Flat(f, s, w) := []], w)
  {
    hide Bit, ClearBit;
    var (fl', sl') := Unmarked(fl, sl, f, s);
    var lists' := lists[Flat(f, s, w) := []];
    forall g: nat | g < |sl| ensures WordOk(sl'[g], g, lists', w) {
      assert WordOk(sl[g], g, lists, w);
      forall r: nat ensures Bit(sl'[g], r) <==> r < w && NonEmpty(lists', Flat(g, r, w)) {
        if r < w && Flat(g, r, w) == Flat(f, s, w) { FlatUnique(g, r, f, s, w); }
      }
    }
    assert WordOk(sl[f], f, lists, w) && Bit(sl[f], s);
    NonZeroHasBit(sl[f], s);
  }

  /** List i changes but stays non-empty. */
  lemma Keep(fl: nat, sl: seq<nat>, lists: seq<seq<Addr>>, w: nat, i: nat, l: seq<Addr>)
    requires MapsOk(fl, sl, lists, w) && NonEmpty(lists, i) && l != []
    ensures MapsOk(fl, sl, lists[i := l], w)
  {
    hide Bit;
    forall g: nat | g < |sl| ensures WordOk(sl[g], g, lists[i := l], w) {
      assert WordOk(sl[g], g, lists, w);
    }
  }

  // ------------------------------------------------------------ the search

  /** k is the first non-empty list from i on; a linear scan would stop there. */
  ghost predicate First(lists: seq<seq<Addr>>, i: nat, k: nat) {
    i <= k && NonEmpty(lists, k) && forall j: nat :: i <= j < k ==> !NonEmpty(lists, j)
  }

  ghost predicate NoneFrom(lists: seq<seq<Addr>>, i: nat) {
    forall j: nat :: j >= i ==> !NonEmpty(lists, j)
  }

  /** A hit in the group where the search starts. */
  lemma HitInGroup(fl: nat, sl: seq<nat>, lists: seq<seq<Addr>>, w: nat, f: nat, s: nat, r: nat)
    requires MapsOk(fl, sl, lists, w) && f < |sl| && s <= r && Bit(sl[f], r)
    requires forall q: nat :: s <= q < r ==> !Bit(sl[f], q)
    ensures r < w && First(lists, Flat(f, s, w), Flat(f, r, w))
  {
    hide Bit;
    assert WordOk(sl[f], f, lists, w);
    forall j: nat | Flat(f, s, w) <= j < Flat(f, r, w) ensures !NonEmpty(lists, j) {
      var q := j - f * w;
      assert j == Flat(f, q, w) && !Bit(sl[f], q);
    }
  }

  /** No hit in the starting group: the summary word names the group of the first hit. */
  lemma HitInLaterGroup(fl: nat, sl: seq<nat>, lists: seq<seq<Addr>>, w: nat, f: nat, s: nat, g: nat, r: nat)
    requires MapsOk(fl, sl, lists, w) && f < |sl| && s <= w && f < g && Bit(fl, g)
    requires forall q: nat :: s <= q ==> !Bit(sl[f], q)
    requires forall h: nat :: f < h < g ==> !Bit(fl, h)
    requires g < |sl| ==> Bit(sl[g], r) && forall q: nat :: q < r ==> !Bit(sl[g], q)
    ensures g < |sl| && r < w && First(lists, Flat(f, s, w), Flat(g, r, w))
  {
    hide Bit, Flat, NonEmpty;
    assert WordOk(sl[g], g, lists, w);
    assert Bit(sl[g], r);
    FlatGrows(f, s, g, r, w);
    forall j: nat | Flat(f, s, w) <= j < Flat(g, r, w) ensures !NonEmpty(lists, j) {
      if j < |lists| {
        var h, q := Where(fl, sl, lists, w, j);
        FlatOrder(f, s, h, q, w);
        FlatOrder(h, q, g, r, w);
        if h == f { assert !Bit(sl[f], q); }
        else if h == g { assert !Bit(sl[g], q); }
        else { assert !Bit(fl, h); EmptyWord(sl[h], q); }
      } else {
        BeyondLists(lists, j);
      }
    }
  }

  lemma BeyondLists(lists: seq<seq<Addr>>, j: nat)
    requires j >= |lists|
    ensures !NonEmpty(lists, j)
  {
  }

  lemma NoHit(fl: nat, sl: seq<nat>, lists: seq<seq<Addr>>, w: nat, f: nat, s: nat)
    requires MapsOk(fl, sl, lists, w) && f < |sl| && s <= w
    requires forall q: nat :: s <= q ==> !Bit(sl[f], q)
    requires forall h: nat :: f < h ==> !Bit(fl, h)
    ensures NoneFrom(lists, Flat(f, s, w))
  {
    hide Bit, Flat, NonEmpty;
    forall j: nat | j >= Flat(f, s, w) ensures !NonEmpty(lists, j) {
      if j < |lists| {
        var h, q := Where(fl, sl, lists, w, j);
        FlatOrder(f, s, h, q, w);
        if h == f { assert !Bit(sl[f], q); } else { assert !Bit(fl, h); EmptyWord(sl[h], q); }
      } else {
        BeyondLists(lists, j);
      }
    }
  }

  /** The group and bit of list j. */
  lemma Where(fl: nat, sl: seq<nat>, lists: seq<seq<Addr>>, w: nat, j: nat) returns (h: nat, q: nat)
    requires MapsOk(fl, sl, lists, w) && j < |lists|
    ensures h < |sl| && q < w && j == Flat(h, q, w)
    ensures (Bit(sl[h], q) <==> NonEmpty(lists, j)) && (Bit(fl, h) <==> sl[h] != 0)
  {
    hide Bit;
    h, q := DivMod(j, w);
    if h >= |sl| { MulMono(|sl|, h, w); }
    assert WordOk(sl[h], h, lists, w);
  }

  lemma FlatOrder(f: nat, s: nat, h: nat, q: nat, w: nat)
    requires s <= w && q < w && Flat(f, s, w) <= Flat(h, q, w)
    ensures f < h || (f == h && s <= q)
  {
    if h < f { MulMono(h + 1, f, w); }
  }

  lemma FlatGrows(f: nat, s: nat, g: nat, r: nat, w: nat)
    requires f < g && s <= w
    ensures Flat(f, s, w) <= Flat(g, r, w)
  {
    MulMono(f + 1, g, w);
  }

  lemma EmptyWord(word: nat, q: nat)
    requires word == 0
    ensures !Bit(word, q)
  {
    ZeroBits(q);
  }

  lemma DivMod(j: nat, w: nat) returns (h: nat, q: nat)
    requires w > 0
    ensures j == h * w + q && q < w
  {
    h, q := j / w, j % w;
  }
}
