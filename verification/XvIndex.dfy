/** xvmalloc: free list indices and the two-level search (4 KiB pages, 64-bit words). */
module XvIndex {
  import opened Bits
  import opened FreeLists
  import opened TwoLevel

  const PAGE: nat := 4096
  const XV_ALIGN: nat := 4
  const XV_MIN_ALLOC_SIZE: nat := 32
  const XV_MAX_ALLOC_SIZE: nat := PAGE - XV_ALIGN
  const FL_DELTA: nat := 8
  const NUM_FREE_LISTS: nat := (XV_MAX_ALLOC_SIZE - XV_MIN_ALLOC_SIZE) / FL_DELTA + 1
  const BITS_PER_LONG: nat := 64
  const MAX_FLI: nat := (NUM_FREE_LISTS + BITS_PER_LONG - 1) / BITS_PER_LONG

  function AlignUp(n: nat, a: nat): nat
    requires a > 0
  {
    (n + a - 1) / a * a
  }

  /** The list for a block of this size; smaller blocks are never inserted. */
  function GetIndexForInsert(size: nat): nat {
    var s := if size > XV_MAX_ALLOC_SIZE then XV_MAX_ALLOC_SIZE else size;
    var t := s - s % FL_DELTA;
    if t < XV_MIN_ALLOC_SIZE then 0 else (t - XV_MIN_ALLOC_SIZE) / FL_DELTA
  }

  /** The first list on which every block is large enough. */
  function GetIndex(size: nat): nat {
    var s := if size < XV_MIN_ALLOC_SIZE then XV_MIN_ALLOC_SIZE else size;
    (AlignUp(s, FL_DELTA) - XV_MIN_ALLOC_SIZE) / FL_DELTA
  }

  /** Blocks are listed on the lists there are. */
  lemma InsertIndexInRange(size: nat)
    ensures GetIndexForInsert(size) < NUM_FREE_LISTS <= MAX_FLI * BITS_PER_LONG
  {
    assert GetIndexForInsert(size) <= (XV_MAX_ALLOC_SIZE - XV_MIN_ALLOC_SIZE) / FL_DELTA;
  }

  /** A request starts the search at a list that exists exactly up to 4088 bytes; beyond that
      it starts one past the last list, in a bit position that is never set. */
  lemma SearchIndexInRange(size: nat)
    requires 1 <= size <= XV_MAX_ALLOC_SIZE
    ensures GetIndex(size) < NUM_FREE_LISTS <==> size <= 4088
    ensures GetIndex(size) < MAX_FLI * BITS_PER_LONG
  {
    assert size <= 4088 ==> (size + 7) / 8 * 8 <= 4088;
    assert size > 4088 ==> (size + 7) / 8 == 512;
  }

  /** The size from which on a free block is considered for a request. */
  function Need(size: nat): nat { AlignUp(if size < XV_MIN_ALLOC_SIZE then XV_MIN_ALLOC_SIZE else size, FL_DELTA) }

  /** Exactly the blocks listed at or above the index of a request are large enough for it, rounded. */
  lemma IndexFits(size: nat, block: nat)
    requires XV_MIN_ALLOC_SIZE <= block <= XV_MAX_ALLOC_SIZE && size <= XV_MAX_ALLOC_SIZE
    ensures GetIndexForInsert(block) >= GetIndex(size) <==> block >= Need(size)
    ensures Need(size) >= size && Need(size) >= XV_MIN_ALLOC_SIZE
  {
    hide GetIndexForInsert, GetIndex, Need;
    InsertIs(block);
    SearchIs(size);
    EighthsCompare(block, Need(size));
  }

  lemma InsertIs(block: nat)
    requires XV_MIN_ALLOC_SIZE <= block <= XV_MAX_ALLOC_SIZE
    ensures block / FL_DELTA >= 4 && GetIndexForInsert(block) == block / FL_DELTA - 4
  {
    assert block - block % FL_DELTA == 8 * (block / 8);
  }

  lemma SearchIs(size: nat)
    ensures Need(size) >= size && Need(size) >= XV_MIN_ALLOC_SIZE && Need(size) % 8 == 0
    ensures GetIndex(size) == Need(size) / 8 - 4
  {
    var s := if size < XV_MIN_ALLOC_SIZE then XV_MIN_ALLOC_SIZE else size;
    var e := (s + 7) / 8;
    assert AlignUp(s, FL_DELTA) == 8 * e && 8 * e >= s && e >= 4;
  }

  lemma EighthsCompare(b: nat, n: nat)
    requires n % 8 == 0
    ensures b / 8 >= n / 8 <==> b >= n
  {
  }

  /** Rounding to four bytes first makes no difference. */
  lemma NeedRounded(size: nat)
    ensures Need(AlignUp(size, XV_ALIGN)) == Need(size)
  {
    var u := (size + 3) / 4;
    assert AlignUp(size, 4) == 4 * u && (4 * u + 7) / 8 == (size + 7) / 8;
  }

  /** Lists are in the order of the sizes of their blocks, which differ by less than eight. */
  lemma IndexOrder(a: nat, b: nat)
    requires XV_MIN_ALLOC_SIZE <= a <= XV_MAX_ALLOC_SIZE && XV_MIN_ALLOC_SIZE <= b <= XV_MAX_ALLOC_SIZE
    ensures GetIndexForInsert(a) <= GetIndexForInsert(b) <==> a / FL_DELTA <= b / FL_DELTA
  {
    hide GetIndexForInsert;
    InsertIs(a);
    InsertIs(b);
  }

  /** A whole page serves every request the lists can serve. */
  lemma PageFits(size: nat)
    requires 1 <= size <= 4088
    ensures GetIndexForInsert(PAGE - XV_ALIGN) >= GetIndex(size)
  {
    assert (size + 7) / 8 * 8 <= 4088;
  }

  /** The head of the first non-empty list from the index of the request on. */
  method FindBlock(fl: nat, sl: seq<nat>, heads: seq<Addr>, size: nat, ghost link: Links, ghost lists: seq<seq<Addr>>,
                   ghost place: map<Addr, nat>)
    returns (index: nat, block: Addr)
    requires 1 <= size <= XV_MAX_ALLOC_SIZE && |heads| == NUM_FREE_LISTS && |sl| == MAX_FLI
    requires ListsOk(link, heads, lists, place) && MapsOk(fl, sl, lists, BITS_PER_LONG)
    ensures block == 0 <==> NoneFrom(lists, GetIndex(size))
    ensures block != 0 ==> First(lists, GetIndex(size), index) && index < NUM_FREE_LISTS && block == heads[index]
  {
    hide Bit, ListsOk, MapsOk, Lowest, Shr, Flat, First, NoneFrom, NonEmpty, GetIndex;
    if fl == 0 {
      AllEmpty(sl, lists, GetIndex(size));
      return 0, 0;
    }
    index := GetIndex(size);
    SearchIndexInRange(size);
    var f, s := index / BITS_PER_LONG, index % BITS_PER_LONG;
    FlatIs(f, s);
    var slbitmap := sl[f];
    if Bit(slbitmap, s) {
      HitInGroup(fl, sl, lists, BITS_PER_LONG, f, s, s);
    } else {
      s := s + 1;
      slbitmap := Shr(slbitmap, s);
      if s != BITS_PER_LONG && slbitmap != 0 {
        var z := Lowest(slbitmap);
        LowestShifted(sl[f], s, z);
        HitInGroup(fl, sl, lists, BITS_PER_LONG, f, s - 1, s + z);
        FlatIs(f, s + z);
        index := index + z + 1;
      } else {
        NothingLeft(fl, sl, lists, f, s, slbitmap);
        var flbitmap := Shr(fl, f + 1);
        if flbitmap == 0 {
          NoneShifted(fl, f + 1);
          NoHit(fl, sl, lists, BITS_PER_LONG, f, s - 1);
          return 0, 0;
        }
        var z := Lowest(flbitmap);
        LowestShifted(fl, f + 1, z);
        GroupExists(fl, sl, lists, f + z + 1);
        slbitmap := sl[f + z + 1];
        HitInLaterGroup(fl, sl, lists, BITS_PER_LONG, f, s - 1, f + z + 1, Lowest(slbitmap));
        FlatIs(f + z + 1, Lowest(slbitmap));
        index := (f + z + 1) * BITS_PER_LONG + Lowest(slbitmap);
      }
    }
    FirstIsNonEmpty(lists, GetIndex(size), index);
    HeadFacts(link, heads, lists, place, index);
    ListsCount(link, heads, lists, place);
    block := heads[index];
  }

  lemma FlatIs(f: nat, s: nat)
    ensures Flat(f, s, BITS_PER_LONG) == f * BITS_PER_LONG + s
  {
  }

  lemma ListsCount(link: Links, heads: seq<Addr>, lists: seq<seq<Addr>>, place: map<Addr, nat>)
    requires ListsOk(link, heads, lists, place)
    ensures |heads| == |lists|
  {
  }

  lemma FirstIsNonEmpty(lists: seq<seq<Addr>>, i: nat, k: nat)
    requires First(lists, i, k)
    ensures k < |lists| && lists[k] != [] && !NoneFrom(lists, i)
  {
  }

  lemma AllEmpty(sl: seq<nat>, lists: seq<seq<Addr>>, i: nat)
    requires MapsOk(0, sl, lists, BITS_PER_LONG)
    ensures NoneFrom(lists, i)
  {
    hide Bit;
    forall j: nat | j >= i ensures !NonEmpty(lists, j) {
      if j < |lists| {
        var h, q := Where(0, sl, lists, BITS_PER_LONG, j);
        EmptyWord(0, h);
        if sl[h] == 0 { EmptyWord(sl[h], q); }
      }
    }
  }

  /** The lowest bit of a shifted word is the lowest one at or above the shift. */
  lemma LowestShifted(m: nat, k: nat, z: nat)
    requires Shr(m, k) != 0 && z == Lowest(Shr(m, k))
    ensures Bit(m, k + z) && forall q: nat :: k <= q < k + z ==> !Bit(m, q)
  {
    hide Bit, Lowest, Shr;
    BitOfShr(m, k, z);
    forall q: nat | k <= q < k + z ensures !Bit(m, q) { BitOfShr(m, k, q - k); }
  }

  lemma NoneShifted(m: nat, k: nat)
    requires Shr(m, k) == 0
    ensures forall q: nat :: k <= q ==> !Bit(m, q)
  {
    hide Bit, Shr;
    forall q: nat | k <= q ensures !Bit(m, q) {
      BitOfShr(m, k, q - k);
      ZeroBits(q - k);
    }
  }

  lemma NothingLeft(fl: nat, sl: seq<nat>, lists: seq<seq<Addr>>, f: nat, s: nat, slbitmap: nat)
    requires MapsOk(fl, sl, lists, BITS_PER_LONG) && f < |sl| && 1 <= s <= BITS_PER_LONG && !Bit(sl[f], s - 1)
    requires slbitmap == Shr(sl[f], s) && (s == BITS_PER_LONG || slbitmap == 0)
    ensures forall q: nat :: s - 1 <= q ==> !Bit(sl[f], q)
  {
    hide Bit, Shr;
    assert WordOk(sl[f], f, lists, BITS_PER_LONG);
    if slbitmap == 0 { NoneShifted(sl[f], s); }
  }

  lemma GroupExists(fl: nat, sl: seq<nat>, lists: seq<seq<Addr>>, f: nat)
    requires MapsOk(fl, sl, lists, BITS_PER_LONG) && Bit(fl, f)
    ensures f < |sl| && sl[f] != 0
  {
  }
}
