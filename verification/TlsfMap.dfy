/** TLSF: the two-level size classes, rounding up to search and down to insert. */
module TlsfMap {
  import opened Bits
  import opened FreeLists
  import opened TwoLevel

  const MEM_ALIGN: nat := 16
  const MAX_LOG2_SLI: nat := 5
  const MAX_SLI: nat := 32
  const FLI_OFFSET: nat := 6
  const SMALL_BLOCK: nat := 128
  const REAL_FLI: nat := 24
  const MIN_BLOCK_SIZE: nat := 16
  const BHDR_OVERHEAD: nat := 16

  /** Blocks this large and larger have no list: 1 << (REAL_FLI + FLI_OFFSET). */
  const TOO_LARGE: nat := 0x4000_0000

  /** Values of size_t and of 32 bits lie below. */
  const SIZE_LIMIT: nat := 0x1_0000_0000_0000_0000
  const WORD_LIMIT: nat := 0x1_0000_0000

  function RoundUpSize(r: nat): nat { (r + MEM_ALIGN - 1) / MEM_ALIGN * MEM_ALIGN }

  function RoundDownSize(r: nat): nat { r / MEM_ALIGN * MEM_ALIGN }

  /** The class (fl, sl) of a block of size r. */
  function MappingInsert(r: nat): (nat, nat) {
    if r < SMALL_BLOCK then (0, r / (SMALL_BLOCK / MAX_SLI))
    else
      LargeFacts(r);
      var fl := Log2(r);
      (fl - FLI_OFFSET, Shr(r, fl - MAX_LOG2_SLI) - MAX_SLI)
  }

  /** The rounded request and the class where its search starts. */
  function MappingSearch(r: nat): (nat, nat, nat) {
    if r < SMALL_BLOCK then (r, 0, r / (SMALL_BLOCK / MAX_SLI))
    else
      LargeFacts(r);
      var t := Pow2(Log2(r) - MAX_LOG2_SLI) - 1;
      LargeFacts(r + t);
      var fl := Log2(r + t);
      (AndNot(r + t, t), fl - FLI_OFFSET, Shr(r + t, fl - MAX_LOG2_SLI) - MAX_SLI)
  }

  /** The number of the free list of a class. */
  function ClassIndex(r: nat): nat { Flat(MappingInsert(r).0, MappingInsert(r).1, MAX_SLI) }

  /** A size of at least 128 shifted down to its top six bits. */
  lemma LargeFacts(r: nat)
    requires r >= SMALL_BLOCK
    ensures Log2(r) >= FLI_OFFSET + 1
    ensures var k := Log2(r) - MAX_LOG2_SLI;
      && Shr(r, k) == r / Pow2(k) && MAX_SLI <= Shr(r, k) < 2 * MAX_SLI && Pow2(Log2(r)) == MAX_SLI * Pow2(k)
  {
    hide Log2, Pow2, Shr;
    Log2Is(r);
    if Log2(r) < 7 { Pow2Grows(Log2(r), 7); Pow2At7(); }
    var k := Log2(r) - MAX_LOG2_SLI;
    Pow2Adds(MAX_LOG2_SLI, k);
    Pow2At5();
    ShrDiv(r, k);
    QuotientRange(r, Pow2(k));
  }

  lemma Pow2At5()
    ensures Pow2(5) == 32
  {
    assert Pow2(2) == 4;
  }

  lemma Pow2At7()
    ensures Pow2(7) == 128
  {
    Pow2At5();
    assert Pow2(7) == 4 * Pow2(5);
  }

  lemma Pow2At30()
    ensures Pow2(30) == TOO_LARGE
  {
    hide Pow2;
    Pow2At5();
    Pow2Adds(5, 5);
    Pow2Adds(10, 10);
    Pow2Adds(10, 20);
  }

  lemma QuotientRange(r: nat, p: nat)
    requires p > 0 && 32 * p <= r < 64 * p
    ensures 32 <= r / p < 64
  {
  }

  /** Blocks below the limit, and no others, have lists. */
  lemma InsertInRange(r: nat)
    ensures MappingInsert(r).0 < REAL_FLI <==> r < TOO_LARGE
    ensures MappingInsert(r).1 < MAX_SLI
    ensures r < TOO_LARGE ==> ClassIndex(r) < REAL_FLI * MAX_SLI
  {
    hide Log2, Pow2, Shr;
    if r >= SMALL_BLOCK {
      LargeFacts(r);
      Log2Is(r);
      Pow2At30();
      if Log2(r) > 30 { Pow2Grows(30, Log2(r)); }
      if Log2(r) < 30 { Pow2Grows(Log2(r), 30); }
    }
  }

  // ------------------------------------------------------- rounding to search

  /** The multiple of p at or below x. */
  function Floor(x: nat, p: nat): nat
    requires p > 0
  {
    x / p * p
  }

  lemma FloorFacts(x: nat, p: nat)
    requires p > 0
    ensures Floor(x, p) <= x < Floor(x, p) + p && Floor(x, p) % p == 0 && Floor(x, p) / p == x / p
  {
    DivBounds(x, p);
    MultipleMod(x / p, p);
  }

  lemma FloorOfMultiple(s: nat, p: nat)
    requires p > 0 && s % p == 0
    ensures Floor(s + (p - 1), p) == s
  {
    var q := s / p;
    assert s == q * p;
    DivUnique(s + (p - 1), p, q);
  }

  /** The search mapping of a large request in terms of the step p between its classes. */
  lemma SearchIs(r: nat)
    requires r >= SMALL_BLOCK
    ensures Log2(r) >= MAX_LOG2_SLI
    ensures var p := Pow2(Log2(r) - MAX_LOG2_SLI);
      && p > 0 && 32 * p <= r < 64 * p && MappingSearch(r).0 == Floor(r + (p - 1), p)
      && r + (p - 1) >= SMALL_BLOCK
      && MappingSearch(r).1 == Log2(r + (p - 1)) - FLI_OFFSET
      && MappingSearch(r).2 == Shr(r + (p - 1), Log2(r + (p - 1)) - MAX_LOG2_SLI) - MAX_SLI
  {
    hide Log2, Pow2, Shr, AndNot, Floor;
    LargeFacts(r);
    Log2Is(r);
    var k := Log2(r) - MAX_LOG2_SLI;
    var t := Pow2(k) - 1;
    MaskLow(r + t, k);
    FloorIs(r + t, Pow2(k));
  }

  lemma FloorIs(x: nat, p: nat)
    requires p > 0
    ensures Floor(x, p) == x / p * p
  {
  }

  /** The request is rounded up by at most a thirty-second, to the lower end of a class, and
      the search starts at that class. */
  lemma SearchRounds(r: nat)
    ensures r < SMALL_BLOCK ==> MappingSearch(r).0 == r
    ensures r <= MappingSearch(r).0 && MappingSearch(r).0 - r <= r / 32
    ensures (MappingSearch(r).1, MappingSearch(r).2) == MappingInsert(MappingSearch(r).0)
    ensures r >= SMALL_BLOCK ==> ClassStart(MappingSearch(r).0)
  {
    hide Log2, Pow2, Shr, Floor, AndNot, ClassStart;
    if r >= SMALL_BLOCK {
      LargeFacts(r);
      SearchIs(r);
      var k := Log2(r) - MAX_LOG2_SLI;
      var p := Pow2(k);
      FloorFacts(r + (p - 1), p);
      var s := MappingSearch(r).0;
      AtMostThirtySecond(r, p, s);
      RoundedClass(r, k, p);
    }
  }

  lemma AtMostThirtySecond(r: nat, p: nat, s: nat)
    requires 32 * p <= r && r <= s < r + p
    ensures s - r <= r / 32
  {
  }

  /** A size at the lower end of its class. */
  ghost predicate ClassStart(s: nat) {
    s >= SMALL_BLOCK && Log2(s) >= MAX_LOG2_SLI && s % Pow2(Log2(s) - MAX_LOG2_SLI) == 0
  }

  /** Rounding may carry into the next power of two. */
  lemma RoundedClass(r: nat, k: nat, p: nat)
    requires p == Pow2(k) && 0 < p && 32 * p <= r < 64 * p && 128 <= r
    ensures var s := Floor(r + (p - 1), p);
      && ClassStart(s) && Log2(r + (p - 1)) == Log2(s)
      && Shr(r + (p - 1), Log2(s) - MAX_LOG2_SLI) == Shr(s, Log2(s) - MAX_LOG2_SLI)
  {
    hide Log2, Pow2, Shr, Floor;
    var r' := r + (p - 1);
    var s := Floor(r', p);
    FloorFacts(r', p);
    NextPower(k);
    if r' < 64 * p {
      SameClass(r', s, k);
    } else {
      Carry(r, p);
      SameClass(r', s, k + 1);
      MultipleMod(32, 2 * p);
    }
  }

  lemma SameClass(x: nat, s: nat, k: nat)
    requires 32 * Pow2(k) <= s <= x < 64 * Pow2(k) && x / Pow2(k) == s / Pow2(k)
    ensures Log2(x) == Log2(s) == k + 5 && Shr(x, k) == Shr(s, k)
  {
    hide Log2, Pow2, Shr;
    Pow2Adds(5, k);
    Pow2At5();
    Log2Unique(x, k + 5);
    Log2Unique(s, k + 5);
    ShrDiv(x, k);
    ShrDiv(s, k);
  }

  lemma Carry(r: nat, p: nat)
    requires p > 0 && r < 64 * p <= r + (p - 1)
    ensures Floor(r + (p - 1), p) == 64 * p && (r + (p - 1)) / (2 * p) == 32 == 64 * p / (2 * p)
      && r + (p - 1) < 64 * (2 * p)
  {
    DivUnique(r + (p - 1), p, 64);
    DivUnique(r + (p - 1), 2 * p, 32);
    DivUnique(64 * p, 2 * p, 32);
  }

  lemma NextPower(k: nat)
    ensures Pow2(k + 1) == 2 * Pow2(k) && Pow2(k + 6) == 64 * Pow2(k)
  {
    hide Pow2;
    Pow2Adds(1, k);
    Pow2Adds(6, k);
    assert Pow2(1) == 2 && Pow2(6) == 64 by { PowersSmall(); }
  }

  lemma PowersSmall()
    ensures Pow2(1) == 2 && Pow2(6) == 64
  {
    Pow2At5();
    assert Pow2(6) == 2 * Pow2(5);
  }

  /** Searching again for a rounded request changes nothing. */
  lemma SearchIdempotent(r: nat)
    ensures MappingSearch(MappingSearch(r).0) == MappingSearch(r)
  {
    hide Log2, Pow2, Shr, Floor, AndNot, MappingSearch;
    SearchRounds(r);
    var s := MappingSearch(r).0;
    SearchRounds(s);
    if s >= SMALL_BLOCK {
      SmallStays(r);
      SearchIs(s);
      FloorOfMultiple(s, Pow2(Log2(s) - MAX_LOG2_SLI));
    } else {
      SearchSmall(r);
    }
  }

  lemma SmallStays(r: nat)
    requires MappingSearch(r).0 >= SMALL_BLOCK
    ensures r >= SMALL_BLOCK
  {
  }

  lemma SearchSmall(r: nat)
    requires MappingSearch(r).0 < SMALL_BLOCK
    ensures MappingSearch(r).0 == r
  {
    SearchRounds(r);
  }

  // ------------------------------------------------------- the largest request

  /** The size that a request for `size` bytes is searched with, in the arithmetic of size_t: the
      last 15 sizes of all are rounded up to 0. */
  function Request(size: nat): nat {
    if size < MIN_BLOCK_SIZE then MIN_BLOCK_SIZE else RoundUpSize(size) % SIZE_LIMIT
  }

  lemma RequestIs(size: nat)
    requires size < SIZE_LIMIT
    ensures Request(size) % MEM_ALIGN == 0 && Request(size) < SIZE_LIMIT
    ensures size <= SIZE_LIMIT - MEM_ALIGN ==>
      MIN_BLOCK_SIZE <= Request(size) && size <= Request(size) <= size + MEM_ALIGN
    ensures size > SIZE_LIMIT - MEM_ALIGN ==> Request(size) == 0
    ensures size <= LARGEST_REQUEST <==> 0 < Request(size) <= LARGEST_REQUEST
  {
    var q := (size + 15) / 16;
    assert RoundUpSize(size) == 16 * q && 16 * q <= size + 15 < 16 * q + 16;
    assert SIZE_LIMIT == 16 * 0x1000_0000_0000_0000;
  }

  /** The last class of the matrix starts here: 63 steps of 16 MiB. */
  const LARGEST_REQUEST: nat := 63 * 0x100_0000

  /** What can be asked for: anything larger is rounded past the last class. */
  lemma SearchBelow(r: nat)
    ensures MappingSearch(r).0 < TOO_LARGE <==> r <= LARGEST_REQUEST
  {
    hide Log2, Pow2, Shr, MappingSearch, Floor;
    SearchRounds(r);
    if r >= SMALL_BLOCK && r < TOO_LARGE {
      SearchIs(r);
      LargeFacts(r);
      var k := Log2(r) - MAX_LOG2_SLI;
      Pow2At24();
      FloorFacts(r + (Pow2(k) - 1), Pow2(k));
      if k < 24 {
        Pow2Grows(k, 24);
      } else {
        if k > 24 { Pow2Grows(24, k); }
        LastSteps(r);
      }
    }
  }

  lemma Pow2At24()
    ensures Pow2(24) == 0x100_0000
  {
    hide Pow2;
    Pow2Adds(6, 24);
    PowersSmall();
    Pow2At30();
  }

  lemma LastSteps(r: nat)
    requires 0x2000_0000 <= r
    ensures Floor(r + 0xFF_FFFF, 0x100_0000) < TOO_LARGE <==> r <= LARGEST_REQUEST
  {
  }

  lemma PowersTwo()
    ensures Pow2(2) == 4
  {
    assert Pow2(1) == 2;
  }

  // --------------------------------------------------------------- regions

  /** What the 32-bit size field of the first block of a region of n bytes holds. */
  function StoredSize(n: nat): nat { RoundDownSize((n - 2 * BHDR_OVERHEAD) % SIZE_LIMIT) % WORD_LIMIT }

  /** A region of whole pages becomes one listed block exactly if the low 32 bits of its size are
      neither 0 nor above 1 GiB, and they are then all of it that is used. */
  lemma RegionInRange(n: nat)
    requires n % 0x1000 == 0
    ensures MappingInsert(StoredSize(n)).0 < REAL_FLI <==> 0 < n % WORD_LIMIT <= TOO_LARGE
    ensures 0 < n % WORD_LIMIT <= TOO_LARGE ==> StoredSize(n) == n % WORD_LIMIT - 2 * BHDR_OVERHEAD
  {
    hide MappingInsert;
    InsertInRange(StoredSize(n));
    LowWords(n);
  }

  lemma LowWords(n: nat)
    requires n % 0x1000 == 0
    ensures StoredSize(n) == (n % WORD_LIMIT - 2 * BHDR_OVERHEAD) % WORD_LIMIT && n % WORD_LIMIT % 0x1000 == 0
  {
    var q := n / 0x1000;
    assert n == 0x1000 * q;
    var m := (n - 2 * BHDR_OVERHEAD) % SIZE_LIMIT;
    ModOfMod(n - 2 * BHDR_OVERHEAD, 0x1000_0000_0000_0000, 16);
    SixteenLess(n);
    WholeUnits(m, m / 16);
    ModOfMod(n - 2 * BHDR_OVERHEAD, WORD_LIMIT, WORD_LIMIT);
    ModLess(n);
    ModOfMod(n, 0x10_0000, 0x1000);
  }

  /** The remainder by a multiple has the same remainder. */
  lemma ModOfMod(x: int, a: nat, b: nat)
    requires a > 0 && b > 0
    ensures a * b > 0 && x % (a * b) % b == x % b
  {
    Positive(a, b);
    var q, m := x / (a * b), x % (a * b);
    var e, c := m / b, m % b;
    assert x == (q * a + e) * b + c by {
      assert q * (a * b) == (q * a) * b;
      assert (q * a + e) * b == (q * a) * b + e * b;
    }
    RemainderUnique(x, b, q * a + e, c);
  }

  lemma Positive(a: nat, b: nat)
    requires a > 0 && b > 0
    ensures a * b > 0
  {
  }

  lemma RemainderUnique(x: int, b: nat, q: int, c: nat)
    requires b > 0 && x == q * b + c && c < b
    ensures x % b == c
  {
    var e := q - x / b;
    assert e * b == x % b - c by { assert x == x / b * b + x % b; }
    if e >= 1 { TimesAtLeast(e, b); }
    if -e >= 1 { TimesAtLeast(-e, b); }
    assert e == 0;
  }

  lemma TimesAtLeast(e: int, b: nat)
    requires e >= 1
    ensures e * b >= b
  {
  }

  lemma SixteenLess(n: nat)
    requires n % 0x1000 == 0
    ensures (n - 2 * BHDR_OVERHEAD) % 16 == 0
  {
    assert n == 16 * (0x100 * (n / 0x1000));
  }

  lemma ModLess(n: nat)
    ensures (n - 2 * BHDR_OVERHEAD) % WORD_LIMIT == (n % WORD_LIMIT - 2 * BHDR_OVERHEAD) % WORD_LIMIT
  {
  }

  lemma WholeUnits(n: nat, q: nat)
    requires n == 16 * q
    ensures RoundDownSize(n) == n
  {
  }

  // --------------------------------------------------------------- good fit

  /** Larger blocks are on the same list or on later ones. */
  lemma IndexMonotone(b: nat, s: nat)
    requires b <= s
    ensures ClassIndex(b) <= ClassIndex(s)
  {
    hide Log2, Pow2, Shr;
    if b >= SMALL_BLOCK {
      LargeFacts(b);
      LargeFacts(s);
      LogMonotone(b, s);
      if Log2(b) == Log2(s) { DivMonotone(b, s, Pow2(Log2(b) - MAX_LOG2_SLI)); }
    } else if s >= SMALL_BLOCK {
      LargeFacts(s);
    }
  }

  lemma DivMonotone(b: nat, s: nat, p: nat)
    requires b <= s && p > 0
    ensures b / p <= s / p
  {
    if b / p > s / p { MulMono(s / p + 1, b / p, p); }
  }

  lemma LogMonotone(b: nat, s: nat)
    requires 0 < b <= s
    ensures Log2(b) <= Log2(s)
  {
    hide Log2, Pow2;
    Log2Is(b);
    Log2Is(s);
    if Log2(b) > Log2(s) { Pow2Grows(Log2(s), Log2(b)); }
  }

  /** Below the lower end of a class lie only earlier classes. */
  lemma BelowClassStart(b: nat, s: nat)
    requires b < s && (ClassStart(s) || (s < SMALL_BLOCK && s % (SMALL_BLOCK / MAX_SLI) == 0))
    ensures ClassIndex(b) < ClassIndex(s)
  {
    hide Log2, Pow2, Shr;
    if s >= SMALL_BLOCK {
      LargeFacts(s);
      if b >= SMALL_BLOCK {
        LargeFacts(b);
        LogMonotone(b, s);
        var p := Pow2(Log2(s) - MAX_LOG2_SLI);
        if Log2(b) == Log2(s) { BelowMultiple(b, s, p); }
      }
    }
  }

  lemma BelowMultiple(b: nat, s: nat, p: nat)
    requires p > 0 && b < s && s % p == 0
    ensures b / p < s / p
  {
    assert s == s / p * p;
    if b / p >= s / p { MulMono(s / p, b / p, p); }
  }

  /** Every block on a list from the search index on is large enough, for aligned requests. */
  lemma GoodFit(r: nat, b: nat)
    requires r % MEM_ALIGN == 0
    ensures ClassIndex(b) >= Flat(MappingSearch(r).1, MappingSearch(r).2, MAX_SLI) <==> b >= MappingSearch(r).0
  {
    hide Log2, Pow2, Shr;
    SearchRounds(r);
    var s := MappingSearch(r).0;
    assert Flat(MappingSearch(r).1, MappingSearch(r).2, MAX_SLI) == ClassIndex(s);
    if b < s { BelowClassStart(b, s); } else { IndexMonotone(s, b); }
  }

  /** Rounding keeps requests aligned. */
  lemma SearchAligned(r: nat)
    requires r % MEM_ALIGN == 0
    ensures MappingSearch(r).0 % MEM_ALIGN == 0
  {
    hide Log2, Pow2, Shr, Floor, AndNot;
    if r >= SMALL_BLOCK {
      SearchIs(r);
      var k := Log2(r) - MAX_LOG2_SLI;
      var p := Pow2(k);
      FloorFacts(r + (p - 1), p);
      if k <= 4 {
        Pow2Adds(k, 4 - k);
        Pow2At4();
        DividesThrough(r, p, Pow2(4 - k));
        FloorOfMultiple(r, p);
      } else {
        Pow2Adds(4, k - 4);
        Pow2At4();
        MultipleOf16(Floor(r + (p - 1), p), Pow2(k - 4));
      }
    }
  }

  lemma Pow2At4()
    ensures Pow2(4) == 16
  {
    assert Pow2(2) == 4;
  }

  lemma DividesThrough(r: nat, p: nat, q: nat)
    requires p > 0 && p * q == 16 && r % 16 == 0
    ensures r % p == 0
  {
    var m := r / 16;
    assert r == (m * q) * p by { assert r == m * (p * q); Regroup(m, p, q); }
    MultipleMod(m * q, p);
  }

  lemma MultipleOf16(s: nat, q: nat)
    requires q > 0 && s % (16 * q) == 0
    ensures s % 16 == 0
  {
    var m := s / (16 * q);
    assert s == m * (16 * q);
    Regroup(m, 16, q);
    MultipleMod(m * q, 16);
  }

  // ------------------------------------------------------------- the search

  /** x & (~0 << s): the bits from s on. */
  function FromBit(x: nat, s: nat): nat { AndNot(x, Pow2(s) - 1) }

  lemma FromBitBits(x: nat, s: nat, j: nat)
    ensures Bit(FromBit(x, s), j) <==> Bit(x, j) && s <= j
  {
    hide Bit, AndNot, Pow2;
    BitOfAndNot(x, Pow2(s) - 1, j);
    AllOnes(s, j);
  }

  lemma LowestFrom(x: nat, s: nat)
    requires FromBit(x, s) != 0
    ensures var z := Lowest(FromBit(x, s)); s <= z && Bit(x, z) && forall q: nat :: s <= q < z ==> !Bit(x, q)
  {
    hide Bit, FromBit, Lowest;
    var z := Lowest(FromBit(x, s));
    FromBitBits(x, s, z);
    forall q: nat | s <= q < z ensures !Bit(x, q) { FromBitBits(x, s, q); }
  }

  lemma NoneFromBit(x: nat, s: nat)
    requires FromBit(x, s) == 0
    ensures forall q: nat :: s <= q ==> !Bit(x, q)
  {
    hide Bit, FromBit;
    forall q: nat | s <= q ensures !Bit(x, q) { FromBitBits(x, s, q); ZeroBits(q); }
  }

  /** The head of the first non-empty list from class (fl0, sl0) on, and its class. */
  method FindSuitableBlock(flBitmap: nat, slBitmap: seq<nat>, matrix: seq<Addr>, fl0: nat, sl0: nat,
                           ghost link: Links, ghost lists: seq<seq<Addr>>, ghost place: map<Addr, nat>)
    returns (block: Addr, fl: nat, sl: nat)
    requires |matrix| == REAL_FLI * MAX_SLI && |slBitmap| == REAL_FLI && fl0 < REAL_FLI && sl0 < MAX_SLI
    requires ListsOk(link, matrix, lists, place) && MapsOk(flBitmap, slBitmap, lists, MAX_SLI)
    ensures block == 0 <==> NoneFrom(lists, Flat(fl0, sl0, MAX_SLI))
    ensures block != 0 ==> fl < REAL_FLI && sl < MAX_SLI && First(lists, Flat(fl0, sl0, MAX_SLI), Flat(fl, sl, MAX_SLI))
    ensures block != 0 ==> Flat(fl, sl, MAX_SLI) < |matrix| && block == matrix[Flat(fl, sl, MAX_SLI)]
  {
    hide Bit, ListsOk, MapsOk, Lowest, FromBit, Flat, First, NoneFrom, NonEmpty;
    fl, sl := fl0, sl0;
    var tmp := FromBit(slBitmap[fl], sl);
    if tmp != 0 {
      sl := Lowest(tmp);
      LowestFrom(slBitmap[fl], sl0);
      HitInGroup(flBitmap, slBitmap, lists, MAX_SLI, fl, sl0, sl);
    } else {
      NoneFromBit(slBitmap[fl], sl);
      var rest := FromBit(flBitmap, fl + 1);
      if rest == 0 {
        NoneFromBit(flBitmap, fl + 1);
        NoHit(flBitmap, slBitmap, lists, MAX_SLI, fl, sl);
        return 0, fl, sl;
      }
      fl := Lowest(rest);
      LowestFrom(flBitmap, fl0 + 1);
      GroupHasBits(flBitmap, slBitmap, lists, fl);
      sl := Lowest(slBitmap[fl]);
      HitInLaterGroup(flBitmap, slBitmap, lists, MAX_SLI, fl0, sl0, fl, sl);
    }
    FirstHead(link, matrix, lists, place, Flat(fl0, sl0, MAX_SLI), Flat(fl, sl, MAX_SLI));
    block := matrix[Flat(fl, sl, MAX_SLI)];
  }

  lemma GroupHasBits(fl: nat, sl: seq<nat>, lists: seq<seq<Addr>>, f: nat)
    requires MapsOk(fl, sl, lists, MAX_SLI) && Bit(fl, f)
    ensures f < |sl| && sl[f] != 0
  {
  }

  lemma FirstHead(link: Links, heads: seq<Addr>, lists: seq<seq<Addr>>, place: map<Addr, nat>, i: nat, k: nat)
    requires ListsOk(link, heads, lists, place) && First(lists, i, k)
    ensures k < |heads| && heads[k] != 0 && !NoneFrom(lists, i)
  {
    HeadFacts(link, heads, lists, place, k);
  }
}
