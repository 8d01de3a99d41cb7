/** TLSF: the search mapping as a 64-bit machine computes it, for every size_t. */
module TlsfWide {
  import opened Bits
  import opened TwoLevel
  import opened TlsfMap

  /** fls of an int: only the low 32 bits of a wider argument arrive. */
  function Fls(x: nat): nat {
    if x % WORD_LIMIT == 0 then 0 else Log2(x % WORD_LIMIT) + 1
  }

  /** What an int holds of a wider value. */
  function IntOf(z: int): int {
    var m := z % WORD_LIMIT;
    if m < WORD_LIMIT / 2 then m else m - WORD_LIMIT
  }

  /** Where a search starts, and the rounded request; or Nowhere, where a shift is not defined
      or the class is outside the tables. */
  datatype Start = Nowhere | From(size: nat, fl: nat, sl: nat)

  /** MAPPING_SEARCH */
  function MachineSearch(r: nat): Start {
    if r < SMALL_BLOCK then From(r, 0, r / (SMALL_BLOCK / MAX_SLI))
    else if Fls(r) - 1 < MAX_LOG2_SLI then Nowhere
    else
      var t := Pow2(Fls(r) - 1 - MAX_LOG2_SLI) - 1;
      var x := (r + t) % SIZE_LIMIT;
      var fl := Fls(x) - 1;
      if fl < MAX_LOG2_SLI then Nowhere
      else
        var sl := IntOf(Shr(x, fl - MAX_LOG2_SLI) - MAX_SLI);
        if FLI_OFFSET <= fl < FLI_OFFSET + REAL_FLI && 0 <= sl < MAX_SLI then From(AndNot(x, t), fl - FLI_OFFSET, sl)
        else Nowhere
  }

  // ---------------------------------------------------------- in arithmetic

  lemma Pow2At32()
    ensures Pow2(32) == WORD_LIMIT && Pow2(26) == 0x400_0000
  {
    hide Pow2;
    Pow2At30();
    Pow2Adds(2, 30);
    Pow2Adds(2, 24);
    Pow2At24();
    PowersTwo();
  }

  /** The step between the classes around l, and how often it goes into 32 bits. */
  lemma StepFacts(l: nat)
    requires 32 <= l < WORD_LIMIT
    ensures MAX_LOG2_SLI <= Log2(l) <= 31
    ensures var k := Log2(l) - MAX_LOG2_SLI;
      Pow2(k) >= 1 && 32 * Pow2(k) <= l < 64 * Pow2(k) && Pow2(k) * Pow2(32 - k) == WORD_LIMIT && Pow2(32 - k) >= 64
  {
    hide Pow2, Log2;
    Log2Is(l);
    Pow2At5();
    Pow2At32();
    if Log2(l) < 5 { Pow2Grows(Log2(l), 5); }
    if Log2(l) > 31 { Pow2Grows(31, Log2(l)); Pow2Adds(1, 31); PowersSmall(); }
    var k := Log2(l) - 5;
    Pow2Adds(5, k);
    Pow2Adds(k, 32 - k);
    PowersSmall();
    if 6 < 32 - k { Pow2Grows(6, 32 - k); }
  }

  /** The second-level index of x = h * 2^32 + l, cut to an int, is that of l, if the step divides
      h, and otherwise no index at all. */
  lemma IntIndex(h: nat, p: nat, q: nat, i: nat)
    requires p >= 1 && q >= 64 && p * q == WORD_LIMIT && 32 <= i < 64
    ensures var z := IntOf(h * q + i - MAX_SLI); (0 <= z < MAX_SLI <==> h % p == 0) && (h % p == 0 ==> z == i - MAX_SLI)
  {
    var a, c := h / p, h % p;
    assert h * q == a * WORD_LIMIT + c * q by {
      assert h == a * p + c;
      Spread(a * p, c, q);
      Swap(a, p, q);
    }
    assert c * q + q <= WORD_LIMIT by { MulMono(c + 1, p, q); Spread(c, 1, q); }
    ModOf(a, c * q + (i - MAX_SLI));
    if c > 0 { MulMono(1, c, q); }
  }

  lemma Spread(a: nat, b: nat, c: nat)
    ensures (a + b) * c == a * c + b * c
  {
  }

  lemma Swap(a: nat, p: nat, q: nat)
    ensures (a * p) * q == a * (p * q)
  {
  }

  lemma ModOf(a: nat, m: nat)
    requires m < WORD_LIMIT
    ensures (a * WORD_LIMIT + m) % WORD_LIMIT == m && (a * WORD_LIMIT + m) / WORD_LIMIT == a
  {
  }

  /** Both words of x shifted right. */
  lemma ShiftWords(h: nat, l: nat, p: nat, q: nat)
    requires p >= 1 && p * q == WORD_LIMIT
    ensures (h * WORD_LIMIT + l) / p == h * q + l / p
  {
    assert h * WORD_LIMIT == p * (h * q) by { Swap(h, q, p); }
    var d := l / p;
    assert d * p <= l < d * p + p by { DivBounds(l, p); }
    assert p * (h * q + d) == p * (h * q) + d * p;
    DivUnique(h * WORD_LIMIT + l, p, h * q + d);
  }

  /** The step between the classes around l. */
  function StepOf(l: nat): (p: nat)
    ensures p >= 1
  {
    if l < 64 then 1 else LogAtLeast(l); Pow2(Log2(l) - MAX_LOG2_SLI)
  }

  lemma LogAtLeast(l: nat)
    requires l >= 64
    ensures Log2(l) >= MAX_LOG2_SLI
  {
    hide Log2, Pow2;
    Log2Is(l);
    Pow2At5();
    if Log2(l) < 5 { Pow2Grows(Log2(l), 5); }
  }

  /** The mapping of a large request in terms of the two words of the sum. */
  lemma MachineIs(r: nat)
    requires SMALL_BLOCK <= r < SIZE_LIMIT
    ensures r % WORD_LIMIT < 32 ==> MachineSearch(r) == Nowhere
    ensures r % WORD_LIMIT >= 32 ==>
      var p := StepOf(r % WORD_LIMIT); MachineSearch(r) == StartOf((r + (p - 1)) % SIZE_LIMIT, p)
  {
    hide Log2, Pow2, Shr, AndNot, IntOf, StartOf, StepOf, Floor;
    var low := r % WORD_LIMIT;
    if low < 32 {
      if low > 0 { SmallLog(low); }
    } else {
      StepFacts(low);
      StepIs(low);
      var p := StepOf(low);
      var x := (r + (p - 1)) % SIZE_LIMIT;
      MaskLow(x, Log2(low) - MAX_LOG2_SLI);
      FloorIs(x, p);
      StartIs(x, p);
    }
  }

  lemma StepIs(l: nat)
    requires 32 <= l < WORD_LIMIT
    ensures Log2(l) >= MAX_LOG2_SLI && StepOf(l) == Pow2(Log2(l) - MAX_LOG2_SLI)
  {
    hide Log2, Pow2;
    if l < 64 {
      SmallLog(l);
      assert Pow2(0) == 1 by { PowersOne(); }
    } else {
      LogAtLeast(l);
    }
  }

  lemma PowersOne()
    ensures Pow2(0) == 1
  {
  }

  lemma SmallLog(l: nat)
    requires 0 < l < 64
    ensures Log2(l) <= 5 && (l < 32 ==> Log2(l) < 5) && (l >= 32 ==> Log2(l) == 5)
  {
    hide Log2, Pow2;
    Log2Is(l);
    Pow2At5();
    Pow2Adds(1, 5);
    PowersSmall();
    if Log2(l) > 5 { Pow2Grows(5, Log2(l)); }
    if Log2(l) < 5 { Pow2Grows(Log2(l), 5); }
  }

  /** The class of the low word, if it is in the tables and the high word does not disturb it. */
  function StartOf(x: nat, p: nat): Start
    requires p >= 1
  {
    var h, l := x / WORD_LIMIT, x % WORD_LIMIT;
    if l < 64 || l >= TOO_LARGE || h % StepOf(l) != 0 then Nowhere
    else From(Floor(x, p), WordClass(l).0, WordClass(l).1)
  }

  function WordClass(l: nat): (nat, nat)
    requires 64 <= l < WORD_LIMIT
  {
    SixBits(l);
    (Log2(l) - FLI_OFFSET, Shr(l, Log2(l) - MAX_LOG2_SLI) - MAX_SLI)
  }

  lemma SixBits(l: nat)
    requires 64 <= l < WORD_LIMIT
    ensures Log2(l) >= FLI_OFFSET && MAX_SLI <= Shr(l, Log2(l) - MAX_LOG2_SLI) < 2 * MAX_SLI
    ensures l < TOO_LARGE <==> Log2(l) < FLI_OFFSET + REAL_FLI
  {
    hide Log2, Pow2, Shr;
    StepFacts(l);
    Log2Is(l);
    ShrDiv(l, Log2(l) - MAX_LOG2_SLI);
    QuotientRange(l, Pow2(Log2(l) - MAX_LOG2_SLI));
    PowersSmall();
    Pow2At30();
    if Log2(l) < 6 { Pow2Grows(Log2(l), 6); }
    if Log2(l) > 30 { Pow2Grows(30, Log2(l)); }
    if Log2(l) < 30 { Pow2Grows(Log2(l), 30); }
  }

  lemma StartIs(x: nat, p: nat)
    requires p >= 1 && x < SIZE_LIMIT
    ensures var fl := Fls(x) - 1;
      StartOf(x, p) == if fl < MAX_LOG2_SLI then Nowhere
        else var sl := IntOf(Shr(x, fl - MAX_LOG2_SLI) - MAX_SLI);
          if FLI_OFFSET <= fl < FLI_OFFSET + REAL_FLI && 0 <= sl < MAX_SLI then From(Floor(x, p), fl - FLI_OFFSET, sl)
            else Nowhere
  {
    hide Log2, Pow2, Shr, IntOf, Floor;
    var h, l := x / WORD_LIMIT, x % WORD_LIMIT;
    if l >= 64 {
      SixBits(l);
      StepFacts(l);
      var k := Log2(l) - MAX_LOG2_SLI;
      ShrDiv(x, k);
      ShrDiv(l, k);
      ShiftWords(h, l, Pow2(k), Pow2(32 - k));
      IntIndex(h, Pow2(k), Pow2(32 - k), l / Pow2(k));
    } else if l > 0 {
      SmallLog(l);
    }
  }

  // ------------------------------------------------------- ordinary requests

  /** Up to the largest request the machine computes what the arithmetic says. */
  lemma SearchOrdinary(r: nat)
    requires r <= LARGEST_REQUEST
    ensures var (s, fl, sl) := MappingSearch(r); MachineSearch(r) == From(s, fl, sl)
  {
    hide Log2, Pow2, Shr, MappingSearch, MachineSearch, Floor;
    if r < SMALL_BLOCK {
      SmallOrdinary(r);
    } else {
      hide StepOf, StartOf;
      MachineIs(r);
      SearchIs(r);
      StepIs(r);
      OrdinarySum(r);
      FloorIs(r + (StepOf(r) - 1), StepOf(r));
    }
  }

  lemma OrdinarySum(r: nat)
    requires SMALL_BLOCK <= r <= LARGEST_REQUEST
    ensures r % WORD_LIMIT == r
    ensures var p := StepOf(r); var x := r + (p - 1);
      x < TOO_LARGE && (r + (p - 1)) % SIZE_LIMIT == x
        && StartOf(x, p) == From(Floor(x, p), WordClass(x).0, WordClass(x).1)
  {
    hide Log2, Pow2, Shr, StepOf, WordClass, Floor;
    StepRange(r);
    LowLimit(r);
  }

  lemma SmallOrdinary(r: nat)
    requires r < SMALL_BLOCK
    ensures MachineSearch(r) == From(r, 0, r / 4) && MappingSearch(r) == (r, 0, r / 4)
  {
  }

  // ----------------------------------------------------------- all requests

  /** Whether the search for r starts inside the tables: its low word must be a request that
      does, or carry into the high word, and the step of the class it ends up in must divide
      what the high word then is. */
  predicate StaysInside(r: nat) {
    var h, low := r / WORD_LIMIT, r % WORD_LIMIT;
    || r < SMALL_BLOCK
    || (64 <= low <= LARGEST_REQUEST && h % StepOf(low + StepOf(low) - 1) == 0)
    || (low + LAST_STEP >= WORD_LIMIT + 64 && (h + 1) % StepOf(low + LAST_STEP - WORD_LIMIT) == 0)
  }

  const LAST_STEP: nat := 0x3FF_FFFF

  lemma SearchStays(r: nat)
    requires r < SIZE_LIMIT
    ensures MachineSearch(r) != Nowhere <==> StaysInside(r)
  {
    hide Log2, Pow2, Shr, MachineSearch, StepOf, Floor, WordClass;
    var h, low := r / WORD_LIMIT, r % WORD_LIMIT;
    if r < SMALL_BLOCK {
      SmallOrdinary(r);
    } else {
      MachineIs(r);
      if low >= 32 {
        var p := StepOf(low);
        StepRange(low);
        SumWords(r, p - 1);
        if low >= 64 {
          if low + (p - 1) < WORD_LIMIT { LowLimit(low); } else { CarryWords(h, low + (p - 1) - WORD_LIMIT); }
        }
      }
    }
  }

  /** How far rounding goes: over the edge of the low word only from its last step on. */
  lemma StepRange(low: nat)
    requires 32 <= low < WORD_LIMIT
    ensures low < 64 ==> StepOf(low) == 1
    ensures low >= 64 ==> StepOf(low) >= 2
    ensures low + StepOf(low) - 1 >= WORD_LIMIT ==> StepOf(low) == LAST_STEP + 1
    ensures low + LAST_STEP >= WORD_LIMIT ==> StepOf(low) == LAST_STEP + 1 && low + StepOf(low) - 1 >= WORD_LIMIT
  {
    hide Log2, Pow2, StepOf;
    StepIs(low);
    StepFacts(low);
    Pow2At32();
    var k := Log2(low) - MAX_LOG2_SLI;
    if low < 64 { SmallLog(low); PowersOne(); } else { assert Pow2(k) > 1; }
    if k < 26 { Pow2Grows(k, 26); }
  }

  lemma SumWords(r: nat, d: nat)
    requires r < SIZE_LIMIT && d < WORD_LIMIT
    ensures var x, h, low := (r + d) % SIZE_LIMIT, r / WORD_LIMIT, r % WORD_LIMIT;
      && (low + d < WORD_LIMIT ==> x % WORD_LIMIT == low + d && x / WORD_LIMIT == h && x == r + d)
      && (low + d >= WORD_LIMIT ==>
        x % WORD_LIMIT == low + d - WORD_LIMIT && x / WORD_LIMIT == (h + 1) % WORD_LIMIT
        && x == (h + 1) % WORD_LIMIT * WORD_LIMIT + (low + d - WORD_LIMIT))
  {
    var h, low := r / WORD_LIMIT, r % WORD_LIMIT;
    if low + d < WORD_LIMIT {
      ModOf(h, low + d);
    } else if h + 1 < WORD_LIMIT {
      ModOf(h + 1, low + d - WORD_LIMIT);
    }
  }

  lemma LowLimit(low: nat)
    requires 64 <= low < WORD_LIMIT
    ensures low + StepOf(low) - 1 < TOO_LARGE <==> low <= LARGEST_REQUEST
  {
    hide Log2, Pow2, StepOf;
    StepIs(low);
    StepFacts(low);
    Pow2At24();
    var k := Log2(low) - MAX_LOG2_SLI;
    if k < 24 { Pow2Grows(k, 24); }
    if k > 24 { Pow2Grows(24, k); }
  }

  /** A step below 2^32 divides a high word exactly if it divides it before the carry wraps. */
  lemma CarryWords(h: nat, l: nat)
    requires h < WORD_LIMIT && l < WORD_LIMIT
    ensures l >= 64 ==> ((h + 1) % WORD_LIMIT % StepOf(l) == 0 <==> (h + 1) % StepOf(l) == 0)
  {
    hide Log2, Pow2, StepOf;
    if l >= 64 {
      StepIs(l);
      StepFacts(l);
      DividesWord(StepOf(l), Pow2(32 - (Log2(l) - MAX_LOG2_SLI)));
      WrapsEvenly(h, StepOf(l));
    }
  }

  lemma WrapsEvenly(h: nat, p: nat)
    requires p >= 1 && WORD_LIMIT % p == 0 && h < WORD_LIMIT
    ensures (h + 1) % WORD_LIMIT % p == 0 <==> (h + 1) % p == 0
  {
    if h + 1 < WORD_LIMIT { assert (h + 1) % WORD_LIMIT == h + 1; } else {
      assert (h + 1) % WORD_LIMIT == 0 && 0 % p == 0;
    }
  }

  lemma DividesWord(p: nat, q: nat)
    requires p >= 1 && p * q == WORD_LIMIT
    ensures WORD_LIMIT % p == 0
  {
    MultipleMod(q, p);
  }

  /** Two wide requests whose search starts inside the tables all the same: the high word of the
      first has a factor 2, that of the second gets a factor 2^20 from the carry. */
  lemma WideInside()
    ensures MachineSearch(0x2_0000_0040) == From(0x2_0000_0040, 0, 0)
    ensures MachineSearch(0x10_0000_0000_0000 - MEM_ALIGN) != Nowhere
  {
    hide Log2, Pow2, Shr, StepOf, MachineSearch;
    PowersSmall();
    MachineIs(0x2_0000_0040);
    Log2Unique(64, 6);
    Log2Unique(65, 6);
    StepIs(64);
    StepIs(65);
    ShrDiv(65, 1);
    assert 0x2_0000_0040 % WORD_LIMIT == 64 && 0x2_0000_0041 % WORD_LIMIT == 65 && 0x2_0000_0041 / WORD_LIMIT == 2;
    SearchStays(0x10_0000_0000_0000 - MEM_ALIGN);
    TopStep();
    assert (0x10_0000_0000_0000 - MEM_ALIGN) / WORD_LIMIT == 0xF_FFFF;
  }

  lemma TopStep()
    ensures StepOf(0x3FF_FFEF) == 0x10_0000
  {
    hide Log2, Pow2, StepOf;
    Pow2At5();
    Pow2Adds(5, 5);
    Pow2Adds(10, 10);
    Pow2Adds(5, 20);
    Log2Unique(0x3FF_FFEF, 25);
    StepIs(0x3FF_FFEF);
  }

  // ------------------------------------------------------- searching again

  /** The size that the first search leaves is left by the next one too, and that one starts at
      the same class or a later one, if the size is not 0. */
  lemma SearchAgain(r: nat)
    requires r < SIZE_LIMIT && r % MEM_ALIGN == 0 && MachineSearch(r) != Nowhere
    requires MachineSearch(r).size < SIZE_LIMIT && MachineSearch(MachineSearch(r).size) != Nowhere
    ensures var q := MachineSearch(r); var q1 := MachineSearch(q.size);
      q1.size == q.size && (q.size > 0 ==> Flat(q.fl, q.sl, MAX_SLI) <= Flat(q1.fl, q1.sl, MAX_SLI))
  {
    hide Log2, Pow2, Shr, StepOf, MachineSearch, StartOf, Floor;
    if r < SMALL_BLOCK {
      SmallOrdinary(r);
    } else {
      var low := r % WORD_LIMIT;
      MachineIs(r);
      StepRange(low);
      SumWords(r, StepOf(low) - 1);
      if low + (StepOf(low) - 1) >= WORD_LIMIT {
        AgainCarried(r);
      } else if low < 64 {
        NoStart((r + (StepOf(low) - 1)) % SIZE_LIMIT, StepOf(low));
      } else if low < SMALL_BLOCK {
        ShortSize(r);
      } else {
        AgainLong(r);
      }
    }
  }

  lemma NoStart(x: nat, p: nat)
    requires p >= 1 && x % WORD_LIMIT < 64
    ensures StartOf(x, p) == Nowhere
  {
  }

  /** A carry leaves nothing but a high word. */
  lemma AgainCarried(r: nat)
    requires SMALL_BLOCK <= r < SIZE_LIMIT && 32 <= r % WORD_LIMIT && MachineSearch(r) != Nowhere
    requires r % WORD_LIMIT + StepOf(r % WORD_LIMIT) - 1 >= WORD_LIMIT
    ensures var s := MachineSearch(r).size; s == 0 || (s < SIZE_LIMIT ==> MachineSearch(s) == Nowhere)
    ensures MachineSearch(0) == From(0, 0, 0)
  {
    hide Log2, Pow2, Shr, StepOf, MachineSearch, WordClass;
    MachineIs(r);
    StepRange(r % WORD_LIMIT);
    SumWords(r, LAST_STEP);
    SmallOrdinary(0);
    var h, l := (r / WORD_LIMIT + 1) % WORD_LIMIT, r % WORD_LIMIT + LAST_STEP - WORD_LIMIT;
    HighOnly(h, l);
    if 0 < h { MachineIs(h * WORD_LIMIT); }
  }

  lemma HighOnly(h: nat, l: nat)
    requires h < WORD_LIMIT && l < 0x400_0000
    ensures Floor(h * WORD_LIMIT + l, 0x400_0000) == h * WORD_LIMIT
    ensures h * WORD_LIMIT % WORD_LIMIT == 0 && h * WORD_LIMIT < SIZE_LIMIT && (h > 0 ==> h * WORD_LIMIT >= SMALL_BLOCK)
  {
    DivUnique(h * WORD_LIMIT + l, 0x400_0000, h * 64);
    MultipleMod(h, WORD_LIMIT);
  }

  lemma ShortSize(r: nat)
    requires SMALL_BLOCK <= r < SIZE_LIMIT && r % MEM_ALIGN == 0 && 64 <= r % WORD_LIMIT < SMALL_BLOCK
    requires MachineSearch(r) != Nowhere
    ensures MachineSearch(r).size == r
  {
    hide Log2, Pow2, Shr, StepOf, MachineSearch, WordClass;
    var low := r % WORD_LIMIT;
    MachineIs(r);
    StepIs(low);
    PowersSmall();
    Log2Unique(low, 6);
    SumWords(r, 1);
    EvenFloor(r);
  }

  lemma EvenFloor(r: nat)
    requires r % MEM_ALIGN == 0
    ensures Floor(r + 1, 2) == r
  {
    hide Floor;
    assert r == 2 * (8 * (r / 16));
    FloorOfMultiple(r, 2);
    assert r + (2 - 1) == r + 1;
  }

  lemma AgainLong(r: nat)
    requires SMALL_BLOCK <= r < SIZE_LIMIT && SMALL_BLOCK <= r % WORD_LIMIT && MachineSearch(r) != Nowhere
    requires r % WORD_LIMIT + StepOf(r % WORD_LIMIT) - 1 < WORD_LIMIT
    requires MachineSearch(r).size < SIZE_LIMIT && MachineSearch(MachineSearch(r).size) != Nowhere
    ensures var q := MachineSearch(r); var q1 := MachineSearch(q.size);
      q1.size == q.size && Flat(q.fl, q.sl, MAX_SLI) <= Flat(q1.fl, q1.sl, MAX_SLI)
  {
    hide Log2, Pow2, Shr, StepOf, MachineSearch, MappingSearch, WordClass, Floor, MappingInsert, StartOf;
    var h, low := r / WORD_LIMIT, r % WORD_LIMIT;
    var m := MappingSearch(low).0;
    LongFrom(r);
    var s := h * WORD_LIMIT + m;
    ModOf(h, m);
    StepRange(m);
    LowLimit(m);
    MachineWords(s, h, m);
    StepDivides(h, low);
    FloorOfMultiple(s, StepOf(m));
    IndexMonotone(m, m + (StepOf(m) - 1));
    ClassOfWord(m + (StepOf(m) - 1));
  }

  /** Without a carry the two words go separate ways. */
  lemma MachineWords(r: nat, h: nat, low: nat)
    requires SMALL_BLOCK <= r < SIZE_LIMIT && h == r / WORD_LIMIT && low == r % WORD_LIMIT && low >= 64
    requires low + (StepOf(low) - 1) < WORD_LIMIT && MachineSearch(r) != Nowhere
    ensures var l := low + (StepOf(low) - 1);
      && l < TOO_LARGE && MachineSearch(r)
        == From(Floor(r + (StepOf(low) - 1), StepOf(low)), WordClass(l).0, WordClass(l).1)
      && r + (StepOf(low) - 1) == h * WORD_LIMIT + l
  {
    hide Log2, Pow2, Shr, StepOf, MachineSearch, WordClass, Floor, StartOf;
    MachineIs(r);
    SumWords(r, StepOf(low) - 1);
    StartedFrom(r + (StepOf(low) - 1), StepOf(low));
  }

  lemma StartedFrom(x: nat, p: nat)
    requires p >= 1 && StartOf(x, p) != Nowhere
    ensures 64 <= x % WORD_LIMIT < TOO_LARGE
    ensures StartOf(x, p) == From(Floor(x, p), WordClass(x % WORD_LIMIT).0, WordClass(x % WORD_LIMIT).1)
  {
    hide WordClass, Floor, StepOf;
  }

  /** A long request starts where its low word would, with its high word kept. */
  lemma LongFrom(r: nat)
    requires SMALL_BLOCK <= r < SIZE_LIMIT && SMALL_BLOCK <= r % WORD_LIMIT && MachineSearch(r) != Nowhere
    requires r % WORD_LIMIT + StepOf(r % WORD_LIMIT) - 1 < WORD_LIMIT
    ensures var low := r % WORD_LIMIT; var m := MappingSearch(low).0;
      && low <= LARGEST_REQUEST && SMALL_BLOCK <= m < TOO_LARGE
      && MachineSearch(r).size == r / WORD_LIMIT * WORD_LIMIT + m
      && Flat(MachineSearch(r).fl, MachineSearch(r).sl, MAX_SLI) == ClassIndex(m)
  {
    hide Log2, Pow2, Shr, StepOf, MachineSearch, MappingSearch, WordClass, Floor, MappingInsert, StartOf;
    var h, low := r / WORD_LIMIT, r % WORD_LIMIT;
    MachineWords(r, h, low);
    LowLimit(low);
    LongLow(low);
    StepIs(low);
    StepFacts(low);
    FloorWords(h, low + (StepOf(low) - 1), StepOf(low), Pow2(32 - (Log2(low) - MAX_LOG2_SLI)));
  }

  /** The search for the low word alone. */
  lemma LongLow(low: nat)
    requires SMALL_BLOCK <= low <= LARGEST_REQUEST && low + (StepOf(low) - 1) < TOO_LARGE
    ensures var m := MappingSearch(low).0; var l := low + (StepOf(low) - 1);
      && SMALL_BLOCK <= m < TOO_LARGE && m == Floor(l, StepOf(low))
      && Flat(WordClass(l).0, WordClass(l).1, MAX_SLI) == ClassIndex(m)
  {
    hide Log2, Pow2, Shr, StepOf, MappingSearch, WordClass, Floor, MappingInsert;
    SearchBelow(low);
    SearchRounds(low);
    SearchIs(low);
    StepIs(low);
    WordIs(low + (StepOf(low) - 1));
  }

  lemma WordIs(l: nat)
    requires 64 <= l < WORD_LIMIT
    ensures Log2(l) >= FLI_OFFSET && Shr(l, Log2(l) - MAX_LOG2_SLI) >= MAX_SLI
    ensures WordClass(l) == (Log2(l) - FLI_OFFSET, Shr(l, Log2(l) - MAX_LOG2_SLI) - MAX_SLI)
  {
    hide Log2, Pow2, Shr;
    SixBits(l);
  }

  lemma ClassOfWord(l: nat)
    requires SMALL_BLOCK <= l < WORD_LIMIT
    ensures Flat(WordClass(l).0, WordClass(l).1, MAX_SLI) == ClassIndex(l)
  {
    hide Log2, Pow2, Shr;
    WordIs(l);
  }

  lemma FloorWords(h: nat, l: nat, p: nat, q: nat)
    requires p >= 1 && p * q == WORD_LIMIT
    ensures Floor(h * WORD_LIMIT + l, p) == h * WORD_LIMIT + Floor(l, p)
  {
    ShiftWords(h, l, p, q);
    var d := l / p;
    Spread(h * q, d, p);
    Swap(h, q, p);
  }

  lemma StepDivides(h: nat, low: nat)
    requires SMALL_BLOCK <= low <= LARGEST_REQUEST && MappingSearch(low).0 < TOO_LARGE
    ensures var m := MappingSearch(low).0; (h * WORD_LIMIT + m) % StepOf(m) == 0
  {
    hide Log2, Pow2, StepOf, MappingSearch;
    var m := MappingSearch(low).0;
    SearchRounds(low);
    StepIs(m);
    StepFacts(m);
    DividesSum(h, m, StepOf(m), Pow2(32 - (Log2(m) - MAX_LOG2_SLI)));
  }

  lemma DividesSum(h: nat, m: nat, p: nat, q: nat)
    requires p >= 1 && p * q == WORD_LIMIT && m % p == 0
    ensures (h * WORD_LIMIT + m) % p == 0
  {
    var d := m / p;
    assert m == d * p;
    assert h * WORD_LIMIT + m == (h * q + d) * p by { Spread(h * q, d, p); Swap(h, q, p); }
    MultipleMod(h * q + d, p);
  }

  // ------------------------------------------------------------- what a wide request gets

  /** A wide request whose search does start is for more than any block holds, or for nothing. */
  lemma WideSize(r: nat)
    requires r < SIZE_LIMIT && (r > LARGEST_REQUEST || r == 0) && MachineSearch(r) != Nowhere
    ensures MachineSearch(r).size == 0 || MachineSearch(r).size >= WORD_LIMIT
    ensures MachineSearch(r).size < SIZE_LIMIT
  {
    hide Log2, Pow2, Shr, StepOf, MachineSearch, WordClass, Floor, StartOf;
    if r == 0 {
      SmallOrdinary(r);
    } else {
      var low := r % WORD_LIMIT;
      MachineIs(r);
      if low >= 32 {
        var p := StepOf(low);
        StepRange(low);
        StartedFrom((r + (p - 1)) % SIZE_LIMIT, p);
        FloorFacts((r + (p - 1)) % SIZE_LIMIT, p);
        if low + (p - 1) < WORD_LIMIT { WideSum(r); } else { WideCarry(r); }
      }
    }
  }

  lemma WideSum(r: nat)
    requires LARGEST_REQUEST < r < SIZE_LIMIT && r % WORD_LIMIT >= 32
    requires var low := r % WORD_LIMIT; low + (StepOf(low) - 1) < WORD_LIMIT
    ensures var x := (r + (StepOf(r % WORD_LIMIT) - 1)) % SIZE_LIMIT; x == r + (StepOf(r % WORD_LIMIT) - 1)
    ensures 64 <= (r + (StepOf(r % WORD_LIMIT) - 1)) % SIZE_LIMIT % WORD_LIMIT < TOO_LARGE ==> r >= WORD_LIMIT
  {
    hide StepOf;
    var low := r % WORD_LIMIT;
    SumWords(r, StepOf(low) - 1);
    if low >= 64 { LowLimit(low); }
  }

  lemma WideCarry(r: nat)
    requires SMALL_BLOCK <= r < SIZE_LIMIT && r % WORD_LIMIT >= 32
    requires var low := r % WORD_LIMIT; low + (StepOf(low) - 1) >= WORD_LIMIT
    ensures var p := StepOf(r % WORD_LIMIT); var s := Floor((r + (p - 1)) % SIZE_LIMIT, p);
      s == 0 || WORD_LIMIT <= s < SIZE_LIMIT
  {
    hide StepOf, Floor;
    var low := r % WORD_LIMIT;
    StepRange(low);
    SumWords(r, LAST_STEP);
    var h := (r / WORD_LIMIT + 1) % WORD_LIMIT;
    HighOnly(h, low + LAST_STEP - WORD_LIMIT);
    if h > 0 { MulMono(1, h, WORD_LIMIT); }
  }

  /** What the source then does with a block of z bytes: it cuts off what is left, in wrapped
      arithmetic, behind a block of no bytes, or behind an end that is not the block's; or the
      block is one of the least size, for a request that wrapped to nothing. */
  lemma Misfit(z: nat, need: nat)
    requires z % MEM_ALIGN == 0 && MIN_BLOCK_SIZE <= z < TOO_LARGE && need < SIZE_LIMIT && need % MEM_ALIGN == 0
    requires need == 0 || need >= WORD_LIMIT
    ensures (z - need) % SIZE_LIMIT >= BHDR_OVERHEAD + MIN_BLOCK_SIZE <==> !(need == 0 && z == MIN_BLOCK_SIZE)
  {
    assert z != MIN_BLOCK_SIZE ==> z >= 32;
    if need > 0 { assert need <= SIZE_LIMIT - 16 && (z - need) % SIZE_LIMIT == z - need + SIZE_LIMIT; }
  }

  lemma WideAligned(r: nat)
    requires r < SIZE_LIMIT && r % MEM_ALIGN == 0 && MachineSearch(r) != Nowhere
    ensures MachineSearch(r).size % MEM_ALIGN == 0
  {
    hide Log2, Pow2, Shr, StepOf, MachineSearch, WordClass, Floor, StartOf;
    if r < SMALL_BLOCK {
      SmallOrdinary(r);
    } else {
      var low := r % WORD_LIMIT;
      MachineIs(r);
      if low >= 32 {
        var x := (r + (StepOf(low) - 1)) % SIZE_LIMIT;
        StartedFrom(x, StepOf(low));
        StepIs(low);
        StepFacts(low);
        FloorAligned(r, Log2(low) - MAX_LOG2_SLI);
      }
    }
  }

  /** Rounding up to a power of two keeps multiples of 16. */
  lemma FloorAligned(r: nat, k: nat)
    requires r < SIZE_LIMIT && r % MEM_ALIGN == 0
    ensures Floor((r + (Pow2(k) - 1)) % SIZE_LIMIT, Pow2(k)) % MEM_ALIGN == 0
  {
    hide Pow2, Floor;
    Pow2At4();
    if k <= 4 {
      Pow2Adds(k, 4 - k);
      ShortFloor(r, Pow2(k), Pow2(4 - k));
    } else {
      Pow2Adds(4, k - 4);
      LongFloor((r + (Pow2(k) - 1)) % SIZE_LIMIT, Pow2(k - 4));
    }
  }

  lemma ShortFloor(r: nat, p: nat, q: nat)
    requires r < SIZE_LIMIT && r % MEM_ALIGN == 0 && p >= 1 && p * q == 16
    ensures Floor((r + (p - 1)) % SIZE_LIMIT, p) == r
  {
    hide Floor;
    if q == 0 { assert false; }
    MulMono(1, q, p);
    DividesThrough(r, p, q);
    FloorOfMultiple(r, p);
    assert r <= SIZE_LIMIT - 16 by { assert r == 16 * (r / 16); }
  }

  lemma LongFloor(x: nat, q: nat)
    requires q >= 1
    ensures Floor(x, 16 * q) % MEM_ALIGN == 0
  {
    hide Floor;
    FloorFacts(x, 16 * q);
    MultipleOf16(Floor(x, 16 * q), q);
  }

  /** A block of 1 GiB less 16 bytes has a list, but no search for as much starts in the tables. */
  lemma JustBelowOneGiB()
    ensures MappingInsert(TOO_LARGE - MEM_ALIGN).0 < REAL_FLI && MachineSearch(TOO_LARGE - MEM_ALIGN) == Nowhere
  {
    hide MappingInsert, MachineSearch, StepOf;
    InsertInRange(TOO_LARGE - MEM_ALIGN);
    SearchStays(TOO_LARGE - MEM_ALIGN);
  }
}
