/** zsmalloc: how many pages make a zspage, and where its objects are. */
module ZsLayout {
  import opened Bits

  const ZS_ALIGN: nat := 8
  const ZS_MIN_ALLOC_SIZE: nat := 32
  const MAX_ZSPAGE_ORDER: nat := 4
  const OBJ_INDEX_BITS: nat := 30
  const INDEX_RANGE: nat := 0x4000_0000

  /** Page sizes and class sizes the allocator can be built for. */
  predicate InRange(p: nat, s: nat) {
    ZS_MIN_ALLOC_SIZE <= s <= p <= 0x1_0000 && p % ZS_ALIGN == 0 && s % ZS_ALIGN == 0
  }

  // ---------------------------------------------------------- pages per zspage

  /** Percentage of z bytes that objects of s bytes can use. */
  function Percent(z: nat, s: nat): int
    requires 0 < s && 0 < z
  {
    (z - z % s) * 100 / z
  }

  function ZspageSize(p: nat, i: nat): (z: nat)
    requires 0 < p && 0 < i
    ensures z > 0
  {
    i * p
  }

  /** The percentage for i pages of p bytes. */
  function UsedPercent(p: nat, s: nat, i: nat): int
    requires 0 < s && 0 < p && 0 < i
  {
    Percent(ZspageSize(p, i), s)
  }

  /** The fewest pages with the best percentage. */
  method GetZspageOrder(p: nat, s: nat) returns (order: nat)
    requires InRange(p, s)
    ensures 1 <= order <= MAX_ZSPAGE_ORDER
    ensures forall i :: 1 <= i <= MAX_ZSPAGE_ORDER ==> UsedPercent(p, s, i) <= UsedPercent(p, s, order)
    ensures forall i :: 1 <= i < order ==> UsedPercent(p, s, i) < UsedPercent(p, s, order)
    ensures ExactOnlyAtEnd(p, s, order)
  {
    var maxUsedPc := 0;
    order := 1;
    FirstPageUseful(p, s);
    var i := 1;
    while i <= MAX_ZSPAGE_ORDER
      invariant 1 <= i <= MAX_ZSPAGE_ORDER + 1 && 1 <= order && (i == 1 ==> order == 1 && maxUsedPc == 0)
      invariant i > 1 ==> order < i && maxUsedPc == UsedPercent(p, s, order)
      invariant forall k :: 1 <= k < i ==> UsedPercent(p, s, k) <= maxUsedPc
      invariant forall k :: 1 <= k < order ==> UsedPercent(p, s, k) < UsedPercent(p, s, order)
    {
      var zspageSize := ZspageSize(p, i);
      var waste := zspageSize % s;
      var usedPc := (zspageSize - waste) * 100 / zspageSize;
      if usedPc > maxUsedPc {
        maxUsedPc := usedPc;
        order := i;
      }
      i := i + 1;
    }
    FirstExactFit(p, s, order);
  }

  lemma FirstPageUseful(p: nat, s: nat)
    requires InRange(p, s)
    ensures UsedPercent(p, s, 1) > 0
  {
    SomethingFits(p, s);
  }

  lemma SomethingFits(z: nat, s: nat)
    requires 0 < s <= z
    ensures Percent(z, s) > 0
  {
    var k, m := z / s, z % s;
    assert z == k * s + m && k >= 1;
    MulMono(1, k, s);
    var used := z - m;
    assert 2 * used >= z;
    var q := used * 100 / z;
    assert used * 100 < q * z + z;
    if q <= 0 { NonPositive(q, z); }
  }

  lemma NonPositive(q: int, z: nat)
    requires q <= 0
    ensures q * z <= 0
  {
  }

  /** No smaller number of pages is filled by whole objects. */
  ghost predicate ExactOnlyAtEnd(p: nat, s: nat, order: nat)
    requires s > 0
  {
    forall i {:trigger i * p % s} :: 1 <= i < order ==> i * p % s != 0
  }

  /** A hundred percent is reached by exact fits only, so the choice is the first exact fit. */
  lemma FirstExactFit(p: nat, s: nat, order: nat)
    requires InRange(p, s) && 1 <= order && forall i :: 1 <= i < order ==>
      UsedPercent(p, s, i) < UsedPercent(p, s, order)
    ensures ExactOnlyAtEnd(p, s, order)
  {
    hide Percent;
    forall i | 1 <= i < order ensures i * p % s != 0 {
      PercentFacts(ZspageSize(p, i), s);
      PercentFacts(ZspageSize(p, order), s);
      assert UsedPercent(p, s, i) < UsedPercent(p, s, order);
    }
  }

  lemma PercentFacts(z: nat, s: nat)
    requires z > 0 && s > 0
    ensures Percent(z, s) <= 100 && (z % s == 0 ==> Percent(z, s) == 100)
  {
    var used := (z - z % s) * 100;
    var q := used / z;
    assert q * z <= used;
    if q > 100 { MulMono(101, q, z); }
    if z % s == 0 { DivUnique(used, z, 100); }
  }

  // ------------------------------------------------------------ the layout

  /** How many objects start before page q: the first object of page q, counted through. */
  function First(p: nat, s: nat, q: nat): nat
    requires s > 0
  {
    (q * p + s - 1) / s
  }

  /** Where in page q its first object starts. */
  function StartIn(p: nat, s: nat, q: nat): nat
    requires s > 0
  {
    FirstFacts(p, s, q);
    First(p, s, q) * s - q * p
  }

  lemma FirstFacts(p: nat, s: nat, q: nat)
    requires s > 0
    ensures q * p <= First(p, s, q) * s < q * p + s
  {
    var n := q * p + s - 1;
    assert n / s * s <= n < n / s * s + s;
  }

  lemma FirstIs(p: nat, s: nat, q: nat, j: nat)
    requires s > 0 && q * p <= j * s < q * p + s
    ensures First(p, s, q) == j
  {
    DivUnique(q * p + s - 1, s, j);
  }

  /** Objects that fit, and slots including the one cut off by the end of the zspage. */
  function Objects(p: nat, s: nat, order: nat): nat
    requires s > 0
  {
    order * p / s
  }

  function Slots(p: nat, s: nat, order: nat): nat
    requires s > 0
  {
    First(p, s, order)
  }

  lemma SlotsAre(p: nat, s: nat, order: nat)
    requires s > 0
    ensures Slots(p, s, order) == Objects(p, s, order) + (if order * p % s == 0 then 0 else 1)
  {
    var z := order * p;
    assert z == z / s * s + z % s;
    if z % s == 0 { FirstIs(p, s, order, z / s); } else { FirstIs(p, s, order, z / s + 1); }
  }

  /** The page where the j-th slot starts. */
  function PageOf(p: nat, s: nat, j: nat): nat
    requires p > 0
  {
    j * s / p
  }

  /** Slot j is object j - First of its page, at its byte j * s counted through. */
  lemma Located(p: nat, s: nat, j: nat)
    requires InRange(p, s)
    ensures var q := PageOf(p, s, j);
      && First(p, s, q) <= j < First(p, s, q) + p / s + 1
      && q * p <= j * s < q * p + p
      && StartIn(p, s, q) + (j - First(p, s, q)) * s == j * s - q * p
  {
    hide First;
    var q, f := PageOf(p, s, j), First(p, s, PageOf(p, s, j));
    assert q * p <= j * s < q * p + p;
    FirstFacts(p, s, q);
    if f > j { MulMono(j + 1, f, s); }
    IndexBelow(f, j, q * p, p, s);
  }

  lemma IndexBelow(f: nat, j: nat, base: nat, p: nat, s: nat)
    requires f <= j && base <= f * s && j * s < base + p && s > 0
    ensures j < f + p / s + 1 && (f * s - base) + (j - f) * s == j * s - base
  {
    var i, n := j - f, p / s;
    assert i * s == j * s - f * s;
    assert p < n * s + s;
    if i >= n + 1 { MulMono(n + 1, i, s); }
  }

  /** Conversely, the i-th object that starts in page q is slot First + i. */
  lemma LocatedAt(p: nat, s: nat, q: nat, i: nat)
    requires InRange(p, s) && StartIn(p, s, q) + i * s < p
    ensures PageOf(p, s, First(p, s, q) + i) == q
  {
    FirstFacts(p, s, q);
    var j := First(p, s, q) + i;
    assert j * s == First(p, s, q) * s + i * s;
    DivUnique(j * s, p, q);
  }

  /** Slots of a zspage start in its pages. */
  lemma PageInRange(p: nat, s: nat, order: nat, j: nat)
    requires InRange(p, s)
    ensures j < Slots(p, s, order) <==> PageOf(p, s, j) < order
  {
    hide First;
    var q, m := PageOf(p, s, j), First(p, s, order);
    assert q * p <= j * s < q * p + p;
    FirstFacts(p, s, order);
    Straddle(order, p, m, s, j, q);
  }

  lemma Straddle(order: nat, p: nat, m: nat, s: nat, j: nat, q: nat)
    requires order * p <= m * s < order * p + s && q * p <= j * s < q * p + p
    ensures j < m <==> q < order
  {
    if j < m {
      MulMono(j + 1, m, s);
      if q >= order { MulMono(order, q, p); }
    } else {
      MulMono(m, j, s);
      if q < order { MulMono(q + 1, order, p); }
    }
  }

  /** Objects are whole, apart from each other, and inside the zspage. */
  lemma ObjectsDisjoint(p: nat, s: nat, order: nat, j: nat, k: nat)
    requires InRange(p, s) && j < k < Objects(p, s, order)
    ensures j * s + s <= k * s && k * s + s <= order * p
  {
    MulMono(j + 1, k, s);
    MulMono(k + 1, order * p / s, s);
  }
}
