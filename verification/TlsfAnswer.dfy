/** TLSF: what a request gets, by the classes that have blocks and by how the pool may grow. */
module TlsfAnswer {
  import opened FreeLists
  import opened TwoLevel
  import opened TlsfMap
  import opened TlsfWide

  const PAGE_SIZE: nat := 4096

  /** The lists that have blocks. */
  ghost function Filled(lists: seq<seq<Addr>>): set<nat> {
    set i: nat | i < |lists| && NonEmpty(lists, i)
  }

  predicate Below(filled: set<nat>, i: nat) { forall j :: j in filled ==> j < i }

  lemma FilledFrom(lists: seq<seq<Addr>>, i: nat)
    ensures NoneFrom(lists, i) <==> Below(Filled(lists), i)
  {
    if NoneFrom(lists, i) {
      forall j | j in Filled(lists) ensures j < i { }
    }
    if Below(Filled(lists), i) {
      forall j: nat | j >= i ensures !NonEmpty(lists, j) { assert j !in Filled(lists); }
    }
  }

  lemma FilledMore(lists: seq<seq<Addr>>, i: nat, l: seq<Addr>)
    requires i < |lists| && l != []
    ensures Filled(lists[i := l]) == Filled(lists) + {i}
  {
  }

  // ------------------------------------------------------------- one search

  /** A search for r: it finds a block, with which the request is served; or none; or it goes
      wrong.  The last is so where it leaves the tables, and where it finds a block although the
      request is for more than any block holds, or has wrapped to nothing. */
  datatype Try = Hit(need: nat) | Miss(need: nat) | Bad

  function TryOnce(filled: set<nat>, r: nat): Try {
    match MachineSearch(r)
    case Nowhere => Bad
    case From(need, fl, sl) =>
      if Below(filled, Flat(fl, sl, MAX_SLI)) then Miss(need)
      else if 0 < need < TOO_LARGE then Hit(need)
      else Bad
  }

  /** What a search is made with, first or again, for a request of size0 bytes. */
  ghost predicate Asked(r: nat, size0: nat) {
    && r % MEM_ALIGN == 0 && r < SIZE_LIMIT
    && (if size0 <= LARGEST_REQUEST
        then MIN_BLOCK_SIZE <= r <= LARGEST_REQUEST && size0 <= r && MappingSearch(r) == MappingSearch(Request(size0))
        else r == 0 || r > LARGEST_REQUEST)
  }

  lemma AskedFirst(size0: nat)
    requires size0 < SIZE_LIMIT
    ensures Asked(Request(size0), size0)
  {
    hide MappingSearch, Request;
    RequestIs(size0);
  }

  lemma AskedNext(r: nat, size0: nat)
    requires Asked(r, size0) && MachineSearch(r) != Nowhere
    ensures var s := MachineSearch(r).size;
      && Asked(s, size0) && (size0 <= LARGEST_REQUEST <==> 0 < s < TOO_LARGE)
      && (size0 <= LARGEST_REQUEST ==>
        var (need, fl, sl) := MappingSearch(Request(size0)); MachineSearch(r) == From(need, fl, sl))
      && (size0 > LARGEST_REQUEST ==> s == 0 || s >= WORD_LIMIT)
  {
    hide MappingSearch, MachineSearch, Request;
    if size0 <= LARGEST_REQUEST {
      SearchOrdinary(r);
      SearchRounds(r);
      SearchAligned(r);
      SearchBelow(r);
      SearchIdempotent(r);
      SearchBelow(MappingSearch(r).0);
    } else {
      WideSize(r);
      WideAligned(r);
    }
  }

  /** A request up to 63 times 16 MiB is served exactly if a class from that of the rounded
      request on has a block. */
  lemma TryOrdinary(filled: set<nat>, size0: nat)
    requires size0 <= LARGEST_REQUEST
    ensures var (need, fl, sl) := MappingSearch(Request(size0));
      && size0 <= need < TOO_LARGE
      && TryOnce(filled, Request(size0)) == if Below(filled, Flat(fl, sl, MAX_SLI)) then Miss(need) else Hit(need)
  {
    hide MappingSearch, MachineSearch, Request, Below;
    AskedFirst(size0);
    SearchOrdinary(Request(size0));
    AskedNext(Request(size0), size0);
  }

  /** A larger one is never served.  Nothing comes back exactly if the search stays inside the
      tables and finds no block. */
  lemma TryWide(filled: set<nat>, size0: nat)
    requires LARGEST_REQUEST < size0 < SIZE_LIMIT
    ensures !TryOnce(filled, Request(size0)).Hit?
    ensures var q := MachineSearch(Request(size0));
      && (q.From? <==> StaysInside(Request(size0)))
      && (TryOnce(filled, Request(size0)).Miss? <==> q.From? && Below(filled, Flat(q.fl, q.sl, MAX_SLI)))
  {
    hide MappingSearch, MachineSearch, Request, Below, StaysInside;
    AskedFirst(size0);
    SearchStays(Request(size0));
    if MachineSearch(Request(size0)) != Nowhere { AskedNext(Request(size0), size0); }
  }

  // -------------------------------------------------------------- growth

  datatype Limits = Limits(initSize: nat, maxSize: nat, growSize: nat)

  /** The rounded request is no larger than what growing would add, and the n regions may become
      more, both in the arithmetic of size_t. */
  predicate MayGrow(p: Limits, n: nat, need: nat) {
    && need <= (p.growSize - 2 * BHDR_OVERHEAD) % SIZE_LIMIT
    && !(p.maxSize != 0 && (p.initSize + n * p.growSize) % SIZE_LIMIT > p.maxSize)
  }

  /** What is used of a region of n bytes: the size of its block is stored in 32 bits. */
  function UsedLen(n: nat): nat { n % WORD_LIMIT }

  /** The sizes, of whole pages, that a region can have. */
  predicate RegionSize(n: nat) { 0 < UsedLen(n) <= TOO_LARGE }

  /** The outcomes of an allocation, and how many regions the pool grew by. */
  datatype Answer = Served(taken: nat) | Refused(taken: nat) | Broken(taken: nat)

  function Later(a: Answer, t: nat): Answer { a.(taken := t + a.taken) }

  /** What a pool of n regions with blocks in the given classes answers to a search for r, if the
      system has memory for k more regions. */
  function AnswerTo(filled: set<nat>, r: nat, p: Limits, n: nat, k: nat): Answer
    decreases k
  {
    match TryOnce(filled, r)
    case Hit(_) => Served(0)
    case Bad => Broken(0)
    case Miss(need) =>
      if k == 0 || !MayGrow(p, n, need) then Refused(0)
      else if !RegionSize(p.growSize) then Broken(0)
      else Later(AnswerTo(filled + {ClassIndex(StoredSize(p.growSize))}, need, p, n + 1, k - 1), 1)
  }

  /** The answer by what the first search finds. */
  lemma AnswerStep(filled: set<nat>, r: nat, p: Limits, n: nat, k: nat)
    ensures MachineSearch(r) == Nowhere ==> AnswerTo(filled, r, p, n, k) == Broken(0)
    ensures MachineSearch(r) != Nowhere ==> var q := MachineSearch(r);
      AnswerTo(filled, r, p, n, k) ==
        if !Below(filled, Flat(q.fl, q.sl, MAX_SLI)) then if 0 < q.size < TOO_LARGE then Served(0) else Broken(0)
        else if k == 0 || !MayGrow(p, n, q.size) then Refused(0)
        else if !RegionSize(p.growSize) then Broken(0)
        else Later(AnswerTo(filled + {ClassIndex(StoredSize(p.growSize))}, q.size, p, n + 1, k - 1), 1)
  {
    hide MachineSearch, Below, Flat, MayGrow, RegionSize, ClassIndex, StoredSize;
  }

  /** How many regions are taken if none helps. */
  function Takes(p: Limits, n: nat, need: nat, k: nat): nat
    decreases k
  {
    if k == 0 || !MayGrow(p, n, need) then 0 else 1 + Takes(p, n + 1, need, k - 1)
  }

  /** All answers to a request up to 63 times 16 MiB, for any size that regions may have: growing
      once helps unless the block of the new region, whose size is kept in 32 bits, is too small
      for the request; then memory is taken for as long as there is any. */
  lemma OrdinaryAnswer(filled: set<nat>, size0: nat, p: Limits, n: nat, k: nat)
    requires size0 <= LARGEST_REQUEST && p.growSize % PAGE_SIZE == 0
    ensures var need := MappingSearch(Request(size0)).0;
      AnswerTo(filled, Request(size0), p, n, k) ==
      if TryOnce(filled, Request(size0)).Hit? then Served(0)
      else if k == 0 || !MayGrow(p, n, need) then Refused(0)
      else if !RegionSize(p.growSize) then Broken(0)
      else if need + 2 * BHDR_OVERHEAD <= UsedLen(p.growSize) then Served(1)
      else Refused(Takes(p, n, need, k))
  {
    hide MappingSearch, MachineSearch, Request, Below, Flat, ClassIndex, StoredSize, MayGrow;
    TryOrdinary(filled, size0);
    var (need, fl, sl) := MappingSearch(Request(size0));
    if TryOnce(filled, Request(size0)).Miss? && k > 0 && MayGrow(p, n, need) && RegionSize(p.growSize) {
      RegionInRange(p.growSize);
      NextTry(filled, size0, StoredSize(p.growSize));
      if need > StoredSize(p.growSize) {
        InVain(filled + {ClassIndex(StoredSize(p.growSize))}, need, p, n + 1, k - 1);
      }
    }
  }

  /** The search after a region with a block of z bytes has joined. */
  lemma NextTry(filled: set<nat>, size0: nat, z: nat)
    requires size0 <= LARGEST_REQUEST && TryOnce(filled, Request(size0)).Miss?
    ensures var need := MappingSearch(Request(size0)).0;
      && TryOnce(filled, Request(size0)).need == need
      && TryOnce(filled + {ClassIndex(z)}, need) == if need <= z then Hit(need) else Miss(need)
  {
    hide MappingSearch, MachineSearch, Request, ClassIndex, Flat;
    TryOrdinary(filled, size0);
    AskedFirst(size0);
    var (need, fl, sl) := MappingSearch(Request(size0));
    SearchOrdinary(Request(size0));
    AskedNext(Request(size0), size0);
    SearchOrdinary(need);
    GoodFit(Request(size0), z);
    if need <= z { assert ClassIndex(z) in filled + {ClassIndex(z)}; }
  }

  lemma {:induction false} InVain(filled: set<nat>, need: nat, p: Limits, n: nat, k: nat)
    requires RegionSize(p.growSize) && ClassIndex(StoredSize(p.growSize)) in filled
      && TryOnce(filled, need) == Miss(need)
    ensures AnswerTo(filled, need, p, n, k) == Refused(Takes(p, n, need, k))
    decreases k
  {
    hide TryOnce, ClassIndex, StoredSize, MayGrow;
    if k > 0 && MayGrow(p, n, need) {
      assert filled + {ClassIndex(StoredSize(p.growSize))} == filled;
      InVain(filled, need, p, n + 1, k - 1);
    }
  }

  /** Regions of up to 1 GiB: at most one is taken, and it serves the request. */
  lemma OneGrowth(filled: set<nat>, size0: nat, p: Limits, n: nat, k: nat)
    requires size0 <= LARGEST_REQUEST && p.growSize % PAGE_SIZE == 0 && 0 < p.growSize <= TOO_LARGE
    ensures AnswerTo(filled, Request(size0), p, n, k) == (
      if TryOnce(filled, Request(size0)).Hit? then Served(0)
      else if k > 0 && MayGrow(p, n, MappingSearch(Request(size0)).0) then Served(1)
      else Refused(0))
  {
    hide TryOnce, MappingSearch, Request, AnswerTo;
    OrdinaryAnswer(filled, size0, p, n, k);
    assert p.growSize >= PAGE_SIZE by { assert p.growSize == PAGE_SIZE * (p.growSize / PAGE_SIZE); }
  }

  /** A pool that grows by 4 GiB and 64 KiB at a time, without a limit, takes all the memory that
      the system has for a request of 128 KiB, and does not serve it. */
  lemma GrowsInVain(init: nat, n: nat, k: nat)
    ensures var p := Limits(init, 0, 0x1_0001_0000);
      RegionSize(p.growSize) && AnswerTo({}, Request(0x2_0000), p, n, k) == Refused(k)
  {
    hide MappingSearch, AnswerTo, Request, MachineSearch;
    var p := Limits(init, 0, 0x1_0001_0000);
    OrdinaryAnswer({}, 0x2_0000, p, n, k);
    TryOrdinary({}, 0x2_0000);
    NeedOf128K();
    TakesAll(p, n, MappingSearch(Request(0x2_0000)).0, k);
  }

  lemma NeedOf128K()
    ensures 0x2_0000 <= MappingSearch(Request(0x2_0000)).0 <= 0x2_2000
  {
    hide MappingSearch, Request, ClassStart, MappingInsert;
    RequestIs(0x2_0000);
    SearchRounds(Request(0x2_0000));
  }

  lemma {:induction false} TakesAll(p: Limits, n: nat, need: nat, k: nat)
    requires p.maxSize == 0 && need <= (p.growSize - 2 * BHDR_OVERHEAD) % SIZE_LIMIT
    ensures Takes(p, n, need, k) == k
    decreases k
  {
    if k > 0 { TakesAll(p, n + 1, need, k - 1); }
  }

  /** The list where a search starts. */
  function FirstList(q: Start): nat
    requires q.From?
  {
    Flat(q.fl, q.sl, MAX_SLI)
  }

  /** All answers to a larger request: no growth ever serves it.  It comes to nothing only as long
      as every search stays inside the tables and finds no block. */
  lemma WideAnswer(filled: set<nat>, size0: nat, p: Limits, n: nat, k: nat)
    requires LARGEST_REQUEST < size0 < SIZE_LIMIT
    ensures var r := Request(size0); var q := MachineSearch(r);
      && (q.From? <==> StaysInside(r)) && (q.From? ==> q.size < SIZE_LIMIT)
      && AnswerTo(filled, r, p, n, k) ==
        if !q.From? || !Below(filled, FirstList(q)) then Broken(0)
        else if k == 0 || !MayGrow(p, n, q.size) then Refused(0)
        else if !RegionSize(p.growSize) then Broken(0)
        else if SecondFails(q.size, ClassIndex(StoredSize(p.growSize))) then Broken(1)
        else Refused(Takes(p, n, q.size, k))
  {
    hide MachineSearch, Below, Flat, StaysInside, MayGrow, Request, ClassIndex, StoredSize, Asked, SecondFails,
      RegionSize;
    var r := Request(size0);
    AskedFirst(size0);
    TryWide(filled, size0);
    AnswerStep(filled, r, p, n, k);
    if MachineSearch(r).From? {
      AskedNext(r, size0);
      var need, c := MachineSearch(r).size, ClassIndex(StoredSize(p.growSize));
      SizeBelow(need, size0);
      if Below(filled, FirstList(MachineSearch(r))) && k > 0 && MayGrow(p, n, need) && RegionSize(p.growSize) {
        SecondTry(filled, r, size0, c);
        if SecondFails(need, c) {
          AnswerStep(filled + {c}, need, p, n + 1, k - 1);
        } else {
          InVain(filled + {c}, need, p, n + 1, k - 1);
        }
      }
    }
  }

  /** A search for a size that the first one left, after list c has got a block. */
  predicate SecondFails(need: nat, c: nat) { !MachineSearch(need).From? || FirstList(MachineSearch(need)) <= c }

  lemma SizeBelow(s: nat, size0: nat)
    requires Asked(s, size0)
    ensures s < SIZE_LIMIT
  {
  }

  lemma SecondTry(filled: set<nat>, r: nat, size0: nat, c: nat)
    requires LARGEST_REQUEST < size0 && Asked(r, size0) && MachineSearch(r).From?
    requires Below(filled, FirstList(MachineSearch(r)))
    ensures var need := MachineSearch(r).size;
      TryOnce(filled + {c}, need) == if SecondFails(need, c) then Bad else Miss(need)
  {
    hide MachineSearch;
    AskedNext(r, size0);
    var need := MachineSearch(r).size;
    if MachineSearch(need).From? {
      SearchAgain(r);
      if FirstList(MachineSearch(need)) <= c { assert c in filled + {c}; } else if need == 0 { SmallOrdinary(0); }
    }
  }
}
