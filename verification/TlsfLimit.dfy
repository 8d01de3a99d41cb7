/** TLSF: what the limit on the size of a pool is worth. */
module TlsfLimit {
  import opened Bits
  import opened FreeLists
  import opened TlsfMap
  import opened TlsfAnswer

  /** All the memory in the regions. */
  ghost function Held(len: map<Addr, nat>): nat {
    if len == map[] then 0 else var r :| r in len; len[r] + Held(len - {r})
  }

  lemma {:induction false} HeldWithout(len: map<Addr, nat>, r: Addr)
    requires r in len
    ensures Held(len) == len[r] + Held(len - {r})
    decreases |len|
  {
    var q :| q in len && Held(len) == len[q] + Held(len - {q});
    if q != r {
      HeldWithout(len - {q}, r);
      HeldWithout(len - {r}, q);
      assert len - {q} - {r} == len - {r} - {q};
    }
  }

  lemma {:induction false} HeldEqual(len: map<Addr, nat>, n: nat)
    requires forall r :: r in len ==> len[r] == n
    ensures Held(len) == |len| * n
    decreases |len|
  {
    if len != map[] {
      var r :| r in len;
      HeldWithout(len, r);
      HeldEqual(len - {r}, n);
      assert |len| == |len - {r}| + 1 && len.Keys - {r} == (len - {r}).Keys;
      OneTimesMore(|len - {r}|, n);
    }
  }

  lemma OneTimesMore(k: nat, n: nat)
    ensures (k + 1) * n == k * n + n
  {
  }

  /** A limit that is not below the initial size, with no sum in its check that wraps. */
  predicate Plain(p: Limits) { p.maxSize != 0 && p.initSize <= p.maxSize && p.maxSize + p.growSize < SIZE_LIMIT }

  /** The lengths of the regions, of which `first` is the initial one, or 0 once that is gone. */
  ghost predicate Sized(len: map<Addr, nat>, first: Addr, p: Limits) {
    && 0 !in len
    && (first != 0 ==> first in len && len[first] == UsedLen(p.initSize))
    && (forall r :: r in len && r != first ==> len[r] == UsedLen(p.growSize))
    && Counted(|len|, p)
  }

  /** What the check lets n, the number of regions, become. */
  predicate Counted(n: nat, p: Limits) {
    Plain(p) && n > 0 ==> p.initSize + (n - 1) * p.growSize <= p.maxSize
  }

  lemma CountedMore(n: nat, p: Limits, need: nat)
    requires Counted(n, p) && MayGrow(p, n, need)
    ensures Counted(n + 1, p)
  {
    if Plain(p) && n > 0 { OneTimesMore(n - 1, p.growSize); }
  }

  lemma CountedLess(n: nat, p: Limits)
    requires Counted(n + 1, p)
    ensures Counted(n, p)
  {
    if Plain(p) && n > 0 { OneTimesMore(n - 1, p.growSize); }
  }

  lemma SizedFirst(region: Addr, p: Limits)
    requires region > 0
    ensures Sized(map[region := UsedLen(p.initSize)], region, p)
  {
  }

  /** The check before growth keeps this. */
  lemma SizedMore(len: map<Addr, nat>, first: Addr, p: Limits, region: Addr, need: nat)
    requires Sized(len, first, p) && region > 0 && region !in len && MayGrow(p, |len|, need)
    ensures Sized(len[region := UsedLen(p.growSize)], first, p)
  {
    hide Counted, MayGrow;
    var len' := len[region := UsedLen(p.growSize)];
    assert |len'| == |len| + 1 by { assert len'.Keys == len.Keys + {region}; }
    CountedMore(|len|, p, need);
  }

  lemma SizedLess(len: map<Addr, nat>, len': map<Addr, nat>, first: Addr, p: Limits, region: Addr)
    requires Sized(len, first, p) && region in len && len' == len - {region}
    ensures Sized(len', if region == first then 0 else first, p) && |len'| == |len| - 1
    ensures (if region == first then 0 else first) == if first in len' then first else 0
  {
    hide Counted;
    assert |len| == |len'| + 1 by { assert len.Keys == len'.Keys + {region}; }
    CountedLess(|len'|, p);
  }

  lemma UsedWhole(n: nat)
    requires n < WORD_LIMIT
    ensures UsedLen(n) == n
  {
  }

  /** How much is held, with regions below 4 GiB. */
  lemma HeldIs(len: map<Addr, nat>, first: Addr, p: Limits)
    requires Sized(len, first, p) && p.initSize < WORD_LIMIT && p.growSize < WORD_LIMIT
    ensures first != 0 ==> |len| > 0 && Held(len) == p.initSize + (|len| - 1) * p.growSize
    ensures first == 0 ==> Held(len) == |len| * p.growSize
    ensures Counted(|len|, p)
  {
    hide Counted, UsedLen, Held;
    UsedWhole(p.initSize);
    UsedWhole(p.growSize);
    if first != 0 {
      HeldWithout(len, first);
      assert |len| == |len - {first}| + 1 by { assert len.Keys == (len - {first}).Keys + {first}; }
      HeldEqual(len - {first}, p.growSize);
    } else {
      HeldEqual(len, p.growSize);
    }
  }

  /** As long as the initial region is held, the pool is within its limit, and growth is refused
      for the limit exactly if one more region would exceed it. */
  lemma LimitHolds(len: map<Addr, nat>, first: Addr, p: Limits)
    requires Sized(len, first, p) && Plain(p) && p.initSize < WORD_LIMIT && p.growSize < WORD_LIMIT && first != 0
    ensures Held(len) <= p.maxSize
    ensures (p.initSize + |len| * p.growSize) % SIZE_LIMIT > p.maxSize <==> Held(len) + p.growSize > p.maxSize
  {
    hide Sized, Held;
    HeldIs(len, first, p);
    OneTimesMore(|len| - 1, p.growSize);
  }

  /** How many times a pool may grow that has its initial region, and what as many regions and one
      more come to. */
  function Growths(p: Limits): nat
    requires p.initSize <= p.maxSize && p.growSize > 0
  {
    (p.maxSize - p.initSize) / p.growSize
  }

  predicate Safe(p: Limits)
    requires p.initSize <= p.maxSize
  {
    p.growSize > 0 ==> (Growths(p) + 1) * p.growSize <= p.maxSize
  }

  /** Once the initial region is gone the check counts it all the same, in place of a region that
      may be larger: the pool is within its limit in every state if as many regions as there may
      then be are. */
  lemma SafeHolds(len: map<Addr, nat>, first: Addr, p: Limits)
    requires Sized(len, first, p) && Plain(p) && p.initSize < WORD_LIMIT && p.growSize < WORD_LIMIT && Safe(p)
    ensures Held(len) <= p.maxSize
  {
    hide Sized, Held, Growths, Safe;
    HeldIs(len, first, p);
    SafeIs(p);
    if first == 0 && |len| > 0 && p.growSize > 0 {
      AtMostGrowths(|len| - 1, p);
      MulMono(|len|, Growths(p) + 1, p.growSize);
    }
  }

  lemma SafeIs(p: Limits)
    requires p.initSize <= p.maxSize
    ensures Safe(p) <==> (p.growSize > 0 ==> (Growths(p) + 1) * p.growSize <= p.maxSize)
  {
  }

  lemma AtMostGrowths(k: nat, p: Limits)
    requires p.initSize <= p.maxSize && p.growSize > 0 && p.initSize + k * p.growSize <= p.maxSize
    ensures k <= Growths(p)
  {
    if k > Growths(p) {
      DivBounds(p.maxSize - p.initSize, p.growSize);
      MulMono(Growths(p) + 1, k, p.growSize);
      OneTimesMore(Growths(p), p.growSize);
    }
  }

  lemma GrowthsFit(k: nat, p: Limits)
    requires p.initSize <= p.maxSize && p.growSize > 0 && k <= Growths(p)
    ensures p.initSize + k * p.growSize <= p.maxSize
  {
    DivBounds(p.maxSize - p.initSize, p.growSize);
    MulMono(k, Growths(p), p.growSize);
  }

  /** In particular if regions are not larger than the initial one. */
  lemma SmallGrowthSafe(p: Limits)
    requires p.initSize <= p.maxSize && p.growSize <= p.initSize
    ensures Safe(p)
  {
    if p.growSize > 0 {
      GrowthsFit(Growths(p), p);
      OneTimesMore(Growths(p), p.growSize);
    }
  }
}
