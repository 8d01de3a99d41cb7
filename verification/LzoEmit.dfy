/** How the compressor writes literals, counts and matches.  The growing output is
    tied to a list of instructions of the stream format. */
module LzoEmit {
  import opened Bits
  import opened LzoFormat

  /** The buffer holds the instructions `ts`, which stand for the first `ii` input bytes. */
  ghost predicate Wrote(out: seq<byte>, ts: seq<Instr>, inp: seq<byte>, ii: nat) {
    ii <= |inp| && WellFormed(ts) && out == Body(ts) && Play(ts, |inp|) == Playing(inp[..ii])
  }

  /** Where literals may be emitted: at the very start, or right after a match. */
  ghost predicate Open(ts: seq<Instr>, ii: nat) {
    if ts == [] then ii == 0
    else ts[|ts| - 1].Match? && ts[|ts| - 1].tail == []
  }

  lemma ExtLength(k: nat)
    requires k >= 1
    ensures |Ext(k)| == 1 + (k - 1) / 255
  {
  }

  /** A run header costs one byte, and at most one more for every sixteen literals. */
  lemma HeaderCost(n: nat)
    requires n >= 4
    ensures 16 * |RunHeader(n)| <= 16 + n
  {
    if n > 18 { ExtLength(n - 18); }
  }

  function FormOf(dist: nat, len: nat): Form {
    if dist <= M2_MAX_OFFSET && len <= 8 then M2
    else if dist <= M3_MAX_OFFSET then M3
    else M4
  }

  /** Every match the compressor looks for saves at least one byte: a distance that needs
      three bytes is only used for four or more. */
  lemma MatchSaves(dist: nat, len: nat)
    requires 1 <= dist <= M4_MAX_OFFSET && len >= 3 && (dist <= M2_MAX_OFFSET || len >= 4)
    ensures ValidMatch(FormOf(dist, len), dist, len)
    ensures |MatchBytes(FormOf(dist, len), dist, len, 0)| + 1 <= len
  {
    if FormOf(dist, len) == M3 && len > 33 { ExtLength(len - 33); }
    if FormOf(dist, len) == M4 && len > 9 { ExtLength(len - 9); }
  }

  /** The count of trailing literals sits in two low bits that are clear before. */
  lemma PatchCount(form: Form, dist: nat, len: nat, n: nat)
    requires ValidMatch(form, dist, len) && n <= 3
    ensures var b := MatchBytes(form, dist, len, 0); var i := |b| - 2;
      b[i] % 4 == 0 && MatchBytes(form, dist, len, n) == b[i := b[i] + n]
  {
    hide MatchBytes, ValidMatch;
    var a, v, w := CountSlot(form, dist, len);
    assert MatchBytes(form, dist, len, 0) == a + [v * 4 + 0, w] && MatchBytes(form, dist, len, n) == a + [v * 4 + n, w];
    PatchBehind(a, v, w, n);
  }

  /** The last two bytes of a match, the first of them with the count. */
  lemma CountSlot(form: Form, dist: nat, len: nat) returns (a: seq<byte>, v: nat, w: byte)
    requires ValidMatch(form, dist, len)
    ensures v < 64 && forall n: nat {:trigger MatchBytes(form, dist, len, n)} :: n <= 3 ==>
      MatchBytes(form, dist, len, n) == a + [v * 4 + n, w]
  {
    hide LongOpcode;
    match form
    case AfterTail => a, v, w := [], (dist - 1) % 4, (dist - 1) / 4;
    case AfterRun => a, v, w := [], (dist - 0x801) % 4, (dist - 0x801) / 4;
    case M2 => a, v, w := [], (len - 1) * 8 + (dist - 1) % 8, (dist - 1) / 8;
    case M3 => a, v, w := LongOpcode(32, len, 33), (dist - 1) % 64, (dist - 1) / 64;
    case M4 =>
      var d := dist - 0x4000;
      a, v, w := LongOpcode(16 + d / 0x4000 * 8, len, 9), d % 64, d / 64 % 256;
  }

  lemma PatchBehind(a: seq<byte>, v: nat, w: byte, n: nat)
    requires v < 64 && n <= 3
    ensures var b := a + [v * 4, w]; b[|b| - 2] == v * 4 && a + [v * 4 + n, w] == b[|b| - 2 := v * 4 + n]
  {
  }

  /** `while (m > 255) { m -= 255; *op++ = 0; } *op++ = m;` */
  method PutExt(out: array<byte>, op0: nat, m0: nat) returns (op: nat)
    requires m0 >= 1 && op0 + |Ext(m0)| <= out.Length
    modifies out
    ensures op == op0 + |Ext(m0)| && out[..op] == old(out[..op0]) + Ext(m0)
  {
    var m := m0;
    op := op0;
    ghost var zeros: seq<byte> := [];
    while m > 255
      invariant m >= 1 && op == op0 + |zeros| && op + |Ext(m)| <= out.Length
      invariant out[..op] == old(out[..op0]) + zeros && Ext(m0) == zeros + Ext(m)
      decreases m
    {
      ExtStep(zeros, m);
      m := m - 255;
      ghost var s := out[..op];
      out[op] := 0;
      op := op + 1;
      zeros := zeros + [0];
      assert out[..op] == s + [0];
    }
    out[op] := m;
    op := op + 1;
  }

  lemma ExtStep(zeros: seq<byte>, m: nat)
    requires m > 255
    ensures zeros + Ext(m) == zeros + [0] + Ext(m - 255) && |Ext(m)| == 1 + |Ext(m - 255)|
  {
  }

  /** `do { *op++ = *ii++; } while (--t > 0);` */
  method PutLiterals(inp: seq<byte>, ii0: nat, out: array<byte>, op0: nat, t0: nat)
    requires t0 >= 1 && ii0 + t0 <= |inp| && op0 + t0 <= out.Length
    modifies out
    ensures out[..op0 + t0] == old(out[..op0]) + inp[ii0..ii0 + t0]
  {
    var ii, op, t := ii0, op0, t0;
    out[op] := inp[ii];
    op, ii, t := op + 1, ii + 1, t - 1;
    while t > 0
      invariant op - op0 == ii - ii0 == t0 - t && ii0 < ii
      invariant out[..op] == old(out[..op0]) + inp[ii0..ii]
    {
      out[op] := inp[ii];
      op, ii, t := op + 1, ii + 1, t - 1;
    }
  }

  lemma AppendInstr(ts: seq<Instr>, t: Instr, cap: nat)
    requires WellFormed(ts) && Allowed(ModeAfter(ts), t) && Play(ts, cap).Playing?
    ensures WellFormed(ts + [t]) && Body(ts + [t]) == Body(ts) + Bytes(t)
    ensures Play(ts + [t], cap) == Step(Play(ts, cap).out, t, cap)
  {
    assert (ts + [t])[..|ts|] == ts;
  }

  /** Instruction list after literals behind the last match. */
  function WithTail(ts: seq<Instr>, lits: seq<byte>): seq<Instr>
    requires ts != [] && ts[|ts| - 1].Match?
  {
    ts[..|ts| - 1] + [ts[|ts| - 1].(tail := lits)]
  }

  lemma UpdateBehind(a: seq<byte>, b: seq<byte>, i: nat, x: byte)
    requires i < |b|
    ensures (a + b)[|a| + i := x] == a + b[i := x]
  {
  }

  lemma LastInstr(ts: seq<Instr>)
    requires WellFormed(ts) && ts != [] && ts[|ts| - 1].Match? && ts[|ts| - 1].tail == []
    ensures var ts0, m := ts[..|ts| - 1], ts[|ts| - 1];
      && WellFormed(ts0) && ValidMatch(m.form, m.dist, m.len) && Allowed(ModeAfter(ts0), m)
      && Body(ts) == Body(ts0) + MatchBytes(m.form, m.dist, m.len, 0)
  {
    hide MatchBytes;
    var m := ts[|ts| - 1];
    assert Bytes(m) == MatchBytes(m.form, m.dist, m.len, 0) + [];
  }

  lemma AddInstr(ts: seq<Instr>, t: Instr)
    requires WellFormed(ts) && Allowed(ModeAfter(ts), t)
    ensures WellFormed(ts + [t]) && Body(ts + [t]) == Body(ts) + Bytes(t)
  {
    assert (ts + [t])[..|ts|] == ts;
  }

  lemma PatchedLayout(ts: seq<Instr>, lits: seq<byte>)
    requires WellFormed(ts) && ts != [] && ts[|ts| - 1].Match? && ts[|ts| - 1].tail == [] && 1 <= |lits| <= 3
    ensures WellFormed(WithTail(ts, lits)) && ModeAfter(WithTail(ts, lits)) == ShortTail
    ensures var b := Body(ts); var i := |b| - 2;
      i >= 0 && b[i] % 4 == 0 && Body(WithTail(ts, lits)) == b[i := b[i] + |lits|] + lits
  {
    hide MatchBytes, ValidMatch, WellFormed, Body;
    LastInstr(ts);
    var ts0, m := ts[..|ts| - 1], ts[|ts| - 1];
    PatchCount(m.form, m.dist, m.len, |lits|);
    AddInstr(ts0, m.(tail := lits));
    var b := MatchBytes(m.form, m.dist, m.len, 0);
    UpdateBehind(Body(ts0), b, |b| - 2, b[|b| - 2] + |lits|);
  }

  lemma PatchedMeaning(ts: seq<Instr>, lits: seq<byte>, cap: nat, o: seq<byte>)
    requires WellFormed(ts) && Play(ts, cap) == Playing(o)
    requires ts != [] && ts[|ts| - 1].Match? && ts[|ts| - 1].tail == [] && 1 <= |lits|
    ensures Play(WithTail(ts, lits), cap) == Append(o, lits, cap)
  {
    assert WithTail(ts, lits)[..|ts| - 1] == ts[..|ts| - 1];
  }

  /** `op[-2] |= t` */
  method PatchTail(out: array<byte>, op: nat, t: nat, ghost ts: seq<Instr>, ghost lits: seq<byte>)
    requires op <= out.Length && WellFormed(ts) && out[..op] == Body(ts) && |lits| == t
    requires ts != [] && ts[|ts| - 1].Match? && ts[|ts| - 1].tail == [] && 1 <= t <= 3
    modifies out
    ensures WellFormed(WithTail(ts, lits)) && out[..op] + lits == Body(WithTail(ts, lits))
  {
    hide Body, WellFormed, WithTail, Or;
    PatchedLayout(ts, lits);
    ghost var b := Body(ts);
    assert out[..op][op - 2] == b[op - 2];
    OrDisjoint(out[op - 2] / 4, t, 2);
    out[op - 2] := Or(out[op - 2], t);
    assert out[..op] == b[op - 2 := b[op - 2] + t];
  }

  /** Header of a run of at least four literals. */
  method PutRunHeader(out: array<byte>, op0: nat, t: nat) returns (op: nat)
    requires t >= 4 && op0 + |RunHeader(t)| <= out.Length
    modifies out
    ensures op == op0 + |RunHeader(t)| && out[..op] == old(out[..op0]) + RunHeader(t)
  {
    op := op0;
    if t <= 18 {
      out[op] := t - 3;
      op := op + 1;
    } else {
      var tt := t - 18;
      out[op] := 0;
      ghost var s := out[..op + 1];
      op := PutExt(out, op + 1, tt);
      assert s + Ext(tt) == old(out[..op0]) + RunHeader(t);
    }
  }

  /** Literals in front of a match, or at the end of the input. */
  method EmitLiterals(inp: seq<byte>, out: array<byte>, op0: nat, ii: nat, t: nat, ghost ts: seq<Instr>)
    returns (op: nat, ghost ts': seq<Instr>)
    requires 1 <= t && ii + t <= |inp| && op0 <= out.Length
    requires Wrote(out[..op0], ts, inp, ii) && Open(ts, ii) && (ts == [] ==> t >= 4)
    requires 16 * op0 + 17 * t + 16 <= 16 * out.Length
    modifies out
    ensures op <= out.Length && Wrote(out[..op], ts', inp, ii + t)
    ensures ModeAfter(ts') == LongRun || ModeAfter(ts') == ShortTail
    ensures 16 * op <= 16 * op0 + 17 * t + 16 && op0 < op
    ensures op == op0 + t + (if t <= 3 then 0 else |RunHeader(t)|) && Copies(ts', |inp|) == Copies(ts, |inp|)
  {
    hide Body, Play, WellFormed, CopyBack, MatchBytes, RunHeader, WithTail, Bytes, Copies;
    ghost var lits := inp[ii..ii + t];
    assert inp[..ii] + lits == inp[..ii + t];
    if t <= 3 {
      PatchedLayout(ts, lits);
      PatchedMeaning(ts, lits, |inp|, inp[..ii]);
      ts' := WithTail(ts, lits);
      CopiesTail(ts, lits, |inp|);
      PatchTail(out, op0, t, ts, lits);
      op := op0;
    } else {
      HeaderCost(t);
      AppendRun(ts, lits, |inp|);
      ts' := ts + [Run(lits)];
      CopiesMore(ts, Run(lits), |inp|);
      op := PutRunHeader(out, op0, t);
    }
    PutLiterals(inp, ii, out, op, t);
    op := op + t;
  }

  lemma CopiesTail(ts: seq<Instr>, lits: seq<byte>, cap: nat)
    requires ts != [] && ts[|ts| - 1].Match?
    ensures Copies(WithTail(ts, lits), cap) == Copies(ts, cap)
  {
    hide Play;
    assert WithTail(ts, lits)[..|ts| - 1] == ts[..|ts| - 1];
  }

  lemma CopiesMore(ts: seq<Instr>, t: Instr, cap: nat)
    ensures Copies(ts + [t], cap) ==
      if t.Match? then Copies(ts, cap) + [Copy(|Play(ts, cap).out|, t.dist, t.len)] else Copies(ts, cap)
  {
    hide Play;
    assert (ts + [t])[..|ts|] == ts;
  }

  lemma AppendRun(ts: seq<Instr>, lits: seq<byte>, cap: nat)
    requires WellFormed(ts) && |lits| >= 4 && Play(ts, cap).Playing?
    requires ts == [] || (ts[|ts| - 1].Match? && ts[|ts| - 1].tail == [])
    ensures WellFormed(ts + [Run(lits)]) && ModeAfter(ts + [Run(lits)]) == LongRun
    ensures Body(ts + [Run(lits)]) == Body(ts) + RunHeader(|lits|) + lits
    ensures Play(ts + [Run(lits)], cap) == Append(Play(ts, cap).out, lits, cap)
  {
    AppendInstr(ts, Run(lits), cap);
    hide Body, Play, WellFormed, RunHeader;
    assert Body(ts) + (RunHeader(|lits|) + lits) == Body(ts) + RunHeader(|lits|) + lits;
  }
}
