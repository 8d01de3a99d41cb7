/** The one-pass compressor: a hash dictionary of earlier positions, never cleared
    between calls, proposes matches; everything else goes out as literals. */
module LzoCompress {
  import opened Bits
  import opened LzoFormat
  import opened LzoEmit

  const M2_MAX_LEN := 8
  const D_SIZE := 0x4000
  const D_HIGH := 0x2000

  /** A dictionary slot is a pointer, held here as its distance from `in`.  Stale slots
      may point anywhere, in front of the input or behind it. */
  type Slot = x: int | -0x4000_0000_0000_0000 <= x < 0x4000_0000_0000_0000

  /** Conversion of a pointer difference to the 64-bit size_t. */
  function SizeT(d: int): nat {
    d % 0x1_0000_0000_0000_0000
  }

  /** DX3(p, 5, 5, 6) */
  function Dx3(inp: seq<byte>, p: nat): nat
    requires p + 4 <= |inp|
  {
    var b3: nat := inp[p + 3];
    Xor(Xor(Xor(b3 * 64, inp[p + 2]) * 32, inp[p + 1]) * 32, inp[p])
  }

  function FirstHash(inp: seq<byte>, p: nat): (i: nat)
    requires p + 4 <= |inp|
    ensures i < D_SIZE
  {
    0x21 * Dx3(inp, p) / 32 % D_SIZE
  }

  function SecondHash(i: nat): (j: nat)
    requires i < D_SIZE
    ensures j < D_SIZE
  {
    assert D_HIGH + 0x1f < Pow2(14) && i % 0x800 < Pow2(14) by { assert Pow2(14) == 0x4000; }
    XorBelow(i % 0x800, D_HIGH + 0x1f, 14);
    Xor(i % 0x800, D_HIGH + 0x1f)
  }

  /** The tests that make a slot a candidate: it lies before ip and within reach, and a
      candidate too far for M2 must also agree on the fourth byte. */
  predicate Candidate(inp: seq<byte>, ip: nat, mPos: int)
    requires ip + 4 <= |inp|
  {
    && 0 <= mPos < ip && ip - mPos <= M4_MAX_OFFSET
    && (ip - mPos <= M2_MAX_OFFSET || inp[mPos + 3] == inp[ip + 3])
  }

  /** One probe of the dictionary: `inReach` is false when control goes to label literal,
      `good` when it goes on to compare. */
  method Probe(inp: seq<byte>, ip: nat, mPos: Slot) returns (inReach: bool, good: bool)
    requires 1 <= ip && ip + 4 <= |inp| < 0x1000_0000_0000_0000
    ensures good <==> Candidate(inp, ip, mPos)
    ensures inReach <==> 0 <= mPos < ip && ip - mPos <= M4_MAX_OFFSET
  {
    inReach, good := true, false;
    if mPos < 0 {
      inReach := false;
    } else if ip == mPos || SizeT(ip - mPos) > M4_MAX_OFFSET {
      inReach := false;
    } else {
      var mOff := ip - mPos;
      good := mOff <= M2_MAX_OFFSET || inp[mPos + 3] == inp[ip + 3];
    }
  }

  function Short(inp: seq<byte>, p: nat): nat
    requires p + 2 <= |inp|
  {
    var lo: nat, hi: nat := inp[p], inp[p + 1];
    lo + 256 * hi
  }

  predicate InReach(ip: nat, mPos: int) { 0 <= mPos < ip && ip - mPos <= M4_MAX_OFFSET }

  /** The slot that decides at ip: the second one where the first is in reach and no candidate. */
  function Deciding(inp: seq<byte>, ip: nat, dict: seq<Slot>): (i: nat)
    requires ip + 4 <= |inp| && |dict| == D_SIZE
    ensures i < D_SIZE
  {
    var i := FirstHash(inp, ip);
    if InReach(ip, dict[i]) && !Candidate(inp, ip, dict[i]) then SecondHash(i) else i
  }

  /** A candidate that agrees in three bytes. */
  predicate Repeats(inp: seq<byte>, ip: nat, mPos: int)
    requires ip + 4 <= |inp|
  {
    Candidate(inp, ip, mPos) && inp[mPos..mPos + 3] == inp[ip..ip + 3]
  }

  /** The match search: there is a match exactly if the slot that decides has one. */
  method FindMatch(inp: seq<byte>, ip: nat, dict: array<Slot>) returns (found: bool, dindex: nat, mPos: int)
    requires 1 <= ip && ip + 9 <= |inp| < 0x1000_0000_0000_0000 && dict.Length == D_SIZE
    ensures dindex == Deciding(inp, ip, dict[..]) && mPos == dict[dindex]
    ensures found <==> Repeats(inp, ip, mPos)
  {
    hide FirstHash, SecondHash;
    dindex := FirstHash(inp, ip);
    mPos := dict[dindex];
    var inReach, good := Probe(inp, ip, mPos);
    if inReach && !good {
      dindex := SecondHash(dindex);
      mPos := dict[dindex];
      inReach, good := Probe(inp, ip, mPos);
    }
    found := false;
    if good {
      if Short(inp, mPos) == Short(inp, ip) {
        if inp[mPos + 2] == inp[ip + 2] {
          found := true;
          assert inp[mPos..mPos + 3] == [inp[ip], inp[ip + 1], inp[ip + 2]] == inp[ip..ip + 3];
        }
      }
      if !found { Differ(inp, ip, mPos); }
    }
  }

  lemma Differ(inp: seq<byte>, ip: nat, mPos: nat)
    requires mPos < ip && ip + 4 <= |inp|
    requires Short(inp, mPos) != Short(inp, ip) || inp[mPos + 2] != inp[ip + 2]
    ensures inp[mPos..mPos + 3] != inp[ip..ip + 3]
  {
    var a, b := inp[mPos..mPos + 3], inp[ip..ip + 3];
    assert a[0] == inp[mPos] && a[1] == inp[mPos + 1] && a[2] == inp[mPos + 2];
    assert b[0] == inp[ip] && b[1] == inp[ip + 1] && b[2] == inp[ip + 2];
  }

  /** The length of the common run at q and p. */
  function Common(inp: seq<byte>, q: nat, p: nat): (n: nat)
    requires q <= p
    decreases |inp| - p
  {
    if p < |inp| && inp[q] == inp[p] then 1 + Common(inp, q + 1, p + 1) else 0
  }

  lemma {:induction false} CommonIs(inp: seq<byte>, q: nat, p: nat, n: nat)
    requires q < p && p + n <= |inp| && (forall j :: p <= j < p + n ==> inp[j] == inp[j - (p - q)])
    requires p + n == |inp| || inp[q + n] != inp[p + n]
    ensures Common(inp, q, p) == n
    decreases n
  {
    if n > 0 {
      assert inp[p] == inp[q];
      CommonIs(inp, q + 1, p + 1, n - 1);
    }
  }

  /** The copies that the compressor makes from ip on: at each position it stops at it asks the
      slot that decides there, which from then on holds the position; it goes on behind a match, or
      else at the next byte, until fewer than 14 bytes are left. */
  ghost function Greedy(inp: seq<byte>, dict: seq<Slot>, ip: nat): seq<Copy>
    requires 1 <= ip && ip + 9 <= |inp| < 0x1000_0000_0000_0000 && |dict| == D_SIZE
    decreases |inp| - ip
  {
    var i := Deciding(inp, ip, dict);
    var mPos := dict[i];
    var len := if Repeats(inp, ip, mPos) then Common(inp, mPos, ip) else 0;
    var next := if len > 0 then ip + len else ip + 1;
    (if len > 0 then [Copy(ip, ip - mPos, len)] else [])
    + (if next + 13 >= |inp| then [] else Greedy(inp, dict[i := ip], next))
  }

  lemma ThreeAlike(inp: seq<byte>, ip: nat, mPos: nat)
    requires mPos < ip && ip + 3 <= |inp| && inp[mPos..mPos + 3] == inp[ip..ip + 3]
    ensures forall j :: ip <= j < ip + 3 ==> inp[j] == inp[j - (ip - mPos)]
  {
    forall j | ip <= j < ip + 3 ensures inp[j] == inp[j - (ip - mPos)] {
      assert inp[ip..ip + 3][j - ip] == inp[mPos..mPos + 3][j - ip];
    }
  }

  /** Length of the common run at mPos and ip, given three equal bytes: six comparisons one
      by one, and when all succeed a loop up to the end of the input. */
  method MatchLength(inp: seq<byte>, ip: nat, mPos: nat) returns (len: nat, short: bool)
    requires mPos < ip && ip + 9 <= |inp| && inp[mPos..mPos + 3] == inp[ip..ip + 3]
    ensures 3 <= len && ip + len <= |inp| && (if short then len <= 8 else len >= 9)
    ensures forall j :: ip <= j < ip + len ==> inp[j] == inp[j - (ip - mPos)]
    ensures ip + len == |inp| || inp[mPos + len] != inp[ip + len]
  {
    ThreeAlike(inp, ip, mPos);
    short := true;
    if inp[mPos + 3] != inp[ip + 3] { len := 3; }
    else if inp[mPos + 4] != inp[ip + 4] { len := 4; }
    else if inp[mPos + 5] != inp[ip + 5] { len := 5; }
    else if inp[mPos + 6] != inp[ip + 6] { len := 6; }
    else if inp[mPos + 7] != inp[ip + 7] { len := 7; }
    else if inp[mPos + 8] != inp[ip + 8] { len := 8; }
    else {
      short := false;
      len := M2_MAX_LEN + 1;
      while ip + len < |inp| && inp[mPos + len] == inp[ip + len]
        invariant 9 <= len && ip + len <= |inp|
        invariant forall j :: ip <= j < ip + len ==> inp[j] == inp[j - (ip - mPos)]
      {
        len := len + 1;
      }
    }
  }

  lemma OrM2(len: nat, off: nat)
    requires 3 <= len <= 8
    ensures Or((len - 1) * 32, off % 8 * 4) == (len - 1) * 32 + off % 8 * 4
  {
    assert Pow2(5) == 32;
    OrDisjoint(len - 1, off % 8 * 4, 5);
  }

  lemma OrM3(field: nat)
    requires field < 32
    ensures Or(32, field) == 32 + field
  {
    assert Pow2(5) == 32;
    OrDisjoint(1, field, 5);
  }

  lemma OrM4(high: nat, field: nat)
    requires high <= 1 && field < 8
    ensures Or(16, high * 8) == 16 + high * 8 && Or(Or(16, high * 8), field) == 16 + high * 8 + field
  {
    assert Pow2(4) == 16 && Pow2(3) == 8;
    OrDisjoint(1, high * 8, 4);
    OrDisjoint(2 + high, field, 3);
  }

  /** Labels m3_m4_len and m3_m4_offset. */
  method PutLongTail(out: array<byte>, op0: nat, mLen: nat, long: bool, mOff: nat) returns (op: nat)
    requires long ==> mLen >= 1
    requires mOff < 0x8000 && op0 + (if long then |Ext(mLen)| else 0) + 2 <= out.Length
    modifies out
    ensures op == op0 + (if long then |Ext(mLen)| else 0) + 2
    ensures out[..op] == old(out[..op0]) + (if long then Ext(mLen) else []) + [mOff % 64 * 4, mOff / 64 % 256]
  {
    op := op0;
    if long {
      op := PutExt(out, op, mLen);
    }
    out[op] := mOff % 64 * 4;
    out[op + 1] := mOff / 64 % 256;
    op := op + 2;
  }

  lemma LayoutM2(dist: nat, len: nat)
    requires ValidMatch(M2, dist, len)
    ensures MatchBytes(M2, dist, len, 0) == [(len - 1) * 32 + (dist - 1) % 8 * 4, (dist - 1) / 8]
  {
  }

  lemma LayoutM3(dist: nat, len: nat)
    requires ValidMatch(M3, dist, len)
    ensures MatchBytes(M3, dist, len, 0) == (if len <= 33 then [32 + (len - 2)] + [] else [32] + Ext(len - 33))
                                           + [(dist - 1) % 64 * 4, (dist - 1) / 64 % 256]
  {
  }

  lemma LayoutM4(dist: nat, len: nat)
    requires ValidMatch(M4, dist, len)
    ensures var d := dist - 0x4000; var marker := 16 + d / 0x4000 % 2 * 8;
      MatchBytes(M4, dist, len, 0) == (if len <= 9 then [marker + (len - 2)] + [] else [marker] + Ext(len - 9))
                                     + [d % 64 * 4, d / 64 % 256]
  {
  }

  /** The opcode of a match found by the short comparison chain. */
  method PutShortMatch(out: array<byte>, op0: nat, dist: nat, len: nat) returns (op: nat)
    requires 1 <= dist <= M4_MAX_OFFSET && 3 <= len <= 8 && ValidMatch(FormOf(dist, len), dist, len)
    requires op0 + |MatchBytes(FormOf(dist, len), dist, len, 0)| <= out.Length
    modifies out
    ensures op == op0 + |MatchBytes(FormOf(dist, len), dist, len, 0)|
    ensures out[..op] == old(out[..op0]) + MatchBytes(FormOf(dist, len), dist, len, 0)
  {
    hide MatchBytes, Or;
    var mOff := dist;
    op := op0;
    if mOff <= M2_MAX_OFFSET {
      LayoutM2(dist, len);
      mOff := mOff - 1;
      OrM2(len, mOff);
      out[op] := Or((len - 1) * 32, mOff % 8 * 4);
      out[op + 1] := mOff / 8;
      op := op + 2;
    } else if mOff <= M3_MAX_OFFSET {
      LayoutM3(dist, len);
      mOff := mOff - 1;
      OrM3(len - 2);
      out[op] := Or(32, len - 2);
      op := PutLongTail(out, op + 1, len, false, mOff);
    } else {
      LayoutM4(dist, len);
      mOff := mOff - 0x4000;
      OrM4(mOff / 0x4000 % 2, len - 2);
      out[op] := Or(Or(16, mOff / 0x4000 % 2 * 8), len - 2);
      op := PutLongTail(out, op + 1, len, false, mOff);
    }
  }

  /** The opcode of a match of nine bytes or more. */
  method PutLongMatch(out: array<byte>, op0: nat, dist: nat, len: nat) returns (op: nat)
    requires 1 <= dist <= M4_MAX_OFFSET && 9 <= len && ValidMatch(FormOf(dist, len), dist, len)
    requires op0 + |MatchBytes(FormOf(dist, len), dist, len, 0)| <= out.Length
    modifies out
    ensures op == op0 + |MatchBytes(FormOf(dist, len), dist, len, 0)|
    ensures out[..op] == old(out[..op0]) + MatchBytes(FormOf(dist, len), dist, len, 0)
  {
    if dist <= M3_MAX_OFFSET {
      op := PutLongM3(out, op0, dist, len);
    } else {
      op := PutLongM4(out, op0, dist, len);
    }
  }

  method PutLongM3(out: array<byte>, op0: nat, dist: nat, len: nat) returns (op: nat)
    requires 9 <= len && ValidMatch(M3, dist, len) && op0 + |MatchBytes(M3, dist, len, 0)| <= out.Length
    modifies out
    ensures op == op0 + |MatchBytes(M3, dist, len, 0)|
    ensures out[..op] == old(out[..op0]) + MatchBytes(M3, dist, len, 0)
  {
    hide MatchBytes, Or, Ext;
    LayoutM3(dist, len);
    var mOff, mLen := dist - 1, len;
    op := op0;
    if mLen <= 33 {
      OrM3(mLen - 2);
      out[op] := Or(32, mLen - 2);
      op := PutLongTail(out, op + 1, mLen, false, mOff);
    } else {
      mLen := mLen - 33;
      OrM3(0);
      out[op] := Or(32, 0);
      op := PutLongTail(out, op + 1, mLen, true, mOff);
    }
  }

  method PutLongM4(out: array<byte>, op0: nat, dist: nat, len: nat) returns (op: nat)
    requires 9 <= len && ValidMatch(M4, dist, len) && op0 + |MatchBytes(M4, dist, len, 0)| <= out.Length
    modifies out
    ensures op == op0 + |MatchBytes(M4, dist, len, 0)|
    ensures out[..op] == old(out[..op0]) + MatchBytes(M4, dist, len, 0)
  {
    hide MatchBytes, Or, Ext;
    LayoutM4(dist, len);
    var mOff, mLen := dist - 0x4000, len;
    op := op0;
    if mLen <= 9 {
      OrM4(mOff / 0x4000 % 2, mLen - 2);
      out[op] := Or(Or(16, mOff / 0x4000 % 2 * 8), mLen - 2);
      op := PutLongTail(out, op + 1, mLen, false, mOff);
    } else {
      mLen := mLen - 9;
      OrM4(mOff / 0x4000 % 2, 0);
      out[op] := Or(16, mOff / 0x4000 % 2 * 8);
      op := PutLongTail(out, op + 1, mLen, true, mOff);
    }
  }

  /** The state between two rounds of the compressor: `ts` is what has been emitted. */
  ghost predicate Between(out: seq<byte>, ts: seq<Instr>, inp: seq<byte>, ii: nat) {
    Wrote(out, ts, inp, ii) && Open(ts, ii) && 16 * |out| <= 17 * ii
  }

  /** A match continues the output by bytes that already repeat. */
  lemma AppendMatch(ts: seq<Instr>, inp: seq<byte>, p: nat, dist: nat, len: nat)
    requires WellFormed(ts) && ModeAfter(ts) != Start && p + len <= |inp| && Play(ts, |inp|) == Playing(inp[..p])
    requires 1 <= dist <= p && ValidMatch(FormOf(dist, len), dist, len)
    requires forall j :: p <= j < p + len ==> inp[j] == inp[j - dist]
    ensures var m := Match(FormOf(dist, len), dist, len, []);
      && WellFormed(ts + [m]) && Body(ts + [m]) == Body(ts) + MatchBytes(m.form, dist, len, 0)
      && Play(ts + [m], |inp|) == Playing(inp[..p + len])
  {
    var m := Match(FormOf(dist, len), dist, len, []);
    AppendInstr(ts, m, |inp|);
    hide MatchBytes, Body, Play, WellFormed, CopyBack;
    CopyBackRepeats(inp, p, dist, len);
    assert MatchBytes(m.form, dist, len, 0) + [] == MatchBytes(m.form, dist, len, 0);
  }

  /** The pending literals in front of a match. */
  method EmitPending(inp: seq<byte>, out: array<byte>, op0: nat, ii: nat, ip: nat, ghost ts: seq<Instr>)
    returns (op: nat, ghost ts': seq<Instr>)
    requires ii <= ip <= |inp| && (ts == [] ==> ip >= 4) && op0 <= out.Length
    requires Between(out[..op0], ts, inp, ii) && 16 * out.Length >= 17 * |inp| + 16
    modifies out
    ensures op <= out.Length && Wrote(out[..op], ts', inp, ip) && ModeAfter(ts') != Start && 16 * op <= 17 * ip + 16
    ensures ip == ii ==> 16 * op <= 17 * ip
    ensures Copies(ts', |inp|) == Copies(ts, |inp|)
    ensures op == op0 + ip - ii + (if ip - ii <= 3 then 0 else |RunHeader(ip - ii)|)
  {
    hide Body, Play, WellFormed, Copies, RunHeader;
    op, ts' := op0, ts;
    if ip != ii {
      op, ts' := EmitLiterals(inp, out, op0, ii, ip - ii, ts);
    }
  }

  /** Label match: the pending literals, then the match itself. */
  method EmitMatch(inp: seq<byte>, out: array<byte>, op0: nat, ii: nat, ip: nat, dist: nat, len: nat, short: bool,
      ghost ts: seq<Instr>)
    returns (op: nat, ghost ts': seq<Instr>)
    requires ii <= ip && ip + len <= |inp| && (ts == [] ==> ip >= 4) && op0 <= out.Length
    requires Between(out[..op0], ts, inp, ii) && 16 * out.Length >= 17 * |inp| + 16
    requires 1 <= dist <= ip && dist <= M4_MAX_OFFSET && 3 <= len && (dist <= M2_MAX_OFFSET || len >= 4)
    requires if short then len <= 8 else len >= 9
    requires forall j :: ip <= j < ip + len ==> inp[j] == inp[j - dist]
    modifies out
    ensures op <= out.Length && ts' != [] && Between(out[..op], ts', inp, ip + len)
    ensures Copies(ts', |inp|) == Copies(ts, |inp|) + [Copy(ip, dist, len)]
    ensures ValidMatch(FormOf(dist, len), dist, len)
      && op == op0 + ip - ii + |MatchBytes(FormOf(dist, len), dist, len, 0)|
      + (if ip - ii <= 3 then 0 else |RunHeader(ip - ii)|)
  {
    hide MatchBytes, Body, Play, WellFormed, CopyBack, Copies, RunHeader;
    MatchSaves(dist, len);
    op, ts' := EmitPending(inp, out, op0, ii, ip, ts);
    AppendMatch(ts', inp, ip, dist, len);
    CopiesMore(ts', Match(FormOf(dist, len), dist, len, []), |inp|);
    ts' := ts' + [Match(FormOf(dist, len), dist, len, [])];
    if short {
      op := PutShortMatch(out, op, dist, len);
    } else {
      op := PutLongMatch(out, op, dist, len);
    }
  }

  predicate Uniform(inp: seq<byte>) { forall j :: 0 <= j < |inp| ==> inp[j] == inp[0] }

  /** In front of a byte repeated throughout, only the first slot is asked, and every position in
      reach has a match up to the end. */
  lemma UniformRound(inp: seq<byte>, ip: nat, dict: seq<Slot>)
    requires Uniform(inp) && 1 <= ip && ip + 4 <= |inp| && 8 <= |inp| && |dict| == D_SIZE
    ensures Deciding(inp, ip, dict) == FirstHash(inp, 4)
    ensures forall mPos: int :: Repeats(inp, ip, mPos) <==> InReach(ip, mPos)
  {
    hide FirstHash, SecondHash;
    assert FirstHash(inp, ip) == FirstHash(inp, 4) by { UniformHash(inp, ip); }
    forall mPos: int | InReach(ip, mPos) ensures Repeats(inp, ip, mPos) {
      assert inp[mPos + 3] == inp[0] && inp[ip + 3] == inp[0];
      assert inp[mPos..mPos + 3] == [inp[0], inp[0], inp[0]] == inp[ip..ip + 3];
    }
  }

  lemma UniformHash(inp: seq<byte>, ip: nat)
    requires Uniform(inp) && ip + 4 <= |inp| && 8 <= |inp|
    ensures FirstHash(inp, ip) == FirstHash(inp, 4)
  {
    hide Xor;
    assert inp[ip] == inp[4] && inp[ip + 1] == inp[5] && inp[ip + 2] == inp[6] && inp[ip + 3] == inp[7];
  }

  /** A match from the last few bytes costs at most four bytes, and one more per 255. */
  lemma NearMatch(dist: nat, len: nat)
    requires 1 <= dist <= M2_MAX_OFFSET && 3 <= len
    ensures ValidMatch(FormOf(dist, len), dist, len)
    ensures |MatchBytes(FormOf(dist, len), dist, len, 0)| <= 4 + len / 255
  {
    if len > 33 { ExtLength(len - 33); }
  }

  /** What a round adds to the output for a byte repeated throughout. */
  lemma UniformCost(n: nat, ip: nat, dist: nat, len: nat, op: nat)
    requires 4 <= ip <= 5 && 1 <= dist <= ip && 3 <= len && ip + len == n && ValidMatch(FormOf(dist, len), dist, len)
    requires op == ip + |MatchBytes(FormOf(dist, len), dist, len, 0)| + |RunHeader(ip)|
    ensures op <= n / 255 + 10
  {
    hide MatchBytes;
    NearMatch(dist, len);
  }

  /** The copies made so far and those still to be made. */
  ghost predicate OnTrack(inp: seq<byte>, ts: seq<Instr>, dict: seq<Slot>, ip: nat, all: seq<Copy>)
    requires 1 <= ip && ip + 9 <= |inp| < 0x1000_0000_0000_0000 && |dict| == D_SIZE
  {
    Copies(ts, |inp|) + Greedy(inp, dict, ip) == all
  }

  /** A match that has been found, to its end. */
  method TakeMatch(inp: seq<byte>, out: array<byte>, op0: nat, ii: nat, ip: nat, mPos: nat, ghost ts: seq<Instr>)
    returns (op: nat, end: nat, ghost ts': seq<Instr>)
    requires ii <= ip && ip + 9 <= |inp| && ip >= 4 && op0 <= out.Length && Repeats(inp, ip, mPos)
    requires Between(out[..op0], ts, inp, ii) && 16 * out.Length >= 17 * |inp| + 16
    modifies out
    ensures mPos < ip && end == ip + Common(inp, mPos, ip) <= |inp| && ip < end
    ensures op <= out.Length && Between(out[..op], ts', inp, end)
    ensures Copies(ts', |inp|) == Copies(ts, |inp|) + [Copy(ip, ip - mPos, end - ip)]
    ensures Uniform(inp) && op0 == 0 && ii == 0 && ip <= 5 ==> end == |inp| && op <= |inp| / 255 + 10
  {
    hide Body, Play, WellFormed, MatchBytes, Repeats, Uniform, Copies, RunHeader, Common, ValidMatch;
    CandidateReach(inp, ip, mPos);
    var len, short := MatchLength(inp, ip, mPos);
    CommonIs(inp, mPos, ip, len);
    assert ip - mPos > M2_MAX_OFFSET ==> len >= 4;
    op, ts' := EmitMatch(inp, out, op0, ii, ip, ip - mPos, len, short, ts);
    end := ip + len;
    if Uniform(inp) && op0 == 0 && ii == 0 && ip <= 5 {
      UniformEnds(inp, ip, mPos, len);
      UniformCost(|inp|, ip, ip - mPos, len, op);
    }
  }

  /** _lzo1x_1_do_compress.  Answers the output length and the number of input bytes not
      yet emitted; the dictionary may hold anything at the start. */
  method DoCompress(inp: seq<byte>, out: array<byte>, dict: array<Slot>)
    returns (op: nat, left: nat, ghost ts: seq<Instr>)
    requires 13 < |inp| < 0x1000_0000_0000_0000 && 16 * out.Length >= 17 * |inp| + 16
    requires dict.Length == D_SIZE && dict as object != out
    modifies out, dict
    ensures left <= |inp| && op <= out.Length && Between(out[..op], ts, inp, |inp| - left)
    ensures Copies(ts, |inp|) == Greedy(inp, old(dict[..]), 4)
    ensures Uniform(inp) ==>
      if left == |inp| then op == 0 && |inp| <= 18 else left == 0 && op <= |inp| / 255 + 10
  {
    hide Between, Deciding, Repeats, Uniform, Copies, Greedy, Common, FirstHash;
    var ipEnd := |inp| - M2_MAX_LEN - 5;
    var ip: nat, ii: nat := 4, 0;
    op, ts := 0, [];
    EmptyStart(out[..0], inp);
    while true
      invariant ii <= ip && ip + 9 <= |inp| && ip >= 4 && op <= out.Length
      invariant Between(out[..op], ts, inp, ii)
      invariant OnTrack(inp, ts, dict[..], ip, Greedy(inp, old(dict[..]), 4))
      invariant Uniform(inp) ==> op == 0 && ii == 0 && (ip == 4 || (ip == 5 && dict[FirstHash(inp, 4)] == 4))
      decreases |inp| - ip
    {
      var found, dindex, mPos := FindMatch(inp, ip, dict);
      GreedyStep(inp, dict[..], ip, dindex, mPos);
      if Uniform(inp) { UniformRound(inp, ip, dict[..]); }
      ghost var d: seq<Slot> := dict[..];
      dict[dindex] := ip;
      assert dict[..] == d[dindex := ip];
      if !found {
        ip := ip + 1;
        if ip >= ipEnd { break; }
      } else {
        op, ip, ts := TakeMatch(inp, out, op, ii, ip, mPos, ts);
        ii := ip;
        if ip >= ipEnd { break; }
      }
    }
    left := |inp| - ii;
  }

  lemma UniformEnds(inp: seq<byte>, ip: nat, mPos: nat, len: nat)
    requires Uniform(inp) && mPos < ip && ip + len <= |inp|
    requires ip + len == |inp| || inp[mPos + len] != inp[ip + len]
    ensures ip + len == |inp|
  {
  }

  lemma GreedyStep(inp: seq<byte>, dict: seq<Slot>, ip: nat, dindex: nat, mPos: int)
    requires 1 <= ip && ip + 9 <= |inp| < 0x1000_0000_0000_0000 && |dict| == D_SIZE
    requires dindex == Deciding(inp, ip, dict) && mPos == dict[dindex]
    ensures Repeats(inp, ip, mPos) ==> 0 <= mPos < ip && var len := Common(inp, mPos, ip);
      && len > 0
      && Greedy(inp, dict, ip) == [Copy(ip, ip - mPos, len)]
        + (if ip + len + 13 >= |inp| then [] else Greedy(inp, dict[dindex := ip], ip + len))
    ensures !Repeats(inp, ip, mPos) ==>
      Greedy(inp, dict, ip) == if ip + 14 >= |inp| then [] else Greedy(inp, dict[dindex := ip], ip + 1)
  {
    hide Deciding, Repeats, Common;
    if Repeats(inp, ip, mPos) { SomeCommon(inp, ip, mPos); }
  }

  lemma SomeCommon(inp: seq<byte>, ip: nat, mPos: int)
    requires ip + 4 <= |inp| && Repeats(inp, ip, mPos)
    ensures 0 <= mPos < ip && Common(inp, mPos, ip) > 0
  {
    assert inp[mPos] == inp[mPos..mPos + 3][0] == inp[ip..ip + 3][0] == inp[ip];
  }

  lemma CandidateReach(inp: seq<byte>, ip: nat, mPos: int)
    requires ip + 4 <= |inp| && Repeats(inp, ip, mPos)
    ensures inp[mPos..mPos + 3] == inp[ip..ip + 3]
    ensures 0 <= mPos < ip && ip - mPos <= M4_MAX_OFFSET
    ensures ip - mPos > M2_MAX_OFFSET ==> inp[mPos + 3] == inp[ip + 3]
  {
  }

  lemma EmptyStart(out: seq<byte>, inp: seq<byte>)
    requires out == []
    ensures Between(out, [], inp, 0) && Copies([], |inp|) == []
  {
    assert inp[..0] == [];
  }

  lemma FirstRunAlone(lits: seq<byte>, cap: nat)
    requires 1 <= |lits| <= 238 && |lits| <= cap
    ensures WellFormed([FirstRun(lits)]) && Body([FirstRun(lits)]) == [17 + |lits|] + lits
    ensures Play([FirstRun(lits)], cap) == Playing(lits)
  {
    AppendInstr([], FirstRun(lits), cap);
    assert [] + [FirstRun(lits)] == [FirstRun(lits)];
    assert [] + lits == lits;
  }

  lemma NonEmptyBody(ts: seq<Instr>)
    requires WellFormed(ts) && ts != []
    ensures |Body(ts)| >= 2
  {
  }

  /** The literals left over at the end; a short input may be one initial run. */
  method EmitRest(inp: seq<byte>, out: array<byte>, op0: nat, t: nat, ghost ts0: seq<Instr>)
    returns (op: nat, ghost ts: seq<Instr>)
    requires 1 <= t <= |inp| && op0 <= out.Length && Between(out[..op0], ts0, inp, |inp| - t)
    requires 16 * out.Length >= 17 * |inp| + 16
    modifies out
    ensures op <= out.Length && 16 * op <= 17 * |inp| + 16 && Wrote(out[..op], ts, inp, |inp|)
    ensures Copies(ts, |inp|) == Copies(ts0, |inp|) && (op0 == 0 && t <= 238 ==> op == t + 1)
  {
    hide Body, Play, WellFormed, Copies;
    var ii := |inp| - t;
    if ts0 != [] { NonEmptyBody(ts0); }
    if op0 == 0 && t <= 238 {
      assert ts0 == [] && t == |inp| && inp[..|inp|] == inp;
      out[op0] := 17 + t;
      ghost var head := out[..1];
      PutLiterals(inp, ii, out, op0 + 1, t);
      FirstRunAlone(inp, |inp|);
      CopiesMore([], FirstRun(inp), |inp|);
      assert [] + [FirstRun(inp)] == [FirstRun(inp)];
      op, ts := op0 + 1 + t, [FirstRun(inp)];
      assert head == [17 + t] && inp[ii..ii + t] == inp;
    } else {
      op, ts := EmitLiterals(inp, out, op0, ii, t, ts0);
    }
  }

  /** The main part, which leaves a short input to the end. */
  method CompressStart(inp: seq<byte>, out: array<byte>, dict: array<Slot>)
    returns (op: nat, t: nat, ghost ts: seq<Instr>)
    requires |inp| < 0x1000_0000_0000_0000 && 16 * out.Length >= 17 * |inp| + 16
    requires dict.Length == D_SIZE && dict as object != out
    modifies out, dict
    ensures t <= |inp| && op <= out.Length && Between(out[..op], ts, inp, |inp| - t)
    ensures Copies(ts, |inp|) == if |inp| <= 13 then [] else Greedy(inp, old(dict[..]), 4)
    ensures Uniform(inp) ==> if t == |inp| then op == 0 && |inp| <= 18 else t == 0 && op <= |inp| / 255 + 10
  {
    hide Between, Copies, Greedy, Uniform;
    op, t, ts := 0, |inp|, [];
    EmptyStart(out[..0], inp);
    if |inp| > M2_MAX_LEN + 5 {
      op, t, ts := DoCompress(inp, out, dict);
    }
  }

  method PutMarker(out: array<byte>, op: nat)
    requires op + 3 <= out.Length
    modifies out
    ensures out[..op + 3] == old(out[..op]) + END_MARKER
  {
    OrM4(0, 1);
    out[op], out[op + 1], out[op + 2] := Or(16, 1), 0, 0;
  }

  /** lzo1x_1_compress: the output is a stream of the format that plays back the input, with the
      copies that the dictionary yields and all else as literals.  It fits the advertised bound
      x + x/16 + 64 + 3; one byte repeated throughout becomes a 255th. */
  method Compress(inp: seq<byte>, out: array<byte>, dict: array<Slot>) returns (outLen: nat, ghost ts: seq<Instr>)
    requires |inp| < 0x1000_0000_0000_0000 && out.Length >= |inp| + |inp| / 16 + 64 + 3
    requires dict.Length == D_SIZE && dict as object != out
    modifies out, dict
    ensures outLen <= |inp| + |inp| / 16 + 64 + 3
    ensures WellFormed(ts) && out[..outLen] == Stream(ts) && Play(ts, |inp|) == Playing(inp)
    ensures Copies(ts, |inp|) == if |inp| <= 13 then [] else Greedy(inp, old(dict[..]), 4)
    ensures Uniform(inp) ==> outLen <= if |inp| <= 18 then |inp| + 4 else |inp| / 255 + 13
  {
    hide Body, Play, WellFormed, Open, Copies, Greedy, Uniform;
    var op, t;
    op, t, ts := CompressStart(inp, out, dict);
    if t > 0 {
      op, ts := EmitRest(inp, out, op, t, ts);
    }
    assert inp[..|inp|] == inp;
    PutMarker(out, op);
    outLen := op + 3;
  }
}
