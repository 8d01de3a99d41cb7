/** The safe decompressor: a goto machine over (label, ip, op, t). */
module LzoDecompress {
  import opened LzoFormat

  const LZO_E_OK := 0
  const LZO_E_INPUT_OVERRUN := -4
  const LZO_E_OUTPUT_OVERRUN := -5
  const LZO_E_LOOKBEHIND_OVERRUN := -6
  const LZO_E_EOF_NOT_FOUND := -7
  const LZO_E_INPUT_NOT_CONSUMED := -8

  const RESULTS: set<int> := {LZO_E_OK, LZO_E_INPUT_OVERRUN, LZO_E_OUTPUT_OVERRUN, LZO_E_LOOKBEHIND_OVERRUN,
    LZO_E_EOF_NOT_FOUND, LZO_E_INPUT_NOT_CONSUMED}

  /** What follows the instructions: the end, in one of its spellings, and more bytes. */
  datatype Ending = Ending(len: nat, n: nat, rest: seq<byte>)

  /** The machine takes the marker of an M4 match at distance 0x4000 for the end of a stream, with
      any length and count.  The compressor writes the first of these. */
  function EndBytes(len: nat, n: nat): seq<byte>
    requires len >= 3 && n <= 3
  {
    LongOpcode(16, len, 9) + OffsetBytes(0, n)
  }

  /** Where there are no instructions, the first byte must not look like a first run. */
  predicate EndFits(ts: seq<Instr>, e: Ending) { e.len >= 3 && e.n <= 3 && (ts == [] ==> e.len == 3 || e.len > 9) }

  /** The result the format prescribes for a stream with this ending. */
  function Expected(ts: seq<Instr>, e: Ending, cap: nat): (int, seq<byte>)
  {
    match Play(ts, cap)
    case Playing(o) => (if e.rest == [] then LZO_E_OK else LZO_E_INPUT_NOT_CONSUMED, o)
    case OutputOverrun(o) => (LZO_E_OUTPUT_OVERRUN, o)
    case LookbehindOverrun(o) => (LZO_E_LOOKBEHIND_OVERRUN, o)
  }

  // The C macros are true when there is NOT enough room.  Behind the end of the input the
  // difference wraps to nearly 2^64, and there seems to be room.
  predicate HaveIp(x: nat, ipEnd: nat, ip: nat) { ip <= ipEnd && ipEnd - ip < x }
  predicate HaveOp(x: nat, opEnd: nat, op: nat) requires op <= opEnd { opEnd - op < x }
  predicate HaveLb(mPos: int, op: nat) { mPos < 0 || mPos >= op }

  predicate StartsWith(inp: seq<byte>, ip: nat, bytes: seq<byte>) {
    ip + |bytes| <= |inp| && inp[ip..ip + |bytes|] == bytes
  }

  lemma StartsWithSplit(inp: seq<byte>, ip: nat, a: seq<byte>, b: seq<byte>)
    requires StartsWith(inp, ip, a + b)
    ensures StartsWith(inp, ip, a) && StartsWith(inp, ip + |a|, b)
  {
    var c := inp[ip..ip + |a + b|];
    assert c[..|a|] == a && c[|a|..] == b;
  }

  /** The memory that may be read: the input and, unless it is in order, some bytes more. */
  ghost predicate Room(src: seq<byte>, inLen: nat, fine: bool) { fine || inLen + BEHIND <= |src| }

  /** How far behind the end of a malformed input a byte may be read. */
  const BEHIND := 6

  /** A count below the marker's field, spelt as zero bytes and a final non-zero byte. */
  method ReadExt(src: seq<byte>, inLen: nat, ip0: nat, base: nat, ghost k0: nat)
    returns (t: nat, ip: nat, overrun: bool)
    requires ip0 <= inLen <= |src|
    ensures ip0 <= ip <= inLen && (!overrun ==> t > base && src[ip0..ip] == Ext(t - base))
    ensures k0 >= 1 && StartsWith(src[..inLen], ip0, Ext(k0)) ==>
      !overrun && t == base + k0 && ip == ip0 + |Ext(k0)|
  {
    hide Ext, StartsWith;
    ghost var inp := src[..inLen];
    ghost var fine := k0 >= 1 && StartsWith(inp, ip0, Ext(k0));
    if fine { ExtParts(inp, ip0, k0); }
    ghost var k: int := k0;
    t, ip := 0, ip0;
    overrun := HaveIp(1, inLen, ip);
    while !overrun && src[ip] == 0
      invariant ip0 <= ip <= inLen && (overrun <==> ip == inLen)
      invariant t == 255 * (ip - ip0) && forall j :: ip0 <= j < ip ==> src[j] == 0
      invariant fine ==>
        !overrun && k >= 1 && t + k == k0 && StartsWith(inp, ip, Ext(k)) && ip + |Ext(k)| == ip0 + |Ext(k0)|
      decreases inLen - ip
    {
      if fine {
        ExtParts(inp, ip, k);
        k := k - 255;
        ExtParts(inp, ip + 1, k);
      }
      t, ip := t + 255, ip + 1;
      overrun := HaveIp(1, inLen, ip);
    }
    if !overrun {
      if fine { ExtParts(inp, ip, k); }
      ExtRead(src, ip0, ip);
      t, ip := t + base + src[ip], ip + 1;
    }
  }

  lemma ExtParts(inp: seq<byte>, ip: nat, k: nat)
    requires k >= 1 && StartsWith(inp, ip, Ext(k))
    ensures ip < |inp|
    ensures if k > 255 then inp[ip] == 0 && StartsWith(inp, ip + 1, Ext(k - 255)) && |Ext(k)| == 1 + |Ext(k - 255)|
      else inp[ip] == k && |Ext(k)| == 1
  {
    assert inp[ip] == inp[ip..ip + |Ext(k)|][0] == Ext(k)[0];
    if k > 255 { StartsWithSplit(inp, ip, [0], Ext(k - 255)); }
  }

  lemma {:induction false} ExtRead(src: seq<byte>, ip0: nat, ip: nat)
    requires ip0 <= ip < |src| && src[ip] > 0 && forall j :: ip0 <= j < ip ==> src[j] == 0
    ensures src[ip0..ip + 1] == Ext(255 * (ip - ip0) + src[ip])
    decreases ip - ip0
  {
    if ip0 < ip {
      ExtRead(src, ip0 + 1, ip);
      assert src[ip0..ip + 1] == [0] + src[ip0 + 1..ip + 1];
    }
  }

  /** le16_to_cpu(get_unaligned(ip)). */
  function Le16(inp: seq<byte>, ip: nat): nat
    requires ip + 2 <= |inp|
  {
    var lo: nat, hi: nat := inp[ip], inp[ip + 1];
    lo + 256 * hi
  }

  /** The low-count byte and the high byte of an offset below 0x4000, as M3 and M4 store it. */
  function OffsetBytes(o: nat, n: nat): (bytes: seq<byte>)
    requires o < 0x8000 && n <= 3
    ensures |bytes| == 2
  {
    [o % 64 * 4 + n, o / 64 % 256]
  }

  lemma OffsetBytesInvert(inp: seq<byte>, ip: nat, o: nat, n: nat)
    requires o < 0x8000 && n <= 3 && StartsWith(inp, ip, OffsetBytes(o, n))
    ensures Le16(inp, ip) / 4 == o % 0x4000 && inp[ip] % 4 == n
  {
    assert inp[ip] == inp[ip..ip + 2][0] && inp[ip + 1] == inp[ip..ip + 2][1];
    OffsetArithmetic(o, n);
  }

  /** The two bytes of an offset, read as one, written again. */
  lemma OffsetRead(src: seq<byte>, ip: nat)
    requires ip + 2 <= |src|
    ensures Le16(src, ip) / 4 < 0x4000 && src[ip..ip + 2] == OffsetBytes(Le16(src, ip) / 4, src[ip] % 4)
  {
    var lo: nat, hi: nat := src[ip], src[ip + 1];
    var a, n := lo / 4, lo % 4;
    assert lo == 4 * a + n && (lo + 256 * hi) / 4 == a + 64 * hi;
    assert (a + 64 * hi) % 64 == a && (a + 64 * hi) / 64 == hi;
  }

  lemma OffsetArithmetic(o: nat, n: nat)
    requires o < 0x8000 && n <= 3
    ensures (o % 64 * 4 + n + 256 * (o / 64 % 256)) / 4 == o % 0x4000
  {
    var hi, lo := o / 64 % 256, o % 64;
    assert o == 0x4000 * (o / 0x4000) + 64 * hi + lo;
  }

  /** The bytes of an M3 or M4 match from its opcode on. */
  ghost predicate AtLong(inp: seq<byte>, ip0: nat, t0: nat, base: nat, marker: nat, len: nat, o: nat, n: nat) {
    && ip0 >= 1 && len >= 3 && base <= 31 && marker < 225 && o < 0x8000 && n <= 3
    && StartsWith(inp, ip0 - 1, LongOpcode(marker, len, base + 2) + OffsetBytes(o, n)) && inp[ip0 - 1] == marker + t0
  }

  lemma LongParts(inp: seq<byte>, ip0: nat, t0: nat, base: nat, marker: nat, len: nat, o: nat, n: nat)
    requires AtLong(inp, ip0, t0, base, marker, len, o, n)
    ensures var op := LongOpcode(marker, len, base + 2); var ip := ip0 - 1 + |op|;
      && ip + 2 <= |inp| && Le16(inp, ip) / 4 == o % 0x4000 && inp[ip] % 4 == n
      && (t0 > 0 ==> t0 == len - 2 && |op| == 1)
      && (t0 == 0 ==>
        len > base + 2 && StartsWith(inp, ip0, Ext(len - (base + 2))) && |op| == 1 + |Ext(len - (base + 2))|)
  {
    hide OffsetBytes, Le16, LongOpcode, StartsWith;
    var op := LongOpcode(marker, len, base + 2);
    StartsWithSplit(inp, ip0 - 1, op, OffsetBytes(o, n));
    OffsetBytesInvert(inp, ip0 - 1 + |op|, o, n);
    OpcodeParts(inp, ip0, t0, base, marker, len);
  }

  lemma OpcodeParts(inp: seq<byte>, ip0: nat, t0: nat, base: nat, marker: nat, len: nat)
    requires ip0 >= 1 && len >= 3 && base <= 31 && marker < 225
    requires var op := LongOpcode(marker, len, base + 2); StartsWith(inp, ip0 - 1, op) && inp[ip0 - 1] == marker + t0
    ensures var op := LongOpcode(marker, len, base + 2);
      && (t0 > 0 ==> t0 == len - 2 && |op| == 1)
      && (t0 == 0 ==>
        len > base + 2 && StartsWith(inp, ip0, Ext(len - (base + 2))) && |op| == 1 + |Ext(len - (base + 2))|)
  {
    hide Ext;
    var op := LongOpcode(marker, len, base + 2);
    assert inp[ip0 - 1] == inp[ip0 - 1..ip0 - 1 + |op|][0] == op[0];
    if t0 == 0 { StartsWithSplit(inp, ip0 - 1, [marker], Ext(len - (base + 2))); }
  }

  lemma OpcodeRead(src: seq<byte>, ip0: nat, ip: nat, t0: nat, t: nat, base: nat, m: nat)
    requires 1 <= ip0 <= ip <= |src| && t0 <= base <= 31 && m < 225 && src[ip0 - 1] == m + t0
    requires if t0 > 0 then t == t0 && ip == ip0 else t > base && src[ip0..ip] == Ext(t - base)
    ensures src[ip0 - 1..ip] == LongOpcode(m, t + 2, base + 2)
  {
    assert src[ip0 - 1..ip] == [src[ip0 - 1]] + src[ip0..ip];
  }

  /** Rest of an M3 or M4 match: `t0` is the opcode with its marker masked off. */
  method ReadLong(src: seq<byte>, inLen: nat, ip0: nat, t0: nat, base: nat, ghost m: nat,
                  ghost marker: nat, ghost len: nat, ghost o: nat, ghost n: nat)
    returns (t: nat, ip: nat, overrun: bool)
    requires ip0 <= inLen <= |src|
    ensures ip0 <= ip <= inLen && (!overrun ==> t >= 1)
    ensures !overrun && 1 <= ip0 && t0 <= base <= 31 && m < 225 && src[ip0 - 1] == m + t0 ==>
      src[ip0 - 1..ip] == LongOpcode(m, t + 2, base + 2)
    ensures AtLong(src[..inLen], ip0, t0, base, marker, len, o, n) ==>
      && !overrun && t == len - 2 && ip == ip0 - 1 + |LongOpcode(marker, len, base + 2)|
      && ip + 2 <= inLen && Le16(src, ip) / 4 == o % 0x4000 && src[ip] % 4 == n
  {
    hide LongOpcode, OffsetBytes, StartsWith;
    ghost var fine := AtLong(src[..inLen], ip0, t0, base, marker, len, o, n);
    if fine { LongParts(src[..inLen], ip0, t0, base, marker, len, o, n); }
    t, ip, overrun := t0, ip0, false;
    if t == 0 {
      t, ip, overrun := ReadExt(src, inLen, ip, base, if fine then len - (base + 2) else 0);
    }
    if !overrun && 1 <= ip0 && t0 <= base <= 31 && m < 225 && src[ip0 - 1] == m + t0 {
      OpcodeRead(src, ip0, ip, t0, t, base, m);
    }
  }

  /** The end of the stream in its opcode-level reading. */
  ghost predicate AtEnd(inp: seq<byte>, ip0: nat, len: nat, n: nat) {
    ip0 >= 1 && len >= 3 && n <= 3 && StartsWith(inp, ip0 - 1, EndBytes(len, n))
  }

  ghost predicate AtMatch(inp: seq<byte>, ip0: nat, form: Form, dist: nat, len: nat, n: nat) {
    ip0 >= 1 && n <= 3 && ValidMatch(form, dist, len) && StartsWith(inp, ip0 - 1, MatchBytes(form, dist, len, n))
  }

  /** The bytes from start to ip are those of this match, with the count that they say. */
  ghost predicate Spells(src: seq<byte>, start: nat, ip: nat, form: Form, dist: int, len: nat) {
    && start + 2 <= ip <= |src| && dist >= 1 && ValidMatch(form, dist, len)
    && src[start..ip] == MatchBytes(form, dist, len, src[ip - 2] % 4)
  }

  /** Branch t >= 64. */
  method LocateM2(src: seq<byte>, inLen: nat, ip0: nat, t0: nat, op: nat, ghost dist: nat, ghost len: nat, ghost n: nat)
    returns (ip: nat, mPos: int, t: nat)
    requires 1 <= ip0 <= inLen <= |src| && Room(src, inLen, AtMatch(src[..inLen], ip0, M2, dist, len, n))
    requires t0 == src[ip0 - 1] && t0 >= 64
    ensures ip == ip0 + 1 && t >= 1 && Spells(src, ip0 - 1, ip, M2, op - mPos, t + 2)
    ensures AtMatch(src[..inLen], ip0, M2, dist, len, n) ==>
      && mPos == op - dist && t == len - 2
      && ip == ip0 - 1 + |MatchBytes(M2, dist, len, n)| <= inLen && src[ip - 2] % 4 == n
  {
    ghost var inp := src[..inLen];
    ghost var fine := AtMatch(inp, ip0, M2, dist, len, n);
    if fine {
      ghost var b := MatchBytes(M2, dist, len, n);
      assert inp[ip0 - 1] == inp[ip0 - 1..ip0 - 1 + |b|][0] == b[0]
        && inp[ip0] == inp[ip0 - 1..ip0 - 1 + |b|][1] == b[1];
    }
    mPos := op - 1;
    mPos := mPos - t0 / 4 % 8;
    var b1: nat := src[ip0];
    if fine { M2Arithmetic(len - 1, dist - 1, n, t0, b1); }
    mPos := mPos - b1 * 8;
    ip := ip0 + 1;
    t := t0 / 32 - 1;
    M2Read(t0, b1);
  }

  lemma M2Read(t0: byte, b1: byte)
    requires t0 >= 64
    ensures var d, l, n := t0 / 4 % 8 + b1 * 8, t0 / 32, t0 % 4;
      && d < 0x800 && 2 <= l <= 7 && t0 == l * 32 + d % 8 * 4 + n && b1 == d / 8
  {
    var e := t0 / 4 % 8;
    assert t0 == t0 / 32 * 32 + e * 4 + t0 % 4;
    assert (e + b1 * 8) % 8 == e && (e + b1 * 8) / 8 == b1;
  }

  /** The opcode holds the length, three bits of the distance and the count. */
  lemma M2Arithmetic(l: nat, d: nat, n: nat, t: nat, b1: nat)
    requires n <= 3 && t == l * 32 + d % 8 * 4 + n && b1 == d / 8
    ensures t / 4 % 8 + b1 * 8 == d && t / 32 == l && t % 4 == n
  {
    var e := d % 8;
    assert t / 4 == l * 8 + e;
  }

  /** The opcode byte of a long match is its marker plus a value below the field's width. */
  lemma OpcodeByte(inp: seq<byte>, ip: nat, marker: nat, len: nat, short: nat, low: seq<byte>)
    requires 2 <= short && marker + short - 2 < 256 && 3 <= len
    requires StartsWith(inp, ip, LongOpcode(marker, len, short) + low)
    ensures marker <= inp[ip] <= marker + short - 2
  {
    var b := LongOpcode(marker, len, short) + low;
    assert inp[ip] == inp[ip..ip + |b|][0] == b[0];
  }

  /** Branch 32 <= t < 64. */
  method LocateM3(src: seq<byte>, inLen: nat, ip0: nat, t0: nat, op: nat, ghost dist: nat, ghost len: nat, ghost n: nat)
    returns (ip: nat, mPos: int, t: nat, overrun: bool)
    requires 1 <= ip0 <= inLen <= |src| && Room(src, inLen, AtMatch(src[..inLen], ip0, M3, dist, len, n))
    requires t0 == src[ip0 - 1] && 32 <= t0 < 64
    ensures ip0 <= ip <= inLen + 2
    ensures !overrun ==> ip >= ip0 + 2 && t >= 1 && Spells(src, ip0 - 1, ip, M3, op - mPos, t + 2)
    ensures AtMatch(src[..inLen], ip0, M3, dist, len, n) ==>
      && !overrun && mPos == op - dist && t == len - 2
      && ip == ip0 - 1 + |MatchBytes(M3, dist, len, n)| <= inLen && src[ip - 2] % 4 == n
  {
    hide MatchBytes, LongOpcode, OffsetBytes, StartsWith, ValidMatch, Le16;
    ghost var fine := AtMatch(src[..inLen], ip0, M3, dist, len, n);
    if fine { M3IsLong(src[..inLen], ip0, t0, dist, len, n); }
    t, ip, overrun := ReadLong(src, inLen, ip0, t0 % 32, 31, 32, 32, len, if fine then dist - 1 else 0, n);
    mPos := op - 1;
    if !overrun {
      mPos := mPos - Le16(src, ip) / 4;
      M3Read(src, ip0 - 1, ip, t + 2);
      ip := ip + 2;
    }
  }

  lemma M3Read(src: seq<byte>, start: nat, ip: nat, len: nat)
    requires start < ip && ip + 2 <= |src| && len >= 3 && src[start..ip] == LongOpcode(32, len, 33)
    ensures Spells(src, start, ip + 2, M3, Le16(src, ip) / 4 + 1, len)
  {
    hide LongOpcode, Le16;
    OffsetRead(src, ip);
    assert src[start..ip + 2] == src[start..ip] + src[ip..ip + 2];
  }

  lemma M3IsLong(inp: seq<byte>, ip0: nat, t0: nat, dist: nat, len: nat, n: nat)
    requires AtMatch(inp, ip0, M3, dist, len, n) && t0 == inp[ip0 - 1]
    ensures AtLong(inp, ip0, t0 % 32, 31, 32, len, dist - 1, n)
    ensures |MatchBytes(M3, dist, len, n)| == |LongOpcode(32, len, 33)| + 2 && (dist - 1) % 0x4000 == dist - 1
  {
    assert MatchBytes(M3, dist, len, n) == LongOpcode(32, len, 33) + OffsetBytes(dist - 1, n);
    OpcodeByte(inp, ip0 - 1, 32, len, 33, OffsetBytes(dist - 1, n));
  }

  lemma M4Bytes(dist: nat, len: nat, n: nat)
    requires ValidMatch(M4, dist, len) && n <= 3
    ensures var d := dist - 0x4000;
      MatchBytes(M4, dist, len, n) == LongOpcode(16 + d / 0x4000 * 8, len, 9) + OffsetBytes(d, n)
  {
  }

  /** The opcode holds bit 14 of the distance above three bits of the length. */
  lemma M4Arithmetic(d: nat, t: nat)
    requires d < 0x8000 && 16 + d / 0x4000 * 8 <= t <= 16 + d / 0x4000 * 8 + 7
    ensures t == 16 + d / 0x4000 * 8 + t % 8 && t / 8 % 2 * 0x4000 + d % 0x4000 == d
  {
  }

  /** A match, or else the end, in branch 16 <= t < 32. */
  ghost predicate AtM4(inp: seq<byte>, ip0: nat, end: bool, dist: nat, len: nat, n: nat) {
    if end then AtEnd(inp, ip0, len, n) else AtMatch(inp, ip0, M4, dist, len, n)
  }

  lemma M4IsLong(inp: seq<byte>, ip0: nat, t0: nat, end: bool, dist: nat, len: nat, n: nat)
    requires AtM4(inp, ip0, end, dist, len, n) && t0 == inp[ip0 - 1]
    ensures !end ==> dist >= 0x4000
    ensures var d := if end then 0 else dist - 0x4000; var marker := 16 + d / 0x4000 * 8;
      && AtLong(inp, ip0, t0 % 8, 7, marker, len, d, n) && t0 / 8 % 2 * 0x4000 + d % 0x4000 == d
      && |(if end then EndBytes(len, n) else MatchBytes(M4, dist, len, n))| == |LongOpcode(marker, len, 9)| + 2
  {
    hide OffsetBytes, LongOpcode, MatchBytes, EndBytes, StartsWith;
    if end {
      EndIsLong(len, n);
      LongIs(inp, ip0, t0, 0, len, n);
    } else {
      M4Bytes(dist, len, n);
      LongIs(inp, ip0, t0, dist - 0x4000, len, n);
    }
  }

  lemma EndIsLong(len: nat, n: nat)
    requires len >= 3 && n <= 3
    ensures EndBytes(len, n) == LongOpcode(16, len, 9) + OffsetBytes(0, n)
  {
  }

  lemma LongIs(inp: seq<byte>, ip0: nat, t0: nat, d: nat, len: nat, n: nat)
    requires ip0 >= 1 && d < 0x8000 && len >= 3 && n <= 3
    requires StartsWith(inp, ip0 - 1, LongOpcode(16 + d / 0x4000 * 8, len, 9) + OffsetBytes(d, n)) && t0 == inp[ip0 - 1]
    ensures AtLong(inp, ip0, t0 % 8, 7, 16 + d / 0x4000 * 8, len, d, n) && t0 / 8 % 2 * 0x4000 + d % 0x4000 == d
  {
    hide OffsetBytes, LongOpcode, StartsWith;
    OpcodeByte(inp, ip0 - 1, 16 + d / 0x4000 * 8, len, 9, OffsetBytes(d, n));
    M4Arithmetic(d, t0);
  }

  /** What the bytes of such a match, or end, say. */
  lemma M4Read(src: seq<byte>, start: nat, ip: nat, t0: nat, len: nat)
    requires start < ip && ip + 2 <= |src| && t0 == src[start] && 16 <= t0 < 32 && len >= 3
    requires src[start..ip] == LongOpcode(16 + t0 / 8 % 2 * 8, len, 9)
    ensures var bit, o := t0 / 8 % 2, Le16(src, ip) / 4;
      && (bit * 0x4000 + o == 0 ==> src[start..ip + 2] == EndBytes(len, src[ip] % 4))
      && (bit * 0x4000 + o > 0 ==> Spells(src, start, ip + 2, M4, bit * 0x4000 + o + 0x4000, len))
  {
    hide LongOpcode, Le16;
    OffsetRead(src, ip);
    assert src[start..ip + 2] == src[start..ip] + src[ip..ip + 2];
    var bit, o := t0 / 8 % 2, Le16(src, ip) / 4;
    var d := bit * 0x4000 + o;
    assert d / 0x4000 == bit && OffsetBytes(d, src[ip] % 4) == OffsetBytes(o, src[ip] % 4) by { HighBit(bit, o); }
    if d > 0 { M4Bytes(d + 0x4000, len, src[ip] % 4); }
  }

  lemma HighBit(bit: nat, o: nat)
    requires bit <= 1 && o < 0x4000
    ensures (bit * 0x4000 + o) / 0x4000 == bit && (bit * 0x4000 + o) % 64 == o % 64
      && (bit * 0x4000 + o) / 64 % 256 == o / 64 % 256
  {
    if bit == 1 { assert (0x4000 + o) / 64 == 256 + o / 64; }
  }

  /** Branch 16 <= t < 32.  Answers mPos == op at the end of the stream, before the
      distance is moved past 0x4000. */
  method LocateM4(src: seq<byte>, inLen: nat, ip0: nat, t0: nat, op: nat,
                  ghost end: bool, ghost dist: nat, ghost len: nat, ghost n: nat)
    returns (ip: nat, mPos: int, t: nat, overrun: bool)
    requires 1 <= ip0 <= inLen <= |src| && Room(src, inLen, AtM4(src[..inLen], ip0, end, dist, len, n))
    requires t0 == src[ip0 - 1] && 16 <= t0 < 32
    ensures ip0 <= ip <= inLen + 2 && (!overrun ==> ip0 + 2 <= ip <= |src| && t >= 1)
    ensures !overrun && mPos == op ==> src[ip0 - 1..ip] == EndBytes(t + 2, src[ip - 2] % 4)
    ensures !overrun && mPos != op ==> Spells(src, ip0 - 1, ip, M4, op - mPos + 0x4000, t + 2)
    ensures AtM4(src[..inLen], ip0, end, dist, len, n) ==> !overrun && ip <= inLen
    ensures AtM4(src[..inLen], ip0, end, dist, len, n) && end ==> mPos == op && ip == ip0 - 1 + |EndBytes(len, n)|
    ensures AtM4(src[..inLen], ip0, end, dist, len, n) && !end ==>
      && mPos == op - dist + 0x4000 && mPos < op && t == len - 2
      && ip == ip0 - 1 + |MatchBytes(M4, dist, len, n)| && src[ip - 2] % 4 == n
  {
    hide OffsetBytes, LongOpcode, MatchBytes, StartsWith;
    ghost var inp := src[..inLen];
    ghost var fine := AtM4(inp, ip0, end, dist, len, n);
    if fine { M4IsLong(inp, ip0, t0, end, dist, len, n); }
    ghost var d := if end || !fine then 0 else dist - 0x4000;
    mPos := op;
    mPos := mPos - t0 / 8 % 2 * 0x4000;
    t, ip, overrun := ReadLong(src, inLen, ip0, t0 % 8, 7, 16 + t0 / 8 % 2 * 8, 16 + d / 0x4000 * 8, len, d, n);
    if !overrun {
      mPos := mPos - Le16(src, ip) / 4;
      M4Read(src, ip0 - 1, ip, t0, t + 2);
      ip := ip + 2;
    }
  }
}
