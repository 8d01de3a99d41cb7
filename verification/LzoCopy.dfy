/** The copy loops of the decompressor, with their four-byte fast paths. */
module LzoCopy {
  import opened LzoFormat

  /** COPY4 from a read-only buffer: one 32-bit load, then one 32-bit store. */
  method Copy4(out: array<byte>, op: nat, src: seq<byte>, ip: nat)
    requires op + 4 <= out.Length && ip + 4 <= |src|
    modifies out
    ensures out[..op + 4] == old(out[..op]) + src[ip..ip + 4]
    ensures forall j :: op + 4 <= j < out.Length ==> out[j] == old(out[j])
  {
    var b0, b1, b2, b3 := src[ip], src[ip + 1], src[ip + 2], src[ip + 3];
    out[op], out[op + 1], out[op + 2], out[op + 3] := b0, b1, b2, b3;
  }

  /** COPY4 within the output buffer: the four bytes are loaded before any is stored. */
  method Copy4Within(out: array<byte>, op: nat, mPos: nat)
    requires mPos + 4 <= op && op + 4 <= out.Length
    modifies out
    ensures out[..op + 4] == old(out[..op]) + old(out[..op])[mPos..mPos + 4]
    ensures forall j :: op + 4 <= j < out.Length ==> out[j] == old(out[j])
  {
    var b0, b1, b2, b3 := out[mPos], out[mPos + 1], out[mPos + 2], out[mPos + 3];
    ghost var cur := out[..op];
    assert cur[mPos] == b0 && cur[mPos + 1] == b1 && cur[mPos + 2] == b2 && cur[mPos + 3] == b3;
    assert cur[mPos..mPos + 4] == [b0, b1, b2, b3];
    out[op], out[op + 1], out[op + 2], out[op + 3] := b0, b1, b2, b3;
    assert out[..op] == cur;
  }

  lemma {:induction false} CopyBackSplit(s: seq<byte>, dist: nat, a: nat, b: nat)
    requires 1 <= dist <= |s|
    ensures CopyBack(CopyBack(s, dist, a), dist, b) == CopyBack(s, dist, a + b)
  {
    if b > 0 { CopyBackSplit(s, dist, a, b - 1); }
  }

  /** With a distance of at least `n`, the bytes to copy are all present already. */
  lemma {:induction false} CopyBackBlock(s: seq<byte>, dist: nat, n: nat)
    requires 1 <= dist <= |s| && n <= dist
    ensures CopyBack(s, dist, n) == s + s[|s| - dist..|s| - dist + n]
  {
    if n > 0 {
      CopyBackBlock(s, dist, n - 1);
      var i := |s| - dist;
      assert s[i..i + n] == s[i..i + n - 1] + [s[i + n - 1]];
    }
  }

  /** Four bytes of a match may be copied as one word when the distance is at least four. */
  lemma CopyBackWord(s: seq<byte>, cur: seq<byte>, dist: nat, done: nat)
    requires 4 <= dist <= |s| && cur == CopyBack(s, dist, done)
    ensures cur + cur[|cur| - dist..|cur| - dist + 4] == CopyBack(s, dist, done + 4)
  {
    CopyBackSplit(s, dist, done, 4);
    CopyBackBlock(cur, dist, 4);
  }

  lemma JoinSlices(out: seq<byte>, src: seq<byte>, a: nat, b: nat, c: nat)
    requires a <= b <= c <= |src|
    ensures out + src[a..b] + src[b..c] == out + src[a..c]
  {
  }

  /** The byte loop `do { *op++ = *ip++; } while (--t > 0)`. */
  method CopyBytes(src: seq<byte>, ip0: nat, out: array<byte>, op0: nat, t0: nat)
    requires 1 <= t0 && ip0 + t0 <= |src| && op0 + t0 <= out.Length
    modifies out
    ensures out[..op0 + t0] == old(out[..op0]) + src[ip0..ip0 + t0]
    ensures forall j :: op0 + t0 <= j < out.Length ==> out[j] == old(out[j])
  {
    var ip, op, t := ip0, op0, t0;
    ghost var s := out[..op0];
    out[op] := src[ip];
    op, ip, t := op + 1, ip + 1, t - 1;
    while t > 0
      invariant op - op0 == ip - ip0 == t0 - t && ip0 < ip
      invariant out[..op] == s + src[ip0..ip]
      invariant forall j :: op <= j < out.Length ==> out[j] == old(out[j])
    {
      out[op] := src[ip];
      op, ip, t := op + 1, ip + 1, t - 1;
    }
  }

  /** The literal copy of a long run: t + 3 bytes, at least four. */
  method CopyRun(src: seq<byte>, ip0: nat, out: array<byte>, op0: nat, t0: nat)
    requires 1 <= t0 && ip0 + t0 + 3 <= |src| && op0 + t0 + 3 <= out.Length
    modifies out
    ensures out[..op0 + t0 + 3] == old(out[..op0]) + src[ip0..ip0 + t0 + 3]
    ensures forall j :: op0 + t0 + 3 <= j < out.Length ==> out[j] == old(out[j])
  {
    var ip, op, t := ip0, op0, t0;
    ghost var s, end := out[..op0], ip0 + t0 + 3;
    Copy4(out, op, src, ip);
    op, ip := op + 4, ip + 4;
    t := t - 1;
    if t > 0 {
      if t >= 4 {
        while t >= 4
          invariant op - op0 == ip - ip0 == t0 + 3 - t && ip0 <= ip <= end
          invariant out[..op] == s + src[ip0..ip]
          invariant forall j :: op <= j < out.Length ==> out[j] == old(out[j])
        {
          Copy4(out, op, src, ip);
          JoinSlices(s, src, ip0, ip, ip + 4);
          op, ip := op + 4, ip + 4;
          t := t - 4;
        }
        if t > 0 {
          JoinSlices(s, src, ip0, ip, end);
          CopyBytes(src, ip, out, op, t);
        }
      } else {
        JoinSlices(s, src, ip0, ip, end);
        CopyBytes(src, ip, out, op, t);
      }
    }
  }

  /** The byte loop of a match of which `done` bytes are copied onto `s` so far:
      each byte is read after the previous one is written. */
  method CopyMatchBytes(out: array<byte>, op0: nat, mPos0: nat, t0: nat, ghost s: seq<byte>, ghost done: nat)
    requires 1 <= t0 && mPos0 < op0 == |s| + done && op0 - mPos0 <= |s| && op0 + t0 <= out.Length
    requires out[..op0] == CopyBack(s, op0 - mPos0, done)
    modifies out
    ensures out[..op0 + t0] == CopyBack(s, op0 - mPos0, done + t0)
    ensures forall j :: op0 + t0 <= j < out.Length ==> out[j] == old(out[j])
  {
    hide CopyBack;
    var op, mPos, t := op0, mPos0, t0;
    CopyMatchByte(out, op, mPos, s, done);
    op, mPos, t := op + 1, mPos + 1, t - 1;
    while t > 0
      invariant op - op0 == mPos - mPos0 == t0 - t && op0 < op
      invariant out[..op] == CopyBack(s, op0 - mPos0, done + op - op0)
      invariant forall j :: op <= j < out.Length ==> out[j] == old(out[j])
    {
      CopyMatchByte(out, op, mPos, s, done + op - op0);
      op, mPos, t := op + 1, mPos + 1, t - 1;
    }
  }

  method CopyMatchByte(out: array<byte>, op: nat, mPos: nat, ghost s: seq<byte>, ghost done: nat)
    requires mPos < op == |s| + done && op - mPos <= |s| && op < out.Length
    requires out[..op] == CopyBack(s, op - mPos, done)
    modifies out
    ensures out[..op + 1] == CopyBack(s, op - mPos, done + 1)
    ensures forall j :: op + 1 <= j < out.Length ==> out[j] == old(out[j])
  {
    ghost var cur := out[..op];
    out[op] := out[mPos];
    assert out[..op + 1] == cur + [cur[|cur| - (op - mPos)]];
  }

  /** Copies a match of t + 2 bytes from mPos0: in words when it is long and far enough
      away, else byte by byte.  Either way the result is the overlapping byte copy. */
  method CopyMatch(out: array<byte>, op0: nat, mPos0: nat, t0: nat)
    requires 1 <= t0 && mPos0 < op0 && op0 + t0 + 2 <= out.Length
    modifies out
    ensures out[..op0 + t0 + 2] == CopyBack(old(out[..op0]), op0 - mPos0, t0 + 2)
    ensures forall j :: op0 + t0 + 2 <= j < out.Length ==> out[j] == old(out[j])
  {
    if t0 >= 2 * 4 - (3 - 1) && op0 - mPos0 >= 4 {
      CopyMatchWords(out, op0, mPos0, t0);
    } else {
      CopyMatchSlow(out, op0, mPos0, t0);
    }
  }

  /** One word of a match of which `done` bytes are copied onto `s` so far. */
  method CopyMatchWord(out: array<byte>, op: nat, mPos: nat, ghost s: seq<byte>, ghost done: nat)
    requires mPos + 4 <= op == |s| + done && op - mPos <= |s| && op + 4 <= out.Length
    requires out[..op] == CopyBack(s, op - mPos, done)
    modifies out
    ensures out[..op + 4] == CopyBack(s, op - mPos, done + 4)
    ensures forall j :: op + 4 <= j < out.Length ==> out[j] == old(out[j])
  {
    CopyBackWord(s, out[..op], op - mPos, done);
    Copy4Within(out, op, mPos);
  }

  method CopyMatchWords(out: array<byte>, op0: nat, mPos0: nat, t0: nat)
    requires t0 >= 6 && mPos0 + 4 <= op0 && op0 + t0 + 2 <= out.Length
    modifies out
    ensures out[..op0 + t0 + 2] == CopyBack(old(out[..op0]), op0 - mPos0, t0 + 2)
    ensures forall j :: op0 + t0 + 2 <= j < out.Length ==> out[j] == old(out[j])
  {
    hide CopyBack;
    var op, mPos, t := op0, mPos0, t0;
    ghost var s, dist := out[..op0], op0 - mPos0;
    CopyMatchWord(out, op, mPos, s, 0);
    op, mPos := op + 4, mPos + 4;
    t := t - (4 - (3 - 1));
    while t >= 4  // at least once, since t0 >= 6
      invariant op - op0 == mPos - mPos0 == t0 + 2 - t && op0 < op
      invariant out[..op] == CopyBack(s, dist, op - op0)
      invariant forall j :: op <= j < out.Length ==> out[j] == old(out[j])
    {
      CopyMatchWord(out, op, mPos, s, op - op0);
      op, mPos, t := op + 4, mPos + 4, t - 4;
    }
    if t > 0 {
      CopyMatchBytes(out, op, mPos, t, s, op - op0);
    }
  }

  /** Label copy_match: two bytes, then t more. */
  method CopyMatchSlow(out: array<byte>, op: nat, mPos: nat, t: nat)
    requires 1 <= t && mPos < op && op + t + 2 <= out.Length
    modifies out
    ensures out[..op + t + 2] == CopyBack(old(out[..op]), op - mPos, t + 2)
    ensures forall j :: op + t + 2 <= j < out.Length ==> out[j] == old(out[j])
  {
    ghost var s := out[..op];
    CopyMatchByte(out, op, mPos, s, 0);
    CopyMatchByte(out, op + 1, mPos + 1, s, 1);
    CopyMatchBytes(out, op + 2, mPos + 2, t, s, 2);
  }
}
