/** The labels of the decompressor as one loop, proved against `Play`. */
module LzoMachine {
  import opened LzoFormat
  import opened LzoCopy
  import opened LzoDecompress

  /** Where control stands.  `Outer` is the head of the outer loop. */
  datatype Label = Outer | FirstLiteralRun | AtOpcode | MatchNext | Exit

  datatype Regs = Regs(at: Label, ip: nat, op: nat, t: nat, ret: int) {
    /** Goto one of the error labels. */
    function Fail(code: int): Regs {
      Regs(Exit, ip, op, t, code)
    }
  }

  /** A complete well-formed stream, possibly followed by more bytes. */
  ghost predicate IsStream(inp: seq<byte>, ts: seq<Instr>, e: Ending) {
    WellFormed(ts) && EndFits(ts, e) && inp == Body(ts) + (EndBytes(e.len, e.n) + e.rest)
  }

  /** How the compressor ends a stream, with nothing behind it. */
  const COMPLETE := Ending(3, 0, [])

  lemma CompleteStream(inp: seq<byte>, ts: seq<Instr>)
    requires WellFormed(ts) && inp == Stream(ts)
    ensures |inp| > 0 && inp[..|inp|] == inp && IsStream(inp, ts, COMPLETE)
  {
    hide Body, WellFormed;
    assert EndBytes(3, 0) + [] == END_MARKER;
  }

  function Tail(t: Instr): seq<byte> {
    match t
    case FirstRun(lits) => lits
    case Run(lits) => lits
    case Match(_, _, _, tail) => tail
  }

  /** The machine has executed k instructions and stands where its label says. */
  ghost predicate Good(r: Regs, done: seq<byte>, k: nat, inp: seq<byte>, ts: seq<Instr>, e: Ending, cap: nat)
    requires IsStream(inp, ts, e)
  {
    if r.at == Exit then (r.ret, done) == Expected(ts, e, cap)
    else
      && k <= |ts| && r.ip <= |inp| && WellFormed(ts[..k]) && Play(ts[..k], cap).Playing?
      && match r.at
         case Outer =>
           && r.ip == |Body(ts[..k])| && done == Play(ts[..k], cap).out
           && (ModeAfter(ts[..k]) == Top || k == 0) && (k == 0 && ts != [] ==> ts[0].Run?)
         case FirstLiteralRun =>
           && r.ip == |Body(ts[..k])| && done == Play(ts[..k], cap).out && ModeAfter(ts[..k]) == LongRun
         case AtOpcode =>
           && r.ip == |Body(ts[..k])| + 1 && done == Play(ts[..k], cap).out
           && r.t == inp[r.ip - 1] && (k < |ts| ==> ts[k].Match? && ts[k].form != AfterRun)
         case MatchNext =>
           && k < |ts| && WellFormed(ts[..k + 1]) && 1 <= r.t <= 3
           && r.t == |Tail(ts[k])| && r.ip + r.t == |Body(ts[..k + 1])| && StartsWith(inp, r.ip, Tail(ts[k]))
           && Step(Play(ts[..k], cap).out, ts[k], cap) == Append(done, Tail(ts[k]), cap)
           && ModeAfter(ts[..k + 1]) == ShortTail
  }

  /** The k-th instruction stands at its place in the stream, with more bytes behind it. */
  lemma NextInstr(inp: seq<byte>, ts: seq<Instr>, e: Ending, k: nat)
    requires IsStream(inp, ts, e) && k < |ts|
    ensures WellFormed(ts[..k]) && WellFormed(ts[..k + 1]) && Allowed(ModeAfter(ts[..k]), ts[k])
    ensures Body(ts[..k + 1]) == Body(ts[..k]) + Bytes(ts[k])
    ensures StartsWith(inp, |Body(ts[..k])|, Bytes(ts[k]))
    ensures |Body(ts[..k])| + |Bytes(ts[k])| + 3 <= |inp|
  {
    hide Bytes;
    WellFormedPrefix(ts, k + 1);
    var pre := ts[..k + 1];
    assert pre[..|pre| - 1] == ts[..k];
    PrefixOfSum(Body(pre), Body(ts), EndBytes(e.len, e.n) + e.rest);
    EndStarts(e.len, e.n);
    SliceOfPrefix(Body(ts[..k]), Bytes(ts[k]), inp);
  }

  lemma PrefixOfSum(a: seq<byte>, b: seq<byte>, c: seq<byte>)
    requires a <= b
    ensures a <= b + c
  {
  }

  lemma SliceOfPrefix(a: seq<byte>, b: seq<byte>, s: seq<byte>)
    requires a + b <= s
    ensures StartsWith(s, |a|, b)
  {
  }

  lemma EndStarts(len: nat, n: nat)
    requires len >= 3 && n <= 3
    ensures var b := EndBytes(len, n); |b| >= 3 && 16 <= b[0] <= 23 && (len == 3 || len > 9 <==> b[0] <= 17)
  {
  }

  lemma EndStands(inp: seq<byte>, ts: seq<Instr>, e: Ending)
    requires IsStream(inp, ts, e)
    ensures var b := EndBytes(e.len, e.n);
      && StartsWith(inp, |Body(ts)|, b) && |inp| == |Body(ts)| + |b| + |e.rest| && |b| >= 3 && 16 <= b[0] <= 23
      && inp[|Body(ts)|] == b[0] && (ts == [] ==> b[0] <= 17)
  {
    hide Body, WellFormed, EndBytes;
    EndStarts(e.len, e.n);
  }

  lemma PlayNext(ts: seq<Instr>, k: nat, cap: nat)
    requires k < |ts| && Play(ts[..k], cap).Playing?
    ensures Play(ts[..k + 1], cap) == Step(Play(ts[..k], cap).out, ts[k], cap)
  {
    assert ts[..k + 1][..k] == ts[..k];
  }

  /** A failing instruction gives the expected result of the stream. */
  lemma FailsHere(ts: seq<Instr>, e: Ending, k: nat, cap: nat)
    requires k < |ts| && Play(ts[..k], cap).Playing?
    requires !Step(Play(ts[..k], cap).out, ts[k], cap).Playing?
    ensures Play(ts, cap) == Step(Play(ts[..k], cap).out, ts[k], cap)
  {
    PlayNext(ts, k, cap);
    FailureIsFinal(ts, k + 1, cap);
  }

  /** Opcode of a literal run of `n` bytes; t comes out as n - 3. */
  method ReadRun(src: seq<byte>, inLen: nat, ip0: nat, ghost n: nat) returns (t: nat, ip: nat, overrun: bool)
    requires ip0 < inLen <= |src|
    ensures ip0 < ip <= inLen && (!overrun && src[ip0] < 16 ==> t >= 1 && src[ip0..ip] == RunHeader(t + 3))
    ensures n >= 4 && StartsWith(src[..inLen], ip0, RunHeader(n)) ==>
      !overrun && t == n - 3 && ip == ip0 + |RunHeader(n)|
  {
    hide Ext, StartsWith;
    ghost var fine := n >= 4 && StartsWith(src[..inLen], ip0, RunHeader(n));
    if fine { RunParts(src[..inLen], ip0, n); }
    t, ip, overrun := src[ip0], ip0 + 1, false;
    if t == 0 {
      t, ip, overrun := ReadExt(src, inLen, ip, 15, if fine then n - 18 else 0);
    }
    if !overrun && src[ip0] < 16 { RunRead(src, ip0, ip, t); }
  }

  lemma RunRead(src: seq<byte>, ip0: nat, ip: nat, t: nat)
    requires ip0 < ip <= |src| && src[ip0] < 16
    requires if src[ip0] > 0 then t == src[ip0] && ip == ip0 + 1 else t > 15 && src[ip0 + 1..ip] == Ext(t - 15)
    ensures t >= 1 && src[ip0..ip] == RunHeader(t + 3)
  {
    hide Ext;
    assert src[ip0..ip] == [src[ip0]] + src[ip0 + 1..ip];
  }

  lemma RunParts(inp: seq<byte>, ip: nat, n: nat)
    requires n >= 4 && StartsWith(inp, ip, RunHeader(n))
    ensures ip < |inp|
    ensures n <= 18 ==> inp[ip] == n - 3 && |RunHeader(n)| == 1
    ensures n > 18 ==> inp[ip] == 0 && StartsWith(inp, ip + 1, Ext(n - 18)) && |RunHeader(n)| == 1 + |Ext(n - 18)|
  {
    hide Ext;
    assert inp[ip] == inp[ip..ip + |RunHeader(n)|][0];
    if n > 18 { StartsWithSplit(inp, ip, [0], Ext(n - 18)); }
  }

  lemma RunStep(ip: nat, done: seq<byte>, k: nat, inp: seq<byte>, ts: seq<Instr>, e: Ending, cap: nat)
    requires IsStream(inp, ts, e) && k < |ts| && ts[k].Run? && WellFormed(ts[..k])
    requires ip == |Body(ts[..k])| && Play(ts[..k], cap) == Playing(done)
    ensures |ts[k].lits| >= 4 && WellFormed(ts[..k + 1]) && ModeAfter(ts[..k + 1]) == LongRun
    ensures Play(ts[..k + 1], cap) == Append(done, ts[k].lits, cap)
    ensures !Play(ts[..k + 1], cap).Playing? ==> Play(ts, cap) == Play(ts[..k + 1], cap)
    ensures var n := |ts[k].lits|; var h := |RunHeader(n)|;
      && StartsWith(inp, ip, RunHeader(n)) && StartsWith(inp, ip + h, ts[k].lits) && ip + h + n + 3 <= |inp|
      && |Body(ts[..k + 1])| == ip + h + n
  {
    hide EndBytes, Body, RunHeader, Play, WellFormed, MatchBytes, CopyBack, Stream, StartsWith, Append, Expected;
    NextInstr(inp, ts, e, k);
    PlayNext(ts, k, cap);
    StartsWithSplit(inp, ip, RunHeader(|ts[k].lits|), ts[k].lits);
    if !Play(ts[..k + 1], cap).Playing? { FailsHere(ts, e, k, cap); }
    assert ts[..k + 1][k] == ts[k];
  }

  lemma RunFacts(r: Regs, done: seq<byte>, k: nat, inp: seq<byte>, ts: seq<Instr>, e: Ending, cap: nat)
    requires IsStream(inp, ts, e) && r.at == Outer && Good(r, done, k, inp, ts, e, cap)
    requires k < |ts| && ts[k].Run?
    ensures |ts[k].lits| >= 4
    ensures var n := |ts[k].lits|; var h := |RunHeader(n)|;
      && StartsWith(inp, r.ip, RunHeader(n)) && StartsWith(inp, r.ip + h, ts[k].lits) && r.ip + h + n + 1 <= |inp|
      && (|done| + n > cap ==>
            Good(r.Fail(LZO_E_OUTPUT_OVERRUN), done, k + 1, inp, ts, e, cap))
      && (|done| + n <= cap ==>
            Good(Regs(FirstLiteralRun, r.ip + h + n, r.op + n, 0, 0), done + ts[k].lits, k + 1, inp, ts, e, cap))
  {
    hide EndBytes, Body, RunHeader, Play, WellFormed, MatchBytes, CopyBack, Stream, StartsWith, IsStream, ModeAfter;
    RunStep(r.ip, done, k, inp, ts, e, cap);
  }

  /** What the machine has read: the instructions done with, that of which the literals at its end
      are still to come, and, once it is there, the ending. */
  datatype Trace = Trace(seen: seq<Instr>, head: Instr, end: Ending)

  /** The input up to here is those instructions, and the output is what they mean. */
  ghost predicate Played(seen: seq<Instr>, bytes: seq<byte>, done: seq<byte>, cap: nat) {
    WellFormed(seen) && Body(seen) == bytes && Play(seen, cap) == Playing(done)
  }

  /** A match that has been copied, or the start of a first run, with n literals to come. */
  ghost predicate Headed(g: Trace, bytes: seq<byte>, done: seq<byte>, n: nat, cap: nat) {
    && WellFormed(g.seen) && Play(g.seen, cap).Playing? && 1 <= n <= 3
    && var before := Play(g.seen, cap).out;
      if g.head.Match? then
        && Allowed(ModeAfter(g.seen), g.head) && g.head.tail == [] && 1 <= g.head.dist <= |before|
        && |before| + g.head.len <= cap && done == CopyBack(before, g.head.dist, g.head.len)
        && bytes == Body(g.seen) + MatchBytes(g.head.form, g.head.dist, g.head.len, n)
      else g.seen == [] && done == [] && bytes == [17 + n]
  }

  ghost predicate Traced(r: Regs, done: seq<byte>, g: Trace, src: seq<byte>, inLen: nat, cap: nat)
    requires inLen <= |src|
  {
    if r.at == Exit then
      r.ret == LZO_E_OK || r.ret == LZO_E_INPUT_NOT_CONSUMED ==>
        IsStream(src[..inLen], g.seen, g.end) && Expected(g.seen, g.end, cap) == (r.ret, done)
    else
      && r.ip <= |src|
      && match r.at
         case Outer =>
           && Played(g.seen, src[..r.ip], done, cap) && ModeAfter(g.seen) in {Start, Top}
           && (g.seen == [] ==> r.ip == 0 < |src| && src[0] <= 17)
         case FirstLiteralRun => Played(g.seen, src[..r.ip], done, cap) && ModeAfter(g.seen) == LongRun
         case AtOpcode =>
           && r.ip >= 1 && Played(g.seen, src[..r.ip - 1], done, cap)
           && (r.t < 16 ==> ModeAfter(g.seen) == ShortTail) && (g.seen == [] ==> r.t <= 17)
         case MatchNext => Headed(g, src[..r.ip], done, r.t, cap)
  }

  /** The machine between two labels: where its input pointer may be and what it has read, for any
      input, and what it has done if the input is a stream. */
  ghost predicate Stands(r: Regs, done: seq<byte>, k: nat, g: Trace, src: seq<byte>, inLen: nat, ts: seq<Instr>,
      e: Ending, cap: nat)
    requires inLen <= |src|
  {
    && Reached(r, src, inLen) && Traced(r, done, g, src, inLen, cap)
    && (IsStream(src[..inLen], ts, e) ==> Good(r, done, k, src[..inLen], ts, e, cap))
  }

  lemma StartMode(seen: seq<Instr>)
    ensures ModeAfter(seen) == Start <==> seen == []
  {
  }

  lemma Extend(seen: seq<Instr>, i: Instr, cap: nat)
    requires WellFormed(seen) && Allowed(ModeAfter(seen), i) && Play(seen, cap).Playing?
    ensures WellFormed(seen + [i]) && Body(seen + [i]) == Body(seen) + Bytes(i)
    ensures Play(seen + [i], cap) == Step(Play(seen, cap).out, i, cap)
    ensures ModeAfter(seen + [i]) == ModeAfter([i])
  {
    assert (seen + [i])[..|seen|] == seen;
  }

  lemma RunMeans(mode: Mode, done: seq<byte>, lits: seq<byte>, cap: nat)
    requires |lits| >= 4 && |done| + |lits| <= cap && mode in {Start, Top}
    ensures Allowed(mode, Run(lits)) && Bytes(Run(lits)) == RunHeader(|lits|) + lits
      && ModeAfter([Run(lits)]) == LongRun
    ensures Step(done, Run(lits), cap) == Playing(done + lits)
  {
    hide RunHeader;
  }

  /** A run has been read and copied. */
  lemma TraceRun(g: Trace, done: seq<byte>, src: seq<byte>, inLen: nat, ip0: nat, ip: nat, t: nat, cap: nat)
    requires inLen <= |src| && ip0 <= ip && ip + t + 3 <= |src| && t >= 1 && |done| + t + 3 <= cap
    requires Played(g.seen, src[..ip0], done, cap) && ModeAfter(g.seen) in {Start, Top}
      && src[ip0..ip] == RunHeader(t + 3)
    ensures var lits := src[ip..ip + t + 3]; var op := |done| + t + 3;
      Traced(Regs(FirstLiteralRun, ip + t + 3, op, 0, 0), done + lits, g.(seen := g.seen + [Run(lits)]), src, inLen,
        cap)
  {
    hide RunHeader, Body, Play, WellFormed, Step, Bytes, ModeAfter, Allowed;
    var lits := src[ip..ip + t + 3];
    RunMeans(ModeAfter(g.seen), done, lits, cap);
    Extend(g.seen, Run(lits), cap);
    assert src[..ip + t + 3] == src[..ip0] + src[ip0..ip] + lits;
  }

  /** A match has been read and copied, with n literals to come. */
  lemma TraceMatch(g: Trace, done: seq<byte>, src: seq<byte>, inLen: nat, start: nat, ip: nat, op: nat, form: Form,
      dist: nat, len: nat, cap: nat)
    requires inLen <= |src| && start <= |src| && Played(g.seen, src[..start], done, cap)
    requires Spells(src, start, ip, form, dist, len) && dist <= |done| && |done| + len <= cap
    requires (form == AfterTail ==> ModeAfter(g.seen) == ShortTail)
      && (form == AfterRun ==> ModeAfter(g.seen) == LongRun)
    ensures var m, n := Match(form, dist, len, []), src[ip - 2] % 4;
      && (n == 0 ==>
        Traced(Regs(Outer, ip, op, 0, 0), CopyBack(done, dist, len), g.(seen := g.seen + [m]), src, inLen, cap))
      && (n > 0 ==> Traced(Regs(MatchNext, ip, op, n, 0), CopyBack(done, dist, len), g.(head := m), src, inLen, cap))
  {
    hide MatchBytes, Body, CopyBack, WellFormed, ValidMatch, Play;
    var m, n := Match(form, dist, len, []), src[ip - 2] % 4;
    assert src[..ip] == src[..start] + src[start..ip];
    EmptyPrefix(cap);
    assert g.seen != [];
    if n == 0 { Extend(g.seen, m, cap); }
  }

  /** The instruction of a trace with its literals. */
  lemma TailHead(g: Trace, bytes: seq<byte>, done: seq<byte>, lits: seq<byte>, cap: nat)
    requires Headed(g, bytes, done, |lits|, cap) && |done| + |lits| <= cap
    ensures var i := Tailed(g.head, lits);
      && Allowed(ModeAfter(g.seen), i) && Body(g.seen) + Bytes(i) == bytes + lits && ModeAfter([i]) == ShortTail
      && Step(Play(g.seen, cap).out, i, cap) == Playing(done + lits)
  {
    hide MatchBytes, CopyBack, ValidMatch, Play, Body, WellFormed, Step, Bytes;
    if g.head.Match? {
      TailedMatch(Body(g.seen), Play(g.seen, cap).out, g.head, lits, cap);
    } else {
      EmptyPrefix(cap);
      EmptyBody();
      StartStep(FirstRun(lits), cap);
      assert Bytes(FirstRun(lits)) == [17 + |lits|] + lits by { FirstBytes(lits); }
      assert [] + lits == lits && [] + ([17 + |lits|] + lits) == [17 + |lits|] + lits;
    }
  }

  lemma FirstBytes(lits: seq<byte>)
    requires 1 <= |lits| <= 238
    ensures Bytes(FirstRun(lits)) == [17 + |lits|] + lits
  {
  }

  lemma TailedMatch(body: seq<byte>, before: seq<byte>, head: Instr, lits: seq<byte>, cap: nat)
    requires head.Match? && Encodable(head) && head.tail == [] && 1 <= |lits| <= 3
    requires 1 <= head.dist <= |before| && |before| + head.len + |lits| <= cap
    ensures var i := head.(tail := lits);
      && Encodable(i) && body + Bytes(i) == body + MatchBytes(head.form, head.dist, head.len, |lits|) + lits
      && Step(before, i, cap) == Playing(CopyBack(before, head.dist, head.len) + lits)
  {
    hide MatchBytes, CopyBack;
  }

  /** The literals at the end of an instruction have been copied. */
  lemma TraceTail(g: Trace, done: seq<byte>, src: seq<byte>, inLen: nat, ip: nat, op: nat, n: nat, t: nat, cap: nat)
    requires inLen <= |src| && ip + n + 1 <= |src| && Headed(g, src[..ip], done, n, cap) && |done| + n <= cap
    ensures var lits := src[ip..ip + n];
      Traced(Regs(AtOpcode, ip + n + 1, op, t, 0), done + lits, g.(seen := g.seen + [Tailed(g.head, lits)]), src,
        inLen, cap)
  {
    hide Body, WellFormed, Play, Step, Bytes, Allowed, Tailed, ModeAfter;
    var lits := src[ip..ip + n];
    assert src[..ip + n] == src[..ip] + lits;
    TailHead(g, src[..ip], done, lits, cap);
    Extend(g.seen, Tailed(g.head, lits), cap);
  }

  function Tailed(head: Instr, lits: seq<byte>): Instr {
    if head.Match? then head.(tail := lits) else FirstRun(lits)
  }

  lemma EmptyBody()
    ensures WellFormed([]) && Body([]) == []
  {
  }

  /** The end has been read. */
  lemma TraceEnd(g: Trace, done: seq<byte>, src: seq<byte>, inLen: nat, ip0: nat, ip: nat, op: nat, t: nat, cap: nat)
    requires 1 <= ip0 <= ip <= inLen <= |src| && Played(g.seen, src[..ip0 - 1], done, cap) && t >= 1
    requires ip >= 2 && src[ip0 - 1..ip] == EndBytes(t + 2, src[ip - 2] % 4) && (g.seen == [] ==> src[ip0 - 1] <= 17)
    ensures Traced(Regs(Exit, ip, op, t, if ip == inLen then LZO_E_OK else LZO_E_INPUT_NOT_CONSUMED), done,
      g.(end := Ending(t + 2, src[ip - 2] % 4, src[ip..inLen])), src, inLen, cap)
  {
    hide EndBytes, Body, Play, WellFormed;
    var e := Ending(t + 2, src[ip - 2] % 4, src[ip..inLen]);
    assert src[..inLen] == src[..ip0 - 1] + (src[ip0 - 1..ip] + src[ip..inLen]);
    EndStarts(e.len, e.n);
    assert src[ip0 - 1..ip][0] == src[ip0 - 1];
  }

  predicate Reached(r: Regs, src: seq<byte>, inLen: nat)
    requires inLen <= |src|
  {
    match r.at
    case Outer => r.ip <= inLen + 2
    case FirstLiteralRun => r.ip < inLen
    case AtOpcode => 1 <= r.ip <= inLen && r.t == src[r.ip - 1]
    case MatchNext => r.ip <= inLen + 2 && 1 <= r.t <= 3
    case Exit => r.ret in RESULTS
  }

  /** Literals of a run: checks, copy, and the error exits. */
  method RunBlock(src: seq<byte>, inLen: nat, out: array<byte>, cap: nat, r: Regs, ghost k: nat, ghost g: Trace,
      ghost ts: seq<Instr>, ghost e: Ending)
    returns (r': Regs, ghost g': Trace)
    requires r.op <= cap <= out.Length && inLen <= |src| && Stands(r, out[..r.op], k, g, src, inLen, ts, e, cap)
    requires r.at == Outer && r.ip < inLen && src[r.ip] < 16
      && (IsStream(src[..inLen], ts, e) ==> k < |ts| && ts[k].Run?)
    modifies out
    ensures r.op <= r'.op <= cap && Stands(r', out[..r'.op], k + 1, g', src, inLen, ts, e, cap)
    ensures r'.at == Exit || r'.ip > r.ip
    ensures forall j :: r'.op <= j < out.Length ==> out[j] == old(out[j])
  {
    hide Body, RunHeader, Play, WellFormed, MatchBytes, CopyBack, Stream, IsStream, Expected, Good, StartsWith,
      ModeAfter,
      Played, Headed;
    ghost var inp, fine := src[..inLen], IsStream(src[..inLen], ts, e);
    g' := g;
    if fine { RunFacts(r, out[..r.op], k, inp, ts, e, cap); }
    var t, ip, overrun := ReadRun(src, inLen, r.ip, if fine then |ts[k].lits| else 0);
    if overrun {
      r' := r.Fail(LZO_E_INPUT_OVERRUN);
    } else if HaveOp(t + 3, cap, r.op) {
      r' := r.Fail(LZO_E_OUTPUT_OVERRUN);
    } else if HaveIp(t + 4, inLen, ip) {
      r' := r.Fail(LZO_E_INPUT_OVERRUN);
    } else {
      TraceRun(g, out[..r.op], src, inLen, r.ip, ip, t, cap);
      g' := g.(seen := g.seen + [Run(src[ip..ip + t + 3])]);
      CopyRun(src, ip, out, r.op, t);
      r' := Regs(FirstLiteralRun, ip + t + 3, r.op + t + 3, 0, 0);
      if fine { Literals(src, inLen, ip, ts[k].lits); }
    }
  }

  /** Literals that stand in the input stand in memory. */
  lemma Literals(src: seq<byte>, inLen: nat, ip: nat, lits: seq<byte>)
    requires inLen <= |src| && StartsWith(src[..inLen], ip, lits)
    ensures ip + |lits| <= inLen && src[ip..ip + |lits|] == lits
  {
    assert src[..inLen][ip..ip + |lits|] == src[ip..ip + |lits|];
  }

  /** Head of the outer loop: the opcode tells a literal run from a match or the end. */
  lemma OuterFacts(r: Regs, done: seq<byte>, k: nat, inp: seq<byte>, ts: seq<Instr>, e: Ending, cap: nat)
    requires IsStream(inp, ts, e) && r.at == Outer && Good(r, done, k, inp, ts, e, cap)
    ensures r.ip < |inp|
    ensures inp[r.ip] < 16 ==> k < |ts| && ts[k].Run?
    ensures inp[r.ip] >= 16 ==> Good(Regs(AtOpcode, r.ip + 1, r.op, inp[r.ip], 0), done, k, inp, ts, e, cap)
  {
    hide EndBytes, Body, Play, WellFormed, CopyBack, Stream, Bytes, Step, Expected, ValidMatch;
    if k < |ts| {
      NextInstr(inp, ts, e, k);
      FirstByte(inp, r.ip, ts[k]);
    } else {
      assert ts[..k] == ts;
      EndStands(inp, ts, e);
    }
  }

  /** Small opcodes: literal runs and the two matches that need literals before them. */
  lemma FirstByte(inp: seq<byte>, ip: nat, t: Instr)
    requires Encodable(t) && !t.FirstRun? && StartsWith(inp, ip, Bytes(t))
    ensures inp[ip] < 16 <==> t.Run? || t.form == AfterTail || t.form == AfterRun
  {
    assert inp[ip] == inp[ip..ip + |Bytes(t)|][0];
    if t.Run? { assert Bytes(t)[0] == RunHeader(|t.lits|)[0]; }
    else { assert Bytes(t)[0] == MatchBytes(t.form, t.dist, t.len, |t.tail|)[0]; }
  }

  /** After a long run: either the three-byte match that only occurs here, or an opcode. */
  lemma LongRunFacts(r: Regs, done: seq<byte>, k: nat, inp: seq<byte>, ts: seq<Instr>, e: Ending, cap: nat)
    requires IsStream(inp, ts, e) && r.at == FirstLiteralRun && Good(r, done, k, inp, ts, e, cap)
    ensures r.ip + 3 <= |inp|
    ensures inp[r.ip] < 16 ==> k < |ts| && ts[k].Match? && ts[k].form == AfterRun
    ensures inp[r.ip] >= 16 ==> Good(Regs(AtOpcode, r.ip + 1, r.op, inp[r.ip], 0), done, k, inp, ts, e, cap)
  {
    hide EndBytes, Body, Play, WellFormed, CopyBack, Stream, Bytes, Step, Expected, ValidMatch;
    if k < |ts| {
      NextInstr(inp, ts, e, k);
      FirstByte(inp, r.ip, ts[k]);
    } else {
      assert ts[..k] == ts;
      EndStands(inp, ts, e);
    }
  }

  /** A match whose opcode stands at `ip`: its bytes, and what may follow from it. */
  ghost predicate MatchStands(ip: nat, done: seq<byte>, k: nat, inp: seq<byte>, ts: seq<Instr>, e: Ending,
      cap: nat)
    requires IsStream(inp, ts, e)
  {
    && k < |ts| && ts[k].Match? && WellFormed(ts[..k]) && ip == |Body(ts[..k])|
    && Play(ts[..k], cap) == Playing(done)
  }

  /** What is known of the k-th instruction once its match has been copied. */
  lemma MatchStep(ip: nat, done: seq<byte>, k: nat, inp: seq<byte>, ts: seq<Instr>, e: Ending, cap: nat)
    requires IsStream(inp, ts, e) && MatchStands(ip, done, k, inp, ts, e, cap)
    requires 1 <= ts[k].dist <= |done| && |done| + ts[k].len <= cap
    ensures Allowed(ModeAfter(ts[..k]), ts[k]) && WellFormed(ts[..k + 1])
    ensures var m := ts[k]; var out := CopyBack(done, m.dist, m.len);
      && Play(ts[..k + 1], cap) == (if m.tail == [] then Playing(out) else Append(out, m.tail, cap))
      && Step(done, m, cap) == Play(ts[..k + 1], cap)
    ensures var m := ts[k]; var ip' := ip + |MatchBytes(m.form, m.dist, m.len, |m.tail|)|;
      && StartsWith(inp, ip', m.tail) && |Body(ts[..k + 1])| == ip' + |m.tail| && ip' + |m.tail| <= |inp|
    ensures ModeAfter(ts[..k + 1]) == if ts[k].tail == [] then Top else ShortTail
  {
    hide EndBytes, Body, Play, WellFormed, CopyBack, Stream, MatchBytes, Append, StartsWith, Expected;
    NextInstr(inp, ts, e, k);
    PlayNext(ts, k, cap);
    assert ts[..k + 1][k] == ts[k];
    StartsWithSplit(inp, ip, MatchBytes(ts[k].form, ts[k].dist, ts[k].len, |ts[k].tail|), ts[k].tail);
  }

  /** Label knowndone for the k-th instruction: where control goes next. */
  lemma MatchDone(ip: nat, op: nat, done: seq<byte>, k: nat, inp: seq<byte>, ts: seq<Instr>, e: Ending, cap: nat)
    requires IsStream(inp, ts, e) && MatchStands(ip, done, k, inp, ts, e, cap)
    requires 1 <= ts[k].dist <= |done| && |done| + ts[k].len <= cap
    ensures ValidMatch(ts[k].form, ts[k].dist, ts[k].len) && |ts[k].tail| <= 3
    ensures var m := ts[k]; var n := |m.tail|;
      var ip' := ip + |MatchBytes(m.form, m.dist, m.len, n)|;
      && (n == 0 ==> Good(Regs(Outer, ip', op, 0, 0), CopyBack(done, m.dist, m.len), k + 1, inp, ts, e, cap))
      && (n != 0 ==> Good(Regs(MatchNext, ip', op, n, 0), CopyBack(done, m.dist, m.len), k, inp, ts, e, cap))
  {
    hide EndBytes, Body, Play, WellFormed, CopyBack, Stream, MatchBytes, Expected, Append, ValidMatch, StartsWith,
      ModeAfter,
      IsStream, Step;
    MatchStep(ip, done, k, inp, ts, e, cap);
  }

  /** The match stands as encoded, and each failing check is the format's verdict. */
  lemma MatchFacts(ip: nat, done: seq<byte>, k: nat, inp: seq<byte>, ts: seq<Instr>, e: Ending, cap: nat)
    requires IsStream(inp, ts, e) && MatchStands(ip, done, k, inp, ts, e, cap)
    ensures AtMatch(inp, ip + 1, ts[k].form, ts[k].dist, ts[k].len, |ts[k].tail|)
    ensures ip + |MatchBytes(ts[k].form, ts[k].dist, ts[k].len, |ts[k].tail|)| <= |inp|
    ensures ts[k].dist > |done| ==> Expected(ts, e, cap) == (LZO_E_LOOKBEHIND_OVERRUN, done)
    ensures ts[k].dist <= |done| && |done| + ts[k].len > cap ==> Expected(ts, e, cap) == (LZO_E_OUTPUT_OVERRUN, done)
  {
    hide EndBytes, Body, Play, WellFormed, CopyBack, Stream, MatchBytes;
    NextInstr(inp, ts, e, k);
    StartsWithSplit(inp, ip, MatchBytes(ts[k].form, ts[k].dist, ts[k].len, |ts[k].tail|), ts[k].tail);
    if ts[k].dist > |done| || |done| + ts[k].len > cap { FailsHere(ts, e, k, cap); }
  }

  /** One to three literals behind a short match or at the start of the stream. */
  lemma TailFacts(r: Regs, done: seq<byte>, k: nat, inp: seq<byte>, ts: seq<Instr>, e: Ending, cap: nat)
    requires IsStream(inp, ts, e) && r.at == MatchNext && Good(r, done, k, inp, ts, e, cap)
    ensures k < |ts| && 1 <= r.t == |Tail(ts[k])| <= 3
    ensures StartsWith(inp, r.ip, Tail(ts[k])) && r.ip + r.t + 3 <= |inp|
    ensures |done| + r.t > cap ==> Expected(ts, e, cap) == (LZO_E_OUTPUT_OVERRUN, done)
    ensures |done| + r.t <= cap ==>
      Good(Regs(AtOpcode, r.ip + r.t + 1, r.op + r.t, inp[r.ip + r.t], 0), done + Tail(ts[k]), k + 1, inp, ts, e,
        cap)
  {
    hide EndBytes, Body, Play, WellFormed, CopyBack, Stream, MatchBytes, Bytes, Step, ValidMatch, RunHeader, IsStream,
      StartsWith, ModeAfter;
    PlayNext(ts, k, cap);
    if |done| + r.t > cap { FailsHere(ts, e, k, cap); }
    BehindTail(inp, ts, e, k);
  }

  /** Behind an instruction with one to three literals comes a match or the end. */
  lemma BehindTail(inp: seq<byte>, ts: seq<Instr>, e: Ending, k: nat)
    requires IsStream(inp, ts, e) && k < |ts| && WellFormed(ts[..k + 1]) && ModeAfter(ts[..k + 1]) == ShortTail
    ensures |Body(ts[..k + 1])| + 3 <= |inp|
    ensures k + 1 < |ts| ==> ts[k + 1].Match? && ts[k + 1].form != AfterRun
  {
    hide EndBytes, Body, WellFormed, Bytes, ValidMatch, ModeAfter;
    if k + 1 < |ts| {
      NextInstr(inp, ts, e, k + 1);
    } else {
      assert ts[..k + 1] == ts;
      EndStands(inp, ts, e);
    }
  }

  /** Where the k-th match stands, and that its bytes have been read up to ip. */
  ghost predicate MatchRead(ip: nat, start: nat, done: seq<byte>, k: nat, inp: seq<byte>, ts: seq<Instr>,
      e: Ending, cap: nat)
    requires IsStream(inp, ts, e)
  {
    && MatchStands(start, done, k, inp, ts, e, cap) && ValidMatch(ts[k].form, ts[k].dist, ts[k].len)
    && |ts[k].tail| <= 3
    && ip == start + |MatchBytes(ts[k].form, ts[k].dist, ts[k].len, |ts[k].tail|)| && 2 <= ip <= |inp|
    && inp[ip - 2] % 4 == |ts[k].tail|
  }

  /** Match m, without its literals, stands from start to ip, where it may stand. */
  ghost predicate ReadMatch(ip: nat, start: nat, done: seq<byte>, m: Instr, g: Trace, src: seq<byte>, cap: nat)
    requires m.Match?
  {
    && start <= |src| && Played(g.seen, src[..start], done, cap) && Spells(src, start, ip, m.form, m.dist, m.len)
    && (m.form == AfterTail ==> ModeAfter(g.seen) == ShortTail) && (m.form == AfterRun ==> ModeAfter(g.seen) == LongRun)
  }

  /** Label knowndone: the low bits of the last opcode byte count the literals that follow. */
  method AfterCopy(src: seq<byte>, inLen: nat, out: array<byte>, cap: nat, ip: nat, op: nat, ghost start: nat,
      ghost done: seq<byte>, ghost m: Instr, ghost k: nat, ghost g: Trace, ghost ts: seq<Instr>, ghost e: Ending)
    returns (r': Regs, ghost k': nat, ghost g': Trace)
    requires inLen <= |src| && Room(src, inLen, IsStream(src[..inLen], ts, e)) && 2 <= ip <= inLen + 2
    requires op <= cap <= out.Length
    requires IsStream(src[..inLen], ts, e) ==>
      && MatchRead(ip, start, done, k, src[..inLen], ts, e, cap)
      && 1 <= ts[k].dist <= |done| && |done| + ts[k].len == op && out[..op] == CopyBack(done, ts[k].dist, ts[k].len)
    requires m.Match? && m.tail == [] && ReadMatch(ip, start, done, m, g, src, cap)
    requires m.dist <= |done| && |done| + m.len == op && out[..op] == CopyBack(done, m.dist, m.len)
    ensures r'.op == op && r'.ip == ip && r'.at != Exit && Stands(r', out[..r'.op], k', g', src, inLen, ts, e, cap)
  {
    hide Body, Play, WellFormed, CopyBack, Stream, MatchBytes, Bytes, Step, Expected, Good, MatchStands, IsStream,
      ValidMatch, Traced, Played, ModeAfter;
    ghost var fine := IsStream(src[..inLen], ts, e);
    if fine { MatchDone(start, op, done, k, src[..inLen], ts, e, cap); }
    TraceMatch(g, done, src, inLen, start, ip, op, m.form, m.dist, m.len, cap);
    var t := src[ip - 2] % 4;
    if t == 0 {
      r', k', g' := Regs(Outer, ip, op, 0, 0), k + 1, g.(seen := g.seen + [m]);
    } else {
      r', k', g' := Regs(MatchNext, ip, op, t, 0), k, g.(head := m);
    }
  }

  /** At label match: a match other than the one after a long run, or the end of the stream. */
  lemma OpcodeFacts(r: Regs, done: seq<byte>, k: nat, inp: seq<byte>, ts: seq<Instr>, e: Ending, cap: nat)
    requires IsStream(inp, ts, e) && r.at == AtOpcode && Good(r, done, k, inp, ts, e, cap)
    ensures r.ip >= 1 && r.ip - 1 < |inp| && r.t == inp[r.ip - 1] && k <= |ts|
    ensures k < |ts| ==> MatchStands(r.ip - 1, done, k, inp, ts, e, cap) && ts[k].form != AfterRun
    ensures k == |ts| ==>
      AtEnd(inp, r.ip, e.len, e.n) && |inp| == r.ip - 1 + |EndBytes(e.len, e.n)| + |e.rest| && 16 <= r.t < 32
    ensures k == |ts| ==> Expected(ts, e, cap) == (if e.rest == [] then LZO_E_OK else LZO_E_INPUT_NOT_CONSUMED, done)
  {
    hide EndBytes, Body, Play, WellFormed, CopyBack, Stream, MatchBytes, Bytes, Step, ValidMatch, RunHeader;
    if k < |ts| {
      NextInstr(inp, ts, e, k);
    } else {
      assert ts[..k] == ts;
      EndStands(inp, ts, e);
    }
  }

  /** Which branch of label match the k-th instruction takes. */
  lemma BranchOf(inp: seq<byte>, ip: nat, form: Form, dist: nat, len: nat, n: nat)
    requires AtMatch(inp, ip, form, dist, len, n)
    ensures inp[ip - 1] >= 64 <==> form == M2
    ensures 32 <= inp[ip - 1] < 64 <==> form == M3
    ensures 16 <= inp[ip - 1] < 32 <==> form == M4
  {
    assert inp[ip - 1] == inp[ip - 1..ip - 1 + |MatchBytes(form, dist, len, n)|][0]
      == MatchBytes(form, dist, len, n)[0];
  }

  /** The checks and the copy shared by the long match forms, then label knowndone. */
  method FinishMatch(src: seq<byte>, inLen: nat, out: array<byte>, cap: nat, ip: nat, op: nat, mPos: int, t: nat,
      slow: bool, ghost start: nat, ghost m: Instr, ghost k: nat, ghost g: Trace, ghost ts: seq<Instr>,
      ghost e: Ending)
    returns (r': Regs, ghost k': nat, ghost g': Trace)
    requires inLen <= |src| && Room(src, inLen, IsStream(src[..inLen], ts, e)) && 2 <= ip <= inLen + 2
    requires op <= cap <= out.Length && t >= 1
    requires IsStream(src[..inLen], ts, e) ==>
      && MatchRead(ip, start, out[..op], k, src[..inLen], ts, e, cap)
      && mPos == op - ts[k].dist && t + 2 == ts[k].len
    requires mPos < op && m.Match? && m == Match(m.form, op - mPos, t + 2, [])
      && ReadMatch(ip, start, out[..op], m, g, src, cap)
    modifies out
    ensures op <= r'.op <= cap && Stands(r', out[..r'.op], k', g', src, inLen, ts, e, cap)
    ensures r'.at == Exit || r'.ip == ip
    ensures forall j :: r'.op <= j < out.Length ==> out[j] == old(out[j])
  {
    hide Body, Play, WellFormed, CopyBack, Stream, MatchBytes, Bytes, Step, Expected, StartsWith, IsStream, MatchStands,
      ReadMatch;
    var here := Regs(AtOpcode, ip, op, t, 0);
    g' := g;
    ghost var done, fine := out[..op], IsStream(src[..inLen], ts, e);
    if fine { MatchFacts(start, done, k, src[..inLen], ts, e, cap); }
    if HaveLb(mPos, op) {
      r', k' := here.Fail(LZO_E_LOOKBEHIND_OVERRUN), k;
    } else if HaveOp(t + 3 - 1, cap, op) {
      r', k' := here.Fail(LZO_E_OUTPUT_OVERRUN), k;
    } else {
      if slow {
        CopyMatchSlow(out, op, mPos, t);
      } else {
        CopyMatch(out, op, mPos, t);
      }
      r', k', g' := AfterCopy(src, inLen, out, cap, ip, op + t + 2, start, done, m, k, g, ts, e);
    }
  }

  /** The two matches with small opcodes: `count` bytes are copied one by one. */
  method ShortMatch(src: seq<byte>, inLen: nat, out: array<byte>, cap: nat, ip0: nat, op: nat, base: nat, t: nat,
      count: nat, ghost k: nat, ghost g: Trace, ghost ts: seq<Instr>, ghost e: Ending)
    returns (r': Regs, ghost k': nat, ghost g': Trace)
    requires op <= cap <= out.Length && 1 <= ip0 <= inLen <= |src| && t == src[ip0 - 1]
    requires Room(src, inLen, IsStream(src[..inLen], ts, e))
    requires (base == 1 && count == 2) || (base == 1 + M2_MAX_OFFSET && count == 3)
    requires IsStream(src[..inLen], ts, e) ==>
      && MatchStands(ip0 - 1, out[..op], k, src[..inLen], ts, e, cap)
      && ts[k].form == (if base == 1 then AfterTail else AfterRun)
    requires t < 16 && Played(g.seen, src[..ip0 - 1], out[..op], cap)
      && ModeAfter(g.seen) == (if base == 1 then ShortTail else LongRun)
    modifies out
    ensures op <= r'.op <= cap && Stands(r', out[..r'.op], k', g', src, inLen, ts, e, cap)
    ensures r'.at == Exit || r'.ip == ip0 + 1
    ensures forall j :: r'.op <= j < out.Length ==> out[j] == old(out[j])
  {
    hide Body, Play, WellFormed, CopyBack, Stream, Bytes, Step, Expected, IsStream, MatchBytes, StartsWith, Played,
      ModeAfter, Spells;
    var here := Regs(AtOpcode, ip0 + 1, op, t, 0);
    g' := g;
    ghost var done, fine := out[..op], IsStream(src[..inLen], ts, e);
    if fine {
      MatchFacts(ip0 - 1, done, k, src[..inLen], ts, e, cap);
      ShortBytes(src[..inLen], ip0, op, base, ts[k].form, ts[k].dist, ts[k].len, |ts[k].tail|);
    }
    var mPos := op - base;
    mPos := mPos - t / 4;
    var b1: nat := src[ip0];
    mPos := mPos - b1 * 4;
    if HaveLb(mPos, op) {
      r', k' := here.Fail(LZO_E_LOOKBEHIND_OVERRUN), k;
    } else if HaveOp(count, cap, op) {
      r', k' := here.Fail(LZO_E_OUTPUT_OVERRUN), k;
    } else {
      NothingCopied(done, op - mPos);
      ShortRead(src, ip0, base, count);
      ghost var m := Match(if base == 1 then AfterTail else AfterRun, op - mPos, count, []);
      CopyMatchBytes(out, op, mPos, count, done, 0);
      r', k', g' := AfterCopy(src, inLen, out, cap, ip0 + 1, op + count, ip0 - 1, done, m, k, g, ts, e);
    }
  }

  lemma ShortRead(src: seq<byte>, ip0: nat, base: nat, count: nat)
    requires 1 <= ip0 < |src| && src[ip0 - 1] < 16
    requires (base == 1 && count == 2) || (base == 1 + M2_MAX_OFFSET && count == 3)
    ensures var t: nat, b1: nat := src[ip0 - 1], src[ip0];
      Spells(src, ip0 - 1, ip0 + 1, if base == 1 then AfterTail else AfterRun, base + t / 4 + b1 * 4, count)
  {
    var t: nat, b1: nat := src[ip0 - 1], src[ip0];
    var e := t / 4;
    assert t == e * 4 + t % 4 && (e + b1 * 4) % 4 == e && (e + b1 * 4) / 4 == b1;
    assert src[ip0 - 1..ip0 + 1] == [src[ip0 - 1], src[ip0]];
  }

  lemma NothingCopied(s: seq<byte>, dist: nat)
    requires 1 <= dist <= |s|
    ensures CopyBack(s, dist, 0) == s
  {
  }

  /** The two bytes of such a match give its distance and the count of its literals. */
  lemma ShortBytes(inp: seq<byte>, ip0: nat, op: nat, base: nat, form: Form, dist: nat, len: nat, n: nat)
    requires AtMatch(inp, ip0, form, dist, len, n)
    requires if base == 1 then form == AfterTail else base == 1 + M2_MAX_OFFSET && form == AfterRun
    ensures ip0 < |inp| && |MatchBytes(form, dist, len, n)| == 2 && len == if base == 1 then 2 else 3
    ensures var t: nat, b1: nat := inp[ip0 - 1], inp[ip0]; op - base - t / 4 - b1 * 4 == op - dist && t % 4 == n
  {
    var b := MatchBytes(form, dist, len, n);
    assert inp[ip0 - 1] == inp[ip0 - 1..ip0 - 1 + |b|][0] == b[0] && inp[ip0] == inp[ip0 - 1..ip0 - 1 + |b|][1] == b[1];
  }

  /** What label match finds in a stream: a match with its branch, or the end. */
  lemma MatchOrEnd(r: Regs, done: seq<byte>, k: nat, inp: seq<byte>, ts: seq<Instr>, e: Ending, cap: nat)
    requires IsStream(inp, ts, e) && r.at == AtOpcode && Good(r, done, k, inp, ts, e, cap)
    ensures r.ip >= 1 && r.ip - 1 < |inp| && r.t == inp[r.ip - 1] && k <= |ts|
    ensures k == |ts| ==>
      AtEnd(inp, r.ip, e.len, e.n) && 16 <= r.t < 32 && |inp| == r.ip - 1 + |EndBytes(e.len, e.n)| + |e.rest|
      && Expected(ts, e, cap) == (if e.rest == [] then LZO_E_OK else LZO_E_INPUT_NOT_CONSUMED, done)
    ensures k < |ts| ==> var m := ts[k];
      && m.Match? && MatchStands(r.ip - 1, done, k, inp, ts, e, cap)
      && AtMatch(inp, r.ip, m.form, m.dist, m.len, |m.tail|)
      && ValidMatch(m.form, m.dist, m.len) && |m.tail| <= 3
      && (r.t >= 64 <==> m.form == M2) && (32 <= r.t < 64 <==> m.form == M3) && (16 <= r.t < 32 <==> m.form == M4)
      && (r.t < 16 <==> m.form == AfterTail)
  {
    hide Body, Play, WellFormed, CopyBack, Stream, Bytes, Step, IsStream, MatchBytes, StartsWith, Expected, Good;
    OpcodeFacts(r, done, k, inp, ts, e, cap);
    if k < |ts| {
      MatchFacts(r.ip - 1, done, k, inp, ts, e, cap);
      BranchOf(inp, r.ip, ts[k].form, ts[k].dist, ts[k].len, |ts[k].tail|);
    }
  }

  /** A long match has been read behind an opcode. */
  lemma MatchHere(r: Regs, done: seq<byte>, g: Trace, src: seq<byte>, inLen: nat, cap: nat, ip: nat, form: Form,
      dist: int, len: nat)
    requires inLen <= |src| && r.at == AtOpcode && Traced(r, done, g, src, inLen, cap)
    requires Spells(src, r.ip - 1, ip, form, dist, len) && form != AfterTail && form != AfterRun
    ensures dist >= 1 && ReadMatch(ip, r.ip - 1, done, Match(form, dist, len, []), g, src, cap)
  {
    hide Played, ModeAfter, MatchBytes, ValidMatch;
  }

  lemma ExitGood(r: Regs, done: seq<byte>, k: nat, inp: seq<byte>, ts: seq<Instr>, e: Ending, cap: nat)
    requires IsStream(inp, ts, e) && r.at == Exit && (r.ret, done) == Expected(ts, e, cap)
    ensures Good(r, done, k, inp, ts, e, cap)
  {
  }

  /** Branch 32 <= t < 64. */
  method M3Block(src: seq<byte>, inLen: nat, out: array<byte>, cap: nat, r: Regs, ghost k: nat, ghost g: Trace,
      ghost ts: seq<Instr>, ghost e: Ending)
    returns (r': Regs, ghost k': nat, ghost g': Trace)
    requires inLen <= |src| && Room(src, inLen, IsStream(src[..inLen], ts, e))
    requires r.op <= cap <= out.Length && r.at == AtOpcode && Stands(r, out[..r.op], k, g, src, inLen, ts, e, cap)
    requires 32 <= r.t < 64
    modifies out
    ensures r.op <= r'.op <= cap && Stands(r', out[..r'.op], k', g', src, inLen, ts, e, cap)
    ensures r'.at == Exit || r'.ip > r.ip
    ensures forall j :: r'.op <= j < out.Length ==> out[j] == old(out[j])
  {
    hide Body, Play, WellFormed, CopyBack, Stream, Bytes, Step, IsStream, MatchBytes, MatchStands, StartsWith, AtMatch,
      ValidMatch, AtEnd, Played, ModeAfter, Spells;
    g' := g;
    ghost var fine := IsStream(src[..inLen], ts, e);
    if fine { MatchOrEnd(r, out[..r.op], k, src[..inLen], ts, e, cap); }
    ghost var known := fine && k < |ts|;
    ghost var dist, len, n := if known then ts[k].dist else 0, if known then ts[k].len else 0,
      if known then |ts[k].tail| else 0;
    var ip, mPos, t, overrun := LocateM3(src, inLen, r.ip, r.t, r.op, dist, len, n);
    if overrun {
      r', k' := r.Fail(LZO_E_INPUT_OVERRUN), k;
    } else {
      MatchHere(r, out[..r.op], g, src, inLen, cap, ip, M3, r.op - mPos, t + 2);
      r', k', g' := FinishMatch(src, inLen, out, cap, ip, r.op, mPos, t, false, r.ip - 1,
        Match(M3, r.op - mPos, t + 2, []), k, g, ts, e);
    }
  }

  /** Branch 16 <= t < 32: a far match, or the end. */
  method M4Block(src: seq<byte>, inLen: nat, out: array<byte>, cap: nat, r: Regs, ghost k: nat, ghost g: Trace,
      ghost ts: seq<Instr>, ghost e: Ending)
    returns (r': Regs, ghost k': nat, ghost g': Trace)
    requires inLen <= |src| && Room(src, inLen, IsStream(src[..inLen], ts, e))
    requires r.op <= cap <= out.Length && r.at == AtOpcode && Stands(r, out[..r.op], k, g, src, inLen, ts, e, cap)
    requires 16 <= r.t < 32
    modifies out
    ensures r.op <= r'.op <= cap && Stands(r', out[..r'.op], k', g', src, inLen, ts, e, cap)
    ensures r'.at == Exit || r'.ip > r.ip
    ensures forall j :: r'.op <= j < out.Length ==> out[j] == old(out[j])
  {
    hide Body, Play, WellFormed, CopyBack, Stream, Bytes, Step, IsStream, MatchBytes, MatchStands, StartsWith, AtMatch,
      ValidMatch, AtEnd, Played, ModeAfter, Spells, EndBytes, Good, Expected;
    g' := g;
    ghost var fine := IsStream(src[..inLen], ts, e);
    if fine { MatchOrEnd(r, out[..r.op], k, src[..inLen], ts, e, cap); }
    ghost var end := fine && k == |ts|;
    ghost var known := fine && k < |ts|;
    ghost var dist, len, n := if known then ts[k].dist else 0, if known then ts[k].len else 0,
      if known then |ts[k].tail| else 0;
    if end { len, n := e.len, e.n; }
    var ip, mPos, t, overrun := LocateM4(src, inLen, r.ip, r.t, r.op, end, dist, len, n);
    if overrun {
      r', k' := r.Fail(LZO_E_INPUT_OVERRUN), k;
    } else if mPos == r.op {
      r' := Regs(Exit, ip, r.op, t, if ip == inLen then LZO_E_OK
        else if ip < inLen then LZO_E_INPUT_NOT_CONSUMED else LZO_E_INPUT_OVERRUN);
      if ip <= inLen {
        TraceEnd(g, out[..r.op], src, inLen, r.ip, ip, r.op, t, cap);
        g' := g.(end := Ending(t + 2, src[ip - 2] % 4, src[ip..inLen]));
      }
      if fine { ExitGood(r', out[..r.op], k, src[..inLen], ts, e, cap); }
      k' := k;
    } else {
      mPos := mPos - 0x4000;
      MatchHere(r, out[..r.op], g, src, inLen, cap, ip, M4, r.op - mPos, t + 2);
      r', k', g' := FinishMatch(src, inLen, out, cap, ip, r.op, mPos, t, false, r.ip - 1,
        Match(M4, r.op - mPos, t + 2, []), k, g, ts, e);
    }
  }

  /** Label match up to knowndone. */
  method MatchBlock(src: seq<byte>, inLen: nat, out: array<byte>, cap: nat, r: Regs, ghost k: nat, ghost g: Trace,
      ghost ts: seq<Instr>, ghost e: Ending)
    returns (r': Regs, ghost k': nat, ghost g': Trace)
    requires inLen <= |src| && Room(src, inLen, IsStream(src[..inLen], ts, e))
    requires r.op <= cap <= out.Length && r.at == AtOpcode && Stands(r, out[..r.op], k, g, src, inLen, ts, e, cap)
    modifies out
    ensures r.op <= r'.op <= cap && Stands(r', out[..r'.op], k', g', src, inLen, ts, e, cap)
    ensures r'.at == Exit || r'.ip > r.ip
    ensures forall j :: r'.op <= j < out.Length ==> out[j] == old(out[j])
  {
    hide Body, Play, WellFormed, CopyBack, Stream, Bytes, Step, IsStream, MatchBytes, MatchStands, StartsWith, AtMatch,
      ValidMatch, AtEnd, Played, ModeAfter, Spells, Good, Expected;
    g' := g;
    ghost var inp, fine := src[..inLen], IsStream(src[..inLen], ts, e);
    if fine { MatchOrEnd(r, out[..r.op], k, inp, ts, e, cap); }
    ghost var known := fine && k < |ts|;
    ghost var dist, len, n := if known then ts[k].dist else 0, if known then ts[k].len else 0,
      if known then |ts[k].tail| else 0;
    var ip, t, mPos := r.ip, r.t, 0;
    if t >= 64 {
      ip, mPos, t := LocateM2(src, inLen, ip, t, r.op, dist, len, n);
      MatchHere(r, out[..r.op], g, src, inLen, cap, ip, M2, r.op - mPos, t + 2);
      r', k', g' := FinishMatch(src, inLen, out, cap, ip, r.op, mPos, t, true, r.ip - 1,
        Match(M2, r.op - mPos, t + 2, []), k, g, ts, e);
    } else if t >= 32 {
      r', k', g' := M3Block(src, inLen, out, cap, r, k, g, ts, e);
    } else if t >= 16 {
      r', k', g' := M4Block(src, inLen, out, cap, r, k, g, ts, e);
    } else {
      r', k', g' := ShortMatch(src, inLen, out, cap, ip, r.op, 1, t, 2, k, g, ts, e);
    }
  }

  /** Label first_literal_run: the three-byte match that only occurs here, or an opcode. */
  method LongRunBlock(src: seq<byte>, inLen: nat, out: array<byte>, cap: nat, r: Regs, ghost k: nat, ghost g: Trace,
      ghost ts: seq<Instr>, ghost e: Ending)
    returns (r': Regs, ghost k': nat, ghost g': Trace)
    requires inLen <= |src| && Room(src, inLen, IsStream(src[..inLen], ts, e))
    requires r.op <= cap <= out.Length && r.at == FirstLiteralRun
      && Stands(r, out[..r.op], k, g, src, inLen, ts, e, cap)
    modifies out
    ensures r.op <= r'.op <= cap && Stands(r', out[..r'.op], k', g', src, inLen, ts, e, cap)
    ensures r'.at == Exit || r'.ip > r.ip
    ensures forall j :: r'.op <= j < out.Length ==> out[j] == old(out[j])
  {
    hide Body, Play, WellFormed, CopyBack, Stream, Bytes, Step, IsStream, MatchBytes, StartsWith, Expected, AtMatch,
      Played, ModeAfter;
    g' := g;
    StartMode(g.seen);
    if IsStream(src[..inLen], ts, e) { LongRunFacts(r, out[..r.op], k, src[..inLen], ts, e, cap); }
    var t: nat, ip := src[r.ip], r.ip + 1;
    if t >= 16 {
      r', k' := Regs(AtOpcode, ip, r.op, t, 0), k;
    } else {
      r', k', g' := ShortMatch(src, inLen, out, cap, ip, r.op, 1 + M2_MAX_OFFSET, t, 3, k, g, ts, e);
    }
  }

  /** Label knownnext: one to three literals, then the next opcode. */
  method TailBlock(src: seq<byte>, inLen: nat, out: array<byte>, cap: nat, r: Regs, ghost k: nat, ghost g: Trace,
      ghost ts: seq<Instr>, ghost e: Ending)
    returns (r': Regs, ghost g': Trace)
    requires inLen <= |src| && Room(src, inLen, IsStream(src[..inLen], ts, e))
    requires r.op <= cap <= out.Length && r.at == MatchNext && Stands(r, out[..r.op], k, g, src, inLen, ts, e, cap)
    modifies out
    ensures r.op <= r'.op <= cap && Stands(r', out[..r'.op], k + 1, g', src, inLen, ts, e, cap)
    ensures r'.at == Exit || r'.ip > r.ip
    ensures forall j :: r'.op <= j < out.Length ==> out[j] == old(out[j])
  {
    hide Body, Play, WellFormed, CopyBack, Stream, Bytes, Step, IsStream, MatchBytes, Good, Expected, StartsWith,
      Headed,
      Played, ModeAfter;
    g' := g;
    ghost var fine := IsStream(src[..inLen], ts, e);
    if fine {
      TailExit(r, out[..r.op], k, src[..inLen], ts, e, cap);
      Literals(src, inLen, r.ip, Tail(ts[k]));
    }
    var t, ip, op := r.t, r.ip, r.op;
    if HaveOp(t, cap, op) {
      r' := r.Fail(LZO_E_OUTPUT_OVERRUN);
    } else if HaveIp(t + 1, inLen, ip) {
      r' := r.Fail(LZO_E_INPUT_OVERRUN);
    } else {
      TraceTail(g, out[..op], src, inLen, ip, op + t, t, src[ip + t], cap);
      g' := g.(seen := g.seen + [Tailed(g.head, src[ip..ip + t])]);
      CopyTail(src, ip, out, op, t);
      op, ip := op + t, ip + t;
      t := src[ip];
      ip := ip + 1;
      // `while (ip < ip_end)` closes the inner loop; failing it also ends the outer one.
      if ip < inLen {
        r' := Regs(AtOpcode, ip, op, t, 0);
      } else {
        r' := r.(op := op).Fail(LZO_E_EOF_NOT_FOUND);
      }
    }
  }

  /** `*op++ = *ip++` once, twice or three times. */
  method CopyTail(inp: seq<byte>, ip0: nat, out: array<byte>, op0: nat, t: nat)
    requires 1 <= t <= 3 && ip0 + t <= |inp| && op0 + t <= out.Length
    modifies out
    ensures out[..op0 + t] == old(out[..op0]) + inp[ip0..ip0 + t]
    ensures forall j :: op0 + t <= j < out.Length ==> out[j] == old(out[j])
  {
    var op, ip := op0, ip0;
    out[op] := inp[ip];
    op, ip := op + 1, ip + 1;
    if t > 1 {
      out[op] := inp[ip];
      op, ip := op + 1, ip + 1;
      if t > 2 {
        out[op] := inp[ip];
        op, ip := op + 1, ip + 1;
      }
    }
  }

  lemma TailExit(r: Regs, done: seq<byte>, k: nat, inp: seq<byte>, ts: seq<Instr>, e: Ending, cap: nat)
    requires IsStream(inp, ts, e) && r.at == MatchNext && Good(r, done, k, inp, ts, e, cap)
    ensures k < |ts| && 1 <= r.t == |Tail(ts[k])| <= 3
    ensures StartsWith(inp, r.ip, Tail(ts[k])) && r.ip + r.t + 3 <= |inp|
    ensures |done| + r.t > cap ==> Good(r.Fail(LZO_E_OUTPUT_OVERRUN), done, k + 1, inp, ts, e, cap)
    ensures |done| + r.t <= cap ==>
      Good(Regs(AtOpcode, r.ip + r.t + 1, r.op + r.t, inp[r.ip + r.t], 0), done + Tail(ts[k]), k + 1, inp, ts, e,
        cap)
  {
    hide EndBytes, Body, Play, WellFormed, CopyBack, Stream, Bytes, Step, IsStream, MatchBytes, StartsWith, ModeAfter;
    TailFacts(r, done, k, inp, ts, e, cap);
  }

  /** The first byte tells an initial literal run (above 17) from everything else. */
  lemma StartFacts(inp: seq<byte>, ts: seq<Instr>, e: Ending, cap: nat)
    requires IsStream(inp, ts, e)
    ensures |inp| >= 3
    ensures inp[0] <= 17 ==> Good(Regs(Outer, 0, 0, 0, 0), [], 0, inp, ts, e, cap)
    ensures inp[0] > 17 ==> |ts| > 0 && ts[0].FirstRun?
    ensures inp[0] > 17 ==> var lits := ts[0].lits; var n := |lits|;
      && n == inp[0] - 17 && StartsWith(inp, 1, lits) && 1 + n + 3 <= |inp| && WellFormed(ts[..1])
      && |Body(ts[..1])| == 1 + n && ModeAfter(ts[..1]) == (if n < 4 then ShortTail else LongRun)
      && Play(ts[..1], cap) == Append([], lits, cap)
      && (!Play(ts[..1], cap).Playing? ==> Play(ts, cap) == Play(ts[..1], cap))
  {
    hide EndBytes, MatchBytes, CopyBack, Stream, RunHeader, StartsWith, Append;
    assert ts[..0] == [] && Body(ts[..0]) == [] && Play(ts[..0], cap) == Playing([]);
    if ts == [] {
      EndStands(inp, ts, e);
      assert Body(ts) == [] && inp[0] <= 17;
    } else {
      NextInstr(inp, ts, e, 0);
      PlayNext(ts, 0, cap);
      StartByte(inp, Bytes(ts[0]));
      if ts[0].FirstRun? {
        StartsWithSplit(inp, 0, [17 + |ts[0].lits|], ts[0].lits);
        if !Play(ts[..1], cap).Playing? { FailsHere(ts, e, 0, cap); }
      } else {
        FirstByte(inp, 0, ts[0]);
      }
    }
  }

  lemma StartByte(inp: seq<byte>, b: seq<byte>)
    requires StartsWith(inp, 0, b) && b != []
    ensures inp[0] == b[0]
  {
    assert inp[0] == inp[0..|b|][0];
  }

  lemma StartGood(inp: seq<byte>, ts: seq<Instr>, e: Ending, cap: nat)
    requires IsStream(inp, ts, e) && |inp| >= 1 && inp[0] > 17
    ensures |ts| > 0 && ts[0].FirstRun? && StartsWith(inp, 1, ts[0].lits) && |ts[0].lits| == inp[0] - 17
    ensures 1 + |ts[0].lits| + 3 <= |inp|
    ensures var lits := ts[0].lits; var n := |lits|;
      && (n < 4 ==> Good(Regs(MatchNext, 1, 0, n, 0), [], 0, inp, ts, e, cap))
      && (n > cap ==> Good(Regs(MatchNext, 1, 0, n, 0).Fail(LZO_E_OUTPUT_OVERRUN), [], 0, inp, ts, e, cap))
      && (4 <= n <= cap ==> Good(Regs(FirstLiteralRun, 1 + n, n, 0, 0), lits, 1, inp, ts, e, cap))
  {
    hide EndBytes, Body, WellFormed, Bytes, Stream, ModeAfter, MatchBytes, CopyBack, StartsWith, IsStream, RunHeader,
      Append,
      Step, Play;
    StartFacts(inp, ts, e, cap);
    assert ts[..0] == [];
    EmptyPrefix(cap);
    StartStep(ts[0], cap);
  }

  lemma StartStep(t: Instr, cap: nat)
    requires t.FirstRun?
    ensures Step([], t, cap) == Append([], t.lits, cap)
    ensures Append([], t.lits, cap) == if |t.lits| > cap then OutputOverrun([]) else Playing(t.lits)
  {
    assert [] + t.lits == t.lits;
  }

  lemma EmptyPrefix(cap: nat)
    ensures WellFormed([]) && Play([], cap) == Playing([])
  {
  }

  const NO_TRACE := Trace([], FirstRun([]), Ending(3, 0, []))

  lemma TraceStart(src: seq<byte>, inLen: nat, cap: nat)
    requires 0 < inLen <= |src|
    ensures src[0] <= 17 ==> Traced(Regs(Outer, 0, 0, 0, 0), [], NO_TRACE, src, inLen, cap)
    ensures 18 <= src[0] <= 20 ==> Traced(Regs(MatchNext, 1, 0, src[0] - 17, 0), [], NO_TRACE, src, inLen, cap)
  {
    EmptyPrefix(cap);
    EmptyBody();
    assert src[..0] == [] && src[..1] == [src[0]];
  }

  lemma FirstMeans(lits: seq<byte>, cap: nat)
    requires 4 <= |lits| <= 238 && |lits| <= cap
    ensures var i := FirstRun(lits);
      && Played([i], [17 + |lits|] + lits, lits, cap) && ModeAfter([i]) == LongRun
  {
    hide Body, Play, WellFormed, Bytes, Step;
    EmptyPrefix(cap);
    EmptyBody();
    Extend([], FirstRun(lits), cap);
    StartStep(FirstRun(lits), cap);
    assert Bytes(FirstRun(lits)) == [17 + |lits|] + lits by { FirstBytes(lits); }
    assert [] + [FirstRun(lits)] == [FirstRun(lits)] && [] + ([17 + |lits|] + lits) == [17 + |lits|] + lits;
  }

  lemma TraceFirst(src: seq<byte>, inLen: nat, t: nat, cap: nat)
    requires 0 < inLen <= |src| && src[0] == 17 + t && 4 <= t <= cap && 1 + t <= |src|
    ensures var lits := src[1..1 + t];
      Traced(Regs(FirstLiteralRun, 1 + t, t, 0, 0), lits, NO_TRACE.(seen := [FirstRun(lits)]), src, inLen, cap)
  {
    hide Played, ModeAfter;
    var lits := src[1..1 + t];
    FirstMeans(lits, cap);
    assert src[..1 + t] == [17 + t] + lits;
  }

  /** The code in front of the loop. */
  method StartBlock(src: seq<byte>, inLen: nat, out: array<byte>, cap: nat, ghost ts: seq<Instr>, ghost e: Ending)
    returns (r: Regs, ghost k: nat, ghost g: Trace)
    requires 0 < inLen <= |src| && Room(src, inLen, IsStream(src[..inLen], ts, e)) && cap <= out.Length
    modifies out
    ensures r.op <= cap && Stands(r, out[..r.op], k, g, src, inLen, ts, e, cap)
    ensures forall j :: r.op <= j < out.Length ==> out[j] == old(out[j])
  {
    hide Body, Play, WellFormed, CopyBack, Stream, Bytes, Step, IsStream, MatchBytes, Good, Expected, ModeAfter,
      StartsWith, Played, Headed;
    ghost var fine := IsStream(src[..inLen], ts, e);
    k, g := 0, NO_TRACE;
    TraceStart(src, inLen, cap);
    if fine { StartFacts(src[..inLen], ts, e, cap); }
    assert out[..0] == [];
    if src[0] > 17 {
      if fine {
        StartGood(src[..inLen], ts, e, cap);
        Literals(src, inLen, 1, ts[0].lits);
      }
      var t: nat, ip: nat := src[0] - 17, 1;
      var here := Regs(MatchNext, ip, 0, t, 0);
      if t < 4 {
        r := here;
      } else if HaveOp(t, cap, 0) {
        r := here.Fail(LZO_E_OUTPUT_OVERRUN);
      } else if HaveIp(t + 1, inLen, ip) {
        r := here.Fail(LZO_E_INPUT_OVERRUN);
      } else {
        CopyBytes(src, ip, out, 0, t);
        assert out[..t] == src[ip..ip + t];
        TraceFirst(src, inLen, t, cap);
        g := NO_TRACE.(seen := [FirstRun(src[1..1 + t])]);
        r, k := Regs(FirstLiteralRun, ip + t, t, 0, 0), 1;
      }
    } else {
      r := Regs(Outer, 0, 0, 0, 0);
    }
  }

  /** lzo1x_decompress_safe on any input but an empty one.  `src` is memory from the input on, of which
      inLen bytes are the input; unless that is a complete stream, up to six bytes behind it may
      be read.  `cap` is the caller's *out_len; the answers are the return value and the new
      *out_len.  Bytes behind the answered length are not written. */
  method DecompressSafe(src: seq<byte>, inLen: nat, out: array<byte>, cap: nat, ghost ts: seq<Instr>,
      ghost e: Ending)
    returns (ret: int, outLen: nat, ghost seen: seq<Instr>, ghost end: Ending)
    requires 0 < inLen <= |src| && Room(src, inLen, IsStream(src[..inLen], ts, e)) && cap <= out.Length
    modifies out
    ensures outLen <= cap && ret in RESULTS
    ensures forall j :: outLen <= j < out.Length ==> out[j] == old(out[j])
    ensures IsStream(src[..inLen], ts, e) ==> (ret, out[..outLen]) == Expected(ts, e, cap)
    ensures ret == LZO_E_OK || ret == LZO_E_INPUT_NOT_CONSUMED ==>
      IsStream(src[..inLen], seen, end) && (ret, out[..outLen]) == Expected(seen, end, cap)
  {
    hide Body, Play, WellFormed, CopyBack, Stream, Bytes, Step, IsStream, MatchBytes, Expected, ModeAfter, StartsWith,
      Played, Headed;
    var r; ghost var k, g;
    r, k, g := StartBlock(src, inLen, out, cap, ts, e);
    while r.at != Exit
      invariant r.op <= cap && Stands(r, out[..r.op], k, g, src, inLen, ts, e, cap)
      invariant forall j :: r.op <= j < out.Length ==> out[j] == old(out[j])
      decreases r.at != Exit, inLen + BEHIND - r.ip
    {
      match r.at
      case Outer =>
        if IsStream(src[..inLen], ts, e) { OuterFacts(r, out[..r.op], k, src[..inLen], ts, e, cap); }
        if r.ip >= inLen {
          r := r.Fail(LZO_E_EOF_NOT_FOUND);
        } else if src[r.ip] >= 16 {
          r := Regs(AtOpcode, r.ip + 1, r.op, src[r.ip], 0);
        } else {
          r, g := RunBlock(src, inLen, out, cap, r, k, g, ts, e);
          k := k + 1;
        }
      case FirstLiteralRun => r, k, g := LongRunBlock(src, inLen, out, cap, r, k, g, ts, e);
      case AtOpcode => r, k, g := MatchBlock(src, inLen, out, cap, r, k, g, ts, e);
      case MatchNext =>
        r, g := TailBlock(src, inLen, out, cap, r, k, g, ts, e);
        k := k + 1;
    }
    ret, outLen, seen, end := r.ret, r.op, g.seen, g.end;
  }
}
