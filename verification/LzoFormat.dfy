/** The LZO1X stream format: a stream is a list of instructions followed by an
    end marker.  `Body` says how instructions are laid out as bytes, `Play` what
    they mean.  Neither mentions the compressor or the decompressor. */
module LzoFormat {

  import Octets

  type byte = Octets.byte

  const M2_MAX_OFFSET := 0x800
  const M3_MAX_OFFSET := 0x4000
  const M4_MAX_OFFSET := 0xbfff

  const END_MARKER: seq<byte> := [17, 0, 0]

  /** The five shapes of a match.  The first two reuse small opcodes and are only
      recognised directly after literals. */
  datatype Form = AfterTail | AfterRun | M2 | M3 | M4

  datatype Instr =
    | FirstRun(lits: seq<byte>)
    | Run(lits: seq<byte>)
    | Match(form: Form, dist: nat, len: nat, tail: seq<byte>)

  /** What precedes an instruction decides which opcodes are legal. */
  datatype Mode = Start | Top | LongRun | ShortTail

  function ModeAfter(ts: seq<Instr>): Mode {
    if ts == [] then Start
    else
      match ts[|ts| - 1]
      case FirstRun(lits) => if |lits| < 4 then ShortTail else LongRun
      case Run(_) => LongRun
      case Match(_, _, _, tail) => if tail == [] then Top else ShortTail
  }

  predicate ValidMatch(form: Form, dist: nat, len: nat) {
    match form
    case AfterTail => 1 <= dist <= 0x400 && len == 2
    case AfterRun => M2_MAX_OFFSET < dist <= M2_MAX_OFFSET + 0x400 && len == 3
    case M2 => 1 <= dist <= M2_MAX_OFFSET && 3 <= len <= 8
    case M3 => 1 <= dist <= M3_MAX_OFFSET && 3 <= len
    case M4 => M3_MAX_OFFSET < dist <= M4_MAX_OFFSET && 3 <= len
  }

  predicate Encodable(t: Instr) {
    match t
    case FirstRun(lits) => 1 <= |lits| <= 238
    case Run(lits) => 4 <= |lits|
    case Match(form, dist, len, tail) => ValidMatch(form, dist, len) && |tail| <= 3
  }

  predicate Allowed(mode: Mode, t: Instr) {
    && Encodable(t)
    && match t
       case FirstRun(_) => mode == Start
       case Run(_) => mode == Start || mode == Top
       case Match(form, _, _, _) =>
         && mode != Start
         && (form == AfterTail ==> mode == ShortTail)
         && (form == AfterRun ==> mode == LongRun)
  }

  predicate WellFormed(ts: seq<Instr>) {
    ts == [] || (WellFormed(ts[..|ts| - 1]) && Allowed(ModeAfter(ts[..|ts| - 1]), ts[|ts| - 1]))
  }

  // ---------------------------------------------------------------- layout

  /** A positive count as zero bytes worth 255 each and a final non-zero byte. */
  function Ext(k: nat): (bytes: seq<byte>)
    requires k >= 1
    ensures |bytes| >= 1
  {
    if k > 255 then [0] + Ext(k - 255) else [k]
  }

  function RunHeader(n: nat): seq<byte>
    requires n >= 4
  {
    if n <= 18 then [n - 3] else [0] + Ext(n - 18)
  }

  /** Opcode and, for long matches, the extension bytes; `short` is the longest length
      that fits into the opcode. */
  function LongOpcode(marker: nat, len: nat, short: nat): (bytes: seq<byte>)
    requires 2 <= short && marker + short - 2 < 256 && 3 <= len
    ensures |bytes| >= 1
  {
    if len <= short then [marker + len - 2] else [marker] + Ext(len - short)
  }

  /** The bytes of a match whose two low count bits are `n`. */
  function MatchBytes(form: Form, dist: nat, len: nat, n: nat): (bytes: seq<byte>)
    requires ValidMatch(form, dist, len) && n <= 3
    ensures |bytes| >= 2
  {
    match form
    case AfterTail => [(dist - 1) % 4 * 4 + n, (dist - 1) / 4]
    case AfterRun => [(dist - 0x801) % 4 * 4 + n, (dist - 0x801) / 4]
    case M2 => [(len - 1) * 32 + (dist - 1) % 8 * 4 + n, (dist - 1) / 8]
    case M3 => LongOpcode(32, len, 33) + [(dist - 1) % 64 * 4 + n, (dist - 1) / 64]
    case M4 =>
      var d := dist - 0x4000;
      LongOpcode(16 + d / 0x4000 * 8, len, 9) + [d % 64 * 4 + n, d / 64 % 256]
  }

  function Bytes(t: Instr): (bytes: seq<byte>)
    requires Encodable(t)
    ensures |bytes| >= 2
  {
    match t
    case FirstRun(lits) => [17 + |lits|] + lits
    case Run(lits) => RunHeader(|lits|) + lits
    case Match(form, dist, len, tail) => MatchBytes(form, dist, len, |tail|) + tail
  }

  function Body(ts: seq<Instr>): seq<byte>
    requires WellFormed(ts)
  {
    if ts == [] then [] else Body(ts[..|ts| - 1]) + Bytes(ts[|ts| - 1])
  }

  function Stream(ts: seq<Instr>): seq<byte>
    requires WellFormed(ts)
  {
    Body(ts) + END_MARKER
  }

  // --------------------------------------------------------------- meaning

  /** The output after copying `len` bytes from `dist` back, one byte at a time, so that
      a match may run into bytes it has itself produced. */
  function CopyBack(out: seq<byte>, dist: nat, len: nat): (r: seq<byte>)
    requires 1 <= dist <= |out|
    ensures |r| == |out| + len && out <= r
  {
    if len == 0 then out
    else
      var p := CopyBack(out, dist, len - 1);
      p + [p[|p| - dist]]
  }

  datatype Outcome =
    | Playing(out: seq<byte>)
    | OutputOverrun(out: seq<byte>)
    | LookbehindOverrun(out: seq<byte>)

  function Append(out: seq<byte>, lits: seq<byte>, cap: nat): Outcome {
    if |out| + |lits| > cap then OutputOverrun(out) else Playing(out + lits)
  }

  /** One instruction against a buffer of `cap` bytes of which `out` is written. */
  function Step(out: seq<byte>, t: Instr, cap: nat): Outcome {
    match t
    case FirstRun(lits) => Append(out, lits, cap)
    case Run(lits) => Append(out, lits, cap)
    case Match(form, dist, len, tail) =>
      if dist == 0 || dist > |out| then LookbehindOverrun(out)
      else if |out| + len > cap then OutputOverrun(out)
      else if tail == [] then Playing(CopyBack(out, dist, len))
      else Append(CopyBack(out, dist, len), tail, cap)
  }

  function Play(ts: seq<Instr>, cap: nat): Outcome {
    if ts == [] then Playing([])
    else
      var before := Play(ts[..|ts| - 1], cap);
      if before.Playing? then Step(before.out, ts[|ts| - 1], cap) else before
  }

  /** A stretch of the output that is copied: where it is, from how far back, and its length. */
  datatype Copy = Copy(at: nat, dist: nat, len: nat)

  function Copies(ts: seq<Instr>, cap: nat): seq<Copy> {
    if ts == [] then []
    else
      var before := ts[..|ts| - 1];
      match ts[|ts| - 1]
      case Match(_, dist, len, _) => Copies(before, cap) + [Copy(|Play(before, cap).out|, dist, len)]
      case _ => Copies(before, cap)
  }

  // ------------------------------------------------------------ properties

  lemma {:induction false} WellFormedPrefix(ts: seq<Instr>, k: nat)
    requires WellFormed(ts) && k <= |ts|
    ensures WellFormed(ts[..k]) && Body(ts[..k]) <= Body(ts)
  {
    if k == |ts| {
      assert ts[..k] == ts;
    } else {
      WellFormedPrefix(ts[..|ts| - 1], k);
      assert ts[..|ts| - 1][..k] == ts[..k];
    }
  }

  /** The first instruction that fails decides the outcome of the whole list. */
  lemma {:induction false} FailureIsFinal(ts: seq<Instr>, k: nat, cap: nat)
    requires k <= |ts| && !Play(ts[..k], cap).Playing?
    ensures Play(ts, cap) == Play(ts[..k], cap)
  {
    if k == |ts| {
      assert ts[..k] == ts;
    } else {
      assert ts[..|ts| - 1][..k] == ts[..k];
      FailureIsFinal(ts[..|ts| - 1], k, cap);
    }
  }

  lemma {:induction false} PlayFits(ts: seq<Instr>, cap: nat)
    ensures |Play(ts, cap).out| <= cap
  {
    if ts != [] { PlayFits(ts[..|ts| - 1], cap); }
  }

  /** Copying back over a region that already repeats `dist` bytes earlier continues it. */
  lemma {:induction false} CopyBackRepeats(whole: seq<byte>, p: nat, dist: nat, len: nat)
    requires 1 <= dist <= p && p + len <= |whole|
    requires forall j :: p <= j < p + len ==> whole[j] == whole[j - dist]
    ensures CopyBack(whole[..p], dist, len) == whole[..p + len]
  {
    if len > 0 {
      CopyBackRepeats(whole, p, dist, len - 1);
      assert whole[..p + len] == whole[..p + len - 1] + [whole[p + len - 1]];
    }
  }
}
