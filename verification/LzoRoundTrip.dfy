/** Compression followed by decompression is the identity. */
module LzoRoundTrip {
  import opened LzoFormat
  import opened LzoMachine
  import LzoDecompress
  import LzoCompress

  /** For every input and every content of the dictionary: the decompressor, given a buffer
      of the input's length, consumes the whole stream, answers LZO_E_OK and reproduces
      the input. */
  method RoundTrip(inp: seq<byte>, comp: array<byte>, dict: array<LzoCompress.Slot>, out: array<byte>)
    returns (ret: int, outLen: nat)
    requires |inp| < 0x1000_0000_0000_0000 && comp.Length >= |inp| + |inp| / 16 + 64 + 3
    requires dict.Length == LzoCompress.D_SIZE && out.Length >= |inp|
    requires dict as object != comp && dict as object != out && comp != out
    modifies comp, dict, out
    ensures ret == LzoDecompress.LZO_E_OK && outLen == |inp| && out[..outLen] == inp
  {
    hide Stream, Play, WellFormed, IsStream;
    var compLen, ts := LzoCompress.Compress(inp, comp, dict);
    CompleteStream(comp[..compLen], ts);
    ghost var seen, end;
    ret, outLen, seen, end := DecompressSafe(comp[..compLen], compLen, out, |inp|, ts, COMPLETE);
  }
}
