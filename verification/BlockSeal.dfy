/** Sealing a data block with trial compression, and inflating it again (src/sstable.rs). */
module BlockSeal {
  import opened Keys
  import opened Lz77

  /** The last two bytes of a block body: the restart count, or the compression flag and length. */
  function Trailer(body: Bytes): nat
    requires |body| >= 2
  {
    body[|body| - 2] as nat + 256 * body[|body| - 1] as nat
  }

  const FLAG := 0x8000

  /** What a physical body stands for. */
  function Logical(raw: Bytes): Option<Bytes>
    requires |raw| >= 2
  {
    if Trailer(raw) < 0x8000 then Some(raw)
    else
      var clen := Trailer(raw) - 0x8000;
      if clen >= |raw| then None
      else var e := Expand(raw[..clen], [], |raw|); if e.Ok? then Some(e.out) else None
  }

  /** A compressed body: the stream, zeros, and the flagged length. */
  function Flagged(stream: Bytes, n: nat): (raw: Bytes)
    requires |stream| + 2 <= n && |stream| < FLAG
    ensures |raw| == n && raw[..|stream|] == stream && Trailer(raw) == 0x8000 + |stream|
    ensures forall i :: |stream| <= i < n - 2 ==> raw[i] == 0
  {
    var v := FLAG + |stream|;
    var raw := stream + seq(n - |stream| - 2, _ => 0) + [(v % 256) as Byte, (v / 256) as Byte];
    assert raw[..|stream|] == stream;
    raw
  }

  /** `seal_block`: the body written stands for the body given, and is the compressed one exactly when that saves enough
      and its length fits the flag. A restart count is at most 128, so the flag bit of a plain body is clear. */
  method Seal(cs: CompressScratch, body: Bytes) returns (raw: Bytes)
    requires cs.Valid() && |body| >= 2 && Trailer(body) < FLAG
    modifies cs, cs.head, cs.out
    ensures |raw| == |body| && Logical(raw) == Some(body)
    ensures raw == if |body| + 4 == cs.block && |GreedyStream(body)| + 128 <= |body| && |GreedyStream(body)| < 0x8000
                   then Flagged(GreedyStream(body), |body|) else body
  {
    hide Expand, Greedy;
    var r := cs.Compress(body);
    if r.None? {
      return body;
    }
    return Flagged(cs.out[..cs.outLen], |body|);
  }

  /** `inflate_data_block`: any body at all is inflated, or refused, as it stands. */
  method Inflate(raw: Bytes) returns (r: Option<Bytes>)
    requires |raw| >= 2
    ensures r == Logical(raw)
  {
    hide Expand;
    var trailer := Trailer(raw);
    if trailer < FLAG {
      return Some(raw);
    }
    var clen := trailer - FLAG;
    if clen >= |raw| {
      return None;
    }
    var dst := new Byte[|raw|](_ => 0);
    var status := Decompress(raw[..clen], dst);
    return if status.Done? then Some(dst[..]) else None;
  }
}
