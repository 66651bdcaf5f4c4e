/** The block compressor (src/compress.rs): what the decoder makes of a stream, and what the encoder writes. */
module Lz77 {
  import opened Keys

  type Bytes = seq<Byte>

  const MIN_MATCH := 4
  const MAX_MATCH := 0x1_0000
  const WINDOW := 32768
  const HASH_SIZE := 1024
  const MIN_SAVING := 128
  const LENGTH_LIMIT := 0x8000
  /** Extension bytes are not added up past this. */
  const EXT_CAP := 0x100_0000

  datatype Outcome = Ok(out: Bytes) | Truncated | Invalid

  datatype Ext = Ext(total: nat, rest: Bytes)

  // What a stream means.

  /** `read_ext`. */
  function ReadExt(s: Bytes, total: nat): (r: Option<Ext>)
    ensures r.Some? ==> |r.value.rest| < |s|
  {
    if s == [] then None
    else
      var t := total + s[0] as nat;
      if s[0] != 255 || t > 0x100_0000 then Some(Ext(t, s[1..])) else ReadExt(s[1..], t)
  }

  /** A nibble, with its extension bytes when it is full. */
  function ReadLength(nibble: nat, s: Bytes): (r: Option<Ext>)
    ensures r.Some? ==> |r.value.rest| <= |s|
  {
    if nibble < 15 then Some(Ext(nibble, s))
    else var e := ReadExt(s, 0); if e.None? then None else Some(Ext(15 + e.value.total, e.value.rest))
  }

  /** Appends `len` bytes from `offset` back, each visible to the next. */
  function CopyBack(out: Bytes, offset: nat, len: nat): (r: Bytes)
    requires 0 < offset <= |out|
    ensures |r| == |out| + len && r[..|out|] == out
    decreases len
  {
    if len == 0 then out
    else
      var next := out + [out[|out| - offset]];
      var r := CopyBack(next, offset, len - 1);
      assert r[..|out|] == r[..|next|][..|out|];
      r
  }

  /** Decoding `s` behind `out`, up to `n` bytes. */
  function Expand(s: Bytes, out: Bytes, n: nat): (r: Outcome)
    requires |out| <= n
    ensures r.Ok? ==> |r.out| == n
    decreases |s|
  {
    if |out| == n then Ok(out)
    else if s == [] then Truncated
    else
      var lit := ReadLength(s[0] as nat / 16, s[1..]);
      if lit.None? then Truncated
      else if lit.value.total > n - |out| then Invalid
      else if lit.value.total > |lit.value.rest| then Truncated
      else
        var out1, s1 := out + lit.value.rest[..lit.value.total], lit.value.rest[lit.value.total..];
        if |out1| == n then Ok(out1) else ExpandMatch(s[0] as nat % 16, s1, out1, n)
  }

  /** The match part of a token. */
  function ExpandMatch(nibble: nat, s: Bytes, out: Bytes, n: nat): (r: Outcome)
    requires |out| < n
    ensures r.Ok? ==> |r.out| == n
    decreases |s|
  {
    var len := ReadLength(nibble, s);
    if len.None? || |len.value.rest| < 2 then Truncated
    else
      var m, rest := len.value.total + 4, len.value.rest;
      var offset := rest[0] as nat + 256 * rest[1] as nat;
      if offset == 0 || offset > |out| || m > n - |out| then Invalid
      else Expand(rest[2..], CopyBack(out, offset, m), n)
  }

  // What the encoder writes.

  function ExtBytes(rem: nat): Bytes {
    if rem >= 255 then [255] + ExtBytes(rem - 255) else [rem as Byte]
  }

  /** `emit_ext`. */
  function LengthBytes(len: nat): Bytes {
    if len < 15 then [] else ExtBytes(len - 15)
  }

  function Nibble(len: nat): nat {
    if len < 15 then len else 15
  }

  function Tag(lit: nat, m: nat): Byte {
    (16 * Nibble(lit) + Nibble(m)) as Byte
  }

  /** A token up to its literals. */
  function Literals(lits: Bytes, e: nat): Bytes {
    [Tag(|lits|, e)] + LengthBytes(|lits|) + lits
  }

  function OffsetBytes(offset: nat): Bytes
    requires offset < 0x1_0000
  {
    [(offset % 256) as Byte, (offset / 256) as Byte]
  }

  /** A token with a match of `e` bytes more than the least. */
  function Token(lits: Bytes, e: nat, offset: nat): Bytes
    requires offset < 0x1_0000
  {
    Literals(lits, e) + (LengthBytes(e) + OffsetBytes(offset))
  }

  lemma {:induction false} ReadExtBytes(rem: nat, rest: Bytes, total: nat)
    requires total + rem <= EXT_CAP
    ensures ReadExt(ExtBytes(rem) + rest, total) == Some(Ext(total + rem, rest))
    decreases rem
  {
    if rem >= 255 {
      ReadExtBytes(rem - 255, rest, total + 255);
      assert (ExtBytes(rem) + rest)[1..] == ExtBytes(rem - 255) + rest;
    } else {
      assert (ExtBytes(rem) + rest)[1..] == rest;
    }
  }

  lemma ReadLengthBytes(len: nat, rest: Bytes)
    requires len <= EXT_CAP
    ensures ReadLength(Nibble(len), LengthBytes(len) + rest) == Some(Ext(len, rest))
  {
    if len >= 15 {
      ReadExtBytes(len - 15, rest, 0);
    } else {
      assert LengthBytes(len) + rest == rest;
    }
  }

  lemma TagNibbles(lit: nat, m: nat)
    ensures Tag(lit, m) as nat / 16 == Nibble(lit) && Tag(lit, m) as nat % 16 == Nibble(m)
  {}

  /** Literals are decoded as they are. */
  lemma ExpandLiterals(lits: Bytes, e: nat, s: Bytes, out: Bytes, n: nat)
    requires |out| + |lits| <= n && |out| < n && |lits| <= EXT_CAP
    ensures Expand(Literals(lits, e) + s, out, n) ==
            if |out| + |lits| == n then Ok(out + lits) else ExpandMatch(Nibble(e), s, out + lits, n)
  {
    hide Tag, ReadLength, ExpandMatch;
    var t := Literals(lits, e) + s;
    TagNibbles(|lits|, e);
    assert t[0] == Tag(|lits|, e);
    assert t[1..] == LengthBytes(|lits|) + (lits + s);
    ReadLengthBytes(|lits|, lits + s);
    assert (lits + s)[..|lits|] == lits && (lits + s)[|lits|..] == s;
  }

  lemma OffsetRoundTrip(offset: nat)
    requires offset < 0x1_0000
    ensures OffsetBytes(offset)[0] as nat + 256 * OffsetBytes(offset)[1] as nat == offset
  {}

  lemma ExpandToken(lits: Bytes, e: nat, offset: nat, s: Bytes, out: Bytes, n: nat)
    requires |out| + |lits| + e + MIN_MATCH <= n && |lits| <= EXT_CAP && e <= EXT_CAP
    requires 0 < offset < 0x1_0000 && offset <= |out| + |lits|
    ensures Expand(Token(lits, e, offset) + s, out, n) == Expand(s, CopyBack(out + lits, offset, e + MIN_MATCH), n)
  {
    hide Expand, ReadLength, LengthBytes, CopyBack, Literals, OffsetBytes;
    var tail := LengthBytes(e) + OffsetBytes(offset);
    assert Token(lits, e, offset) + s == Literals(lits, e) + (tail + s);
    ExpandLiterals(lits, e, tail + s, out, n);
    assert tail + s == LengthBytes(e) + (OffsetBytes(offset) + s);
    ReadLengthBytes(e, OffsetBytes(offset) + s);
    OffsetRoundTrip(offset);
    OffsetShape(offset, s);
  }

  lemma OffsetShape(offset: nat, s: Bytes)
    requires offset < 0x1_0000
    ensures |OffsetBytes(offset)| == 2 && (OffsetBytes(offset) + s)[2..] == s
    ensures (OffsetBytes(offset) + s)[0] == OffsetBytes(offset)[0]
            && (OffsetBytes(offset) + s)[1] == OffsetBytes(offset)[1]
  {}

  /** `len` bytes at `pos` are those at `ip`. */
  ghost predicate Match(src: Bytes, pos: nat, ip: nat, len: nat) {
    pos < ip && ip + len <= |src| && src[pos .. pos + len] == src[ip .. ip + len]
  }

  /** Copying back a match of the source gives the source, overlapping or not. */
  lemma {:induction false} CopyMatch(src: Bytes, pos: nat, ip: nat, len: nat)
    requires Match(src, pos, ip, len)
    ensures CopyBack(src[..ip], ip - pos, len) == src[..ip + len]
    decreases len
  {
    if len > 0 {
      MatchNext(src, pos, ip, len);
      CopyMatch(src, pos + 1, ip + 1, len - 1);
      hide Match;
      assert src[..ip] + [src[ip]] == src[..ip + 1] && src[..ip][pos] == src[ip];
    }
  }

  lemma MatchNext(src: Bytes, pos: nat, ip: nat, len: nat)
    requires Match(src, pos, ip, len) && len > 0
    ensures src[pos] == src[ip] && Match(src, pos + 1, ip + 1, len - 1)
  {
    var a, b := src[pos .. pos + len], src[ip .. ip + len];
    assert a[0] == b[0];
    assert src[pos + 1 .. pos + len] == a[1..] && src[ip + 1 .. ip + len] == b[1..];
  }

  /** `e` stands for the first `a` bytes of `src`: whatever follows it is decoded behind them. */
  ghost predicate Encodes(e: Bytes, src: Bytes, a: nat) {
    a <= |src| && forall s: Bytes :: Expand(e + s, [], |src|) == Expand(s, src[..a], |src|)
  }

  lemma EncodesNothing(src: Bytes)
    ensures Encodes([], src, 0)
  {
    hide Expand;
    forall s: Bytes ensures Expand([] + s, [], |src|) == Expand(s, src[..0], |src|) {
      assert [] + s == s && src[..0] == [];
    }
  }

  /** A token for the pending literals and a match takes the encoding on to the end of the match. */
  lemma EncodesToken(e: Bytes, src: Bytes, anchor: nat, pos: nat, ip: nat, len: nat)
    requires Encodes(e, src, anchor) && anchor <= ip && Match(src, pos, ip, len) && ip - pos <= WINDOW
    requires MIN_MATCH <= len <= MAX_MATCH && ip - anchor <= EXT_CAP
    ensures Encodes(e + Token(src[anchor..ip], len - MIN_MATCH, ip - pos), src, ip + len)
  {
    hide Expand, Token, CopyBack;
    var t := Token(src[anchor..ip], len - MIN_MATCH, ip - pos);
    forall s: Bytes ensures Expand(e + t + s, [], |src|) == Expand(s, src[..ip + len], |src|) {
      assert e + t + s == e + (t + s);
      ExpandToken(src[anchor..ip], len - MIN_MATCH, ip - pos, s, src[..anchor], |src|);
      assert src[..anchor] + src[anchor..ip] == src[..ip];
      CopyMatch(src, pos, ip, len);
    }
  }

  /** The closing literals complete the source. */
  lemma EncodesRest(e: Bytes, src: Bytes, anchor: nat)
    requires Encodes(e, src, anchor) && |src| - anchor <= EXT_CAP
    ensures Expand(e + Literals(src[anchor..], 0), [], |src|) == Ok(src)
  {
    hide Literals, ExpandMatch;
    var t := Literals(src[anchor..], 0);
    assert e + t == e + (t + []) && t + [] == t;
    if anchor == |src| {
      assert src[..anchor] == src;
    } else {
      ExpandLiterals(src[anchor..], 0, [], src[..anchor], |src|);
      assert src[..anchor] + src[anchor..] == src;
    }
  }

  // The decoder.

  datatype Status = Done | Short | Bad

  ghost predicate Agrees(e: Outcome, r: Status, out: Bytes) {
    match e
    case Ok(x) => r == Done && out == x
    case Truncated => r == Short
    case Invalid => r == Bad
  }

  method ReadExtAt(src: Bytes, start: nat) returns (ok: bool, total: nat, sp: nat)
    requires start <= |src|
    ensures start <= sp <= |src|
    ensures ReadExt(src[start..], 0) == if ok then Some(Ext(total, src[sp..])) else None
  {
    sp, total := start, 0;
    while sp < |src|
      invariant start <= sp <= |src|
      invariant ReadExt(src[start..], 0) == ReadExt(src[sp..], total)
    {
      var b := src[sp];
      assert src[sp..][1..] == src[sp + 1..];
      sp := sp + 1;
      total := total + b as nat;
      if b != 255 || total > EXT_CAP {
        return true, total, sp;
      }
    }
    return false, total, sp;
  }

  method ReadLengthAt(nibble: nat, src: Bytes, start: nat) returns (ok: bool, total: nat, sp: nat)
    requires start <= |src|
    ensures start <= sp <= |src|
    ensures ReadLength(nibble, src[start..]) == if ok then Some(Ext(total, src[sp..])) else None
  {
    if nibble < 15 {
      return true, nibble, start;
    }
    ok, total, sp := ReadExtAt(src, start);
    total := total + 15;
  }

  /** When source and destination do not overlap, copying back is one copy. */
  lemma {:induction false} CopyDisjoint(out: Bytes, offset: nat, len: nat)
    requires 0 < offset <= |out| && len <= offset
    ensures CopyBack(out, offset, len) == out + out[|out| - offset .. |out| - offset + len]
    decreases len
  {
    if len > 0 {
      var at, next := |out| - offset, out + [out[|out| - offset]];
      CopyDisjoint(next, offset, len - 1);
      DisjointStep(out, next, offset, len);
    }
  }

  lemma DisjointStep(out: Bytes, next: Bytes, offset: nat, len: nat)
    requires 0 < offset <= |out| && 0 < len <= offset && next == out + [out[|out| - offset]]
    ensures next + next[|next| - offset .. |next| - offset + len - 1] == out
            + out[|out| - offset .. |out| - offset + len]
  {
    var at := |out| - offset;
    assert next[|next| - offset .. |next| - offset + len - 1] == out[at + 1 .. at + len];
    assert [out[at]] + out[at + 1 .. at + len] == out[at .. at + len];
  }

  lemma {:induction false} CopyStep(out: Bytes, offset: nat, len: nat)
    requires 0 < offset <= |out|
    ensures var r := CopyBack(out, offset, len); CopyBack(out, offset, len + 1) == r + [r[|r| - offset]]
    decreases len
  {
    if len > 0 {
      CopyStep(out + [out[|out| - offset]], offset, len - 1);
    } else {
      assert CopyBack(out + [out[|out| - offset]], offset, 0) == out + [out[|out| - offset]];
    }
  }

  /** The match copy: at once when it can be, else byte by byte. */
  method CopyWithin(dst: array<Byte>, dp: nat, offset: nat, len: nat)
    requires 0 < offset <= dp && dp + len <= dst.Length
    modifies dst
    ensures dst[..dp + len] == CopyBack(old(dst[..dp]), offset, len)
  {
    hide CopyBack;
    if offset >= len {
      CopyDisjoint(dst[..dp], offset, len);
      CopyIn(dst, dp, dst[dp - offset .. dp - offset + len]);
      assert old(dst[..dp])[dp - offset .. dp - offset + len] == old(dst[dp - offset .. dp - offset + len]);
    } else {
      CopyBytes(dst, dp, offset, len);
    }
  }

  /** Each byte copied becomes visible to the ones after it. */
  method CopyBytes(dst: array<Byte>, dp: nat, offset: nat, len: nat)
    requires 0 < offset <= dp && dp + len <= dst.Length
    modifies dst
    ensures dst[..dp + len] == CopyBack(old(dst[..dp]), offset, len)
  {
    ghost var out := dst[..dp];
    assert CopyBack(out, offset, 0) == out;
    hide CopyBack;
    var i: nat := 0;
    while i < len
      invariant i <= len && dst[..dp + i] == CopyBack(out, offset, i)
    {
      CopyStep(out, offset, i);
      ghost var r := dst[..dp + i];
      dst[dp + i] := dst[dp - offset + i];
      assert dst[..dp + i + 1] == r + [r[|r| - offset]];
      i := i + 1;
    }
  }

  /** Copies literals into place. */
  method CopyIn(dst: array<Byte>, dp: nat, lits: Bytes)
    requires dp + |lits| <= dst.Length
    modifies dst
    ensures dst[..dp + |lits|] == old(dst[..dp]) + lits
  {
    forall i | 0 <= i < |lits| {
      dst[dp + i] := lits[i];
    }
  }

  /** `decompress`: any stream at all is decoded, or refused, as it means. */
  method Decompress(src: Bytes, dst: array<Byte>) returns (r: Status)
    modifies dst
    ensures Agrees(Expand(src, [], dst.Length), r, dst[..])
  {
    hide ReadLength, CopyBack;
    var sp: nat, dp: nat := 0, 0;
    var n := dst.Length;
    assert src[0..] == src && dst[..0] == [];
    while dp < n
      invariant sp <= |src| && dp <= n
      invariant Expand(src, [], n) == Expand(src[sp..], dst[..dp], n)
      decreases |src| - sp
    {
      if sp >= |src| {
        return Short;
      }
      var tag := src[sp] as nat;
      assert src[sp..][1..] == src[sp + 1..];
      var ok, lit, at := ReadLengthAt(tag / 16, src, sp + 1);
      if !ok {
        return Short;
      }
      if lit > n - dp {
        return Bad;
      }
      if at + lit > |src| {
        return Short;
      }
      assert src[at..][..lit] == src[at .. at + lit] && src[at..][lit..] == src[at + lit..];
      CopyIn(dst, dp, src[at .. at + lit]);
      sp, dp := at + lit, dp + lit;
      if dp == n {
        assert dst[..n] == dst[..];
        return Done;
      }
      assert Expand(src, [], n) == ExpandMatch(tag % 16, src[sp..], dst[..dp], n);
      var status, sq, dq := DecodeMatch(src, tag % 16, sp, dst, dp);
      if status.Some? {
        return status.value;
      }
      sp, dp := sq, dq;
    }
    assert dst[..n] == dst[..];
    return Done;
  }

  method DecodeMatch(src: Bytes, nibble: nat, start: nat, dst: array<Byte>, dp: nat)
    returns (status: Option<Status>, sp: nat, dq: nat)
    requires start <= |src| && dp < dst.Length
    modifies dst
    ensures status.Some? ==>
              status.value != Done
                  && forall out ::
                    Agrees(ExpandMatch(nibble, src[start..], old(dst[..dp]), dst.Length), status.value, out)
    ensures status.None? ==> start < sp <= |src| && dp <= dq <= dst.Length
    ensures status.None? ==>
              ExpandMatch(nibble, src[start..], old(dst[..dp]), dst.Length) == Expand(src[sp..], dst[..dq], dst.Length)
  {
    hide Expand, ReadLength, CopyBack;
    var ok, m, at := ReadLengthAt(nibble, src, start);
    if !ok || at + 2 > |src| {
      return Some(Short), start, dp;
    }
    var len := m + MIN_MATCH;
    var offset := src[at] as nat + 256 * src[at + 1] as nat;
    if offset == 0 || offset > dp || len > dst.Length - dp {
      return Some(Bad), start, dp;
    }
    CopyWithin(dst, dp, offset, len);
    assert src[at..][2..] == src[at + 2..];
    return None, at + 2, dp + len;
  }

  // The encoder.

  /** The bucket of the four bytes at `p`. */
  function Hash(src: Bytes, p: nat): (h: nat)
    requires p + MIN_MATCH <= |src|
    ensures h < HASH_SIZE
  {
    var v := src[p] as nat + 0x100 * src[p + 1] as nat + 0x1_0000 * src[p + 2] as nat + 0x100_0000 * src[p + 3] as nat;
    v * 0x9E37_79B9 % 0x1_0000_0000 / 0x40_0000
  }

  /** The word times 0x9E3779B9, its upper ten bits: 632 of the word 1, 221 of the word 256. */
  lemma HashExamples()
    ensures Hash([1, 0, 0, 0], 0) == 632 && Hash([0, 1, 0, 0], 0) == 221
  {}

  // What the encoder is to write.

  /** How far the bytes at `a` and `b` agree, at most `cap`. */
  function Common(src: Bytes, a: nat, b: nat, cap: nat): (n: nat)
    requires a + cap <= |src| && b + cap <= |src|
    ensures n <= cap
    decreases cap
  {
    if cap == 0 || src[a] != src[b] then 0 else 1 + Common(src, a + 1, b + 1, cap - 1)
  }

  lemma CommonNext(src: Bytes, a: nat, b: nat, cap: nat)
    requires a + cap <= |src| && b + cap <= |src| && cap > 0 && src[a] == src[b]
    ensures Common(src, a, b, cap) == 1 + Common(src, a + 1, b + 1, cap - 1)
  {}

  lemma CommonEnds(src: Bytes, a: nat, b: nat, cap: nat)
    requires a + cap <= |src| && b + cap <= |src| && (cap == 0 || src[a] != src[b])
    ensures Common(src, a, b, cap) == 0
  {}

  lemma SliceNext(src: Bytes, at: nat, len: nat)
    requires at + len < |src|
    ensures src[at .. at + len + 1] == src[at .. at + len] + [src[at + len]]
  {
    var a, b := src[at .. at + len + 1], src[at .. at + len] + [src[at + len]];
    assert |a| == |b| == len + 1;
    forall i | 0 <= i < len + 1 ensures a[i] == b[i] {
      assert i < len ==> src[at .. at + len][i] == src[at + i];
    }
  }

  datatype Found = Found(pos: nat, len: nat)

  /** The last position seen with the hash of the four bytes at `ip`, if it lies within 32 KiB, and how far it agrees.
      */
  function Candidate(src: Bytes, ip: nat, table: seq<int>): (f: Found)
    requires ip <= |src| && |table| == 1024
    ensures f.len > 0 ==> f.pos < ip && ip - f.pos <= 32768 && ip + f.len <= |src|
  {
    if ip + 4 > |src| then Found(0, 0)
    else
      var cand := table[Hash(src, ip)];
      if cand < 0 || cand >= ip || ip - cand > 32768 then Found(0, 0)
      else Found(cand, Common(src, cand, ip, if |src| - ip < 0x1_0000 then |src| - ip else 0x1_0000))
  }

  /** The positions from `p` on whose four bytes end by `end`, entered in order. */
  function Indexed(src: Bytes, table: seq<int>, p: nat, end: nat): (t: seq<int>)
    requires end <= |src| && |table| == 1024
    ensures |t| == 1024
    decreases end - p
  {
    if p + 4 <= end then Indexed(src, table[Hash(src, p) := p], p + 1, end) else table
  }

  /** The greedy encoding from `ip` on, with the literals from `anchor` on still to be written. */
  function Greedy(src: Bytes, ip: nat, anchor: nat, table: seq<int>): Bytes
    requires anchor <= ip <= |src| && |table| == 1024
    decreases |src| - ip
  {
    if ip == |src| then Literals(src[anchor..], 0)
    else
      var f := Candidate(src, ip, table);
      if f.len >= 4 then
        Token(src[anchor..ip], f.len - 4, ip - f.pos)
            + Greedy(src, ip + f.len, ip + f.len, Indexed(src, table, ip + 1, ip + f.len))
      else Greedy(src, ip + 1, anchor, if ip + 4 <= |src| then table[Hash(src, ip) := ip] else table)
  }

  /** The whole of it: every bucket is empty at first. */
  function GreedyStream(src: Bytes): Bytes {
    Greedy(src, 0, 0, seq(1024, _ => -1))
  }

  class CompressScratch {
    const block: nat
    /** The last position seen in each bucket, or -1. */
    const head: array<int>
    const out: array<Byte>
    var outLen: nat

    ghost predicate Valid()
      reads this
    {
      head.Length == HASH_SIZE && out.Length == block && outLen <= block
    }

    ghost function Written(): Bytes
      reads this, out
      requires Valid()
    {
      out[..outLen]
    }

    constructor (block: nat)
      ensures Valid() && this.block == block && fresh(head) && fresh(out)
    {
      this.block := block;
      head := new int[HASH_SIZE](_ => -1);
      out := new Byte[block](_ => 0);
      outLen := 0;
    }

    method Emit(b: Byte) returns (ok: bool)
      requires Valid()
      modifies this`outLen, out
      ensures Valid() && (ok ==> Written() == old(Written()) + [b])
      ensures !ok ==> old(outLen) + 1 > block
    {
      if outLen >= out.Length {
        return false;
      }
      out[outLen] := b;
      outLen := outLen + 1;
      assert Written() == old(Written()) + [b];
      return true;
    }

    method EmitExt(len: nat) returns (ok: bool)
      requires Valid()
      modifies this`outLen, out
      ensures Valid() && (ok ==> Written() == old(Written()) + LengthBytes(len))
      ensures !ok ==> old(outLen) + |LengthBytes(len)| > block
    {
      if len < 15 {
        assert Written() == old(Written()) + [];
        return true;
      }
      var rem := len - 15;
      hide ExtBytes;
      ghost var goal := old(Written()) + ExtBytes(rem);
      while rem >= 255
        invariant Valid() && Written() + ExtBytes(rem) == goal
      {
        ExtStep(Written(), rem);
        ok := Emit(255);
        if !ok {
          ExtSome(rem);
          return false;
        }
        rem := rem - 255;
      }
      ExtLast(rem);
      ok := Emit(rem as Byte);
    }

    method EmitLiterals(src: Bytes, lo: nat, hi: nat) returns (ok: bool)
      requires Valid() && lo <= hi <= |src|
      modifies this`outLen, out
      ensures Valid() && (ok ==> Written() == old(Written()) + src[lo..hi])
      ensures !ok ==> old(outLen) + (hi - lo) > block
    {
      if outLen + (hi - lo) > out.Length {
        return false;
      }
      CopyIn(out, outLen, src[lo..hi]);
      outLen := outLen + (hi - lo);
      return true;
    }

    method EmitU16(v: nat) returns (ok: bool)
      requires Valid()
      modifies this`outLen, out
      ensures Valid() && (ok ==> 0 < v < 0x1_0000 && Written() == old(Written()) + OffsetBytes(v))
      ensures !ok ==> v == 0 || v >= 0x1_0000 || old(outLen) + 2 > block
    {
      if v == 0 || v > 0xFFFF {
        return false;
      }
      ok := Emit((v % 256) as Byte);
      if ok {
        ok := Emit((v / 256) as Byte);
      }
    }

    /** A tag, its literal extension and the literals. */
    method EmitPending(src: Bytes, anchor: nat, ip: nat, e: nat) returns (ok: bool)
      requires Valid() && anchor <= ip <= |src|
      modifies this`outLen, out
      ensures Valid() && (ok ==> Written() == old(Written()) + Literals(src[anchor..ip], e))
      ensures !ok ==> old(outLen) + |Literals(src[anchor..ip], e)| > block
    {
      hide Tag, LengthBytes;
      ok := Emit(Tag(ip - anchor, e));
      if ok {
        ok := EmitExt(ip - anchor);
      }
      if ok {
        ok := EmitLiterals(src, anchor, ip);
      }
    }

    method EmitMatch(src: Bytes, anchor: nat, ip: nat, mpos: nat, mlen: nat) returns (ok: bool)
      requires Valid() && anchor <= ip <= |src| && mpos < ip && mlen >= MIN_MATCH
      modifies this`outLen, out
      ensures Valid()
      ensures ok ==>
                ip - mpos < 0x1_0000
                    && Written() == old(Written()) + Token(src[anchor..ip], mlen - MIN_MATCH, ip - mpos)
      ensures !ok && ip - mpos < 0x1_0000 ==>
                old(outLen) + |Token(src[anchor..ip], mlen - MIN_MATCH, ip - mpos)| > block
    {
      hide Literals, LengthBytes;
      ok := EmitPending(src, anchor, ip, mlen - MIN_MATCH);
      if ok {
        ok := EmitExt(mlen - MIN_MATCH);
      }
      if ok {
        ok := EmitU16(ip - mpos);
      }
    }

    /** `find_match`: the one candidate of the bucket, and how far it agrees. */
    method FindMatch(src: Bytes, ip: nat) returns (pos: nat, len: nat, h: nat)
      requires Valid() && ip <= |src|
      ensures h <= HASH_SIZE && (h < HASH_SIZE ==> ip + MIN_MATCH <= |src|)
      ensures len >= MIN_MATCH ==> Match(src, pos, ip, len) && ip - pos <= WINDOW && len <= MAX_MATCH
      ensures Found(pos, len) == Candidate(src, ip, head[..])
      ensures h == if ip + 4 <= |src| then Hash(src, ip) else HASH_SIZE
    {
      hide Hash, Common;
      if ip + MIN_MATCH > |src| {
        return 0, 0, HASH_SIZE;
      }
      h := Hash(src, ip);
      var cand := head[h];
      if cand < 0 || cand >= ip || ip - cand > WINDOW {
        return 0, 0, h;
      }
      pos := cand;
      len := Agree(src, pos, ip, if |src| - ip < MAX_MATCH then |src| - ip else MAX_MATCH);
    }

    /** Counts how far the bytes at two positions agree. */
    method Agree(src: Bytes, pos: nat, ip: nat, cap: nat) returns (len: nat)
      requires pos < ip && ip + cap <= |src|
      ensures len == Common(src, pos, ip, cap) && src[pos .. pos + len] == src[ip .. ip + len]
    {
      hide Common;
      len := 0;
      while len < cap && src[pos + len] == src[ip + len]
        invariant len <= cap && src[pos .. pos + len] == src[ip .. ip + len]
        invariant Common(src, pos, ip, cap) == len + Common(src, pos + len, ip + len, cap - len)
      {
        SliceNext(src, pos, len);
        SliceNext(src, ip, len);
        CommonNext(src, pos + len, ip + len, cap - len);
        len := len + 1;
      }
      CommonEnds(src, pos + len, ip + len, cap - len);
    }

    /** Records the positions a match skipped. */
    method IndexSkipped(src: Bytes, from: nat, end: nat)
      requires Valid() && end <= |src|
      modifies head
      ensures Valid() && head[..] == Indexed(src, old(head[..]), from, end)
    {
      var p := from;
      while p + MIN_MATCH <= end
        invariant Valid() && Indexed(src, head[..], p, end) == Indexed(src, old(head[..]), from, end)
      {
        ghost var was := head[..];
        head[Hash(src, p)] := p;
        assert head[..] == was[Hash(src, p) := p];
        p := p + 1;
      }
    }

    /** What is written stands for the source up to `anchor`, unless it is too long to be kept. */
    ghost predicate Standing(src: Bytes, anchor: nat)
      reads this, out
    {
      Valid() && (outLen < LENGTH_LIMIT ==> Encodes(Written(), src, anchor))
    }

    /** One turn of the encoder at `ip`: a token for a match found there, or nothing. */
    method Turn(src: Bytes, anchor: nat, ip: nat) returns (ok: bool, mlen: nat)
      requires Standing(src, anchor) && anchor <= ip < |src|
      modifies this`outLen, head, out
      ensures ok ==> if mlen >= MIN_MATCH then ip + mlen <= |src| && Standing(src, ip + mlen) else Standing(src, anchor)
      ensures Valid()
      ensures ok ==>
                old(Written() + Greedy(src, ip, anchor, head[..]))
                == Written() + if mlen >= MIN_MATCH then Greedy(src, ip + mlen, ip + mlen, head[..])
                               else Greedy(src, ip + 1, anchor, head[..])
      ensures !ok ==> old(outLen + |Greedy(src, ip, anchor, head[..])|) > block
    {
      hide Encodes, Token, Candidate, Indexed, Greedy, Hash;
      var mpos, h;
      mpos, mlen, h := FindMatch(src, ip);
      GreedyStep(src, ip, anchor, head[..]);
      if mlen < MIN_MATCH {
        if h != HASH_SIZE {
          ghost var was := head[..];
          head[h] := ip;
          assert head[..] == was[h := ip];
        }
        return true, mlen;
      }
      ghost var e := Written();
      ok := EmitMatch(src, anchor, ip, mpos, mlen);
      if !ok {
        return;
      }
      TokenJoins(e, src, anchor, mpos, ip, mlen);
      ghost var t := Token(src[anchor..ip], mlen - MIN_MATCH, ip - mpos);
      IndexSkipped(src, ip + 1, ip + mlen);
      JoinBytes(e, t, Greedy(src, ip + mlen, ip + mlen, head[..]));
    }

    /** The closing literals, and whether the stream is worth keeping. */
    method Close(src: Bytes, anchor: nat) returns (r: Option<nat>)
      requires Standing(src, anchor) && anchor <= |src| < block
      modifies this`outLen, out
      ensures Valid()
      ensures var s := old(Written()) + Literals(src[anchor..], 0);
              && (r.Some? <==> |s| + 128 <= |src| && |s| < 0x8000) && (r.Some? ==> Written() == s)
      ensures r.Some? ==> r.value == outLen && Expand(Written(), [], |src|) == Ok(src)
      ensures r.Some? ==> outLen + MIN_SAVING <= |src| && outLen < LENGTH_LIMIT
    {
      hide Encodes, Expand, Literals;
      ghost var e := Written();
      var ok := EmitPending(src, anchor, |src|, 0);
      if !ok {
        return None;
      }
      assert src[anchor..|src|] == src[anchor..];
      if outLen + MIN_SAVING <= |src| && outLen < LENGTH_LIMIT {
        LiteralsLonger(e, src[anchor..], 0);
        EncodesRest(e, src, anchor);
        return Some(outLen);
      }
      outLen := 0;
      return None;
    }

    /** `compress`: a length is returned only for a stream that decodes to the source and is worth keeping. */
    method Compress(src: Bytes) returns (r: Option<nat>)
      requires Valid()
      modifies this`outLen, head, out
      ensures Valid()
      ensures r.Some? ==> r.value == outLen && Expand(Written(), [], |src|) == Ok(src)
      ensures r.Some? ==> outLen + MIN_SAVING <= |src| == block - 4 && outLen < LENGTH_LIMIT
      ensures r.Some? <==>
                |src| + 4 == block && |GreedyStream(src)| + 128 <= |src| && |GreedyStream(src)| < 0x8000
      ensures r.Some? ==> Written() == GreedyStream(src)
    {
      hide Encodes, Expand, Greedy;
      if block < 4 || |src| != block - 4 {
        return None;
      }
      forall i | 0 <= i < HASH_SIZE {
        head[i] := -1;
      }
      outLen := 0;
      EncodesNothing(src);
      assert Written() == [];
      assert head[..] == seq(HASH_SIZE, _ => -1);
      var ip: nat, anchor: nat := 0, 0;
      while ip < |src|
        invariant Standing(src, anchor) && anchor <= ip <= |src|
        invariant Written() + Greedy(src, ip, anchor, head[..]) == GreedyStream(src)
        decreases |src| - ip
      {
        var ok, mlen := Turn(src, anchor, ip);
        if !ok {
          return None;
        }
        if mlen >= MIN_MATCH {
          ip := ip + mlen;
          anchor := ip;
        } else {
          ip := ip + 1;
        }
      }
      GreedyEnd(src, anchor, head[..]);
      r := Close(src, anchor);
    }
  }

  lemma JoinBytes(a: Bytes, b: Bytes, c: Bytes)
    ensures a + (b + c) == (a + b) + c
  {}

  lemma GreedyStep(src: Bytes, ip: nat, anchor: nat, table: seq<int>)
    requires anchor <= ip < |src| && |table| == HASH_SIZE
    ensures var f := Candidate(src, ip, table);
            && Greedy(src, ip, anchor, table)
               == (if f.len >= 4 then Token(src[anchor..ip], f.len - 4, ip - f.pos)
                                      + Greedy(src, ip + f.len, ip + f.len, Indexed(src, table, ip + 1, ip + f.len))
                   else Greedy(src, ip + 1, anchor, if ip + 4 <= |src| then table[Hash(src, ip) := ip] else table))
  {}

  lemma GreedyEnd(src: Bytes, anchor: nat, table: seq<int>)
    requires anchor <= |src| && |table| == HASH_SIZE
    ensures Greedy(src, |src|, anchor, table) == Literals(src[anchor..], 0)
  {}

  lemma ExtSome(rem: nat)
    ensures |ExtBytes(rem)| > 0
  {}

  lemma TokenJoins(e: Bytes, src: Bytes, anchor: nat, pos: nat, ip: nat, len: nat)
    requires anchor <= ip && Match(src, pos, ip, len) && ip - pos <= WINDOW && MIN_MATCH <= len <= MAX_MATCH
    requires |e| < LENGTH_LIMIT ==> Encodes(e, src, anchor)
    ensures var t := e + Token(src[anchor..ip], len - MIN_MATCH, ip - pos);
            |t| >= |e| && (|t| < LENGTH_LIMIT ==> Encodes(t, src, ip + len))
  {
    hide Encodes;
    TokenLonger(e, src[anchor..ip], len - MIN_MATCH, ip - pos);
    if |e + Token(src[anchor..ip], len - MIN_MATCH, ip - pos)| < LENGTH_LIMIT {
      EncodesToken(e, src, anchor, pos, ip, len);
    }
  }

  lemma ExtStep(e: Bytes, rem: nat)
    requires rem >= 255
    ensures e + ExtBytes(rem) == (e + [255]) + ExtBytes(rem - 255)
  {}

  lemma ExtLast(rem: nat)
    requires rem < 255
    ensures ExtBytes(rem) == [rem as Byte]
  {}

  lemma LiteralsLonger(e: Bytes, lits: Bytes, m: nat)
    ensures |e + Literals(lits, m)| > |e| + |lits|
  {}

  lemma TokenLonger(e: Bytes, lits: Bytes, m: nat, offset: nat)
    requires offset < 0x1_0000
    ensures |e + Token(lits, m, offset)| > |e| + |lits|
  {}

  /** Compressing, and decompressing what was kept, gives the block back. */
  method RoundTrip(cs: CompressScratch, src: Bytes, dst: array<Byte>) returns (kept: bool)
    requires cs.Valid() && dst.Length == |src| && dst != cs.out
    modifies cs, cs.head, cs.out, dst
    ensures kept ==> dst[..] == src
    ensures kept <==> |src| + 4 == cs.block && |GreedyStream(src)| + 128 <= |src| && |GreedyStream(src)| < 0x8000
  {
    var r := cs.Compress(src);
    if r.None? {
      return false;
    }
    var status := Decompress(cs.out[..cs.outLen], dst);
    return true;
  }
}
