/** The 32-byte ring payload codec (`payload` in src/drainer.rs). */
module PayloadCodec {
  import opened Arithmetic
  import opened Keys

  type Bytes = seq<Byte>

  const SLOT := 32
  /** What is left of a slot after the three-byte header. */
  const ROOM := 29

  datatype Mutation =
    | Put(key: Bytes, val: Bytes)
    | Delete(key: Bytes)
    | RangeDelete(start: Bytes, end: Bytes)
    | PutTtl(key: Bytes, val: Bytes, expireAt: nat)

  datatype DecodeError = BadOp | BadKeyLen | BadValLen

  datatype Decoded = Ok(mutation: Mutation) | Err(error: DecodeError)

  /** `k` little-endian bytes of `v`. */
  function Le(v: nat, k: nat): (b: Bytes)
    ensures |b| == k
  {
    if k == 0 then [] else [(v % 256) as Byte] + Le(v / 256, k - 1)
  }

  function FromLe(b: Bytes): nat {
    if b == [] then 0 else b[0] as nat + 256 * FromLe(b[1..])
  }

  function Pow256(k: nat): (p: nat)
    ensures p > 0
  {
    if k == 0 then 1 else 256 * Pow256(k - 1)
  }

  lemma {:induction false} LeRoundTrip(v: nat, k: nat)
    requires v < Pow256(k)
    ensures FromLe(Le(v, k)) == v
  {
    if k > 0 {
      LeRoundTrip(v / 256, k - 1);
      assert Le(v, k)[1..] == Le(v / 256, k - 1);
    }
  }

  lemma {:induction false} LeInverse(b: Bytes)
    ensures Le(FromLe(b), |b|) == b && FromLe(b) < Pow256(|b|)
  {
    if b != [] {
      LeInverse(b[1..]);
      assert FromLe(b) % 256 == b[0] as nat && FromLe(b) / 256 == FromLe(b[1..]);
      assert b == [b[0]] + b[1..];
    }
  }

  // Reading from the front.

  datatype Got<T> = Got(value: T, rest: seq<Byte>)

  function TakeBytes(b: seq<Byte>, n: nat): Option<Got<seq<Byte>>> {
    if n > |b| then None else Some(Got(b[..n], b[n..]))
  }

  function TakeNum(b: seq<Byte>, k: nat): Option<Got<nat>> {
    if k > |b| then None else Some(Got(FromLe(b[..k]), b[k..]))
  }

  lemma NumBack(v: nat, k: nat, rest: seq<Byte>)
    requires v < Pow256(k)
    ensures TakeNum(Le(v, k) + rest, k) == Some(Got(v, rest))
  {
    LeRoundTrip(v, k);
    assert (Le(v, k) + rest)[..k] == Le(v, k) && (Le(v, k) + rest)[k..] == rest;
  }

  function Zeros(k: nat): (b: Bytes)
    ensures |b| == k
  {
    seq(k, _ => 0)
  }

  /** Header, the expiry if any, the two parts, zero padding. */
  function Layout(op: Byte, expiry: Bytes, a: Bytes, b: Bytes): (p: Bytes)
    requires |expiry| + |a| + |b| <= ROOM
    ensures |p| == SLOT && p[0] == op && p[1] as nat == |a| && p[2] as nat == |b|
    ensures var x := |expiry|;
            p[3..3 + x] == expiry && p[3 + x..3 + x + |a|] == a && p[3 + x + |a|..3 + x + |a| + |b|] == b
  {
    var head := [op, |a| as Byte, |b| as Byte] + expiry;
    var p := head + a + b + Zeros(ROOM - |expiry| - |a| - |b|);
    assert p[3..|head|] == expiry && p[|head|..|head| + |a|] == a && p[|head| + |a|..|head| + |a| + |b|] == b;
    p
  }

  /** The `encode_*` constructors. */
  function Encode(m: Mutation): (p: Option<Bytes>)
    ensures p.Some? ==> |p.value| == SLOT
  {
    match m
    case Put(key, val) =>
      if key == [] || |key| > ROOM || |key| + |val| > ROOM then None else Some(Layout(1, [], key, val))
    case Delete(key) =>
      if key == [] || |key| > ROOM then None else Some(Layout(2, [], key, []))
    case RangeDelete(start, end) =>
      if start == [] || end == [] || |start| + |end| > ROOM then None else Some(Layout(3, [], start, end))
    case PutTtl(key, val, expireAt) =>
      if expireAt == 0 then
        (if key == [] || |key| > ROOM || |key| + |val| > ROOM then None else Some(Layout(1, [], key, val)))
      else if key == [] || 8 + |key| + |val| > ROOM then None
      else Some(Layout(4, Le(expireAt, 8), key, val))
  }

  /** `decode`. */
  function Decode(p: Bytes): Decoded
    requires |p| == SLOT
  {
    var a, b := p[1] as nat, p[2] as nat;
    if p[0] == 1 then
      if a == 0 || a > ROOM then Err(BadKeyLen)
      else if a + b > ROOM then Err(BadValLen)
      else Ok(Put(p[3..3 + a], p[3 + a..3 + a + b]))
    else if p[0] == 2 then
      if a == 0 || a > ROOM then Err(BadKeyLen)
      else if b != 0 then Err(BadValLen)
      else Ok(Delete(p[3..3 + a]))
    else if p[0] == 3 then
      if a == 0 || a > ROOM || b == 0 || b > ROOM then Err(BadKeyLen)
      else if a + b > ROOM then Err(BadValLen)
      else Ok(RangeDelete(p[3..3 + a], p[3 + a..3 + a + b]))
    else if p[0] == 4 then
      if a == 0 || a > 21 then Err(BadKeyLen)
      else if 8 + a + b > ROOM then Err(BadValLen)
      else Ok(PutTtl(p[11..11 + a], p[11 + a..11 + a + b], FromLe(p[3..11])))
    else Err(BadOp)
  }

  /** A put that never expires is a plain put. */
  function Plain(m: Mutation): Mutation {
    if m.PutTtl? && m.expireAt == 0 then Put(m.key, m.val) else m
  }

  /** What fits a slot. */
  predicate Fits(m: Mutation) {
    match m
    case Put(key, val) => key != [] && |key| + |val| <= ROOM
    case Delete(key) => key != [] && |key| <= ROOM
    case RangeDelete(start, end) => start != [] && end != [] && |start| + |end| <= ROOM
    case PutTtl(key, val, expireAt) => key != [] && (if expireAt == 0 then 0 else 8) + |key| + |val| <= ROOM
  }

  /** Encoding succeeds exactly on what fits, and decoding gives it back. */
  lemma RoundTrip(m: Mutation)
    requires m.PutTtl? ==> m.expireAt < Pow256(8)
    ensures Encode(m).Some? <==> Fits(m)
    ensures Encode(m).Some? ==> Decode(Encode(m).value) == Ok(Plain(m))
  {
    if m.PutTtl? && m.expireAt != 0 { TtlRoundTrip(m); }
  }

  lemma TtlRoundTrip(m: Mutation)
    requires m.PutTtl? && 0 < m.expireAt < Pow256(8)
    ensures Encode(m).Some? <==> Fits(m)
    ensures Encode(m).Some? ==> Decode(Encode(m).value) == Ok(m)
  {
    LeRoundTrip(m.expireAt, 8);
  }

  /** Encoding `m` gives `p` up to its padding. */
  ghost predicate Again(p: Bytes, m: Mutation) {
    Fits(m) && |p| == SLOT && Used(m) <= SLOT && Encode(m).Some? && Encode(m).value[..Used(m)] == p[..Used(m)]
  }

  /** A payload that decodes holds a mutation that fits, and encoding that mutation again gives the payload's
      own bytes up to its padding; only a stored expiry of 0 is written back as a plain put. */
  lemma DecodedFits(p: Bytes)
    requires |p| == SLOT && Decode(p).Ok?
    ensures Fits(Decode(p).mutation)
    ensures var m := Decode(p).mutation; !(m.PutTtl? && m.expireAt == 0) ==> Again(p, m)
  {
    var m := Decode(p).mutation;
    if m.PutTtl? && m.expireAt != 0 {
      TtlAgain(p);
    } else if m.Delete? {
      DeleteAgain(p);
    } else if !m.PutTtl? {
      PairAgain(p);
    }
  }

  lemma TtlAgain(p: Bytes)
    requires |p| == SLOT && Decode(p).Ok? && p[0] == 4 && Decode(p).mutation.expireAt != 0
    ensures Again(p, Decode(p).mutation)
  {
    LeInverse(p[3..11]);
    Relaid(p, 8, p[1] as nat, p[2] as nat);
  }

  lemma DeleteAgain(p: Bytes)
    requires |p| == SLOT && Decode(p).Ok? && p[0] == 2
    ensures Again(p, Decode(p).mutation)
  {
    var a := p[1] as nat;
    Relaid(p, 0, a, 0);
    assert p[3..3] == [] && p[3 + a..3 + a] == [];
  }

  lemma PairAgain(p: Bytes)
    requires |p| == SLOT && Decode(p).Ok? && (p[0] == 1 || p[0] == 3)
    ensures Again(p, Decode(p).mutation)
  {
    Relaid(p, 0, p[1] as nat, p[2] as nat);
    assert p[3..3] == [];
  }

  /** Laying a slot's parts out again gives its bytes. */
  lemma Relaid(p: Bytes, x: nat, a: nat, b: nat)
    requires |p| == SLOT && x + a + b <= ROOM && p[1] as nat == a && p[2] as nat == b
    ensures Layout(p[0], p[3..3 + x], p[3 + x..3 + x + a], p[3 + x + a..3 + x + a + b])[..3 + x + a + b]
            == p[..3 + x + a + b]
  {
    var e := Layout(p[0], p[3..3 + x], p[3 + x..3 + x + a], p[3 + x + a..3 + x + a + b]);
    var n := 3 + x + a + b;
    assert e[..3] == p[..3];
    FourParts(e, 3, 3 + x, 3 + x + a, n);
    FourParts(p, 3, 3 + x, 3 + x + a, n);
  }

  lemma FourParts(b: Bytes, i: nat, j: nat, k: nat, n: nat)
    requires i <= j <= k <= n <= |b|
    ensures b[..n] == b[..i] + b[i..j] + b[j..k] + b[k..n]
  {}

  /** The bytes of a slot that a mutation takes. */
  function Used(m: Mutation): (n: nat)
    ensures Fits(m) && !(m.PutTtl? && m.expireAt == 0) ==> n <= SLOT
  {
    match m
    case Put(key, val) => 3 + |key| + |val|
    case Delete(key) => 3 + |key|
    case RangeDelete(start, end) => 3 + |start| + |end|
    case PutTtl(key, val, _) => 11 + |key| + |val|
  }

  // The wire format.

  /** The slot's bytes say `m`: one byte of operation, one and one of lengths, eight of expiry for a put with one, then
      the two parts; whatever is left over does not matter. */
  predicate Says(p: Bytes, m: Mutation) {
    && |p| == 32
    && match m {
         case Put(key, val) => p[0] == 1 && key != [] && PartsAt(p, 3, key, val)
         case Delete(key) => p[0] == 2 && key != [] && PartsAt(p, 3, key, [])
         case RangeDelete(start, end) => p[0] == 3 && start != [] && end != [] && PartsAt(p, 3, start, end)
         case PutTtl(key, val, expireAt) =>
           p[0] == 4 && key != [] && PartsAt(p, 11, key, val) && expireAt == FromLe(p[3..11])
       }
  }

  predicate PartsAt(p: Bytes, at: nat, a: Bytes, b: Bytes)
    requires |p| == 32
  {
    && p[1] as nat == |a| && p[2] as nat == |b| && at + |a| + |b| <= 32
    && p[at .. at + |a|] == a && p[at + |a| .. at + |a| + |b|] == b
  }

  /** A slot decodes exactly to what its bytes say, and to nothing when they say nothing. */
  lemma DecodeExactly(p: Bytes, m: Mutation)
    requires |p| == SLOT
    ensures Decode(p) == Ok(m) <==> Says(p, m)
  {}

  /** A slot that says nothing has an unknown operation, an empty or overlong key or bound, or else parts too long. */
  lemma FaultsExactly(p: Bytes)
    requires |p| == SLOT
    ensures Decode(p) == Err(BadOp) <==> p[0] == 0 || p[0] > 4
    ensures Decode(p) == Err(BadKeyLen) <==>
            && 1 <= p[0] <= 4
            && (p[1] == 0 || p[1] > (if p[0] == 4 then 21 else 29) || (p[0] == 3 && (p[2] == 0 || p[2] > 29)))
  {}

  /** And the encoder's bytes say the mutation. */
  lemma EncodedSays(m: Mutation)
    requires Encode(m).Some? && (m.PutTtl? ==> m.expireAt < Pow256(8))
    ensures Says(Encode(m).value, Plain(m))
  {
    RoundTrip(m);
    DecodeExactly(Encode(m).value, Plain(m));
  }

  /** Byte `i` of a little-endian number is its digit `i` to base 256. */
  lemma {:induction false} LeDigits(v: nat, k: nat, i: nat)
    requires i < k
    ensures Le(v, k)[i] as nat == v / Pow256(i) % 256
  {
    if i > 0 {
      LeDigits(v / 256, k - 1, i - 1);
      DivTwice(v, Pow256(i - 1));
    }
  }

  lemma DivTwice(v: nat, p: nat)
    requires p > 0
    ensures v / 256 / p == v / (256 * p)
  {
    var q, r := v / 256, v % 256;
    assert q == p * (q / p) + q % p;
    assert v == 256 * q + r;
    var rest := 256 * (q % p) + r;
    assert v == 256 * p * (q / p) + rest by { Associate(256, p, q / p); }
    assert rest < 256 * p;
    Quotient(v, 256 * p, q / p, rest);
  }
}
