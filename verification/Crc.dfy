/** Slicing-by-8 CRC-32 (src/crc.rs) equals the bit-at-a-time CRC-32 of section 8 of RFC 1952.
    A `u32` is its 32 bits, the least significant first, so shifting right drops bits at the front
    and a little-endian word is the bits of its bytes in order. */
module Crc {
  import opened Keys

  type Bitstring = seq<bool>

  type Word = w: Bitstring | |w| == 32 witness seq(32, _ => false)

  function Zero(n: nat): (z: Bitstring)
    ensures |z| == n && forall i :: 0 <= i < n ==> !z[i]
  {
    seq(n, _ => false)
  }

  function Xor(a: Word, b: Word): (x: Word)
    ensures forall i :: 0 <= i < 32 ==> x[i] == (a[i] != b[i])
  {
    seq(32, i requires 0 <= i < 32 => a[i] != b[i])
  }

  function Not(a: Word): Word {
    seq(32, i requires 0 <= i < 32 => !a[i])
  }

  function And(a: Word, b: Word): Word {
    seq(32, i requires 0 <= i < 32 => a[i] && b[i])
  }

  /** `c >> k`. */
  function Shr(c: Word, k: nat): Word
    requires k <= 32
  {
    c[k..] + Zero(k)
  }

  /** 0xEDB88320. */
  function Poly(): Word {
    [false, false, false, false, false, true, false, false] + [true, true, false, false, false, false, false, true]
    + [false, false, false, true, true, true, false, true] + [true, false, true, true, false, true, true, true]
  }

  /** One bit of the reflected recurrence. */
  function Bit(c: Word): Word {
    if c[0] then Xor(Poly(), Shr(c, 1)) else Shr(c, 1)
  }

  /** `k` bits. */
  function Bits(c: Word, k: nat): Word {
    if k == 0 then c else Bit(Bits(c, k - 1))
  }

  /** The eight bits of a byte. */
  function ToBits(b: nat, k: nat): (s: Bitstring)
    ensures |s| == k
  {
    if k == 0 then [] else [b % 2 == 1] + ToBits(b / 2, k - 1)
  }

  function FromBits(s: Bitstring): nat {
    if s == [] then 0 else (if s[0] then 1 else 0) + 2 * FromBits(s[1..])
  }

  function Pow2(k: nat): nat {
    if k == 0 then 1 else 2 * Pow2(k - 1)
  }

  lemma {:induction false} BitsRoundTrip(s: Bitstring)
    ensures FromBits(s) < Pow2(|s|) && ToBits(FromBits(s), |s|) == s
  {
    if s != [] {
      BitsRoundTrip(s[1..]);
      assert s == [s[0]] + s[1..];
    }
  }

  function ByteWord(b: Byte): Word {
    ToBits(b as nat, 8) + Zero(24)
  }

  /** One byte of input. */
  function Push(c: Word, b: Byte): Word {
    Bits(Xor(c, ByteWord(b)), 8)
  }

  function Update(c: Word, data: seq<Byte>): Word {
    if data == [] then c else Push(Update(c, data[..|data| - 1]), data[|data| - 1])
  }

  function Ones(): Word {
    Not(Zero(32))
  }

  /** The CRC of RFC 1952. */
  function Crc32(data: seq<Byte>): Word {
    Not(Update(Ones(), data))
  }

  // Linearity.

  lemma BitLinear(a: Word, b: Word)
    ensures Bit(Xor(a, b)) == Xor(Bit(a), Bit(b))
  {
    hide Poly;
    var l, r := Bit(Xor(a, b)), Xor(Bit(a), Bit(b));
    forall i | 0 <= i < 32 ensures l[i] == r[i] {}
  }

  lemma {:induction false} BitsLinear(a: Word, b: Word, k: nat)
    ensures Bits(Xor(a, b), k) == Xor(Bits(a, k), Bits(b, k))
  {
    hide Bit, Xor;
    if k > 0 {
      BitsLinear(a, b, k - 1);
      BitLinear(Bits(a, k - 1), Bits(b, k - 1));
    }
  }

  lemma {:induction false} BitsAdd(c: Word, a: nat, b: nat)
    ensures Bits(Bits(c, a), b) == Bits(c, a + b)
  {
    hide Bit;
    if b > 0 { BitsAdd(c, a, b - 1); }
  }

  /** Clear bits at the bottom only let the others move down. */
  lemma {:induction false} ClearBits(c: Word, k: nat)
    requires k <= 32 && forall i :: 0 <= i < k ==> !c[i]
    ensures Bits(c, k) == Shr(c, k)
  {
    if k > 0 {
      ClearBits(c, k - 1);
      var d := Shr(c, k - 1);
      assert d[0] == c[k - 1];
      assert Shr(d, 1) == Shr(c, k);
    } else {
      assert Shr(c, 0) == c;
    }
  }

  /** Eight bits of a word: its low byte's, and the rest moved down. */
  lemma ByteSplit(c: Word)
    ensures Bits(c, 8) == Xor(Bits(c[..8] + Zero(24), 8), Shr(c, 8))
  {
    hide Bits;
    var low, high: Word := c[..8] + Zero(24), Zero(8) + c[8..];
    assert Xor(low, high) == c;
    BitsLinear(low, high, 8);
    ClearBits(high, 8);
    assert Shr(high, 8) == Shr(c, 8);
  }

  // Tables.

  /** What table `k` holds for byte `n`: the byte followed by `k` zero bytes. */
  ghost predicate TableRight(t: seq<Word>, k: nat, upto: nat) {
    |t| == 256 && upto <= 256 && forall n :: 0 <= n < upto ==> t[n] == Bits(ToBits(n, 8) + Zero(24), 8 * (k + 1))
  }

  ghost predicate TablesRight(tables: seq<seq<Word>>) {
    |tables| == 8 && forall k :: 0 <= k < 8 ==> TableRight(tables[k], k, 256)
  }

  /** The table's entry for the low byte of `c`. */
  lemma Lookup(t: seq<Word>, k: nat, s: Bitstring)
    requires TableRight(t, k, 256) && |s| == 8
    ensures FromBits(s) < 256 && t[FromBits(s)] == Bits(s + Zero(24), 8 * (k + 1))
  {
    hide Bits;
    BitsRoundTrip(s);
    assert Pow2(8) == 256;
  }

  /** The inner loop of `make_tables`. */
  method EightBits(n: Word) returns (crc: Word)
    ensures crc == Bits(n, 8)
  {
    hide Poly;
    crc := n;
    for bit := 0 to 8
      invariant crc == Bits(n, bit)
    {
      // `0u32.wrapping_sub(crc & 1)`: all bits as the lowest
      var mask: Word := if crc[0] then Ones() else Zero(32);
      assert And(Poly(), mask) == if crc[0] then Poly() else Zero(32);
      assert Xor(Shr(crc, 1), And(Poly(), mask)) == Bit(crc);
      crc := Xor(Shr(crc, 1), And(Poly(), mask));
    }
  }

  method FirstTable() returns (t: seq<Word>)
    ensures TableRight(t, 0, 256)
  {
    hide Bits;
    t := seq(256, _ => Zero(32));
    for n := 0 to 256
      invariant TableRight(t, 0, n)
    {
      var e := EightBits(ToBits(n, 8) + Zero(24));
      t := t[n := e];
    }
  }

  method NextTable(first: seq<Word>, previous: seq<Word>, ghost k: nat) returns (t: seq<Word>)
    requires TableRight(first, 0, 256) && TableRight(previous, k, 256)
    ensures TableRight(t, k + 1, 256)
  {
    hide Bits, Xor, Shr;
    t := seq(256, _ => Zero(32));
    for n := 0 to 256
      invariant TableRight(t, k + 1, n)
    {
      var c := previous[n];
      Lookup(first, 0, c[..8]);
      ByteSplit(c);
      BitsAdd(ToBits(n, 8) + Zero(24), 8 * (k + 1), 8);
      t := t[n := Xor(first[FromBits(c[..8])], Shr(c, 8))];
    }
  }

  /** `make_tables`. */
  method MakeTables() returns (tables: seq<seq<Word>>)
    ensures TablesRight(tables)
  {
    hide TableRight;
    var first := FirstTable();
    tables := [first];
    for k := 1 to 8
      invariant |tables| == k && tables[0] == first && forall j :: 0 <= j < k ==> TableRight(tables[j], j, 256)
    {
      var t := NextTable(first, tables[k - 1], k - 1);
      tables := tables + [t];
    }
  }

  // Eight bytes at a time.

  function Concat(ds: seq<Byte>): (s: Bitstring)
    ensures |s| == 8 * |ds|
  {
    if ds == [] then [] else Concat(ds[..|ds| - 1]) + ToBits(ds[|ds| - 1] as nat, 8)
  }

  /** `u32::from_le_bytes`, of up to four bytes. */
  function LeWord(ds: seq<Byte>): Word
    requires |ds| <= 4
  {
    Concat(ds) + Zero(32 - 8 * |ds|)
  }

  /** The byte `k` places up. */
  function Placed(s: Bitstring, k: nat): Word
    requires |s| == 8 && k <= 3
  {
    Zero(8 * k) + s + Zero(24 - 8 * k)
  }

  lemma PlacedBits(s: Bitstring, k: nat)
    requires |s| == 8 && k <= 3
    ensures Bits(Placed(s, k), 8 * k) == s + Zero(24)
  {
    hide Bits;
    ClearBits(Placed(s, k), 8 * k);
    assert Shr(Placed(s, k), 8 * k) == s + Zero(24);
  }

  lemma XorAssoc(a: Word, b: Word, c: Word)
    ensures Xor(Xor(a, b), c) == Xor(a, Xor(b, c))
  {}

  /** Up to four bytes can be taken at once. */
  lemma {:induction false} Sliced(c: Word, ds: seq<Byte>)
    requires |ds| <= 4
    ensures Update(c, ds) == Bits(Xor(c, LeWord(ds)), 8 * |ds|)
    decreases |ds|
  {
    hide Bits, Xor, Placed;
    if ds == [] {
      NoBits(c);
      ZeroXor(c);
      assert LeWord(ds) == Zero(32);
    } else {
      var init, d, k := ds[..|ds| - 1], ds[|ds| - 1], |ds| - 1;
      Sliced(c, init);
      SlicedStep(c, init, d);
      assert ds == init + [d];
    }
  }

  lemma NoBits(c: Word)
    ensures Bits(c, 0) == c
  {}

  lemma ZeroXor(c: Word)
    ensures Xor(c, Zero(32)) == c
  {}

  lemma LeWordStep(init: seq<Byte>, d: Byte)
    requires |init| <= 3
    ensures LeWord(init + [d]) == Xor(LeWord(init), Placed(ToBits(d as nat, 8), |init|))
  {
    assert (init + [d])[..|init|] == init;
    var l, r := LeWord(init + [d]), Xor(LeWord(init), Placed(ToBits(d as nat, 8), |init|));
    forall i | 0 <= i < 32 ensures l[i] == r[i] {}
  }

  lemma SlicedStep(c: Word, init: seq<Byte>, d: Byte)
    requires |init| <= 3 && Update(c, init) == Bits(Xor(c, LeWord(init)), 8 * |init|)
    ensures Update(c, init + [d]) == Bits(Xor(c, LeWord(init + [d])), 8 * |init + [d]|)
  {
    hide Bits, Xor, Placed, LeWord;
    var k, p := |init|, Placed(ToBits(d as nat, 8), |init|);
    assert (init + [d])[..k] == init;
    PlacedBits(ToBits(d as nat, 8), k);
    BitsLinear(Xor(c, LeWord(init)), p, 8 * k);
    XorAssoc(c, LeWord(init), p);
    LeWordStep(init, d);
    BitsAdd(Xor(c, LeWord(init + [d])), 8 * k, 8);
  }

  lemma {:induction false} UpdateConcat(c: Word, a: seq<Byte>, b: seq<Byte>)
    ensures Update(c, a + b) == Update(Update(c, a), b)
    decreases |b|
  {
    hide Push;
    if b == [] {
      assert a + b == a;
    } else {
      UpdateConcat(c, a, b[..|b| - 1]);
      assert (a + b)[..|a + b| - 1] == a + b[..|b| - 1];
    }
  }

  /** The four bytes of a word, each with the zero bytes that follow it. */
  lemma Parts(x: Word, m: nat)
    requires m >= 4
    ensures Bits(x, 8 * m) ==
            Xor(Xor(Xor(Bits(x[0..8] + Zero(24), 8 * m), Bits(x[8..16] + Zero(24), 8 * (m - 1))),
                    Bits(x[16..24] + Zero(24), 8 * (m - 2))), Bits(x[24..32] + Zero(24), 8 * (m - 3)))
  {
    hide Bits, Placed, Xor;
    var p0, p1, p2, p3 := Placed(x[0..8], 0), Placed(x[8..16], 1), Placed(x[16..24], 2), Placed(x[24..32], 3);
    FourPlaces(x);
    BitsLinear(Xor(Xor(p0, p1), p2), p3, 8 * m);
    BitsLinear(Xor(p0, p1), p2, 8 * m);
    BitsLinear(p0, p1, 8 * m);
    PlacedLater(x[0..8], 0, m);
    PlacedLater(x[8..16], 1, m);
    PlacedLater(x[16..24], 2, m);
    PlacedLater(x[24..32], 3, m);
  }

  lemma FourPlaces(x: Word)
    ensures Xor(Xor(Xor(Placed(x[0..8], 0), Placed(x[8..16], 1)), Placed(x[16..24], 2)), Placed(x[24..32], 3)) == x
  {
    var y := Xor(Xor(Xor(Placed(x[0..8], 0), Placed(x[8..16], 1)), Placed(x[16..24], 2)), Placed(x[24..32], 3));
    forall i | 0 <= i < 32 ensures y[i] == x[i] {}
  }

  lemma PlacedLater(s: Bitstring, k: nat, m: nat)
    requires |s| == 8 && k <= 3 && k <= m
    ensures Bits(Placed(s, k), 8 * m) == Bits(s + Zero(24), 8 * (m - k))
  {
    hide Bits, Placed;
    PlacedBits(s, k);
    BitsAdd(Placed(s, k), 8 * k, 8 * (m - k));
  }

  /** Eight bytes from the tables. */
  method SliceEight(tables: seq<seq<Word>>, crc: Word, ds: seq<Byte>) returns (next: Word)
    requires TablesRight(tables) && |ds| == 8
    ensures next == Update(crc, ds)
  {
    hide Bits, Xor, TableRight, LeWord;
    var one, two := Xor(LeWord(ds[..4]), crc), LeWord(ds[4..]);
    FourLookups(tables, 7, one);
    FourLookups(tables, 3, two);
    next := Xor(tables[7][FromBits(one[0..8])], tables[6][FromBits(one[8..16])]);
    next := Xor(next, tables[5][FromBits(one[16..24])]);
    next := Xor(next, tables[4][FromBits(one[24..32])]);
    ghost var first := next;
    assert first == Bits(one, 64);
    next := Xor(next, tables[3][FromBits(two[0..8])]);
    next := Xor(next, tables[2][FromBits(two[8..16])]);
    next := Xor(next, tables[1][FromBits(two[16..24])]);
    next := Xor(next, tables[0][FromBits(two[24..32])]);
    XorFour(first, tables[3][FromBits(two[0..8])], tables[2][FromBits(two[8..16])], tables[1][FromBits(two[16..24])],
            tables[0][FromBits(two[24..32])]);
    EightBytes(crc, ds);
  }

  lemma XorFour(f: Word, a: Word, b: Word, c: Word, d: Word)
    ensures Xor(Xor(Xor(Xor(f, a), b), c), d) == Xor(f, Xor(Xor(Xor(a, b), c), d))
  {
    hide Xor;
    XorAssoc(f, a, b);
    XorAssoc(f, Xor(a, b), c);
    XorAssoc(f, Xor(Xor(a, b), c), d);
  }

  lemma FourLookups(tables: seq<seq<Word>>, k: nat, x: Word)
    requires TablesRight(tables) && 3 <= k < 8
    ensures FromBits(x[0..8]) < 256 && FromBits(x[8..16]) < 256 && FromBits(x[16..24]) < 256
            && FromBits(x[24..32]) < 256
    ensures |tables[k]| == |tables[k - 1]| == |tables[k - 2]| == |tables[k - 3]| == 256
    ensures Xor(Xor(Xor(tables[k][FromBits(x[0..8])], tables[k - 1][FromBits(x[8..16])]),
                    tables[k - 2][FromBits(x[16..24])]),
                tables[k - 3][FromBits(x[24..32])]) == Bits(x, 8 * (k + 1))
  {
    hide Bits, Xor;
    Lookup(tables[k], k, x[0..8]);
    Lookup(tables[k - 1], k - 1, x[8..16]);
    Lookup(tables[k - 2], k - 2, x[16..24]);
    Lookup(tables[k - 3], k - 3, x[24..32]);
    Parts(x, k + 1);
  }

  lemma XorComm(a: Word, b: Word)
    ensures Xor(a, b) == Xor(b, a)
  {}

  lemma EightBytes(crc: Word, ds: seq<Byte>)
    requires |ds| == 8
    ensures Update(crc, ds) == Xor(Bits(Xor(LeWord(ds[..4]), crc), 64), Bits(LeWord(ds[4..]), 32))
  {
    hide Bits, Xor, LeWord, Update;
    var one, two := Xor(crc, LeWord(ds[..4])), LeWord(ds[4..]);
    XorComm(crc, LeWord(ds[..4]));
    UpdateConcat(crc, ds[..4], ds[4..]);
    assert ds[..4] + ds[4..] == ds;
    Sliced(crc, ds[..4]);
    Sliced(Bits(one, 32), ds[4..]);
    BitsLinear(Bits(one, 32), two, 32);
    BitsAdd(one, 32, 32);
  }

  /** `crc32`. */
  method Crc32Fast(tables: seq<seq<Word>>, data: seq<Byte>) returns (r: Word)
    requires TablesRight(tables)
    ensures r == Crc32(data)
  {
    hide Update, TableRight, Xor, Shr, Bits;
    var crc := Ones();
    var chunks := |data| / 8;
    assert data[..0] == [];
    NoData(crc);
    for i := 0 to chunks
      invariant crc == Update(Ones(), data[..8 * i])
    {
      var o := 8 * i;
      var next := SliceEight(tables, crc, data[o .. o + 8]);
      UpdateConcat(Ones(), data[..o], data[o .. o + 8]);
      assert data[..o] + data[o .. o + 8] == data[..o + 8];
      crc := next;
    }
    for j := 8 * chunks to |data|
      invariant crc == Update(Ones(), data[..j])
    {
      crc := OneByte(tables, crc, data[j]);
      UpdateStep(Ones(), data, j);
    }
    assert data[..|data|] == data;
    return Not(crc);
  }

  lemma NoData(c: Word)
    ensures Update(c, []) == c
  {}

  lemma UpdateStep(c: Word, data: seq<Byte>, j: nat)
    requires j < |data|
    ensures Update(c, data[..j + 1]) == Push(Update(c, data[..j]), data[j])
  {
    assert data[..j + 1][..j] == data[..j];
  }

  /** The tail loop's step. */
  method OneByte(tables: seq<seq<Word>>, crc: Word, b: Byte) returns (next: Word)
    requires TablesRight(tables)
    ensures next == Push(crc, b)
  {
    hide Bits, Shr;
    var x := Xor(crc, ByteWord(b));
    Lookup(tables[0], 0, x[..8]);
    ByteSplit(x);
    assert Shr(x, 8) == Shr(crc, 8) by { SameAbove(crc, b); }
    next := Xor(tables[0][FromBits(x[..8])], Shr(crc, 8));
  }

  lemma SameAbove(crc: Word, b: Byte)
    ensures Shr(Xor(crc, ByteWord(b)), 8) == Shr(crc, 8)
  {}
}
