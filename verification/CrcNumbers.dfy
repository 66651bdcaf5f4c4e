/** CRC-32 on 32-bit numbers, as section 8 of RFC 1952 writes it, and that the words of `Crc` are those numbers. */
module CrcNumbers {
  import opened Keys
  import opened Crc

  type U32 = bv32

  /** One bit: `if (c & 1) c = 0xedb88320 ^ (c >> 1); else c = c >> 1;`. */
  function Step(c: U32): U32 {
    if c & 1 == 1 then 0xEDB8_8320 ^ (c >> 1) else c >> 1
  }

  function Steps(c: U32, k: nat): U32
    decreases k
  {
    if k == 0 then c else Steps(Step(c), k - 1)
  }

  function Absorb(c: U32, data: seq<U32>): U32
    decreases |data|
  {
    if data == [] then c else Absorb(Steps(c ^ data[0], 8), data[1..])
  }

  /** `update_crc(0, buf, len)` of the RFC. */
  function RfcCrc(data: seq<U32>): U32 {
    Absorb(0xFFFF_FFFF, data) ^ 0xFFFF_FFFF
  }

  // Numbers as words.

  function Odd(v: U32): bool {
    v & 1 == 1
  }

  function Half(v: U32): U32 {
    v >> 1
  }

  function Differ(a: U32, b: U32): U32 {
    a ^ b
  }

  function Up(v: U32): U32 {
    v >> 8
  }

  /** The `k` low bits of a number, the least significant first. */
  function Low(v: U32, k: nat): (s: Bitstring)
    ensures |s| == k
    decreases k
  {
    if k == 0 then [] else [Odd(v)] + Low(Half(v), k - 1)
  }

  function Of(v: U32): Word {
    Low(v, 32)
  }

  /** The lowest byte. */
  function Eight(v: U32): (s: Bitstring)
    ensures |s| == 8
  {
    [v & 1 == 1, v & 2 == 2, v & 4 == 4, v & 8 == 8, v & 16 == 16, v & 32 == 32, v & 64 == 64, v & 128 == 128]
  }

  lemma EightLow(v: U32, k: nat)
    ensures Low(v, k + 8) == Eight(v) + Low(Up(v), k)
  {
    hide Low;
    FourLow(v, k + 4);
    FourLow(v >> 4, k);
    FourUp(v);
    EightCons(v & 1 == 1, v & 2 == 2, v & 4 == 4, v & 8 == 8, v & 16 == 16, v & 32 == 32, v & 64 == 64, v & 128 == 128,
              Low(Up(v), k));
  }

  lemma FourBytes(v: U32)
    ensures Of(v) == Eight(v) + Eight(Up(v)) + Eight(Up(Up(v))) + Eight(Up(Up(Up(v))))
  {
    hide Eight, Low, Up;
    EightLow(v, 24);
    EightLow(Up(v), 16);
    EightLow(Up(Up(v)), 8);
    EightLow(Up(Up(Up(v))), 0);
    NoLow(Up(Up(Up(Up(v)))));
    Regroup(Eight(v), Eight(Up(v)), Eight(Up(Up(v))), Eight(Up(Up(Up(v)))));
  }

  lemma Regroup(a: Bitstring, b: Bitstring, c: Bitstring, d: Bitstring)
    ensures a + (b + (c + (d + []))) == a + b + c + d
  {}

  lemma NoLow(v: U32)
    ensures Low(v, 0) == []
  {}

  lemma FourUp(v: U32)
    ensures (v >> 4) >> 4 == Up(v)
    ensures ((v >> 4) & 1 == 1 <==> v & 16 == 16) && ((v >> 4) & 2 == 2 <==> v & 32 == 32)
            && ((v >> 4) & 4 == 4 <==> v & 64 == 64) && ((v >> 4) & 8 == 8 <==> v & 128 == 128)
  {}

  lemma EightCons(a: bool, b: bool, c: bool, d: bool, e: bool, f: bool, g: bool, h: bool, s: Bitstring)
    ensures [a, b, c, d] + ([e, f, g, h] + s) == [a, b, c, d, e, f, g, h] + s
  {}

  lemma FourCons(a: bool, b: bool, c: bool, d: bool, s: Bitstring)
    ensures [a, b] + ([c, d] + s) == [a, b, c, d] + s
  {}

  lemma FourLow(v: U32, k: nat)
    ensures Low(v, k + 4) == [v & 1 == 1, v & 2 == 2, v & 4 == 4, v & 8 == 8] + Low(v >> 4, k)
  {
    hide Low;
    TwoLow(v, k + 2);
    TwoLow(v >> 2, k);
    TwoUp(v);
    FourCons(v & 1 == 1, v & 2 == 2, v & 4 == 4, v & 8 == 8, Low(v >> 4, k));
  }

  lemma TwoUp(v: U32)
    ensures (v >> 2) >> 2 == v >> 4 && ((v >> 2) & 1 == 1 <==> v & 4 == 4) && ((v >> 2) & 2 == 2 <==> v & 8 == 8)
  {}

  lemma TwoLow(v: U32, k: nat)
    ensures Low(v, k + 2) == [v & 1 == 1, v & 2 == 2] + Low(v >> 2, k)
  {
    hide Low, Odd, Half;
    OneLow(v, k + 1);
    OneLow(Half(v), k);
    OneUp(v);
    assert [Odd(v)] + ([Odd(Half(v))] + Low(v >> 2, k)) == [Odd(v), Odd(Half(v))] + Low(v >> 2, k);
  }

  lemma OneUp(v: U32)
    ensures Half(Half(v)) == v >> 2 && (Odd(v) <==> v & 1 == 1) && (Odd(Half(v)) <==> v & 2 == 2)
  {}

  lemma OneLow(v: U32, k: nat)
    ensures Low(v, k + 1) == [Odd(v)] + Low(Half(v), k)
  {}

  lemma LowAt(v: U32, k: nat, i: nat)
    requires i < k
    ensures Low(v, k)[i] == if i == 0 then Odd(v) else Low(Half(v), k - 1)[i - 1]
  {}

  lemma XorUp(a: U32, b: U32)
    ensures Odd(Differ(a, b)) == (Odd(a) != Odd(b)) && Half(Differ(a, b)) == Differ(Half(a), Half(b))
  {}

  lemma {:induction false} XorLow(a: U32, b: U32, k: nat, i: nat)
    requires i < k
    ensures Low(Differ(a, b), k)[i] == (Low(a, k)[i] != Low(b, k)[i])
    decreases k
  {
    hide Low, Odd, Half, Differ;
    LowAt(a, k, i);
    LowAt(b, k, i);
    LowAt(Differ(a, b), k, i);
    XorUp(a, b);
    if i > 0 { XorLow(Half(a), Half(b), k - 1, i - 1); }
  }

  lemma XorOf(a: U32, b: U32)
    ensures Of(a ^ b) == Xor(Of(a), Of(b))
  {
    hide Low;
    assert a ^ b == Differ(a, b);
    forall i | 0 <= i < 32 ensures Of(Differ(a, b))[i] == Xor(Of(a), Of(b))[i] {
      XorLow(a, b, 32, i);
    }
  }

  lemma {:induction false} ZeroLow(k: nat)
    ensures Low(0, k) == Zero(k)
  {
    if k > 0 {
      ZeroLow(k - 1);
      OneLow(0, k - 1);
      assert 0 as U32 >> 1 == 0 && (0 as U32) & 1 != 1;
      assert Zero(k) == [false] + Zero(k - 1);
    }
  }

  /** What lies above the bits taken is what is left when they are shifted out. */
  lemma {:induction false} LowMore(v: U32, a: nat)
    requires a <= 32
    ensures Low(v, a + 1)[..a] == Low(v, a)
    decreases a
  {
    if a > 0 { LowMore(Half(v), a - 1); }
  }

  lemma TopBit(v: U32)
    ensures Of(Half(v)) == Low(Half(v), 31) + [false]
  {
    LowMore(Half(v), 31);
    LastBit(Half(v));
  }

  lemma LastBit(v: U32)
    ensures Of(v)[31] == (v & 0x8000_0000 != 0)
  {
    hide Of, Low;
    FourBytes(v);
    assert Of(v)[31] == Eight(Up(Up(Up(v))))[7] by { hide Eight; }
    TopUp(v);
  }

  lemma TopUp(v: U32)
    ensures (Up(Up(Up(v)))) & 128 == 128 <==> v & 0x8000_0000 != 0
  {}

  lemma ShiftOf(v: U32)
    ensures Of(Half(v)) == Shr(Of(v), 1) && Of(v)[0] == Odd(v)
  {
    TopBit(v);
    OneLow(v, 31);
    assert Zero(1) == [false];
    assert Of(v)[1..] == Low(Half(v), 31);
  }

  /** The polynomial's bits are those of the source's constant. */
  lemma PolyOf()
    ensures Poly() == Of(0xEDB8_8320)
  {
    hide Of;
    FourBytes(0xEDB8_8320);
    PolyBytes();
    hide Eight;
  }

  lemma PolyBytes()
    ensures Eight(0xEDB8_8320) == [false, false, false, false, false, true, false, false]
    ensures Eight(Up(0xEDB8_8320)) == [true, true, false, false, false, false, false, true]
    ensures Eight(Up(Up(0xEDB8_8320))) == [false, false, false, true, true, true, false, true]
    ensures Eight(Up(Up(Up(0xEDB8_8320)))) == [true, false, true, true, false, true, true, true]
  {}

  lemma BitOf(v: U32)
    ensures Bit(Of(v)) == Of(Step(v))
  {
    hide Poly, Shr, Xor, Of;
    PolyOf();
    ShiftOf(v);
    XorOf(0xEDB8_8320, Half(v));
  }

  lemma {:induction false} StepsOf(v: U32, k: nat)
    ensures Bits(Of(v), k) == Of(Steps(v, k))
    decreases k
  {
    hide Bit, Of, Step;
    if k > 0 {
      BitsAdd(Of(v), 1, k - 1);
      assert Bits(Of(v), 1) == Bit(Bits(Of(v), 0)) == Bit(Of(v));
      BitOf(v);
      StepsOf(Step(v), k - 1);
    }
  }

  /** A byte as a number. */
  function Number(b: Byte): U32 {
    var n := b as nat;
    If(n % 2 == 1, 1) | If(n / 2 % 2 == 1, 2) | If(n / 4 % 2 == 1, 4) | If(n / 8 % 2 == 1, 8)
    | If(n / 16 % 2 == 1, 16) | If(n / 32 % 2 == 1, 32) | If(n / 64 % 2 == 1, 64) | If(n / 128 % 2 == 1, 128)
  }

  function If(on: bool, bit: U32): U32 {
    if on then bit else 0
  }

  lemma NumberBits(b: Byte)
    ensures var n, v := b as nat, Number(b);
            && (v & 1 == 1 <==> n % 2 == 1) && (v & 2 == 2 <==> n / 2 % 2 == 1) && (v & 4 == 4 <==> n / 4 % 2 == 1)
            && (v & 8 == 8 <==> n / 8 % 2 == 1) && (v & 16 == 16 <==> n / 16 % 2 == 1)
            && (v & 32 == 32 <==> n / 32 % 2 == 1) && (v & 64 == 64 <==> n / 64 % 2 == 1)
            && (v & 128 == 128 <==> n / 128 % 2 == 1) && Up(v) == 0
  {}

  lemma Halves(n: nat)
    ensures n / 2 / 2 == n / 4 && n / 4 / 2 == n / 8 && n / 8 / 2 == n / 16
    ensures n / 16 / 2 == n / 32 && n / 16 / 4 == n / 64 && n / 16 / 8 == n / 128
  {}

  lemma OneBit(n: nat, k: nat)
    ensures ToBits(n, k + 1) == [n % 2 == 1] + ToBits(n / 2, k)
  {}

  lemma FourBits(n: nat, k: nat)
    ensures ToBits(n, k + 4) == [n % 2 == 1, n / 2 % 2 == 1, n / 4 % 2 == 1, n / 8 % 2 == 1] + ToBits(n / 16, k)
  {
    hide ToBits;
    Halves(n);
    OneBit(n, k + 3);
    OneBit(n / 2, k + 2);
    OneBit(n / 4, k + 1);
    OneBit(n / 8, k);
    FourCons(n % 2 == 1, n / 2 % 2 == 1, n / 4 % 2 == 1, n / 8 % 2 == 1, ToBits(n / 16, k));
  }

  lemma ByteBits(n: nat)
    ensures ToBits(n, 8) == [n % 2 == 1, n / 2 % 2 == 1, n / 4 % 2 == 1, n / 8 % 2 == 1, n / 16 % 2 == 1,
                             n / 32 % 2 == 1, n / 64 % 2 == 1, n / 128 % 2 == 1]
  {
    assert ToBits(n / 16 / 16, 0) == [];
    hide ToBits;
    FourBits(n, 4);
    FourBits(n / 16, 0);
    Halves(n);
    EightCons(n % 2 == 1, n / 2 % 2 == 1, n / 4 % 2 == 1, n / 8 % 2 == 1, n / 16 % 2 == 1, n / 32 % 2 == 1,
              n / 64 % 2 == 1, n / 128 % 2 == 1, []);
  }

  lemma ByteOf(b: Byte)
    ensures ByteWord(b) == Of(Number(b))
  {
    hide Number, Low, ToBits;
    NumberBits(b);
    EightLow(Number(b), 24);
    ZeroLow(24);
    ByteBits(b as nat);
  }

  function Numbers(data: seq<Byte>): seq<U32> {
    seq(|data|, i requires 0 <= i < |data| => Number(data[i]))
  }

  lemma PushOf(v: U32, b: Byte)
    ensures Push(Of(v), b) == Of(Steps(v ^ Number(b), 8))
  {
    hide Of, Steps, Bits, ByteWord, Number, Xor;
    ByteOf(b);
    XorOf(v, Number(b));
    StepsOf(v ^ Number(b), 8);
  }

  lemma {:induction false} AbsorbOf(v: U32, data: seq<Byte>)
    ensures Update(Of(v), data) == Of(Absorb(v, Numbers(data)))
    decreases |data|
  {
    hide Of, Steps, Push, Number;
    if data != [] {
      var b, rest := data[0], data[1..];
      assert data == [b] + rest;
      UpdateConcat(Of(v), [b], rest);
      UpdateStep(Of(v), [b], 0);
      assert [b][..0] == [] && [b][..1] == [b];
      NoData(Of(v));
      PushOf(v, b);
      AbsorbOf(Steps(v ^ Number(b), 8), rest);
      assert Numbers(data)[1..] == Numbers(rest);
    }
  }

  /** The CRC of the model is the RFC's on every byte string. */
  lemma CrcIsRfc(data: seq<Byte>)
    ensures Crc32(data) == Of(RfcCrc(Numbers(data)))
  {
    hide Of, Update, Absorb, Numbers;
    AllOnes();
    AbsorbOf(0xFFFF_FFFF, data);
    XorOf(Absorb(0xFFFF_FFFF, Numbers(data)), 0xFFFF_FFFF);
    var u := Update(Ones(), data);
    assert Not(u) == Xor(u, Ones());
  }

  lemma AllOnes()
    ensures Ones() == Of(0xFFFF_FFFF)
  {
    hide Of;
    FourBytes(0xFFFF_FFFF);
    assert Eight(0xFFFF_FFFF) == Eight(Up(0xFFFF_FFFF)) == Eight(Up(Up(0xFFFF_FFFF)))
           == Eight(Up(Up(Up(0xFFFF_FFFF)))) == [true, true, true, true, true, true, true, true];
    hide Eight;
  }

  /** The digits 1 to 9 in ASCII, on which CRC-32 has a published check value. */
  lemma CheckValue()
    ensures Crc32([49, 50, 51, 52, 53, 54, 55, 56, 57]) == Of(0xCBF4_3926)
  {
    hide Of, Crc32, Absorb;
    var digits := [49, 50, 51, 52, 53, 54, 55, 56, 57];
    CrcIsRfc(digits);
    assert Numbers(digits) == [0x31, 0x32, 0x33, 0x34, 0x35, 0x36, 0x37, 0x38, 0x39];
    CheckSteps();
  }

  lemma CheckSteps()
    ensures Absorb(0xFFFF_FFFF, [0x31, 0x32, 0x33, 0x34, 0x35, 0x36, 0x37, 0x38, 0x39]) == 0x340B_C6D9
  {
    hide Steps, Absorb;
    var d: seq<U32> := [0x31, 0x32, 0x33, 0x34, 0x35, 0x36, 0x37, 0x38, 0x39];
    StepsOfDigits();
    Next(0xFFFF_FFFF, d, 0);
    Next(0x7C23_1048, d, 1);
    Next(0xB0AC_BB32, d, 2);
    Next(0x77B7_9C2D, d, 3);
    Next(0x641C_1F5C, d, 4);
    Next(0x340A_C5E3, d, 5);
    Next(0xF68D_2C9E, d, 6);
    Next(0xAFFC_9660, d, 7);
    Next(0x651F_2550, d, 8);
    NoMore(0x340B_C6D9);
    assert d[0..] == d && d[9..] == [];
  }

  lemma Next(c: U32, data: seq<U32>, i: nat)
    requires i < |data|
    ensures Absorb(c, data[i..]) == Absorb(Steps(c ^ data[i], 8), data[i + 1..])
  {
    hide Steps;
    assert data[i..][1..] == data[i + 1..];
  }

  lemma NoMore(c: U32)
    ensures Absorb(c, []) == c
  {}

  lemma StepsOfDigits()
    ensures Steps(0xFFFF_FFFF ^ 0x31, 8) == 0x7C23_1048
    ensures Steps(0x7C23_1048 ^ 0x32, 8) == 0xB0AC_BB32
    ensures Steps(0xB0AC_BB32 ^ 0x33, 8) == 0x77B7_9C2D
    ensures Steps(0x77B7_9C2D ^ 0x34, 8) == 0x641C_1F5C
    ensures Steps(0x641C_1F5C ^ 0x35, 8) == 0x340A_C5E3
    ensures Steps(0x340A_C5E3 ^ 0x36, 8) == 0xF68D_2C9E
    ensures Steps(0xF68D_2C9E ^ 0x37, 8) == 0xAFFC_9660
    ensures Steps(0xAFFC_9660 ^ 0x38, 8) == 0x651F_2550
    ensures Steps(0x651F_2550 ^ 0x39, 8) == 0x340B_C6D9
  {}
}
