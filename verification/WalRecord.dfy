/** The log's record codec (src/wal.rs): a block of encoded records and zero padding is scanned back as its records. */
module WalRecord {
  import opened Keys
  import opened PayloadCodec
  import opened WalLog

  const MAGIC := 0x6C73
  const HEADER := 19

  function OpByte(m: Mutation): nat {
    match m
    case Put(_, _) => 1
    case Delete(_) => 2
    case RangeDelete(_, _) => 3
    case PutTtl(_, _, _) => 4
  }

  function KeyOf(m: Mutation): Bytes {
    if m.RangeDelete? then m.start else m.key
  }

  function ValOf(m: Mutation): Bytes {
    match m
    case Put(_, val) => val
    case Delete(_) => []
    case RangeDelete(_, end) => end
    case PutTtl(_, val, _) => val
  }

  function ExtraOf(m: Mutation): Bytes {
    if m.PutTtl? then Le(m.expireAt, 8) else []
  }

  /** What `encode_record` can be given: `u16` lengths, `u64` numbers, and no expiry of 0 (that is a plain put). */
  ghost predicate Encodable(r: Item) {
    && r.Rec? && r.seqno < Pow256(8) && |KeyOf(r.op)| < 0x1_0000 && |ValOf(r.op)| < 0x1_0000
    && (r.op.PutTtl? ==> 0 < r.op.expireAt < Pow256(8))
  }

  function LenOf(m: Mutation): nat {
    17 + |KeyOf(m)| + |ValOf(m)| + |ExtraOf(m)|
  }

  /** The record from its sequence on. */
  function Fields(r: Item): Bytes
    requires r.Rec?
  {
    Le(r.seqno, 8) + ([(OpByte(r.op) + if r.more then 128 else 0) as Byte]
    + (Le(|KeyOf(r.op)|, 2) + (Le(|ValOf(r.op)|, 2) + (KeyOf(r.op) + (ValOf(r.op) + ExtraOf(r.op))))))
  }

  /** What the checksum covers. */
  function Covered(r: Item): Bytes
    requires r.Rec?
  {
    Le(LenOf(r.op), 4) + Fields(r)
  }

  /** `encode_record`, with the checksum as given. */
  function EncodeRecord(r: Item, crc: Bytes -> nat): Bytes
    requires r.Rec?
  {
    Le(MAGIC, 2) + (Covered(r) + Le(crc(Covered(r)), 4))
  }

  datatype Scan = CleanEnd | Corrupt | Record(item: Item, len: nat)

  function OpFrom(op: nat, key: Bytes, val: Bytes, extra: Bytes): Option<Mutation> {
    if op == 1 then Some(Put(key, val))
    else if op == 2 then Some(Delete(key))
    else if op == 3 then Some(RangeDelete(key, val))
    else if op == 4 then Some(PutTtl(key, val, FromLe(extra)))
    else None
  }

  datatype Head = Head(seqno: nat, op: nat, more: bool, keyLen: nat, valLen: nat)

  function ParseHead(b: Bytes): Option<Got<Head>> {
    var q := TakeNum(b, 8);
    if q.None? || q.value.rest == [] then None else
    var kl := TakeNum(q.value.rest[1..], 2);
    if kl.None? then None else
    var vl := TakeNum(kl.value.rest, 2);
    if vl.None? then None else
    Some(Got(Head(q.value.value, q.value.rest[0] as nat % 128, q.value.rest[0] >= 128, kl.value.value, vl.value.value),
             vl.value.rest))
  }

  /** Key, value and expiry; nothing may be left over. */
  function ParseTail(h: Head, b: Bytes): Option<Item> {
    var key := TakeBytes(b, h.keyLen);
    if key.None? then None else
    var val := TakeBytes(key.value.rest, h.valLen);
    if val.None? || |val.value.rest| != (if h.op == 4 then 8 else 0) then None else
    var m := OpFrom(h.op, key.value.value, val.value.value, val.value.rest);
    if m.None? then None else Some(Rec(h.seqno, h.more, m.value))
  }

  function ParseFields(b: Bytes): Option<Item> {
    var h := ParseHead(b);
    if h.None? then None else ParseTail(h.value.value, h.value.rest)
  }

  predicate AllZero(b: Bytes) {
    forall i :: 0 <= i < |b| ==> b[i] == 0
  }

  /** `scan_record`. */
  function ScanRecord(b: Bytes, crc: Bytes -> nat): Scan {
    if AllZero(b) then CleanEnd
    else if |b| < HEADER || FromLe(b[0..2]) != MAGIC then Corrupt
    else
      var len := FromLe(b[2..6]);
      if len + 6 > |b| || len < 4 || FromLe(b[2 + len .. 6 + len]) != crc(b[2 .. 2 + len]) then Corrupt
      else
        var r := ParseFields(b[6 .. 2 + len]);
        if r.None? then Corrupt else Record(r.value, len + 6)
  }

  lemma FieldsSize(r: Item)
    requires r.Rec?
    ensures |Fields(r)| + 4 == LenOf(r.op) && |Covered(r)| == LenOf(r.op)
  {
    hide Le;
  }

  /** The fields are read back. */
  lemma FieldsBack(r: Item)
    requires Encodable(r)
    ensures ParseFields(Fields(r)) == Some(r)
  {
    hide ParseHead, ParseTail, Encodable, Fields;
    HeadBack(r);
    TailBack(r);
  }

  function HeadOf(r: Item): Head
    requires r.Rec?
  {
    Head(r.seqno, OpByte(r.op), r.more, |KeyOf(r.op)|, |ValOf(r.op)|)
  }

  lemma HeadBack(r: Item)
    requires Encodable(r)
    ensures ParseHead(Fields(r)) == Some(Got(HeadOf(r), KeyOf(r.op) + (ValOf(r.op) + ExtraOf(r.op))))
  {
    Pows();
    hide Le, FromLe, TakeNum, Pow256, ExtraOf;
    var b4 := KeyOf(r.op) + (ValOf(r.op) + ExtraOf(r.op));
    var b3 := Le(|ValOf(r.op)|, 2) + b4;
    var b2 := Le(|KeyOf(r.op)|, 2) + b3;
    var op: seq<Byte> := [(OpByte(r.op) + if r.more then 128 else 0) as Byte];
    NumBack(r.seqno, 8, op + b2);
    assert (op + b2)[1..] == b2 && (op + b2)[0] == op[0];
    NumBack(|KeyOf(r.op)|, 2, b3);
    NumBack(|ValOf(r.op)|, 2, b4);
  }

  lemma TailBack(r: Item)
    requires Encodable(r)
    ensures ParseTail(HeadOf(r), KeyOf(r.op) + (ValOf(r.op) + ExtraOf(r.op))) == Some(r)
  {
    OpBack(r.op);
    hide TakeBytes, OpFrom, OpByte, KeyOf, ValOf, ExtraOf;
    BytesBack(KeyOf(r.op), ValOf(r.op) + ExtraOf(r.op));
    BytesBack(ValOf(r.op), ExtraOf(r.op));
  }

  lemma OpBack(m: Mutation)
    requires m.PutTtl? ==> m.expireAt < Pow256(8)
    ensures OpFrom(OpByte(m), KeyOf(m), ValOf(m), ExtraOf(m)) == Some(m)
    ensures |ExtraOf(m)| == if OpByte(m) == 4 then 8 else 0
  {
    if m.PutTtl? { LeRoundTrip(m.expireAt, 8); }
  }

  lemma BytesBack(a: Bytes, rest: Bytes)
    ensures TakeBytes(a + rest, |a|) == Some(Got(a, rest))
  {
    assert (a + rest)[..|a|] == a && (a + rest)[|a|..] == rest;
  }

  /** Where a record's parts are found. */
  lemma Laid(m: Bytes, l: Bytes, f: Bytes, c: Bytes, rest: Bytes)
    requires |m| == 2 && |l| == 4 && |c| == 4
    ensures var b := m + ((l + f) + c) + rest; var n := 4 + |f|;
            && |b| >= n + 6 && b[0..2] == m && b[2..6] == l && b[6 .. 2 + n] == f && b[2 .. 2 + n] == l + f
            && b[2 + n .. 6 + n] == c
            && b[n + 6..] == rest
  {
    var b := m + ((l + f) + c) + rest;
    assert b == m + l + f + c + rest;
  }

  /** An encoded record is read back, whatever follows it. */
  lemma RecordBack(r: Item, crc: Bytes -> nat, rest: Bytes)
    requires Encodable(r) && forall x :: crc(x) < Pow256(4)
    ensures ScanRecord(EncodeRecord(r, crc) + rest, crc) == Record(r, |EncodeRecord(r, crc)|)
    ensures |EncodeRecord(r, crc)| > 0 && (EncodeRecord(r, crc) + rest)[|EncodeRecord(r, crc)|..] == rest
  {
    var b := EncodeRecord(r, crc) + rest;
    var c := Covered(r);
    Laid(Le(MAGIC, 2), Le(LenOf(r.op), 4), Fields(r), Le(crc(c), 4), rest);
    FieldsSize(r);
    FieldsBack(r);
    Pows();
    LeRoundTrip(MAGIC, 2);
    LeRoundTrip(LenOf(r.op), 4);
    LeRoundTrip(crc(c), 4);
    hide Le, FromLe, Pow256, Fields, ParseFields, LenOf;
    NotZero(b);
    assert |EncodeRecord(r, crc)| == LenOf(r.op) + 6;
    hide AllZero;
    assert |b| >= HEADER;
  }

  lemma Pows()
    ensures Pow256(2) == 0x1_0000 && Pow256(4) == 0x1_0000_0000
  {
    assert Pow256(0) == 1 && Pow256(1) == 256 && Pow256(3) == 0x100_0000;
  }

  lemma NotZero(b: Bytes)
    requires |b| >= 2 && b[0..2] == Le(MAGIC, 2)
    ensures b[0] != 0
  {
    assert b[0] == b[0..2][0] == Le(MAGIC, 2)[0];
  }

  /** A whole block's items. */
  function ScanItems(b: Bytes, crc: Bytes -> nat): seq<Item>
    decreases |b|
  {
    var s := ScanRecord(b, crc);
    match s
    case CleanEnd => []
    case Corrupt => [Junk]
    case Record(item, len) => if len == 0 || len > |b| then [Junk] else [item] + ScanItems(b[len..], crc)
  }

  ghost predicate AllEncodable(rs: seq<Item>) {
    forall i :: 0 <= i < |rs| ==> Encodable(rs[i])
  }

  ghost function EncodeAll(rs: seq<Item>, crc: Bytes -> nat, rest: Bytes): Bytes
    requires AllEncodable(rs)
  {
    if rs == [] then rest else EncodeRecord(rs[0], crc) + EncodeAll(rs[1..], crc, rest)
  }

  /** A written block, its records and then zeros, is scanned as its records. */
  lemma {:induction false} BlockBack(rs: seq<Item>, crc: Bytes -> nat, pad: nat)
    requires AllEncodable(rs) && forall x :: crc(x) < Pow256(4)
    ensures ScanItems(EncodeAll(rs, crc, seq(pad, _ => 0)), crc) == rs
    decreases |rs|
  {
    if rs == [] {
      PaddingEnds(pad, crc);
    } else {
      hide ScanItems, ScanRecord, EncodeRecord, Encodable;
      BlockBack(rs[1..], crc, pad);
      var rest := EncodeAll(rs[1..], crc, seq(pad, _ => 0));
      RecordBack(rs[0], crc, rest);
      ScanNext(EncodeRecord(rs[0], crc) + rest, crc, rs[0], |EncodeRecord(rs[0], crc)|);
      assert [rs[0]] + rs[1..] == rs;
    }
  }

  lemma PaddingEnds(pad: nat, crc: Bytes -> nat)
    ensures ScanItems(seq(pad, _ => 0), crc) == []
  {
    var b: Bytes := seq(pad, _ => 0);
    assert AllZero(b);
  }

  lemma ScanNext(b: Bytes, crc: Bytes -> nat, r: Item, len: nat)
    requires ScanRecord(b, crc) == Record(r, len) && 0 < len <= |b|
    ensures ScanItems(b, crc) == [r] + ScanItems(b[len..], crc)
  {
    hide ScanRecord;
  }

  // The same decoder, offset by offset.

  /** The lengths a record's header gives: key, value, and eight bytes of expiry for operation 4. */
  function KeyLen(b: Bytes): nat
    requires |b| >= 19
  {
    FromLe(b[15..17])
  }

  function ValLen(b: Bytes): nat
    requires |b| >= 19
  {
    FromLe(b[17..19])
  }

  function ExpiryLen(b: Bytes): nat
    requires |b| >= 19
  {
    if b[14] as nat % 128 == 4 then 8 else 0
  }

  /** Magic, length, operation and checksum are right: 2 bytes of magic, 4 of length, 8 of sequence, 1 of operation and
      more-flag, 2 and 2 of key and value length, key, value, expiry, 4 of checksum over all but the magic. */
  predicate Intact(b: Bytes, crc: Bytes -> nat) {
    && |b| >= 19 && b[0] == 0x73 && b[1] == 0x6C && FromLe(b[2..6]) + 6 <= |b| && 1 <= b[14] as nat % 128 <= 4
    && var end := 19 + KeyLen(b) + ValLen(b) + ExpiryLen(b);
       end + 4 == FromLe(b[2..6]) + 6 && FromLe(b[end .. end + 4]) == crc(b[2..end])
  }

  /** The record an intact one stands for. */
  function At(b: Bytes, crc: Bytes -> nat): Item
    requires Intact(b, crc)
  {
    var k := 19 + KeyLen(b);
    var v := k + ValLen(b);
    var op := b[14] as nat % 128;
    Rec(FromLe(b[6..14]), b[14] as nat >= 128,
        if op == 1 then Put(b[19..k], b[k..v])
        else if op == 2 then Delete(b[19..k])
        else if op == 3 then RangeDelete(b[19..k], b[k..v])
        else PutTtl(b[19..k], b[k..v], FromLe(b[v .. v + 8])))
  }

  lemma MagicBytes(b: Bytes)
    requires |b| == 2
    ensures FromLe(b) == MAGIC <==> b[0] == 0x73 && b[1] == 0x6C
  {
    assert b[1..][1..] == [] && b[1..][0] == b[1];
    assert FromLe(b) == b[0] as nat + 256 * (b[1] as nat + 256 * FromLe([]));
  }

  /** The header of a record's fields. */
  lemma HeadAt(b: Bytes, end: nat)
    requires 19 <= end <= |b|
    ensures ParseHead(b[6..end])
            == Some(Got(Head(FromLe(b[6..14]), b[14] as nat % 128, b[14] as nat >= 128, KeyLen(b), ValLen(b)),
                        b[19..end]))
  {
    hide FromLe;
    var f := b[6..end];
    assert f[..8] == b[6..14] && f[8..] == b[14..end] && f[8..][1..] == b[15..end];
    assert b[15..end][..2] == b[15..17] && b[15..end][2..] == b[17..end];
    assert b[17..end][..2] == b[17..19] && b[17..end][2..] == b[19..end];
  }

  /** Fewer bytes are no header. */
  lemma NoHead(f: Bytes)
    requires |f| < 13
    ensures ParseHead(f).None?
  {
    hide FromLe;
  }

  lemma TailAt(h: Head, b: Bytes, end: nat)
    requires 19 <= end <= |b|
    ensures var k := 19 + h.keyLen; var v := k + h.valLen;
            ParseTail(h, b[19..end])
            == if v + (if h.op == 4 then 8 else 0) != end || OpFrom(h.op, [], [], []).None? then None
               else Some(Rec(h.seqno, h.more, OpFrom(h.op, b[19..k], b[k..v], b[v..end]).value))
  {
    hide FromLe;
    var k := 19 + h.keyLen;
    var v := k + h.valLen;
    if v <= end {
      var t := b[19..end];
      assert t[..h.keyLen] == b[19..k] && t[h.keyLen..] == b[k..end];
      assert b[k..end][..h.valLen] == b[k..v] && b[k..end][h.valLen..] == b[v..end];
    }
  }

  /** `scan_record` takes exactly the intact records, for what their bytes say. */
  lemma ScanExactly(b: Bytes, crc: Bytes -> nat)
    ensures ScanRecord(b, crc) == if AllZero(b) then CleanEnd
                                  else if Intact(b, crc) then Record(At(b, crc), FromLe(b[2..6]) + 6)
                                  else Corrupt
  {
    hide FromLe, ParseHead, ParseTail;
    if !AllZero(b) && |b| >= 19 {
      MagicBytes(b[0..2]);
      var len := FromLe(b[2..6]);
      if 4 <= len && len + 6 <= |b| {
        if len < 17 {
          NoHead(b[6 .. 2 + len]);
        } else {
          HeadAt(b, 2 + len);
          TailAt(Head(FromLe(b[6..14]), b[14] as nat % 128, b[14] as nat >= 128, KeyLen(b), ValLen(b)), b, 2 + len);
        }
      }
    }
  }
}
