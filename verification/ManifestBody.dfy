/** The manifest's body (src/manifest.rs): its encoding, read back; the window that writes one block's chunk of it
    without holding the whole; and its greatest size. */
module ManifestBody {
  import opened Arithmetic
  import opened Keys
  import opened PayloadCodec
  import opened StagedEdit
  import opened EditMeaning
  import MC = ManifestCommit

  // Encoding. Each function encodes in front of what follows.

  function PutKey(key: seq<Byte>, rest: seq<Byte>): seq<Byte> {
    Le(|key|, 2) + (key + rest)
  }

  function PutTail(r: Ref, rest: seq<Byte>): seq<Byte> {
    Le(r.maxSeq, 8)
        + (Le(r.minSeq, 8)
           + (Le(r.entryCount, 4) + (Le(r.rdelBlocks, 4) + (Le(r.nodeId, 4) + (Le(r.sealWall, 8) + rest)))))
  }

  function PutRef(r: Ref, rest: seq<Byte>): seq<Byte> {
    Le(r.id, 4)
        + (Le(r.firstBlock, 8) + (Le(r.blockCount, 4) + PutKey(r.firstKey, PutKey(r.lastKey, PutTail(r, rest)))))
  }

  function PutRefs(rs: seq<Ref>, rest: seq<Byte>): seq<Byte> {
    if rs == [] then rest else PutRef(rs[0], PutRefs(rs[1..], rest))
  }

  function PutLevels(levels: seq<seq<Ref>>): seq<Byte> {
    if levels == [] then [] else Le(|levels[0]|, 4) + PutRefs(levels[0], PutLevels(levels[1..]))
  }

  /** `write_body`. */
  function Body(s: Scalars, levels: seq<seq<Ref>>): seq<Byte> {
    Le(s.walHead, 8)
        + (Le(s.nextId, 4) + (Le(s.flushed, 8) + (Le(s.seqHigh, 8) + (Le(|levels|, 4) + PutLevels(levels)))))
  }

  // The same, in the pieces the source writes it in.

  /** Pieces in front of what follows. */
  function Cat(pieces: seq<seq<Byte>>, rest: seq<Byte>): seq<Byte> {
    if pieces == [] then rest else pieces[0] + Cat(pieces[1..], rest)
  }

  function KeyPieces(key: seq<Byte>): seq<seq<Byte>> {
    [Le(|key|, 2), key]
  }

  function TailPieces(r: Ref): seq<seq<Byte>> {
    [Le(r.maxSeq, 8), Le(r.minSeq, 8), Le(r.entryCount, 4), Le(r.rdelBlocks, 4), Le(r.nodeId, 4), Le(r.sealWall, 8)]
  }

  function RefPieces(r: Ref): seq<seq<Byte>> {
    [Le(r.id, 4), Le(r.firstBlock, 8), Le(r.blockCount, 4)]
        + (KeyPieces(r.firstKey) + (KeyPieces(r.lastKey) + TailPieces(r)))
  }

  function RefsPieces(rs: seq<Ref>): seq<seq<Byte>> {
    if rs == [] then [] else RefPieces(rs[0]) + RefsPieces(rs[1..])
  }

  function LevelsPieces(levels: seq<seq<Ref>>): seq<seq<Byte>> {
    if levels == [] then [] else [Le(|levels[0]|, 4)] + (RefsPieces(levels[0]) + LevelsPieces(levels[1..]))
  }

  /** What `write_body` puts, one field after the other. */
  function BodyPieces(s: Scalars, levels: seq<seq<Ref>>): seq<seq<Byte>> {
    [Le(s.walHead, 8), Le(s.nextId, 4), Le(s.flushed, 8), Le(s.seqHigh, 8), Le(|levels|, 4)] + LevelsPieces(levels)
  }

  lemma {:induction false} CatConcat(a: seq<seq<Byte>>, b: seq<seq<Byte>>, rest: seq<Byte>)
    ensures Cat(a + b, rest) == Cat(a, Cat(b, rest))
  {
    if a == [] {
      assert a + b == b;
    } else {
      assert (a + b)[0] == a[0] && (a + b)[1..] == a[1..] + b;
      CatConcat(a[1..], b, rest);
    }
  }

  lemma CatOne(p: seq<Byte>, ps: seq<seq<Byte>>, rest: seq<Byte>)
    ensures Cat([p] + ps, rest) == p + Cat(ps, rest)
  {
    assert ([p] + ps)[1..] == ps;
  }

  lemma CatTwo(p: seq<Byte>, q: seq<Byte>, rest: seq<Byte>)
    ensures Cat([p, q], rest) == p + (q + rest)
  {
    assert [p, q][1..] == [q] && [q][1..] == [];
    assert Cat([q], rest) == q + Cat([], rest);
  }

  lemma CatThree(p: seq<Byte>, q: seq<Byte>, r: seq<Byte>, rest: seq<Byte>)
    ensures Cat([p, q, r], rest) == p + (q + (r + rest))
  {
    assert [p, q, r][1..] == [q, r];
    CatTwo(q, r, rest);
  }

  lemma CatTail(r: Ref, rest: seq<Byte>)
    ensures Cat(TailPieces(r), rest) == PutTail(r, rest)
  {
    hide Le, Cat;
    var a, b, c := Le(r.maxSeq, 8), Le(r.minSeq, 8), Le(r.entryCount, 4);
    var d, e, f := Le(r.rdelBlocks, 4), Le(r.nodeId, 4), Le(r.sealWall, 8);
    assert TailPieces(r) == [a, b, c] + [d, e, f];
    CatConcat([a, b, c], [d, e, f], rest);
    CatThree(d, e, f, rest);
    CatThree(a, b, c, d + (e + (f + rest)));
  }

  lemma CatRef(r: Ref, rest: seq<Byte>)
    ensures Cat(RefPieces(r), rest) == PutRef(r, rest)
  {
    hide Le, Cat, TailPieces, PutTail;
    var front := [Le(r.id, 4), Le(r.firstBlock, 8), Le(r.blockCount, 4)];
    CatConcat(front, KeyPieces(r.firstKey) + (KeyPieces(r.lastKey) + TailPieces(r)), rest);
    CatConcat(KeyPieces(r.firstKey), KeyPieces(r.lastKey) + TailPieces(r), rest);
    CatConcat(KeyPieces(r.lastKey), TailPieces(r), rest);
    CatTail(r, rest);
    CatTwo(Le(|r.lastKey|, 2), r.lastKey, PutTail(r, rest));
    CatTwo(Le(|r.firstKey|, 2), r.firstKey, PutKey(r.lastKey, PutTail(r, rest)));
    CatThree(Le(r.id, 4), Le(r.firstBlock, 8), Le(r.blockCount, 4),
             PutKey(r.firstKey, PutKey(r.lastKey, PutTail(r, rest))));
  }

  lemma {:induction false} CatRefs(rs: seq<Ref>, rest: seq<Byte>)
    ensures Cat(RefsPieces(rs), rest) == PutRefs(rs, rest)
  {
    if rs != [] {
      hide RefPieces, PutRef;
      CatConcat(RefPieces(rs[0]), RefsPieces(rs[1..]), rest);
      CatRefs(rs[1..], rest);
      CatRef(rs[0], PutRefs(rs[1..], rest));
    }
  }

  lemma {:induction false} CatLevels(levels: seq<seq<Ref>>)
    ensures Cat(LevelsPieces(levels), []) == PutLevels(levels)
  {
    hide RefsPieces, PutRefs, Le;
    if levels != [] {
      var rest := LevelsPieces(levels[1..]);
      CatOne(Le(|levels[0]|, 4), RefsPieces(levels[0]) + rest, []);
      CatConcat(RefsPieces(levels[0]), rest, []);
      CatLevels(levels[1..]);
      CatRefs(levels[0], PutLevels(levels[1..]));
    }
  }

  /** The pieces are the body. */
  lemma BodyPiecesFlat(s: Scalars, levels: seq<seq<Ref>>)
    ensures Flat(BodyPieces(s, levels)) == Body(s, levels)
  {
    hide Le, Cat, Flat, LevelsPieces, PutLevels;
    var a, b, c := Le(s.walHead, 8), Le(s.nextId, 4), Le(s.flushed, 8);
    var d, e := Le(s.seqHigh, 8), Le(|levels|, 4);
    assert BodyPieces(s, levels) == [a, b, c] + ([d, e] + LevelsPieces(levels));
    CatConcat([a, b, c], [d, e] + LevelsPieces(levels), []);
    CatConcat([d, e], LevelsPieces(levels), []);
    CatLevels(levels);
    CatTwo(d, e, PutLevels(levels));
    CatThree(a, b, c, d + (e + PutLevels(levels)));
    CatFlat(BodyPieces(s, levels), []);
  }

  lemma {:induction false} CatFlat(pieces: seq<seq<Byte>>, rest: seq<Byte>)
    ensures Cat(pieces, rest) == Flat(pieces) + rest
    decreases |pieces|
  {
    if pieces != [] {
      var init, last := pieces[..|pieces| - 1], pieces[|pieces| - 1];
      assert pieces == init + [last];
      CatConcat(init, [last], rest);
      assert [last][1..] == [];
      CatFlat(init, last + rest);
    }
  }

  // Decoding.

  function TakeKey(b: seq<Byte>, keyMax: nat): Option<Got<seq<Byte>>> {
    var n := TakeNum(b, 2);
    if n.None? || n.value.value > keyMax then None else TakeBytes(n.value.rest, n.value.value)
  }

  datatype Tail = Tail(maxSeq: nat, minSeq: nat, entryCount: nat, rdelBlocks: nat, nodeId: nat, sealWall: nat)

  function TakeTail(b: seq<Byte>): Option<Got<Tail>> {
    var a := TakeNum(b, 8);
    if a.None? then None else
    var c := TakeNum(a.value.rest, 8);
    if c.None? then None else
    var d := TakeNum(c.value.rest, 4);
    if d.None? then None else
    var e := TakeNum(d.value.rest, 4);
    if e.None? then None else
    var f := TakeNum(e.value.rest, 4);
    if f.None? then None else
    var g := TakeNum(f.value.rest, 8);
    if g.None? then None else
    Some(Got(Tail(a.value.value, c.value.value, d.value.value, e.value.value, f.value.value, g.value.value),
             g.value.rest))
  }

  /** `decode_tableref`. */
  function TakeRef(b: seq<Byte>, keyMax: nat): Option<Got<Ref>> {
    var id := TakeNum(b, 4);
    if id.None? then None else
    var fb := TakeNum(id.value.rest, 8);
    if fb.None? then None else
    var bc := TakeNum(fb.value.rest, 4);
    if bc.None? then None else
    var fk := TakeKey(bc.value.rest, keyMax);
    if fk.None? then None else
    var lk := TakeKey(fk.value.rest, keyMax);
    if lk.None? then None else
    var t := TakeTail(lk.value.rest);
    if t.None? then None else
    Some(Got(Ref(id.value.value, fb.value.value, bc.value.value, fk.value.value, lk.value.value, t.value.value.maxSeq,
                 t.value.value.minSeq,
                 t.value.value.entryCount, t.value.value.rdelBlocks, t.value.value.nodeId, t.value.value.sealWall),
                     t.value.rest))
  }

  function TakeRefs(n: nat, b: seq<Byte>, keyMax: nat): Option<Got<seq<Ref>>> {
    if n == 0 then Some(Got([], b)) else
    var r := TakeRef(b, keyMax);
    if r.None? then None else
    var rs := TakeRefs(n - 1, r.value.rest, keyMax);
    if rs.None? then None else Some(Got([r.value.value] + rs.value.value, rs.value.rest))
  }

  /** Level 0 holds at most `tables` tables, the whole tree at most `room`. */
  function TakeLevels(n: nat, first: bool, b: seq<Byte>, keyMax: nat, tables: nat,
                      room: nat): Option<Got<seq<seq<Ref>>>> {
    if n == 0 then Some(Got([], b)) else
    var c := TakeNum(b, 4);
    if c.None? || (first && c.value.value > tables) || c.value.value > room then None else
    var rs := TakeRefs(c.value.value, c.value.rest, keyMax);
    if rs.None? then None else
    var more := TakeLevels(n - 1, false, rs.value.rest, keyMax, tables, room - c.value.value);
    if more.None? then None else Some(Got([rs.value.value] + more.value.value, more.value.rest))
  }

  datatype Decoded = Decoded(scalars: Scalars, levels: seq<seq<Ref>>)

  /** `decode_body`, and nothing may be left over. */
  function Decode(b: seq<Byte>, levels: nat, keyMax: nat, tables: nat, capacity: nat): Option<Decoded> {
    var w := TakeNum(b, 8);
    if w.None? then None else
    var n := TakeNum(w.value.rest, 4);
    if n.None? then None else
    var f := TakeNum(n.value.rest, 8);
    if f.None? then None else
    var h := TakeNum(f.value.rest, 8);
    if h.None? then None else
    var k := TakeNum(h.value.rest, 4);
    if k.None? || k.value.value != levels then None else
    var ls := TakeLevels(levels, true, k.value.rest, keyMax, tables, capacity);
    if ls.None? || ls.value.rest != [] then None else
    Some(Decoded(Scalars(w.value.value, n.value.value, f.value.value, h.value.value), ls.value.value))
  }

  // Round trip.

  /** Field widths: 16, 32 and 64 bits. */
  ghost predicate FitsRef(r: Ref, keyMax: nat) {
    && r.id < Pow256(4) && r.firstBlock < Pow256(8) && r.blockCount < Pow256(4)
    && |r.firstKey| <= keyMax && |r.lastKey| <= keyMax && keyMax < Pow256(2)
    && r.maxSeq < Pow256(8) && r.minSeq < Pow256(8) && r.entryCount < Pow256(4) && r.rdelBlocks < Pow256(4)
    && r.nodeId < Pow256(4) && r.sealWall < Pow256(8)
  }

  function Total(levels: seq<seq<Ref>>): nat {
    if levels == [] then 0 else |levels[0]| + Total(levels[1..])
  }

  ghost predicate FitsAll(levels: seq<seq<Ref>>, keyMax: nat) {
    forall l, r :: l in levels && r in l ==> FitsRef(r, keyMax)
  }

  lemma KeyBack(key: seq<Byte>, keyMax: nat, rest: seq<Byte>)
    requires |key| <= keyMax < Pow256(2)
    ensures TakeKey(PutKey(key, rest), keyMax) == Some(Got(key, rest))
  {
    hide Le, TakeNum, Pow256;
    NumBack(|key|, 2, key + rest);
    assert (key + rest)[..|key|] == key && (key + rest)[|key|..] == rest;
  }

  lemma TailBack(r: Ref, keyMax: nat, rest: seq<Byte>)
    requires FitsRef(r, keyMax)
    ensures TakeTail(PutTail(r, rest))
            == Some(Got(Tail(r.maxSeq, r.minSeq, r.entryCount, r.rdelBlocks, r.nodeId, r.sealWall), rest))
  {
    hide Le, TakeNum, Pow256;
    var b6 := Le(r.sealWall, 8) + rest;
    var b5 := Le(r.nodeId, 4) + b6;
    var b4 := Le(r.rdelBlocks, 4) + b5;
    var b3 := Le(r.entryCount, 4) + b4;
    var b2 := Le(r.minSeq, 8) + b3;
    NumBack(r.maxSeq, 8, b2);
    NumBack(r.minSeq, 8, b3);
    NumBack(r.entryCount, 4, b4);
    NumBack(r.rdelBlocks, 4, b5);
    NumBack(r.nodeId, 4, b6);
    NumBack(r.sealWall, 8, rest);
  }

  lemma RefBack(r: Ref, keyMax: nat, rest: seq<Byte>)
    requires FitsRef(r, keyMax)
    ensures TakeRef(PutRef(r, rest), keyMax) == Some(Got(r, rest))
  {
    hide Le, TakeNum, Pow256, PutKey, TakeKey, PutTail, TakeTail;
    var b4 := PutKey(r.lastKey, PutTail(r, rest));
    var b3 := PutKey(r.firstKey, b4);
    var b2 := Le(r.blockCount, 4) + b3;
    NumBack(r.id, 4, Le(r.firstBlock, 8) + b2);
    NumBack(r.firstBlock, 8, b2);
    NumBack(r.blockCount, 4, b3);
    KeyBack(r.firstKey, keyMax, b4);
    KeyBack(r.lastKey, keyMax, PutTail(r, rest));
    TailBack(r, keyMax, rest);
  }

  lemma {:induction false} RefsBack(rs: seq<Ref>, keyMax: nat, rest: seq<Byte>)
    requires forall r :: r in rs ==> FitsRef(r, keyMax)
    ensures TakeRefs(|rs|, PutRefs(rs, rest), keyMax) == Some(Got(rs, rest))
    decreases |rs|
  {
    hide PutRef, TakeRef, FitsRef;
    if rs != [] {
      RefBack(rs[0], keyMax, PutRefs(rs[1..], rest));
      RefsBack(rs[1..], keyMax, rest);
      assert [rs[0]] + rs[1..] == rs;
    }
  }

  lemma {:induction false} LevelsBack(levels: seq<seq<Ref>>, first: bool, keyMax: nat, tables: nat, room: nat)
    requires FitsAll(levels, keyMax) && Total(levels) <= room < Pow256(4)
    requires first && levels != [] ==> |levels[0]| <= tables
    ensures TakeLevels(|levels|, first, PutLevels(levels), keyMax, tables, room) == Some(Got(levels, []))
    decreases |levels|
  {
    hide PutRefs, TakeRefs, FitsRef, Le, TakeNum, Pow256;
    if levels != [] {
      var l, rest := levels[0], PutLevels(levels[1..]);
      NumBack(|l|, 4, PutRefs(l, rest));
      assert l in levels;
      RefsBack(l, keyMax, rest);
      assert forall x :: x in levels[1..] ==> x in levels;
      LevelsBack(levels[1..], false, keyMax, tables, room - |l|);
      assert [l] + levels[1..] == levels;
    }
  }

  /** A body decodes to the manifest it encodes. */
  lemma BodyBack(s: Scalars, levels: seq<seq<Ref>>, keyMax: nat, tables: nat, capacity: nat)
    requires s.walHead < Pow256(8) && s.nextId < Pow256(4) && s.flushed < Pow256(8) && s.seqHigh < Pow256(8)
             && |levels| < Pow256(4)
    requires FitsAll(levels, keyMax) && Total(levels) <= capacity < Pow256(4)
             && (levels != [] ==> |levels[0]| <= tables)
    ensures Decode(Body(s, levels), |levels|, keyMax, tables, capacity) == Some(Decoded(s, levels))
  {
    hide Le, TakeNum, Pow256, PutLevels, TakeLevels, FitsAll;
    var b5 := PutLevels(levels);
    var b4 := Le(|levels|, 4) + b5;
    var b3 := Le(s.seqHigh, 8) + b4;
    var b2 := Le(s.flushed, 8) + b3;
    NumBack(s.walHead, 8, Le(s.nextId, 4) + b2);
    NumBack(s.nextId, 4, b2);
    NumBack(s.flushed, 8, b3);
    NumBack(s.seqHigh, 8, b4);
    NumBack(|levels|, 4, b5);
    LevelsBack(levels, true, keyMax, tables, capacity);
  }

  // Size.

  lemma {:induction false} RefsSize(rs: seq<Ref>, keyMax: nat, rest: seq<Byte>)
    requires forall r :: r in rs ==> FitsRef(r, keyMax)
    ensures |PutRefs(rs, rest)| <= |rs| * (56 + 2 * keyMax) + |rest|
    decreases |rs|
  {
    hide FitsRef, PutRef;
    if rs != [] {
      RefsSize(rs[1..], keyMax, rest);
      RefSize(rs[0], keyMax, PutRefs(rs[1..], rest));
      Distribute(|rs| - 1, 1, 56 + 2 * keyMax);
    }
  }

  lemma RefSize(r: Ref, keyMax: nat, rest: seq<Byte>)
    requires FitsRef(r, keyMax)
    ensures |PutRef(r, rest)| <= 56 + 2 * keyMax + |rest|
  {
    hide Le, Pow256;
  }

  lemma {:induction false} LevelsSize(levels: seq<seq<Ref>>, keyMax: nat)
    requires FitsAll(levels, keyMax)
    ensures |PutLevels(levels)| <= 4 * |levels| + Total(levels) * (56 + 2 * keyMax)
    decreases |levels|
  {
    hide Le, FitsRef, PutRefs;
    if levels != [] {
      assert levels[0] in levels;
      RefsSize(levels[0], keyMax, PutLevels(levels[1..]));
      LevelsSize(levels[1..], keyMax);
      Distribute(|levels[0]|, Total(levels[1..]), 56 + 2 * keyMax);
    }
  }

  /** `MAX_BODY`. */
  function MaxBody(levels: nat, capacity: nat, keyMax: nat): nat {
    8 + 4 + 8 + 8 + 4 + 4 * levels + capacity * (56 + 2 * keyMax)
  }

  lemma {:induction false} ChunkCount<T>(body: seq<T>, size: nat, blocks: nat)
    requires size > 0 && blocks >= 1 && |body| <= blocks * size
    ensures |MC.Chunks(body, size)| <= blocks
    decreases |body|
  {
    if |body| > size {
      Distribute(blocks - 1, 1, size);
      ChunkCount(body[size..], size, blocks - 1);
    }
  }

  /** `div_ceil` gives enough blocks. */
  lemma Enough(n: nat, size: nat)
    requires size > 0 && n > 0
    ensures (n + size - 1) / size * size >= n && (n + size - 1) / size >= 1
  {
    var x := n + size - 1;
    var q := x / size;
    assert x == size * q + x % size;
    assert size * q == q * size;
    assert q == 0 ==> q * size == 0;
  }

  /** No accepted manifest needs more than `max_blocks` blocks. */
  lemma NeverTooLarge(s: Scalars, levels: seq<seq<Ref>>, keyMax: nat, capacity: nat, chunk: nat)
    requires chunk > 0 && FitsAll(levels, keyMax) && Total(levels) <= capacity
    ensures |Body(s, levels)| <= MaxBody(|levels|, capacity, keyMax)
    ensures |MC.Chunks(Body(s, levels), chunk)| <= (MaxBody(|levels|, capacity, keyMax) + chunk - 1) / chunk
  {
    hide Le, PutLevels;
    LevelsSize(levels, keyMax);
    MulMonotone(Total(levels), capacity, 56 + 2 * keyMax);
    var n := MaxBody(|levels|, capacity, keyMax);
    BlocksEnough(Body(s, levels), n, chunk);
  }

  lemma BlocksEnough(body: seq<Byte>, n: nat, chunk: nat)
    requires chunk > 0 && |body| <= n && n > 0
    ensures |MC.Chunks(body, chunk)| <= (n + chunk - 1) / chunk
  {
    Enough(n, chunk);
    ChunkCount(body, chunk, (n + chunk - 1) / chunk);
  }

  ghost function LevelsAfter(p: Pool, e: Edit): (ls: seq<seq<Ref>>)
    requires Packed(p)
    ensures |ls| == |p.counts| && forall li :: 0 <= li < |ls| ==> ls[li] == LevelAfter(p, e, li)
  {
    seq(|p.counts|, li requires 0 <= li < |p.counts| => LevelAfter(p, e, li))
  }

  lemma {:induction false} TotalAppend(levels: seq<seq<Ref>>, l: seq<Ref>)
    ensures Total(levels + [l]) == Total(levels) + |l|
  {
    if levels != [] {
      TotalAppend(levels[1..], l);
      assert (levels + [l])[1..] == levels[1..] + [l];
    }
  }

  /** What the first `n` levels hold after the edit. */
  lemma {:induction false} TotalAfter(p: Pool, e: Edit, n: nat)
    requires Packed(p) && n <= |p.counts|
    ensures Total(LevelsAfter(p, e)[..n]) + |RemovedIn(e.removed, 0, Start(p, n))|
            == Start(p, n) + if e.added.Some? && e.added.value.level < n then 1 else 0
  {
    hide LevelAfter;
    var levels := LevelsAfter(p, e);
    if n == 0 {
      assert RemovedIn(e.removed, 0, 0) == {} && levels[..0] == [] && p.counts[..0] == [];
    } else {
      TotalAfter(p, e, n - 1);
      LevelAfterLen(p, e, n - 1);
      assert levels[..n] == levels[..n - 1] + [levels[n - 1]];
      TotalAppend(levels[..n - 1], levels[n - 1]);
      var a, b := RemovedIn(e.removed, 0, Start(p, n - 1)), RemovedIn(e.removed, Start(p, n - 1), Start(p, n));
      assert RemovedIn(e.removed, 0, Start(p, n)) == a + b && a * b == {};
    }
  }

  /** The edit names live positions and a level there is. */
  ghost predicate Named(p: Pool, e: Edit) {
    && (forall q :: q in e.removed || q in e.narrowed ==> q < |p.flat|)
    && (e.added.Some? ==> e.added.value.level < |p.counts|)
  }

  /** `check_edit` lets an edit pass exactly when it names what there is and leaves the pool and level 0 within their
      limits. */
  lemma CheckedFits(p: Pool, e: Edit, tables: nat, capacity: nat)
    requires Packed(p) && |p.flat| <= capacity && (p.counts != [] ==> p.counts[0] <= tables)
    ensures CheckEdit(p, e, tables, capacity).None? <==>
            Named(p, e) && Total(LevelsAfter(p, e)) <= capacity && (p.counts != [] ==> |LevelAfter(p, e, 0)| <= tables)
    ensures CheckEdit(p, e, tables, capacity) == Some(BadLevel) <==>
            && (forall q :: q in e.removed || q in e.narrowed ==> q < |p.flat|)
            && e.added.Some? && e.added.value.level >= |p.counts|
  {
    hide LevelAfter;
    var n := |p.counts|;
    assert (forall q :: q in e.removed || q in e.narrowed ==> q < |p.flat|)
        <==> forall q :: q in e.removed + e.narrowed ==> q < |p.flat|;
    if Named(p, e) {
      TotalAfter(p, e, n);
      assert LevelsAfter(p, e)[..n] == LevelsAfter(p, e) && p.counts[..n] == p.counts;
      assert RemovedIn(e.removed, 0, |p.flat|) == e.removed;
      if n > 0 {
        LevelAfterLen(p, e, 0);
        assert p.counts[..0] == [];
      }
    }
  }

  /** Field widths of the manifest's own numbers. */
  ghost predicate FitsScalars(s: Scalars, levels: nat) {
    s.walHead < Pow256(8) && s.nextId < Pow256(4) && s.flushed < Pow256(8) && s.seqHigh < Pow256(8)
        && levels < Pow256(4)
  }

  /** A manifest within its limits: `capacity` tables in all, `tables` of them in level 0. */
  ghost predicate WithinLimits(p: Pool, tables: nat, capacity: nat) {
    Packed(p) && UniqueIds(p.flat) && |p.flat| <= capacity < Pow256(4) && (p.counts != [] ==> p.counts[0] <= tables)
  }

  /** `commit_edit`, both halves: a refused edit changes nothing; otherwise the blocks written for the staged edit
      decode to exactly the manifest that applying the edit leaves in memory, and are never more than a copy has room
      for. */
  method CommitEdit(p: Pool, s: Scalars, e: Edit, size: nat, keyMax: nat, tables: nat, capacity: nat)
    returns (refused: Option<Refusal>, blocks: seq<seq<Byte>>, after: Pool, scalars: Scalars)
    requires WithinLimits(p, tables, capacity) && StaysSorted(p, e) && size > 0
    requires FitsScalars(ScalarsAfter(s, e), |p.counts|) && FitsAll(LevelsAfter(p, e), keyMax)
    ensures refused == CheckEdit(p, e, tables, capacity)
            && (refused.Some? ==> after == p && scalars == s && blocks == [])
    ensures refused.None? ==>
              && Packed(after)
              && Decode(MC.Join(blocks), |p.counts|, keyMax, tables, capacity) == Some(Decoded(scalars, Levels(after)))
              && Levels(after) == LevelsAfter(p, e) && scalars == ScalarsAfter(s, e)
              && ScalarsMean(s, e, scalars)
              && forall li :: 0 <= li < |p.counts| ==> LevelMeans(p, e, li, Levels(after)[li])
    ensures |blocks| <= (MaxBody(|p.counts|, capacity, keyMax) + size - 1) / size
  {
    refused := CheckEdit(p, e, tables, capacity);
    hide Decode, Body, FitsAll, LevelAfter, ScalarsAfter, Pow256, MaxBody, CheckEdit, UniqueIds, StaysSorted,
        LevelMeans, ScalarsMean;
    if refused.Some? {
      blocks, after, scalars := [], p, s;
      return;
    }
    CheckedFits(p, e, tables, capacity);
    var view;
    view, after, scalars := StagedIsApplied(p, s, e);
    assert view == LevelsAfter(p, e);
    blocks := EncodeCopy(scalars, view, size);
    BodyBack(scalars, view, keyMax, tables, capacity);
    NeverTooLarge(scalars, view, keyMax, capacity, size);
    ScalarsMerge(s, e);
    forall li | 0 <= li < |p.counts| ensures LevelMeans(p, e, li, view[li]) { EditLeaves(p, e, li); }
  }

  // The window.

  /** `Window`: of the bytes written to it in order it keeps those at offsets `lo ..`. */
  class Window {
    const out: array<Byte>
    const lo: nat
    var pos: nat
    ghost var stream: seq<Byte>

    ghost predicate Valid()
      reads this, out
    {
      pos == |stream| && forall j :: 0 <= j < out.Length && lo + j < pos ==> out[j] == stream[lo + j]
    }

    constructor (out: array<Byte>, lo: nat)
      ensures Valid() && this.out == out && this.lo == lo && stream == []
    {
      this.out, this.lo := out, lo;
      pos, stream := 0, [];
    }

    method Put(b: seq<Byte>)
      requires Valid()
      modifies this, out
      ensures Valid() && stream == old(stream) + b
    {
      var start, end := pos, pos + |b|;
      var hi := lo + out.Length;
      var from := if start > lo then start else lo;
      var to := if end < hi then end else hi;
      forall i | from <= i < to {
        out[i - lo] := b[i - start];
      }
      pos := end;
      stream := stream + b;
    }
  }

  /** Block `index` of the copy: the body's chunk, written through a window in whatever pieces. */
  method EncodeChunk(pieces: seq<seq<Byte>>, size: nat, index: nat) returns (chunk: seq<Byte>)
    requires size > 0 && index < |MC.Chunks(Flat(pieces), size)|
    ensures chunk == MC.Chunks(Flat(pieces), size)[index]
  {
    hide Flat, MC.Chunks;
    var total := BodyLen(pieces);
    var lo := index * size;
    ChunkAt(Flat(pieces), size, index);
    Multiple(index, size);
    var len := if total - lo < size then total - lo else size;
    chunk := ThroughWindow(pieces, lo, len);
  }

  /** The blocks of a copy, each encoded through its own window. */
  method EncodeCopy(s: Scalars, levels: seq<seq<Ref>>, size: nat) returns (blocks: seq<seq<Byte>>)
    requires size > 0
    ensures blocks == MC.Chunks(Body(s, levels), size)
  {
    hide Body, BodyPieces, MC.Chunks, Flat;
    var pieces := BodyPieces(s, levels);
    BodyPiecesFlat(s, levels);
    var total := BodyLen(pieces);
    CountExact(Flat(pieces), size);
    var count := if total == 0 then 1 else (total + size - 1) / size;
    blocks := [];
    for index := 0 to count
      invariant blocks == MC.Chunks(Flat(pieces), size)[..index]
    {
      var chunk := EncodeChunk(pieces, size, index);
      blocks := blocks + [chunk];
    }
  }

  /** `blocks_for`. */
  lemma {:induction false} CountExact(body: seq<Byte>, size: nat)
    requires size > 0
    ensures |MC.Chunks(body, size)| == if |body| == 0 then 1 else (|body| + size - 1) / size
    decreases |body|
  {
    ChunksShape(body, size);
    if |body| > size {
      CountExact(body[size..], size);
      OneMore(|body|, size);
    } else if |body| > 0 {
      OneOnly(|body|, size);
    }
  }

  lemma OneMore(n: nat, size: nat)
    requires n > size > 0
    ensures (n + size - 1) / size == (n - size + size - 1) / size + 1
  {
    var q := (n - 1) / size;
    assert n - 1 == size * q + (n - 1) % size;
    assert n + size - 1 == size * (q + 1) + (n - 1) % size;
    Quotient(n + size - 1, size, q + 1, (n - 1) % size);
  }

  lemma OneOnly(n: nat, size: nat)
    requires 0 < n <= size
    ensures (n + size - 1) / size == 1
  {
    Quotient(n + size - 1, size, 1, n - 1);
  }

  method BodyLen(pieces: seq<seq<Byte>>) returns (total: nat)
    ensures total == |Flat(pieces)|
  {
    total := 0;
    for i := 0 to |pieces|
      invariant total == |Flat(pieces[..i])|
    {
      FlatNext(pieces, i);
      total := total + |pieces[i]|;
    }
    assert pieces[..|pieces|] == pieces;
  }

  method ThroughWindow(pieces: seq<seq<Byte>>, lo: nat, len: nat) returns (chunk: seq<Byte>)
    requires lo + len <= |Flat(pieces)|
    ensures chunk == Flat(pieces)[lo .. lo + len]
  {
    var out := new Byte[len](_ => 0);
    var w := new Window(out, lo);
    assert pieces[..0] == [];
    for i := 0 to |pieces|
      invariant w.Valid() && w.out == out && w.lo == lo && fresh(w) && fresh(out) && w.stream == Flat(pieces[..i])
    {
      FlatNext(pieces, i);
      w.Put(pieces[i]);
    }
    assert pieces[..|pieces|] == pieces;
    return out[..];
  }

  function Flat(pieces: seq<seq<Byte>>): seq<Byte> {
    if pieces == [] then [] else Flat(pieces[..|pieces| - 1]) + pieces[|pieces| - 1]
  }

  lemma FlatNext(pieces: seq<seq<Byte>>, i: nat)
    requires i < |pieces|
    ensures Flat(pieces[..i + 1]) == Flat(pieces[..i]) + pieces[i]
  {
    assert pieces[..i + 1][..i] == pieces[..i];
  }

  /** Where chunk `i` starts. */
  function Offset(i: nat, size: nat): nat {
    if i == 0 then 0 else size + Offset(i - 1, size)
  }

  lemma {:induction false} Multiple(i: nat, size: nat)
    ensures Offset(i, size) == i * size
  {
    if i > 0 {
      Multiple(i - 1, size);
      Distribute(i - 1, 1, size);
    }
  }

  /** Up to `size` bytes from offset `lo` on. */
  function Piece(body: seq<Byte>, lo: nat, size: nat): seq<Byte>
    requires lo <= |body|
  {
    body[lo .. if lo + size < |body| then lo + size else |body|]
  }

  lemma PieceOfTail(body: seq<Byte>, lo: nat, size: nat)
    requires size + lo <= |body|
    ensures Piece(body[size..], lo, size) == Piece(body, size + lo, size)
  {}

  lemma FirstPiece(body: seq<Byte>, size: nat)
    ensures Piece(body, 0, size) == if |body| <= size then body else body[..size]
  {}

  lemma {:induction false} ChunkAt(body: seq<Byte>, size: nat, i: nat)
    requires size > 0 && i < |MC.Chunks(body, size)|
    ensures Offset(i, size) <= |body| && MC.Chunks(body, size)[i] == Piece(body, Offset(i, size), size)
    decreases |body|
  {
    hide MC.Chunks, Piece;
    if i == 0 {
      ChunkFirst(body, size);
    } else {
      ChunkNext(body, size, i);
      ChunkAt(body[size..], size, i - 1);
      PieceOfTail(body, Offset(i - 1, size), size);
    }
  }

  lemma ChunkFirst(body: seq<Byte>, size: nat)
    requires size > 0
    ensures MC.Chunks(body, size)[0] == Piece(body, 0, size)
  {
    ChunksShape(body, size);
    FirstPiece(body, size);
  }

  lemma ChunkNext(body: seq<Byte>, size: nat, i: nat)
    requires size > 0 && 0 < i < |MC.Chunks(body, size)|
    ensures |body| > size && i - 1 < |MC.Chunks(body[size..], size)|
            && MC.Chunks(body, size)[i] == MC.Chunks(body[size..], size)[i - 1]
  {
    ChunksShape(body, size);
  }

  lemma ChunksShape(body: seq<Byte>, size: nat)
    requires size > 0
    ensures |body| <= size ==> MC.Chunks(body, size) == [body]
    ensures |body| > size ==> MC.Chunks(body, size) == [body[..size]] + MC.Chunks(body[size..], size)
  {}
}
