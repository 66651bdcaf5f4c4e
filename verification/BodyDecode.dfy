/** What decodes as a manifest's body is one (`decode_body` of src/manifest.rs): the decoder takes the encodings of
    manifests within their limits, and nothing else. */
module BodyDecode {
  import opened Arithmetic
  import opened Keys
  import opened PayloadCodec
  import opened StagedEdit
  import opened ManifestBody

  lemma NumThere(b: seq<Byte>, k: nat)
    requires TakeNum(b, k).Some?
    ensures var g := TakeNum(b, k).value; b == Le(g.value, k) + g.rest && g.value < Pow256(k)
  {
    LeInverse(b[..k]);
    assert b == b[..k] + b[k..];
  }

  lemma KeyThere(b: seq<Byte>, keyMax: nat)
    requires TakeKey(b, keyMax).Some?
    ensures var g := TakeKey(b, keyMax).value; b == PutKey(g.value, g.rest) && |g.value| <= keyMax
  {
    hide Le, TakeNum, Pow256;
    NumThere(b, 2);
    var n := TakeNum(b, 2).value;
    assert n.rest == n.rest[..n.value] + n.rest[n.value..];
  }

  /** A reference that has the tail's fields. */
  ghost predicate HasTail(r: Ref, t: Tail) {
    && r.maxSeq == t.maxSeq && r.minSeq == t.minSeq && r.entryCount == t.entryCount && r.rdelBlocks == t.rdelBlocks
    && r.nodeId == t.nodeId && r.sealWall == t.sealWall
  }

  lemma TailThere(b: seq<Byte>, r: Ref)
    requires TakeTail(b).Some? && HasTail(r, TakeTail(b).value.value)
    ensures b == PutTail(r, TakeTail(b).value.rest)
    ensures r.maxSeq < Pow256(8) && r.minSeq < Pow256(8) && r.entryCount < Pow256(4) && r.rdelBlocks < Pow256(4)
            && r.nodeId < Pow256(4) && r.sealWall < Pow256(8)
  {
    hide Le, TakeNum, Pow256;
    NumThere(b, 8);
    var c := TakeNum(b, 8).value.rest;
    NumThere(c, 8);
    var d := TakeNum(c, 8).value.rest;
    NumThere(d, 4);
    var e := TakeNum(d, 4).value.rest;
    NumThere(e, 4);
    var f := TakeNum(e, 4).value.rest;
    NumThere(f, 4);
    NumThere(TakeNum(f, 4).value.rest, 8);
  }

  lemma RefThere(b: seq<Byte>, keyMax: nat)
    requires keyMax < Pow256(2) && TakeRef(b, keyMax).Some?
    ensures var g := TakeRef(b, keyMax).value; b == PutRef(g.value, g.rest) && FitsRef(g.value, keyMax)
  {
    hide Le, TakeNum, Pow256, TakeKey, PutKey, TakeTail, PutTail;
    NumThere(b, 4);
    var c := TakeNum(b, 4).value.rest;
    NumThere(c, 8);
    var d := TakeNum(c, 8).value.rest;
    NumThere(d, 4);
    var e := TakeNum(d, 4).value.rest;
    KeyThere(e, keyMax);
    var f := TakeKey(e, keyMax).value.rest;
    KeyThere(f, keyMax);
    TailThere(TakeKey(f, keyMax).value.rest, TakeRef(b, keyMax).value.value);
  }

  lemma {:induction false} RefsThere(n: nat, b: seq<Byte>, keyMax: nat)
    requires keyMax < Pow256(2) && TakeRefs(n, b, keyMax).Some?
    ensures var g := TakeRefs(n, b, keyMax).value;
            && b == PutRefs(g.value, g.rest) && |g.value| == n && forall r :: r in g.value ==> FitsRef(r, keyMax)
  {
    hide TakeRef, PutRef, FitsRef, Pow256;
    if n > 0 {
      RefThere(b, keyMax);
      var r := TakeRef(b, keyMax).value;
      RefsThere(n - 1, r.rest, keyMax);
      var rs := TakeRefs(n - 1, r.rest, keyMax).value.value;
      assert ([r.value] + rs)[1..] == rs;
    }
  }

  lemma {:induction false} LevelsThere(n: nat, first: bool, b: seq<Byte>, keyMax: nat, tables: nat, room: nat)
    requires keyMax < Pow256(2) && TakeLevels(n, first, b, keyMax, tables, room).Some?
    requires TakeLevels(n, first, b, keyMax, tables, room).value.rest == []
    ensures var ls := TakeLevels(n, first, b, keyMax, tables, room).value.value;
            && b == PutLevels(ls) && |ls| == n && FitsAll(ls, keyMax) && Total(ls) <= room
            && (first && ls != [] ==> |ls[0]| <= tables)
    decreases n
  {
    hide TakeRefs, PutRefs, FitsRef, Le, TakeNum, Pow256;
    if n > 0 {
      NumThere(b, 4);
      var c := TakeNum(b, 4).value;
      RefsThere(c.value, c.rest, keyMax);
      var rs := TakeRefs(c.value, c.rest, keyMax).value;
      LevelsThere(n - 1, false, rs.rest, keyMax, tables, room - c.value);
      var more := TakeLevels(n - 1, false, rs.rest, keyMax, tables, room - c.value).value.value;
      assert ([rs.value] + more)[1..] == more;
    }
  }

  /** A byte string decodes exactly when it is the body of a manifest with that many levels, within the limits of keys,
      tables and fields; and then to that manifest. */
  lemma DecodeExactly(b: seq<Byte>, levels: nat, keyMax: nat, tables: nat, capacity: nat, d: ManifestBody.Decoded)
    requires keyMax < Pow256(2) && capacity < Pow256(4)
    ensures ManifestBody.Decode(b, levels, keyMax, tables, capacity) == Some(d) <==>
            && b == Body(d.scalars, d.levels) && |d.levels| == levels && FitsScalars(d.scalars, levels)
            && FitsAll(d.levels, keyMax) && Total(d.levels) <= capacity && (d.levels != [] ==> |d.levels[0]| <= tables)
  {
    if ManifestBody.Decode(b, levels, keyMax, tables, capacity) == Some(d) {
      BodyThere(b, levels, keyMax, tables, capacity);
    } else if b == Body(d.scalars, d.levels) && |d.levels| == levels && FitsScalars(d.scalars, levels)
              && FitsAll(d.levels, keyMax) && Total(d.levels) <= capacity
              && (d.levels != [] ==> |d.levels[0]| <= tables) {
      BodyBack(d.scalars, d.levels, keyMax, tables, capacity);
    }
  }

  lemma BodyThere(b: seq<Byte>, levels: nat, keyMax: nat, tables: nat, capacity: nat)
    requires keyMax < Pow256(2) && ManifestBody.Decode(b, levels, keyMax, tables, capacity).Some?
    ensures var d := ManifestBody.Decode(b, levels, keyMax, tables, capacity).value;
            && b == Body(d.scalars, d.levels) && |d.levels| == levels && FitsScalars(d.scalars, levels)
            && FitsAll(d.levels, keyMax) && Total(d.levels) <= capacity && (d.levels != [] ==> |d.levels[0]| <= tables)
  {
    hide Le, TakeNum, Pow256, TakeLevels, PutLevels, FitsAll;
    NumThere(b, 8);
    var c := TakeNum(b, 8).value.rest;
    NumThere(c, 4);
    var e := TakeNum(c, 4).value.rest;
    NumThere(e, 8);
    var f := TakeNum(e, 8).value.rest;
    NumThere(f, 8);
    var g := TakeNum(f, 8).value.rest;
    NumThere(g, 4);
    LevelsThere(levels, true, TakeNum(g, 4).value.rest, keyMax, tables, capacity);
  }

  // Sizes.

  lemma {:induction false} RefsLength(rs: seq<Ref>, keyMax: nat, rest: seq<Byte>)
    requires forall r :: r in rs ==> |r.firstKey| == keyMax && |r.lastKey| == keyMax
    ensures |PutRefs(rs, rest)| == |rs| * (56 + 2 * keyMax) + |rest|
    decreases |rs|
  {
    hide PutRef;
    if rs != [] {
      assert rs[0] in rs && forall r :: r in rs[1..] ==> r in rs;
      RefsLength(rs[1..], keyMax, rest);
      RefLength(rs[0], PutRefs(rs[1..], rest));
      Distribute(|rs| - 1, 1, 56 + 2 * keyMax);
    }
  }

  lemma RefLength(r: Ref, rest: seq<Byte>)
    ensures |PutRef(r, rest)| == 56 + |r.firstKey| + |r.lastKey| + |rest|
  {
    hide Le;
  }

  lemma {:induction false} LevelsLength(levels: seq<seq<Ref>>, keyMax: nat)
    requires forall l, r :: l in levels && r in l ==> |r.firstKey| == keyMax && |r.lastKey| == keyMax
    ensures |PutLevels(levels)| == 4 * |levels| + Total(levels) * (56 + 2 * keyMax)
    decreases |levels|
  {
    hide Le, PutRefs;
    if levels != [] {
      assert levels[0] in levels && forall l :: l in levels[1..] ==> l in levels;
      RefsLength(levels[0], keyMax, PutLevels(levels[1..]));
      LevelsLength(levels[1..], keyMax);
      Distribute(|levels[0]|, Total(levels[1..]), 56 + 2 * keyMax);
    }
  }

  /** The greatest size is attained: by a manifest whose pool is full and whose keys are all as long as they may be. */
  lemma MaxAttained(s: Scalars, levels: seq<seq<Ref>>, keyMax: nat)
    requires forall l, r :: l in levels && r in l ==> |r.firstKey| == keyMax && |r.lastKey| == keyMax
    ensures |Body(s, levels)| == MaxBody(|levels|, Total(levels), keyMax)
  {
    hide Le, PutLevels;
    LevelsLength(levels, keyMax);
  }
}
