/** The crash protocol of writes, flushes and restarts (src/db/flush.rs): log, manifest and table slots together. */
module Flushing {
  import opened Arithmetic
  import opened Keys
  import opened WalLog
  import opened Wal
  import opened Slots
  import MC = ManifestCommit

  /** The records a block of a table stores. */
  type TableBlock = seq<Item>

  /** A table of the manifest: where its blocks are. */
  datatype Ref = Ref(id: nat, first: nat, count: nat)

  /** The manifest. */
  datatype Meta = Meta(walHead: nat, flushed: nat, seqHigh: nat, nextId: nat, refs: seq<Ref>)

  /** What its body is made of. */
  datatype Line = Head(walHead: nat, flushed: nat, seqHigh: nat, nextId: nat) | Table(ref: Ref)

  function Body(m: Meta): seq<Line> {
    [Head(m.walHead, m.flushed, m.seqHigh, m.nextId)] + seq(|m.refs|, i requires 0 <= i < |m.refs| => Table(m.refs[i]))
  }

  /** A fresh device has an empty body. */
  function Decode(body: seq<Line>): Meta {
    if body == [] || !body[0].Head? then Meta(0, 0, 0, 0, [])
    else
      Meta(body[0].walHead, body[0].flushed, body[0].seqHigh, body[0].nextId,
           seq(|body| - 1, i requires 0 <= i < |body| - 1 =>
             if body[i + 1].Table? then body[i + 1].ref else Ref(0, 0, 0)))
  }

  lemma BodyRoundTrip(m: Meta)
    ensures Decode(Body(m)) == m
  {
    assert Decode(Body(m)).refs == m.refs;
  }

  // Tables.

  /** The blocks of a table are as they were written, and lie in its slot. */
  ghost predicate RefSound(l: Layout, region: seq<TableBlock>, contents: map<nat, seq<TableBlock>>, nextId: nat,
                           r: Ref) {
    && r.id in contents && r.id < nextId && r.count == |contents[r.id]| && r.first + r.count <= |region|
    && region[r.first .. r.first + r.count] == contents[r.id]
    && l.SlotOf(r.first, r.count).Some?
  }

  ghost predicate TablesSound(l: Layout, region: seq<TableBlock>, contents: map<nat, seq<TableBlock>>, m: Meta) {
    && l.SlotBase(l.slots) <= |region| && l.slots > 0
    && (forall r :: r in m.refs ==> RefSound(l, region, contents, m.nextId, r))
    && (forall i, j :: 0 <= i < j < |m.refs| ==>
          l.SlotOf(m.refs[i].first, m.refs[i].count) != l.SlotOf(m.refs[j].first, m.refs[j].count))
    && (forall id :: id in contents ==> id < m.nextId)
  }

  /** The slots of the manifest's tables. */
  ghost function SlotsOf(l: Layout, refs: seq<Ref>): set<nat> {
    set r | r in refs && l.SlotOf(r.first, r.count).Some? :: l.SlotOf(r.first, r.count).value
  }

  /** Record `x` is in a table of the manifest. */
  ghost predicate InTables(region: seq<TableBlock>, refs: seq<Ref>, x: Item) {
    exists r, i :: r in refs && r.first <= i < r.first + r.count && i < |region| && x in region[i]
  }

  /** A write into a slot that no table has leaves every table's blocks as they are. */
  lemma FreeSlotWrite(l: Layout, region: seq<TableBlock>, contents: map<nat, seq<TableBlock>>, m: Meta, slot: nat,
                      at: nat, b: TableBlock)
    requires TablesSound(l, region, contents, m) && slot !in SlotsOf(l, m.refs)
    requires l.Inside(at, 1, slot) && at < |region|
    ensures TablesSound(l, region[at := b], contents, m)
    ensures forall x :: InTables(region, m.refs, x) ==> InTables(region[at := b], m.refs, x)
  {
    var after := region[at := b];
    forall r | r in m.refs
      ensures RefSound(l, after, contents, m.nextId, r) && !(r.first <= at < r.first + r.count)
    {
      assert RefSound(l, region, contents, m.nextId, r);
      var s := l.SlotOf(r.first, r.count).value;
      assert s in SlotsOf(l, m.refs);
      SlotOfExact(l, r.first, r.count, s);
      SlotsDisjoint(l, r.first, r.count, s, at, 1, slot);
      assert after[r.first .. r.first + r.count] == region[r.first .. r.first + r.count];
    }
    forall x | InTables(region, m.refs, x) ensures InTables(after, m.refs, x) {
      var r, i :| r in m.refs && r.first <= i < r.first + r.count && i < |region| && x in region[i];
      assert after[i] == region[i];
    }
  }

  /** The reference names the blocks that hold the table. */
  predicate TableAt(r: Ref, region: seq<TableBlock>, image: seq<TableBlock>) {
    r.count == |image| && r.first + r.count <= |region| && region[r.first .. r.first + r.count] == image
  }

  /** The manifest gains the table written at `first`. */
  function WithTable(m: Meta, first: nat, count: nat, walHead: nat, seqno: nat): Meta {
    Meta(walHead, if seqno > m.flushed then seqno else m.flushed,
         if seqno > m.seqHigh then seqno else m.seqHigh, m.nextId + 1,
         m.refs + [Ref(m.nextId, first, count)])
  }

  /** The table goes behind the others under a new id; the log's head is the given one, and what is flushed and the
      highest sequence never go back. */
  lemma TableJoins(m: Meta, first: nat, count: nat, walHead: nat, seqno: nat)
    ensures var next := WithTable(m, first, count, walHead, seqno);
            && next.walHead == walHead && next.nextId == m.nextId + 1
            && |next.refs| == |m.refs| + 1 && next.refs[..|m.refs|] == m.refs
            && next.refs[|m.refs|] == Ref(m.nextId, first, count)
            && next.flushed >= m.flushed && next.flushed >= seqno && next.flushed in {m.flushed, seqno}
            && next.seqHigh >= m.seqHigh && next.seqHigh >= seqno && next.seqHigh in {m.seqHigh, seqno}
  {}

  lemma TableAdded(l: Layout, region: seq<TableBlock>, contents: map<nat, seq<TableBlock>>, m: Meta, slot: nat,
                   image: seq<TableBlock>,
                   walHead: nat, seqno: nat)
    requires TablesSound(l, region, contents, m) && slot < l.slots && slot !in SlotsOf(l, m.refs)
    requires 0 < |image| <= l.blocks && l.SlotBase(slot) + |image| <= |region|
    requires region[l.SlotBase(slot) .. l.SlotBase(slot) + |image|] == image
    ensures var next := WithTable(m, l.SlotBase(slot), |image|, walHead, seqno);
            TablesSound(l, region, contents[m.nextId := image], next)
                && SlotsOf(l, next.refs) == SlotsOf(l, m.refs) + {slot}
  {
    var first := l.SlotBase(slot);
    var ref := Ref(m.nextId, first, |image|);
    var next := WithTable(m, first, |image|, walHead, seqno);
    var after := contents[m.nextId := image];
    assert first + |image| <= l.SlotBase(slot + 1);
    SlotOfExact(l, first, |image|, slot);
    forall r | r in next.refs ensures RefSound(l, region, after, next.nextId, r) {
      assert r != ref ==> RefSound(l, region, contents, m.nextId, r);
    }
    forall i | 0 <= i < |m.refs| ensures l.SlotOf(m.refs[i].first, m.refs[i].count) != Some(slot) {
      assert m.refs[i] in m.refs;
      assert RefSound(l, region, contents, m.nextId, m.refs[i]);
      assert l.SlotOf(m.refs[i].first, m.refs[i].count).value in SlotsOf(l, m.refs);
    }
    forall s ensures s in SlotsOf(l, next.refs) <==> s in SlotsOf(l, m.refs) || s == slot {
      assert ref in next.refs;
    }
  }

  function Records(xs: seq<Item>): set<Item> {
    set x | x in xs
  }

  /** Every acknowledged record is in the log or in a table. */
  ghost predicate Kept(acked: set<Item>, log: seq<Group>, region: seq<TableBlock>, refs: seq<Ref>) {
    forall x :: x in acked ==> x in Flatten(log) || InTables(region, refs, x)
  }

  lemma KeptAfterWrite(l: Layout, region: seq<TableBlock>, contents: map<nat, seq<TableBlock>>, m: Meta, slot: nat,
                       at: nat, b: TableBlock,
                       acked: set<Item>, log: seq<Group>)
    requires TablesSound(l, region, contents, m) && slot !in SlotsOf(l, m.refs) && Kept(acked, log, region, m.refs)
    requires l.Inside(at, 1, slot) && at < |region|
    ensures TablesSound(l, region[at := b], contents, m) && Kept(acked, log, region[at := b], m.refs)
  {
    FreeSlotWrite(l, region, contents, m, slot, at, b);
  }

  /** The table's blocks hold all of the memtable. */
  ghost predicate Holding(image: seq<TableBlock>, memtable: seq<Item>) {
    forall x :: x in memtable ==> exists i :: 0 <= i < |image| && x in image[i]
  }

  lemma KeptInTable(acked: set<Item>, log: seq<Group>, region: seq<TableBlock>, m: Meta, first: nat,
                    image: seq<TableBlock>,
                    walHead: nat, seqno: nat)
    requires Kept(acked, log, region, m.refs) && Holding(image, Flatten(log))
    requires first + |image| <= |region| && region[first .. first + |image|] == image
    ensures Kept(acked, [], region, WithTable(m, first, |image|, walHead, seqno).refs)
  {
    var ref := Ref(m.nextId, first, |image|);
    var refs := WithTable(m, first, |image|, walHead, seqno).refs;
    forall x | x in acked ensures InTables(region, refs, x) {
      if x in Flatten(log) {
        var i :| 0 <= i < |image| && x in image[i];
        assert region[first + i] == region[first .. first + |image|][i];
        assert ref in refs;
      } else {
        var r, i :| r in m.refs && r.first <= i < r.first + r.count && i < |region| && x in region[i];
        assert r in refs;
      }
    }
  }

  lemma KeptMore(acked: set<Item>, log: seq<Group>, more: seq<Group>, region: seq<TableBlock>, refs: seq<Ref>)
    requires Kept(acked, log, region, refs)
    ensures Kept(acked + Records(Flatten(more)), log + more, region, refs)
    ensures Flatten(log + more) == Flatten(log) + Flatten(more)
  {
    FlattenConcat(log, more);
  }

  lemma InsideSlot(l: Layout, slot: nat, i: nat, blocks: nat)
    requires slot < l.slots && l.SlotBase(l.slots) <= blocks && i < l.blocks
    ensures l.Inside(l.SlotBase(slot) + i, 1, slot) && l.SlotBase(slot) + l.blocks <= blocks
  {
    SlotRoom(l, slot, blocks);
  }

  /** Streams the table's blocks into a free slot. Power may fail before any of them, and spoil it. */
  method WriteTable(l: Layout, before: seq<TableBlock>, slot: nat, image: seq<TableBlock>, power: nat,
                    ghost contents: map<nat, seq<TableBlock>>, ghost m: Meta, ghost acked: set<Item>,
                        ghost log: seq<Group>)
    returns (region: seq<TableBlock>, left: Option<nat>)
    requires TablesSound(l, before, contents, m) && Kept(acked, log, before, m.refs)
    requires slot < l.slots && slot !in SlotsOf(l, m.refs) && |image| <= l.blocks
    ensures TablesSound(l, region, contents, m) && Kept(acked, log, region, m.refs)
    ensures left.Some? <==> power >= |image|
    ensures left.Some? ==> left.value == power - |image| && l.SlotBase(slot) + |image| <= |region|
    ensures left.Some? ==> region[l.SlotBase(slot) .. l.SlotBase(slot) + |image|] == image
  {
    SlotRoom(l, slot, |before|);
    forall at | l.SlotBase(slot) <= at < l.SlotBase(slot) + |image| ensures l.Inside(at, 1, slot) {
      InsideSlot(l, slot, at - l.SlotBase(slot), |before|);
    }
    region, left := WriteRun(l, before, slot, l.SlotBase(slot), image, power, contents, m, acked, log);
  }

  method WriteRun(ghost l: Layout, before: seq<TableBlock>, ghost slot: nat, base: nat, image: seq<TableBlock>,
                  power: nat,
                  ghost contents: map<nat, seq<TableBlock>>, ghost m: Meta, ghost acked: set<Item>,
                      ghost log: seq<Group>)
    returns (region: seq<TableBlock>, left: Option<nat>)
    requires TablesSound(l, before, contents, m) && Kept(acked, log, before, m.refs) && slot !in SlotsOf(l, m.refs)
    requires base + |image| <= |before| && forall at :: base <= at < base + |image| ==> l.Inside(at, 1, slot)
    ensures TablesSound(l, region, contents, m) && Kept(acked, log, region, m.refs) && |region| == |before|
    ensures left.Some? <==> power >= |image|
    ensures left.Some? ==> left.value == power - |image| && region[base .. base + |image|] == image
  {
    hide Layout.Inside, TablesSound, Kept, SlotsOf;
    region := before;
    for i := 0 to |image|
      invariant i <= power && |region| == |before|
      invariant TablesSound(l, region, contents, m) && Kept(acked, log, region, m.refs)
      invariant region[base .. base + i] == image[..i]
    {
      if i == power {
        var spoiled: TableBlock := *;
        KeptAfterWrite(l, region, contents, m, slot, base + i, spoiled, acked, log);
        return region[base + i := spoiled], None;
      }
      KeptAfterWrite(l, region, contents, m, slot, base + i, image[i], acked, log);
      Extend(region, base, i, image);
      region := region[base + i := image[i]];
    }
    assert image[..|image|] == image;
    return region, Some(power - |image|);
  }

  datatype Outcome = Done | NoRoom | PowerLost

  class Db {
    const layout: Layout
    const wal: WalWriter
    const store: MC.ManifestStore<Line>
    var slots: SlotMap
    var region: seq<TableBlock>
    var meta: Meta
    var memtable: seq<Item>
    /** Every table ever made live, as written, and every record ever acknowledged or replayed. */
    ghost var contents: map<nat, seq<TableBlock>>
    ghost var acked: set<Item>

    /** What the device holds, under manifest `m`. */
    ghost predicate OnDevice(m: Meta)
      reads this, wal, store
    {
      && store.Valid() && Decode(store.current.body) == m
      && m.walHead == wal.head && m.flushed == wal.floor && m.seqHigh >= wal.floor
      && TablesSound(layout, region, contents, m)
      && Kept(acked, wal.log, region, m.refs)
    }

    ghost predicate Running()
      reads this, wal, store, slots
    {
      && OnDevice(meta) && wal.Running() && store.seqno == store.current.seqno
      && slots.Valid() && slots.layout == layout && slots.used == SlotsOf(layout, meta.refs)
      && memtable == Flatten(wal.log)
    }

    /** Power is off. */
    ghost predicate Down()
      reads this, wal, store
    {
      wal.Down() && OnDevice(Decode(store.current.body))
    }

    constructor (layout: Layout, walEnd: nat, copies: nat, stride: nat, size: nat, blocks: nat)
      requires layout.slots > 0 && layout.SlotBase(layout.slots) <= blocks && copies >= 2 && stride >= 1 && size > 0
      ensures Running() && acked == {} && fresh(wal) && fresh(store) && fresh(slots)
    {
      hide Holds, MC.Sound;
      this.layout := layout;
      wal := new WalWriter(walEnd);
      store := new MC.ManifestStore<Line>(copies, stride, size);
      slots := new SlotMap(layout);
      region, meta, memtable := seq(blocks, _ => []), Meta(0, 0, 0, 0, []), [];
      contents, acked := map[], {};
      new;
      assert SlotsOf(layout, meta.refs) == {};
    }

    /** A write: one atomic group in the log, then in the memtable. */
    method Write(g: Group) returns (r: Outcome)
      requires Running() && IsGroup(g) && Increasing(g, wal.nextSeq)
      modifies this, wal
      ensures Running() && !r.PowerLost? && contents == old(contents) && meta == old(meta)
      ensures r.Done? ==> acked == old(acked) + Records(g)
      ensures r.NoRoom? ==> acked == old(acked) && memtable == old(memtable)
      ensures r.NoRoom? <==> old(wal.nextBlock) >= wal.end
      ensures r.Done? ==> memtable == old(memtable) + g
    {
      hide Holds, MC.Sound, TablesSound, Kept, Flatten, SlotsOf;
      var gs := [g];
      FlattenOne(g);
      KeptMore(acked, wal.log, gs, region, meta.refs);
      var ok := wal.Commit(gs);
      if !ok {
        return NoRoom;
      }
      memtable := memtable + g;
      acked := acked + Records(g);
      return Done;
    }

    /** Power fails while a write's block is on its way. */
    method LosePowerInWrite(g: Group, k: nat, c: Block)
      requires Running() && IsGroup(g) && Increasing(g, wal.nextSeq) && wal.nextBlock < wal.end
      requires TornBlock(g, k, wal.blocks[wal.nextBlock], c)
      modifies wal
      ensures Down() && acked == old(acked)
    {
      hide Holds, MC.Sound, TablesSound, Kept, Flatten;
      var gs := [g];
      FlattenOne(g);
      wal.CrashInWrite(gs, k, c);
    }

    /** Commits manifest `next`, which accounts for the whole log. Power may fail before any block of it. */
    method CommitMeta(next: Meta, ghost after: map<nat, seq<TableBlock>>, power: nat, spoil: bool) returns (done: bool)
      requires Running() && MC.Fits(Body(next), store.size, store.stride)
      requires next.walHead == (if wal.nextBlock >= wal.end then 0 else wal.nextBlock)
      requires next.flushed == wal.nextSeq && next.seqHigh >= next.flushed
      requires TablesSound(layout, region, after, next) && Kept(acked, [], region, next.refs)
      modifies this`contents, this`meta, this`memtable, wal, store
      ensures acked == old(acked) && done == (power > |MC.Chunks(Body(next), store.size)|)
      ensures !done ==> Down()
      ensures done ==>
                OnDevice(next) && meta == next && wal.Running() && store.seqno == store.current.seqno && memtable == []
                    && wal.log == [] && wal.nextBlock == next.walHead
    {
      hide Holds, MC.Sound, TablesSound, Kept, MC.Chunks;
      BodyRoundTrip(next);
      var landed := power >= |MC.Chunks(Body(next), store.size)|;
      done := store.Commit(Body(next), power, spoil);
      if landed {
        wal.Flushed();
        contents := after;
      }
      if !done {
        wal.Crash();
        return;
      }
      meta, memtable := next, [];
    }

    /** A manifest fits its copies exactly when its lines, one for its numbers and one for each table, do. */
    lemma ManifestFits(next: Meta)
      requires store.Valid()
      ensures MC.Fits(Body(next), store.size, store.stride) <==> |next.refs| + 1 <= store.stride * store.size
      ensures MC.Fits(Body(next), store.size, store.stride) ==>
                |MC.Chunks(Body(next), store.size)| <= store.stride
    {
      MC.Sized(store.copies, store.stride, store.size, store.current);
      MC.FitsExactly(Body(next), store.size, store.stride);
    }

    /** `wrap_wal_if_full`, with nothing left to flush. */
    method WrapIfFull(power: nat, spoil: bool) returns (r: Outcome)
      requires Running() && memtable == []
      modifies this`contents, this`meta, this`memtable, wal, store
      ensures acked == old(acked) && region == old(region)
      ensures r.PowerLost? ==> Down()
      ensures !r.PowerLost? ==> Running() && memtable == []
      ensures r.NoRoom? ==> meta == old(meta)
      ensures r.NoRoom? ==> old(wal.nextBlock) >= wal.end && |old(meta).refs| + 1 > store.stride * store.size
      ensures r.PowerLost? ==> old(wal.nextBlock) >= wal.end && power <= store.stride
      ensures r.Done? && old(wal.nextBlock) >= wal.end ==>
                wal.nextBlock == 0 && meta.walHead == 0 && meta.refs == old(meta).refs
      ensures r.Done? && old(wal.nextBlock) < wal.end ==> meta == old(meta) && wal.nextBlock == old(wal.nextBlock)
      ensures r.Done? ==> meta.seqHigh >= old(meta).seqHigh && meta.nextId == old(meta).nextId
    {
      hide Holds, MC.Sound, TablesSound, SlotsOf, MC.Chunks, MC.Fits, Body;
      if wal.nextBlock < wal.end {
        return Done;
      }
      var next :=
        meta.(walHead := 0, flushed := wal.nextSeq,
              seqHigh := if wal.nextSeq > meta.seqHigh then wal.nextSeq else meta.seqHigh);
      ManifestFits(next);
      if !MC.Fits(Body(next), store.size, store.stride) {
        return NoRoom;
      }
      SameTables(layout, region, contents, meta, next);
      var done := CommitMeta(next, contents, power, spoil);
      return if done then Done else PowerLost;
    }

    /** `flush`: the memtable's records move to a table in a free slot; the log restarts behind them. */
    method Flush(image: seq<TableBlock>, power: nat, spoil: bool) returns (r: Outcome)
      requires Running() && image != [] && Holding(image, memtable)
      modifies this, wal, store, slots
      ensures acked == old(acked)
      ensures r.PowerLost? ==> Down()
      ensures !r.PowerLost? ==> Running()
      ensures r.Done? ==> memtable == []
      ensures r.NoRoom? ==> meta == old(meta) && region == old(region) && memtable == old(memtable)
      ensures r.NoRoom? && old(memtable) != [] ==>
                || |image| > layout.blocks || |old(meta).refs| + 2 > store.stride * store.size
                || forall s :: 0 <= s < layout.slots ==> s in old(slots.used) || s in old(slots.reserved)
      ensures r.PowerLost? ==> power <= |image| + store.stride
      ensures old(memtable) == [] ==> region == old(region) && (r.Done? ==> meta.refs == old(meta).refs)
      ensures r.Done? && old(memtable) != [] ==>
                && wal.log == [] && meta.flushed == old(wal.nextSeq) && |meta.refs| == |old(meta).refs| + 1
                && meta.refs[..|old(meta).refs|] == old(meta).refs
                && TableAt(meta.refs[|old(meta).refs|], region, image)
    {
      hide Holds, MC.Sound, TablesSound, Kept, SlotsOf, MC.Chunks, MC.Fits, Body;
      if memtable == [] {
        r := WrapIfFull(power, spoil);
        return;
      }
      if |image| > layout.blocks {
        return NoRoom;
      }
      var slot := slots.FindFree();
      if slot.None? {
        return NoRoom;
      }
      r := FlushInto(slot.value, image, power, spoil);
    }

    /** Writes the table into the free slot, and commits a manifest with it. */
    method FlushInto(slot: nat, image: seq<TableBlock>, power: nat, spoil: bool) returns (r: Outcome)
      requires Running() && image != [] && Holding(image, memtable) && |image| <= layout.blocks
      requires slot < layout.slots && slot !in slots.used && slot !in slots.reserved
      modifies this, wal, store, slots
      ensures acked == old(acked)
      ensures r.PowerLost? ==> Down()
      ensures !r.PowerLost? ==> Running()
      ensures r.NoRoom? ==> meta == old(meta) && region == old(region) && memtable == old(memtable)
      ensures r.NoRoom? ==> |old(meta).refs| + 2 > store.stride * store.size
      ensures r.PowerLost? ==> power <= |image| + store.stride
      ensures r.Done? ==>
                && memtable == [] && wal.log == [] && meta.flushed == old(wal.nextSeq)
                && |meta.refs| == |old(meta).refs| + 1 && meta.refs[..|old(meta).refs|] == old(meta).refs
                && TableAt(meta.refs[|old(meta).refs|], region, image)
    {
      hide Holds, MC.Sound, TablesSound, Kept, SlotsOf, MC.Chunks, MC.Fits, Body;
      var base := layout.SlotBase(slot);
      var walHead := if wal.nextBlock >= wal.end then 0 else wal.nextBlock;
      var next := WithTable(meta, base, |image|, walHead, wal.nextSeq);
      TableJoins(meta, base, |image|, walHead, wal.nextSeq);
      ManifestFits(next);
      if !MC.Fits(Body(next), store.size, store.stride) {
        return NoRoom;
      }
      var left;
      region, left := WriteTable(layout, region, slot, image, power, contents, meta, acked, wal.log);
      if left.None? {
        wal.Crash();
        return PowerLost;
      }
      TableAdded(layout, region, contents, meta, slot, image, walHead, wal.nextSeq);
      KeptInTable(acked, wal.log, region, meta, base, image, walHead, wal.nextSeq);
      var done := CommitMeta(next, contents[meta.nextId := image], left.value, spoil);
      if !done {
        return PowerLost;
      }
      slots.Claim(slot);
      return Done;
    }

    /** Rebuilds the used slots from the manifest's tables. */
    method RebuildSlots(m: Meta) returns (s: SlotMap)
      requires TablesSound(layout, region, contents, m)
      ensures fresh(s) && s.Valid() && s.layout == layout && s.used == SlotsOf(layout, m.refs)
    {
      s := new SlotMap(layout);
      for i := 0 to |m.refs|
        invariant s.Valid() && s.layout == layout && s.used == SlotsOf(layout, m.refs[..i]) && s.reserved == {}
                  && fresh(s)
      {
        assert m.refs[i] in m.refs && RefSound(layout, region, contents, m.nextId, m.refs[i]);
        var slot := layout.SlotOf(m.refs[i].first, m.refs[i].count);
        NewSlot(layout, m.refs, i);
        var ok := s.MarkUsed(slot.value);
        assert ok;
      }
      assert m.refs[..|m.refs|] == m.refs;
    }

    /** `open`: the manifest, then the slots, then the log above the manifest's floor. */
    method Open()
      requires Down()
      modifies this, wal, store
      ensures Running() && old(acked) <= acked && contents == old(contents) && region == old(region)
      ensures forall x :: x in old(acked) ==> x in memtable || InTables(region, meta.refs, x)
      ensures fresh(slots)
    {
      hide Holds, MC.Sound, Flatten;
      var m := store.Recover();
      meta := Decode(m.body);
      slots := RebuildSlots(meta);
      Replay();
    }

    method Replay()
      requires wal.Down() && OnDevice(meta) && store.seqno == store.current.seqno
      modifies this`memtable, this`acked, wal
      ensures OnDevice(meta) && wal.Running() && memtable == Flatten(wal.log) && old(acked) <= acked
    {
      hide Holds, MC.Sound, Flatten, TablesSound, InTables;
      ghost var had, pending := wal.log, wal.inflight;
      memtable := wal.Recover(meta.walHead, meta.flushed, meta.seqHigh);
      ghost var j :| 0 <= j <= |pending| && wal.log == had + pending[..j];
      KeptMore(acked, had, pending[..j], region, meta.refs);
      acked := acked + Records(Flatten(pending[..j]));
    }
  }

  /** Each table has a slot of its own. */
  lemma NewSlot(l: Layout, refs: seq<Ref>, i: nat)
    requires i < |refs| && l.SlotOf(refs[i].first, refs[i].count).Some?
    requires forall a, b :: 0 <= a < b < |refs| ==>
               l.SlotOf(refs[a].first, refs[a].count) != l.SlotOf(refs[b].first, refs[b].count)
    ensures var slot := l.SlotOf(refs[i].first, refs[i].count).value;
            slot < l.slots && slot !in SlotsOf(l, refs[..i])
                && SlotsOf(l, refs[..i + 1]) == SlotsOf(l, refs[..i]) + {slot}
  {
    var slot := l.SlotOf(refs[i].first, refs[i].count).value;
    assert refs[..i + 1] == refs[..i] + [refs[i]];
    forall r | r in refs[..i] ensures l.SlotOf(r.first, r.count) != Some(slot) {
      var a :| 0 <= a < i && refs[a] == r;
    }
    forall s ensures s in SlotsOf(l, refs[..i + 1]) <==> s in SlotsOf(l, refs[..i]) || s == slot {
      assert refs[i] in refs[..i + 1];
    }
  }

  lemma SameTables(l: Layout, region: seq<TableBlock>, contents: map<nat, seq<TableBlock>>, m: Meta, next: Meta)
    requires TablesSound(l, region, contents, m) && next.refs == m.refs && next.nextId == m.nextId
    ensures TablesSound(l, region, contents, next)
  {}

  lemma SlotRoom(l: Layout, slot: nat, blocks: nat)
    requires slot < l.slots && l.SlotBase(l.slots) <= blocks
    ensures l.SlotBase(slot) + l.blocks == l.SlotBase(slot + 1) <= blocks
  {
    MulMonotone(slot + 1, l.slots, l.blocks);
  }

  lemma Extend(region: seq<TableBlock>, base: nat, i: nat, image: seq<TableBlock>)
    requires base + i < |region| && i < |image| && region[base .. base + i] == image[..i]
    ensures region[base + i := image[i]][base .. base + i + 1] == image[..i + 1]
  {
    var after := region[base + i := image[i]];
    assert after[base .. base + i + 1] == region[base .. base + i] + [image[i]];
    assert image[..i + 1] == image[..i] + [image[i]];
  }
}
