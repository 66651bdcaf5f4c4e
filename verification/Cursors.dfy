/** Where a scan's cursors stand (src/scan.rs): on memtable slots or on a table's blocks, walked either way. */
module Cursors {
  import opened Keys
  import opened Visibility
  import opened Merging
  import opened TableLookup
  import opened ReverseSearch

  /** A memtable slot. A range tombstone sorts among the entries by its start, but is none of them. */
  datatype SlotView = SlotView(entry: Entry, rangeDel: bool)

  /** What a cursor walks. */
  datatype Stored = Slots(slots: seq<SlotView>) | Table(blocks: seq<DataBlock>)

  ghost predicate SlotsOrdered(slots: seq<SlotView>) {
    forall i, j :: 0 <= i < j < |slots| ==> Before(slots[i].entry, slots[j].entry)
  }

  ghost predicate Walkable(d: Stored) {
    match d
    case Slots(slots) => SlotsOrdered(slots)
    case Table(blocks) => Searchable(blocks)
  }

  /** The versions in slots `.. n`. */
  ghost function SlotPoints(slots: seq<SlotView>, n: nat): set<Entry> {
    set i | 0 <= i < |slots| && i < n && !slots[i].rangeDel :: slots[i].entry
  }

  ghost function Held(d: Stored): set<Entry> {
    match d
    case Slots(slots) => SlotPoints(slots, |slots|)
    case Table(blocks) => All(blocks)
  }

  // Forward.

  /** The point versions of the slots, in order. */
  ghost function Entries(slots: seq<SlotView>): seq<Entry> {
    if slots == [] then [] else (if slots[0].rangeDel then [] else [slots[0].entry]) + Entries(slots[1..])
  }

  ghost function Flat(blocks: seq<DataBlock>): seq<Entry> {
    if blocks == [] then [] else blocks[0].entries + Flat(blocks[1..])
  }

  predicate InBounds(d: Stored, block: nat, off: nat) {
    match d
    case Slots(slots) => off <= |slots|
    case Table(blocks) => block < |blocks| && off <= |blocks[block].entries|
  }

  /** What lies at a position and after it. */
  ghost function From(d: Stored, block: nat, off: nat): seq<Entry>
    requires InBounds(d, block, off)
  {
    match d
    case Slots(slots) => Entries(slots[off..])
    case Table(blocks) => blocks[block].entries[off..] + Flat(blocks[block + 1..])
  }

  /** Everything, in order. */
  ghost function Whole(d: Stored): seq<Entry> {
    match d
    case Slots(slots) => Entries(slots)
    case Table(blocks) => Flat(blocks)
  }

  predicate Shown(e: Entry, view: nat, floor: Option<Rank>) {
    e.seqno <= view && (floor.Some? ==> e.key >= floor.value)
  }

  /** On to the first entry that is visible and not below the floor. */
  ghost function Skip(es: seq<Entry>, view: nat, floor: Option<Rank>): seq<Entry> {
    if es == [] || Shown(es[0], view, floor) then es else Skip(es[1..], view, floor)
  }

  /** Skipping loses nothing that is to be shown. */
  lemma {:induction false} SkipKeeps(es: seq<Entry>, view: nat, floor: Option<Rank>)
    requires Ordered(es)
    ensures var r := Skip(es, view, floor); Ordered(r) && |r| <= |es| && (r != [] ==> Shown(r[0], view, floor))
    ensures forall e :: e in Skip(es, view, floor) ==> e in es
    ensures forall e :: e in es && Shown(e, view, floor) ==> e in Skip(es, view, floor)
  {
    if es != [] && !Shown(es[0], view, floor) {
      TailOrdered(es);
      SkipKeeps(es[1..], view, floor);
    }
  }

  lemma {:induction false} SkipPrefix(a: seq<Entry>, b: seq<Entry>, view: nat, floor: Option<Rank>)
    requires forall e :: e in a ==> !Shown(e, view, floor)
    ensures Skip(a + b, view, floor) == Skip(b, view, floor)
  {
    if a == [] {
      assert a + b == b;
    } else {
      assert (a + b)[1..] == a[1..] + b && (a + b)[0] == a[0];
      SkipPrefix(a[1..], b, view, floor);
    }
  }

  /** A cursor stands on an entry, whose head it holds, or is at its end. */
  datatype Cursor = Cursor(block: nat, off: nat, head: Option<Entry>)

  predicate StandsOn(d: Stored, block: nat, off: nat, e: Entry) {
    match d
    case Slots(slots) => off < |slots| && slots[off] == SlotView(e, false)
    case Table(blocks) => block < |blocks| && off < |blocks[block].entries| && blocks[block].entries[off] == e
  }

  /** The head a cursor holds is where it stands. */
  predicate Standing(d: Stored, c: Cursor) {
    c.head.Some? ==> StandsOn(d, c.block, c.off, c.head.value)
  }

  /** What the cursor has yet to pass. */
  ghost function Yet(d: Stored, c: Cursor): seq<Entry>
    requires Standing(d, c)
  {
    if c.head.None? then [] else From(d, c.block, c.off)
  }

  ghost predicate Tracks(d: Stored, c: Cursor, es: seq<Entry>) {
    Standing(d, c) && es == Yet(d, c)
  }

  lemma HeadFirst(d: Stored, c: Cursor, es: seq<Entry>)
    requires Tracks(d, c, es)
    ensures c.head.Some? ==>
              es != [] && es[0] == c.head.value && InBounds(d, c.block, c.off + 1)
                  && es[1..] == From(d, c.block, c.off + 1)
    ensures c.head.None? <==> es == []
  {
    if c.head.Some? {
      match d
      case Slots(slots) => SlotStep(slots, c.off);
      case Table(blocks) => BlockStep(blocks, c.block, c.off);
    }
  }

  lemma SlotStep(slots: seq<SlotView>, off: nat)
    requires off < |slots|
    ensures Entries(slots[off..]) == (if slots[off].rangeDel then [] else [slots[off].entry])
            + Entries(slots[off + 1..])
  {
    assert slots[off..][1..] == slots[off + 1..];
  }

  lemma BlockStep(blocks: seq<DataBlock>, idx: nat, off: nat)
    requires idx < |blocks| && off < |blocks[idx].entries|
    ensures From(Table(blocks), idx, off) == [blocks[idx].entries[off]] + From(Table(blocks), idx, off + 1)
  {
    hide Flat;
    var es, rest := blocks[idx].entries, Flat(blocks[idx + 1..]);
    assert es[off..] == [es[off]] + es[off + 1..];
    assert [es[off]] + es[off + 1..] + rest == [es[off]] + (es[off + 1..] + rest);
  }

  lemma BlockEnd(blocks: seq<DataBlock>, idx: nat)
    requires idx < |blocks|
    ensures var n := |blocks[idx].entries|;
            From(Table(blocks), idx, n) == if idx + 1 < |blocks| then From(Table(blocks), idx + 1, 0) else []
  {
    if idx + 1 < |blocks| {
      assert blocks[idx + 1..][1..] == blocks[idx + 2..];
      assert blocks[idx + 1].entries[0..] == blocks[idx + 1].entries;
    }
  }

  /** `park_cursor`: on to the next entry to show, across as many blocks as it takes. */
  method ParkTable(blocks: seq<DataBlock>, block: nat, next: nat, view: nat, floor: Option<Rank>) returns (c: Cursor)
    requires InBounds(Table(blocks), block, next)
    ensures Tracks(Table(blocks), c, Skip(From(Table(blocks), block, next), view, floor))
  {
    hide From;
    var idx: nat, off: nat := block, next;
    ghost var goal := Skip(From(Table(blocks), block, next), view, floor);
    while true
      invariant InBounds(Table(blocks), idx, off) && goal == Skip(From(Table(blocks), idx, off), view, floor)
      decreases |blocks| - idx
    {
      while off < |blocks[idx].entries|
        invariant InBounds(Table(blocks), idx, off) && goal == Skip(From(Table(blocks), idx, off), view, floor)
      {
        var e := blocks[idx].entries[off];
        BlockStep(blocks, idx, off);
        if Shown(e, view, floor) {
          return Cursor(idx, off, Some(e));
        }
        assert From(Table(blocks), idx, off)[1..] == From(Table(blocks), idx, off + 1);
        off := off + 1;
      }
      BlockEnd(blocks, idx);
      if idx + 1 >= |blocks| {
        return Cursor(idx, off, None);
      }
      idx, off := idx + 1, 0;
    }
  }

  /** `advance_mem`: on to the next visible slot that is no range tombstone. */
  method AdvanceMem(slots: seq<SlotView>, next: nat, view: nat) returns (c: Cursor)
    requires next <= |slots|
    ensures Tracks(Slots(slots), c, Skip(From(Slots(slots), 0, next), view, None))
  {
    var idx := next;
    while idx < |slots|
      invariant next <= idx <= |slots|
      invariant Skip(Entries(slots[next..]), view, None) == Skip(Entries(slots[idx..]), view, None)
    {
      var s := slots[idx];
      PassSlot(slots, idx, view);
      if s.entry.seqno <= view && !s.rangeDel {
        return Cursor(0, idx, Some(s.entry));
      }
      idx := idx + 1;
    }
    return Cursor(0, idx, None);
  }

  lemma PassSlot(slots: seq<SlotView>, idx: nat, view: nat)
    requires idx < |slots|
    ensures var es := Entries(slots[idx..]);
            if slots[idx].rangeDel || slots[idx].entry.seqno > view
            then Skip(es, view, None) == Skip(Entries(slots[idx + 1..]), view, None)
            else Skip(es, view, None) == es
  {
    SlotStep(slots, idx);
    assert slots[idx].rangeDel ==> Entries(slots[idx..]) == Entries(slots[idx + 1..]);
    assert !slots[idx].rangeDel ==> Entries(slots[idx..])[1..] == Entries(slots[idx + 1..]);
  }

  /** The cursor's next entry. */
  method ParkNext(d: Stored, c: Cursor, view: nat, ghost es: seq<Entry>) returns (r: Cursor)
    requires Tracks(d, c, es) && c.head.Some?
    ensures es != [] && Tracks(d, r, Skip(es[1..], view, None))
  {
    HeadFirst(d, c, es);
    match d
    case Slots(slots) => r := AdvanceMem(slots, c.off + 1, view);
    case Table(blocks) => r := ParkTable(blocks, c.block, c.off + 1, view, None);
  }

  /** Slot `at` is the first at or past `key`: where `Memtable.MemTable.FindRun` leads. */
  predicate StartsAt(slots: seq<SlotView>, key: Rank, at: nat) {
    && at <= |slots| && (forall j :: 0 <= j < at ==> slots[j].entry.key < key)
    && (forall j :: at <= j < |slots| ==> slots[j].entry.key >= key)
  }

  lemma {:induction false} StartExists(slots: seq<SlotView>, key: Rank, n: nat)
    requires SlotsOrdered(slots) && n <= |slots| && forall j :: n <= j < |slots| ==> slots[j].entry.key >= key
    ensures exists at :: 0 <= at <= |slots| && StartsAt(slots, key, at)
  {
    if n == 0 || slots[n - 1].entry.key < key {
      forall j | 0 <= j < n ensures slots[j].entry.key < key {
        assert j < n - 1 ==> Before(slots[j].entry, slots[n - 1].entry);
      }
      assert StartsAt(slots, key, n);
    } else {
      StartExists(slots, key, n - 1);
    }
  }

  /** `seek` for one source: the first entry to show from `floor` on. */
  method SeekCursor(d: Stored, view: nat, floor: Rank) returns (c: Cursor)
    requires Walkable(d)
    ensures Tracks(d, c, Skip(Whole(d), view, Some(floor)))
  {
    match d
    case Slots(slots) =>
      StartExists(slots, floor, |slots|);
      var at :| 0 <= at <= |slots| && StartsAt(slots, floor, at);
      c := AdvanceMem(slots, at, view);
      SeekSlots(slots, at, view, floor);
    case Table(blocks) =>
      if blocks == [] {
        return Cursor(0, 0, None);
      }
      var pos := IndexLookup(blocks, floor);
      var idx := if pos.Some? then pos.value else 0;
      c := ParkTable(blocks, idx, 0, view, Some(floor));
      SeekBlocks(blocks, idx, view, floor);
  }

  lemma {:induction false} EntriesSplit(slots: seq<SlotView>, n: nat)
    requires n <= |slots|
    ensures Entries(slots) == Entries(slots[..n]) + Entries(slots[n..])
  {
    if n == 0 {
      assert slots[0..] == slots;
    } else {
      EntriesSplit(slots[1..], n - 1);
      assert slots[..n][1..] == slots[1..][..n - 1] && slots[n..] == slots[1..][n - 1..];
    }
  }

  lemma {:induction false} EntriesHold(slots: seq<SlotView>, e: Entry)
    ensures e in Entries(slots) <==> SlotView(e, false) in slots
  {
    if slots != [] {
      assert slots == [slots[0]] + slots[1..];
      EntriesHold(slots[1..], e);
    }
  }

  lemma SeekSlots(slots: seq<SlotView>, at: nat, view: nat, floor: Rank)
    requires SlotsOrdered(slots) && StartsAt(slots, floor, at)
    ensures Skip(Entries(slots), view, Some(floor)) == Skip(Entries(slots[at..]), view, None)
  {
    EntriesSplit(slots, at);
    forall e | e in Entries(slots[..at]) ensures e.key < floor { EntriesHold(slots[..at], e); }
    SkipPrefix(Entries(slots[..at]), Entries(slots[at..]), view, Some(floor));
    forall e | e in Entries(slots[at..]) ensures e.key >= floor { EntriesHold(slots[at..], e); }
    AboveFloor(Entries(slots[at..]), view, floor);
  }

  lemma {:induction false} AboveFloor(es: seq<Entry>, view: nat, floor: Rank)
    requires forall e :: e in es ==> e.key >= floor
    ensures Skip(es, view, Some(floor)) == Skip(es, view, None)
  {
    if es != [] {
      assert es[0] in es;
      AboveFloor(es[1..], view, floor);
    }
  }

  lemma {:induction false} FlatSplit(blocks: seq<DataBlock>, n: nat)
    requires n <= |blocks|
    ensures Flat(blocks) == Flat(blocks[..n]) + Flat(blocks[n..])
  {
    if n == 0 {
      assert blocks[0..] == blocks;
    } else {
      FlatSplit(blocks[1..], n - 1);
      assert blocks[..n][1..] == blocks[1..][..n - 1] && blocks[n..] == blocks[1..][n - 1..];
    }
  }

  lemma {:induction false} FlatHolds(blocks: seq<DataBlock>, e: Entry)
    ensures e in Flat(blocks) <==> exists b :: b in blocks && e in b.entries
  {
    if blocks != [] {
      assert blocks == [blocks[0]] + blocks[1..];
      FlatHolds(blocks[1..], e);
    }
  }

  lemma SeekBlocks(blocks: seq<DataBlock>, idx: nat, view: nat, floor: Rank)
    requires idx < |blocks| && forall i, e :: 0 <= i < idx && e in blocks[i].entries ==> e.key < floor
    ensures Skip(Flat(blocks), view, Some(floor)) == Skip(From(Table(blocks), idx, 0), view, Some(floor))
  {
    FlatSplit(blocks, idx);
    forall e | e in Flat(blocks[..idx]) ensures e.key < floor { FlatHolds(blocks[..idx], e); }
    SkipPrefix(Flat(blocks[..idx]), Flat(blocks[idx..]), view, Some(floor));
    assert blocks[idx..][1..] == blocks[idx + 1..] && blocks[idx].entries[0..] == blocks[idx].entries;
  }

  /** Read in order, a source is ordered and complete. */
  lemma WholeOrdered(d: Stored)
    requires Walkable(d)
    ensures Ordered(Whole(d)) && forall e :: e in Whole(d) <==> e in Held(d)
  {
    match d
    case Slots(slots) =>
      forall e ensures e in Whole(d) <==> e in Held(d) { EntriesHold(slots, e); }
      EntriesOrdered(slots);
    case Table(blocks) =>
      forall e ensures e in Whole(d) <==> e in Held(d) { FlatHolds(blocks, e); }
      FlatOrdered(blocks);
  }

  lemma {:induction false} EntriesOrdered(slots: seq<SlotView>)
    requires SlotsOrdered(slots)
    ensures Ordered(Entries(slots))
  {
    if slots != [] {
      assert SlotsOrdered(slots[1..]) by {
        forall i, j | 0 <= i < j < |slots[1..]| ensures Before(slots[1..][i].entry, slots[1..][j].entry) {
          assert Before(slots[i + 1].entry, slots[j + 1].entry);
        }
      }
      EntriesOrdered(slots[1..]);
      forall e | e in Entries(slots[1..]) ensures Before(slots[0].entry, e) {
        EntriesHold(slots[1..], e);
        var i :| 0 <= i < |slots[1..]| && slots[1..][i].entry == e;
        assert Before(slots[0].entry, slots[i + 1].entry);
      }
    }
  }

  lemma {:induction false} FlatOrdered(blocks: seq<DataBlock>)
    requires Sorted(blocks)
    ensures Ordered(Flat(blocks))
  {
    if blocks != [] {
      var t := blocks[1..];
      assert forall i :: 0 <= i < |t| ==> t[i] == blocks[i + 1];
      assert Sorted(t);
      FlatOrdered(t);
      forall x, y | x in blocks[0].entries && y in Flat(t) ensures Before(x, y) {
        FlatHolds(t, y);
        var i :| 0 <= i < |t| && y in t[i].entries;
        assert y in blocks[i + 1].entries;
      }
      assert blocks[0] in blocks;
      OrderedConcat(blocks[0].entries, Flat(t));
    }
  }

  // Backward over the slots.

  /** The key's run starts at slot `at`, and only smaller keys lie before. */
  ghost predicate RunFrom(slots: seq<SlotView>, key: Rank, at: nat) {
    && at < |slots| && (forall i :: 0 <= i < at ==> slots[i].entry.key < key)
    && (forall i :: at <= i < |slots| ==> slots[i].entry.key >= key)
  }

  /** No slot of `lo .. hi` holds a visible version. */
  ghost predicate Unseen(slots: seq<SlotView>, lo: nat, hi: nat, view: nat) {
    hi <= |slots| && forall i :: lo <= i < hi && !slots[i].rangeDel ==> slots[i].entry.seqno > view
  }

  /** `newest_visible`: the first visible version of slots `lo .. hi`. */
  ghost predicate FirstSeen(slots: seq<SlotView>, lo: nat, hi: nat, view: nat, best: Option<nat>) {
    && hi <= |slots| && (best.None? ==> Unseen(slots, lo, hi, view))
    && (best.Some? ==> lo <= best.value < hi && !slots[best.value].rangeDel && slots[best.value].entry.seqno <= view
                       && Unseen(slots, lo, best.value, view))
  }

  /** The inner loop: down the run that `idx` lies in. */
  method RunDown(slots: seq<SlotView>, idx: nat, view: nat) returns (start: nat, best: Option<nat>)
    requires SlotsOrdered(slots) && idx < |slots|
    ensures start <= idx && RunFrom(slots, slots[idx].entry.key, start)
    ensures FirstSeen(slots, start, idx + 1, view, best)
    ensures forall i :: start <= i <= idx ==> slots[i].entry.key == slots[idx].entry.key
  {
    var key := slots[idx].entry.key;
    var j := idx + 1;
    best := None;
    while j > 0 && slots[j - 1].entry.key == key
      invariant 0 <= j <= idx + 1 && forall i :: j <= i <= idx ==> slots[i].entry.key == key
      invariant FirstSeen(slots, j, idx + 1, view, best)
    {
      j := j - 1;
      if !slots[j].rangeDel && slots[j].entry.seqno <= view {
        best := Some(j);
      }
    }
    start := j;
    assert forall i :: 0 <= i < j - 1 ==> Before(slots[i].entry, slots[j - 1].entry);
    assert j > 0 ==> Before(slots[j - 1].entry, slots[j].entry);
    assert forall i :: j < i < |slots| ==> Before(slots[j].entry, slots[i].entry);
  }

  /** `advance_mem_rev`: the newest visible version of the greatest key at or below slot `idx` that has one. */
  method AdvanceMemRev(slots: seq<SlotView>, idx: nat, view: nat) returns (h: Option<Parked>)
    requires SlotsOrdered(slots) && idx < |slots|
    ensures Answer(SlotPoints(slots, idx + 1), Everything, view, if h.None? then None else Some(h.value.entry))
    ensures h.Some? ==> RunFrom(slots, h.value.entry.key, h.value.block)
  {
    hide Answer;
    var at: nat := idx;
    while true
      invariant at <= idx && Unseen(slots, at + 1, idx + 1, view)
      decreases at
    {
      var start, best := RunDown(slots, at, view);
      if best.Some? {
        SeenIsTop(slots, start, at, idx, view, best.value);
        return Some(Parked(slots[best.value].entry, start));
      }
      if start == 0 {
        assert Answer(SlotPoints(slots, idx + 1), Everything, view, None) by {
          NoneSeen(slots, idx + 1, view);
        }
        return None;
      }
      at := start - 1;
    }
  }

  lemma NoneSeen(slots: seq<SlotView>, n: nat, view: nat)
    requires Unseen(slots, 0, n, view)
    ensures Answer(SlotPoints(slots, n), Everything, view, None)
  {}

  lemma SeenIsTop(slots: seq<SlotView>, start: nat, at: nat, idx: nat, view: nat, best: nat)
    requires SlotsOrdered(slots) && start <= at <= idx && FirstSeen(slots, start, at + 1, view, Some(best))
    requires RunFrom(slots, slots[at].entry.key, start) && slots[best].entry.key == slots[at].entry.key
    requires Unseen(slots, at + 1, idx + 1, view)
    ensures Answer(SlotPoints(slots, idx + 1), Everything, view, Some(slots[best].entry))
  {
    var e := slots[best].entry;
    assert e in SlotPoints(slots, idx + 1);
    forall f | f in SlotPoints(slots, idx + 1) && f.seqno <= view
      ensures f.key < e.key || (f.key == e.key && f.seqno <= e.seqno)
    {
      var i :| 0 <= i <= idx && !slots[i].rangeDel && slots[i].entry == f;
      assert i > best ==> i <= at && Before(e, f);
    }
  }
}
