/** The memtable (src/memtable.rs): slots sorted by key, newest first, over a bump arena of key and value bytes. */
module Memtable {
  import opened Keys
  import opened Tombstones

  type Bytes = seq<Byte>

  /** A slot points into the arena. */
  datatype Slot = Slot(keyOff: nat, keyLen: nat, valOff: nat, valLen: nat, seqno: nat, tombstone: bool, rangeDel: bool,
                       expireAt: nat)

  /** What a slot stands for. A range tombstone's value is its end. */
  datatype Record = Record(key: Bytes, val: Bytes, seqno: nat, tombstone: bool, rangeDel: bool, expireAt: nat)

  datatype Refusal = EmptyKey | KeyTooLarge | ValueTooLarge | TableFull | ArenaFull

  predicate Before(a: Record, b: Record) {
    RankOf(a.key) < RankOf(b.key) || (a.key == b.key && a.seqno > b.seqno)
  }

  ghost predicate Sorted(rs: seq<Record>) {
    forall i, j :: 0 <= i < j < |rs| ==> Before(rs[i], rs[j])
  }

  ghost predicate AllBelow(rs: seq<Record>, seqno: nat) {
    forall r :: r in rs ==> r.seqno < seqno
  }

  /** Position `i` is where `key`'s run starts or would start. */
  ghost predicate RunStart(rs: seq<Record>, key: Bytes, i: nat) {
    && i <= |rs| && (forall j :: 0 <= j < i ==> RankOf(rs[j].key) < RankOf(key))
    && (forall j :: i <= j < |rs| ==> RankOf(rs[j].key) >= RankOf(key))
  }

  /** A newer version at its run's start keeps the order. */
  lemma InsertSorted(rs: seq<Record>, i: nat, r: Record)
    requires Sorted(rs) && RunStart(rs, r.key, i) && forall q :: q in rs ==> q.seqno < r.seqno
    ensures Sorted(rs[..i] + [r] + rs[i..])
  {
    hide RankOf;
    var s := rs[..i] + [r] + rs[i..];
    forall a, b | 0 <= a < b < |s| ensures Before(s[a], s[b]) {
      if a == i {
        assert s[b] == rs[b - 1] && rs[b - 1] in rs;
        if RankOf(s[b].key) == RankOf(r.key) { RankInjective(s[b].key, r.key); }
      } else if b == i {
        assert s[a] == rs[a];
      } else {
        assert s[a] == rs[if a < i then a else a - 1] && s[b] == rs[if b < i then b else b - 1];
      }
    }
  }

  /** The newest point version of `key` at or below `view`. */
  ghost predicate Newest(rs: seq<Record>, key: Bytes, view: nat, r: Record) {
    && r in rs && r.key == key && !r.rangeDel && r.seqno <= view
    && forall q :: q in rs && q.key == key && !q.rangeDel && q.seqno <= view ==> q.seqno <= r.seqno
  }

  predicate CoversKey(r: Record, key: Bytes) {
    r.rangeDel && RankOf(r.key) <= RankOf(key) < RankOf(r.val)
  }

  /** The range tombstones among the records, as deletions of key ranges. */
  ghost function RdelsOf(rs: seq<Record>): seq<Rdel> {
    if rs == [] then []
    else (if rs[0].rangeDel then [Rdel(RankOf(rs[0].key), RankOf(rs[0].val), rs[0].seqno)] else []) + RdelsOf(rs[1..])
  }

  lemma {:induction false} RdelsMembers(rs: seq<Record>, r: Rdel)
    ensures r in RdelsOf(rs) <==>
            exists q :: q in rs && q.rangeDel && r == Rdel(RankOf(q.key), RankOf(q.val), q.seqno)
  {
    hide RankOf;
    if rs != [] {
      RdelsMembers(rs[1..], r);
      assert rs == [rs[0]] + rs[1..];
    }
  }

  /** Some record with sequence `n` covers the key at the view. */
  ghost predicate CoveredWith(rs: seq<Record>, key: Bytes, view: nat, n: nat) {
    exists q :: q in rs && CoversKey(q, key) && q.seqno == n <= view
  }

  /** Exactly when a range tombstone with that sequence does. */
  lemma CoversIsCover(rs: seq<Record>, key: Bytes, view: nat, n: nat)
    ensures CoveredWith(rs, key, view, n) <==>
            exists r :: r in RdelsOf(rs) && VisibleCover(r, RankOf(key), view) && r.seqno == n
  {
    hide RankOf;
    if CoveredWith(rs, key, view, n) {
      var q :| q in rs && CoversKey(q, key) && q.seqno == n <= view;
      var r := Rdel(RankOf(q.key), RankOf(q.val), q.seqno);
      RdelsMembers(rs, r);
      assert r in RdelsOf(rs) && VisibleCover(r, RankOf(key), view);
    }
    if r :| r in RdelsOf(rs) && VisibleCover(r, RankOf(key), view) && r.seqno == n {
      RdelsMembers(rs, r);
    }
  }

  /** The highest covering record is the cover the range tombstones give the key. */
  lemma BestIsCover(rs: seq<Record>, key: Bytes, view: nat, best: Option<nat>)
    requires best.Some? ==> CoveredWith(rs, key, view, best.value)
    requires forall n: nat :: CoveredWith(rs, key, view, n) ==> best.Some? && n <= best.value
    ensures best.Some? ==> best.value == CoverSeq(RdelsOf(rs), RankOf(key), view)
    ensures best.None? <==> forall r :: r in RdelsOf(rs) ==> !VisibleCover(r, RankOf(key), view)
  {
    hide RankOf, RdelsOf, CoveredWith;
    var c := CoverSeq(RdelsOf(rs), RankOf(key), view);
    CoversIsCover(rs, key, view, c);
    if best.Some? { CoversIsCover(rs, key, view, best.value); }
    forall r | r in RdelsOf(rs) && VisibleCover(r, RankOf(key), view) ensures best.Some? {
      CoversIsCover(rs, key, view, r.seqno);
    }
  }

  /** The slot's bytes lie in the first `n` of the arena. */
  predicate InArena(s: Slot, n: nat) {
    s.keyOff + s.keyLen <= n && s.valOff + s.valLen <= n
  }

  function Decode(arena: Bytes, s: Slot): Record
    requires InArena(s, |arena|)
  {
    Record(arena[s.keyOff .. s.keyOff + s.keyLen], arena[s.valOff .. s.valOff + s.valLen], s.seqno, s.tombstone,
           s.rangeDel, s.expireAt)
  }

  ghost predicate AllIn(ss: seq<Slot>, n: nat) {
    forall i :: 0 <= i < |ss| ==> InArena(ss[i], n)
  }

  /** What the slots stand for. */
  ghost function View(arena: Bytes, ss: seq<Slot>): (rs: seq<Record>)
    requires AllIn(ss, |arena|)
    ensures |rs| == |ss| && forall i :: 0 <= i < |ss| ==> rs[i] == Decode(arena, ss[i])
  {
    seq(|ss|, i requires 0 <= i < |ss| => Decode(arena, ss[i]))
  }

  /** Bytes behind the arena's end change nothing. */
  lemma ViewAppend(arena: Bytes, more: Bytes, ss: seq<Slot>)
    requires AllIn(ss, |arena|)
    ensures AllIn(ss, |arena + more|) && View(arena + more, ss) == View(arena, ss)
  {
    forall i | 0 <= i < |ss|
      ensures InArena(ss[i], |arena + more|) && Decode(arena + more, ss[i]) == Decode(arena, ss[i])
    {
      Unmoved(arena, more, ss[i].keyOff, ss[i].keyLen);
      Unmoved(arena, more, ss[i].valOff, ss[i].valLen);
    }
  }

  lemma Unmoved(arena: Bytes, more: Bytes, off: nat, len: nat)
    requires off + len <= |arena|
    ensures (arena + more)[off .. off + len] == arena[off .. off + len]
  {}

  lemma ViewInsert(arena: Bytes, ss: seq<Slot>, pos: nat, s: Slot)
    requires AllIn(ss, |arena|) && InArena(s, |arena|) && pos <= |ss|
    ensures AllIn(ss[..pos] + [s] + ss[pos..], |arena|)
    ensures View(arena, ss[..pos] + [s] + ss[pos..]) == View(arena, ss)[..pos] + [Decode(arena, s)]
            + View(arena, ss)[pos..]
  {
    hide InArena, Decode;
  }

  lemma NewRecord(arena: Bytes, r: Record)
    ensures var s := Slot(|arena|, |r.key|, |arena| + |r.key|, |r.val|, r.seqno, r.tombstone, r.rangeDel, r.expireAt);
            InArena(s, |arena + r.key + r.val|) && Decode(arena + r.key + r.val, s) == r
  {}

  class MemTable {
    const keyMax: nat
    const valMax: nat
    const slots: array<Slot>
    const arena: array<Byte>
    var len: nat
    var arenaLen: nat
    var maxSeq: nat

    ghost predicate Framed()
      reads this, slots
    {
      len <= slots.Length && arenaLen <= arena.Length && AllIn(slots[..len], arenaLen)
    }

    ghost function Contents(): (rs: seq<Record>)
      reads this, slots, arena
      requires Framed()
      ensures |rs| == len
    {
      View(arena[..arenaLen], slots[..len])
    }

    ghost predicate Valid()
      reads this, slots, arena
    {
      Framed() && Sorted(Contents()) && AllBelow(Contents(), maxSeq + 1)
    }

    constructor (cap: nat, arenaCap: nat, keyMax: nat, valMax: nat)
      ensures Valid() && Contents() == [] && fresh(slots) && fresh(arena) && slots.Length == cap
              && arena.Length == arenaCap
      ensures this.keyMax == keyMax && this.valMax == valMax
    {
      this.keyMax, this.valMax := keyMax, valMax;
      slots := new Slot[cap](_ => Slot(0, 0, 0, 0, 0, false, false, 0));
      arena := new Byte[arenaCap](_ => 0);
      len, arenaLen, maxSeq := 0, 0, 0;
    }

    /** The record of slot `i`. */
    method RecordAt(i: nat) returns (r: Record)
      requires Framed() && i < len
      ensures r == Contents()[i]
    {
      assert slots[..len][i] == slots[i];
      return Decode(arena[..arenaLen], slots[i]);
    }

    /** `find_run`: binary search, then back to the run's first slot. */
    method FindRun(key: Bytes) returns (found: bool, pos: nat)
      requires Valid()
      ensures RunStart(Contents(), key, pos)
      ensures found <==> pos < len && Contents()[pos].key == key
    {
      hide RankOf, Sorted, AllBelow, MemTable.Contents, AllIn;
      var lo: nat, hi := 0, len;
      ghost var rs := Contents();
      while lo < hi
        invariant lo <= hi <= len && Between(rs, key, lo, hi)
      {
        var mid := lo + (hi - lo) / 2;
        var r := RecordAt(mid);
        if r.key == key {
          pos := WalkBack(key, mid);
          return true, pos;
        }
        Narrow(rs, key, lo, hi, mid);
        if RankOf(r.key) < RankOf(key) {
          lo := mid + 1;
        } else {
          hi := mid;
        }
      }
      return false, lo;
    }

    method WalkBack(key: Bytes, at: nat) returns (pos: nat)
      requires Valid() && at < len && Contents()[at].key == key
      ensures pos < len && Contents()[pos].key == key && RunStart(Contents(), key, pos)
    {
      hide RankOf, Sorted, AllBelow, MemTable.Contents, AllIn;
      ghost var rs := Contents();
      pos := at;
      while pos > 0
        invariant 0 <= pos <= at && rs[pos].key == key
      {
        var r := RecordAt(pos - 1);
        if r.key != key {
          break;
        }
        pos := pos - 1;
      }
      FirstOfRun(rs, key, pos);
    }

    /** `apply`: the bytes go to the end of the arena, the slots above the run start move up one. */
    method Apply(pos: nat, r: Record)
      requires Valid() && RunStart(Contents(), r.key, pos) && r.seqno > maxSeq
      requires len < slots.Length && arenaLen + |r.key| + |r.val| <= arena.Length
      modifies this, slots, arena
      ensures Valid() && Contents() == old(Contents())[..pos] + [r] + old(Contents())[pos..]
      ensures maxSeq == r.seqno && arenaLen == old(arenaLen) + |r.key| + |r.val|
    {
      hide RankOf, Sorted, AllBelow, AllIn, InArena, Decode;
      ghost var rs, bytes, ss := Contents(), arena[..arenaLen], slots[..len];
      InsertBelow(rs, pos, r, maxSeq);
      InsertSorted(rs, pos, r);
      ViewAppend(bytes, r.key + r.val, ss);
      assert bytes + (r.key + r.val) == bytes + r.key + r.val;
      NewRecord(bytes, r);
      var s := Slot(arenaLen, |r.key|, arenaLen + |r.key|, |r.val|, r.seqno, r.tombstone, r.rangeDel, r.expireAt);
      ViewInsert(bytes + r.key + r.val, ss, pos, s);
      AppendBytes(r.key);
      AppendBytes(r.val);
      ShiftUp(pos, s);
      maxSeq := r.seqno;
    }

    /** Copies bytes behind the arena's end. */
    method AppendBytes(b: Bytes)
      requires arenaLen + |b| <= arena.Length
      modifies arena, this`arenaLen
      ensures arenaLen == old(arenaLen) + |b| && arena[..arenaLen] == old(arena[..arenaLen]) + b
    {
      var off := arenaLen;
      forall i | 0 <= i < |b| { arena[off + i] := b[i]; }
      arenaLen := off + |b|;
    }

    /** The slots above `pos` move up one, and the new one goes there. */
    method ShiftUp(pos: nat, s: Slot)
      requires pos <= len < slots.Length
      modifies slots, this`len
      ensures len == old(len) + 1 && slots[..len] == old(slots[..len])[..pos] + [s] + old(slots[..len])[pos..]
    {
      forall i | pos <= i < len { slots[i + 1] := slots[i]; }
      slots[pos] := s;
      len := len + 1;
    }

    /** `insert` and `insert_ttl`: refused exactly when the entry or the table is too large, and then nothing
        changed. */
    method Insert(key: Bytes, val: Bytes, seqno: nat, tombstone: bool, expireAt: nat) returns (refused: Option<Refusal>)
      requires Valid() && seqno > maxSeq
      modifies this, slots, arena
      ensures Valid()
      ensures refused.Some? ==> Contents() == old(Contents()) && maxSeq == old(maxSeq)
      ensures refused.None? ==> var v := if tombstone then [] else val;
                multiset(Contents()) == multiset(old(Contents()))
                    + multiset{Record(key, v, seqno, tombstone, false, expireAt)}
      ensures refused.None? <==> var v := if tombstone then [] else val;
                key != [] && |key| <= keyMax && |v| <= valMax && old(len) < slots.Length
                    && old(arenaLen) + |key| + |v| <= arena.Length
      ensures refused == Some(EmptyKey) <==> key == []
      ensures refused == Some(KeyTooLarge) <==> |key| > keyMax && key != []
      ensures refused == Some(ValueTooLarge) ==> !tombstone && |val| > valMax
      ensures refused == Some(TableFull) ==> old(len) == slots.Length
      ensures refused == Some(ArenaFull) ==>
                arena.Length < old(arenaLen) + |key| + if tombstone then 0 else |val|
    {
      hide RankOf, Sorted, AllBelow, AllIn, MemTable.Contents;
      var v := if tombstone then [] else val;
      if key == [] { return Some(EmptyKey); }
      if |key| > keyMax { return Some(KeyTooLarge); }
      if |v| > valMax { return Some(ValueTooLarge); }
      var found, pos := FindRun(key);
      if len >= slots.Length { return Some(TableFull); }
      if arenaLen + |key| + |v| > arena.Length { return Some(ArenaFull); }
      ghost var rs := Contents();
      assert rs == rs[..pos] + rs[pos..];
      Apply(pos, Record(key, v, seqno, tombstone, false, expireAt));
      return None;
    }

    /** `insert_range_del`: both bounds are keys and the start is the lesser, and there is room; else nothing changed.
        */
    method InsertRangeDel(start: Bytes, end: Bytes, seqno: nat) returns (refused: Option<Refusal>)
      requires Valid() && seqno > maxSeq
      modifies this, slots, arena
      ensures Valid()
      ensures refused.Some? ==> Contents() == old(Contents()) && maxSeq == old(maxSeq)
      ensures refused.None? ==>
                multiset(Contents())
                == multiset(old(Contents())) + multiset{Record(start, end, seqno, true, true, 0)}
      ensures refused.None? <==>
                && 0 < |start| <= keyMax && 0 < |end| <= keyMax && RankOf(start) < RankOf(end)
                && old(len) < slots.Length && old(arenaLen) + |start| + |end| <= arena.Length
    {
      hide RankOf, Sorted, AllBelow, AllIn, MemTable.Contents;
      if start == [] { return Some(EmptyKey); }
      if |start| > keyMax { return Some(KeyTooLarge); }
      if end == [] { return Some(EmptyKey); }
      if |end| > keyMax { return Some(KeyTooLarge); }
      if RankOf(start) >= RankOf(end) { return Some(EmptyKey); }
      var found, pos := FindRun(start);
      if len >= slots.Length { return Some(TableFull); }
      if arenaLen + |start| + |end| > arena.Length { return Some(ArenaFull); }
      ghost var rs := Contents();
      assert rs == rs[..pos] + rs[pos..];
      Apply(pos, Record(start, end, seqno, true, true, 0));
      return None;
    }

    /** `get_at`: the first visible point version of the run is the newest. */
    method GetAt(key: Bytes, view: nat) returns (r: Option<Record>)
      requires Valid()
      ensures r.Some? ==> Newest(Contents(), key, view, r.value)
      ensures r.None? ==> forall q :: q in Contents() && q.key == key && !q.rangeDel ==> q.seqno > view
    {
      hide RankOf, Sorted, AllBelow, MemTable.Contents, AllIn;
      ghost var rs := Contents();
      var found, i := FindRun(key);
      if !found {
        forall j | 0 <= j < |rs| ensures rs[j].key != key {
          NotFound(rs, key, i, j);
        }
        return None;
      }
      while i < len
        invariant i <= len && Skipped(rs, key, view, i) && RunTail(rs, key, i)
      {
        var q := RecordAt(i);
        if q.key != key {
          EndOfRun(rs, key, view, i);
          return None;
        }
        if !q.rangeDel && q.seqno <= view {
          FirstVisible(rs, key, view, i);
          return Some(q);
        }
        i := i + 1;
      }
      return None;
    }

    /** `max_covering_rdel`: the cover the table's range tombstones give the key at the view, if any does. */
    method MaxCoveringRdel(key: Bytes, view: nat) returns (best: Option<nat>)
      requires Valid()
      ensures best.Some? ==> best.value == CoverSeq(RdelsOf(Contents()), RankOf(key), view)
      ensures best.None? <==> forall r :: r in RdelsOf(Contents()) ==> !VisibleCover(r, RankOf(key), view)
      ensures best.Some? ==> exists q :: q in Contents() && CoversKey(q, key) && q.seqno == best.value <= view
      ensures forall q :: q in Contents() && CoversKey(q, key) && q.seqno <= view ==>
                best.Some? && q.seqno <= best.value
    {
      hide RankOf, Sorted, AllBelow, MemTable.Contents, AllIn;
      ghost var rs := Contents();
      best := None;
      for i := 0 to len
        invariant best.Some? ==> exists q :: q in rs && CoversKey(q, key) && q.seqno == best.value <= view
        invariant forall j :: 0 <= j < i && CoversKey(rs[j], key) && rs[j].seqno <= view ==>
                    best.Some? && rs[j].seqno <= best.value
      {
        var q := RecordAt(i);
        assert q in rs;
        if CoversKey(q, key) && q.seqno <= view && (best.None? || q.seqno > best.value) {
          best := Some(q.seqno);
        }
      }
      forall n: nat | CoveredWith(rs, key, view, n) ensures best.Some? && n <= best.value {}
      BestIsCover(rs, key, view, best);
    }
  }

  /** Keys below `lo` are smaller, keys from `hi` on are larger. */
  ghost predicate Between(rs: seq<Record>, key: Bytes, lo: nat, hi: nat) {
    && lo <= hi <= |rs| && (forall j :: 0 <= j < lo ==> RankOf(rs[j].key) < RankOf(key))
    && (forall j :: hi <= j < |rs| ==> RankOf(rs[j].key) > RankOf(key))
  }

  lemma Narrow(rs: seq<Record>, key: Bytes, lo: nat, hi: nat, mid: nat)
    requires Sorted(rs) && Between(rs, key, lo, hi) && lo <= mid < hi && rs[mid].key != key
    ensures RankOf(rs[mid].key) < RankOf(key) ==> Between(rs, key, mid + 1, hi)
    ensures RankOf(rs[mid].key) >= RankOf(key) ==> Between(rs, key, lo, mid)
  {
    hide RankOf;
    RankInjectiveFor(rs[mid].key, key);
    forall j | 0 <= j < mid ensures RankOf(rs[j].key) <= RankOf(rs[mid].key) {
      assert Before(rs[j], rs[mid]);
    }
    forall j | mid < j < |rs| ensures RankOf(rs[mid].key) <= RankOf(rs[j].key) {
      assert Before(rs[mid], rs[j]);
    }
  }

  lemma FirstOfRun(rs: seq<Record>, key: Bytes, pos: nat)
    requires Sorted(rs) && pos < |rs| && rs[pos].key == key && (pos > 0 ==> rs[pos - 1].key != key)
    ensures RunStart(rs, key, pos)
  {
    hide RankOf;
    forall j | 0 <= j < pos ensures RankOf(rs[j].key) < RankOf(key) {
      assert Before(rs[pos - 1], rs[pos]);
      assert j < pos - 1 ==> Before(rs[j], rs[pos - 1]);
    }
    assert forall j :: pos < j < |rs| ==> Before(rs[pos], rs[j]);
  }

  lemma InsertBelow(rs: seq<Record>, i: nat, r: Record, maxSeq: nat)
    requires AllBelow(rs, maxSeq + 1) && r.seqno > maxSeq && i <= |rs|
    ensures AllBelow(rs, r.seqno) && AllBelow(rs[..i] + [r] + rs[i..], r.seqno + 1)
  {}

  /** No visible point version of `key` lies before `i`. */
  ghost predicate Skipped(rs: seq<Record>, key: Bytes, view: nat, i: nat) {
    i <= |rs| && forall j :: 0 <= j < i && rs[j].key == key && !rs[j].rangeDel ==> rs[j].seqno > view
  }

  ghost predicate RunTail(rs: seq<Record>, key: Bytes, i: nat) {
    i <= |rs| && forall j :: i <= j < |rs| ==> RankOf(rs[j].key) >= RankOf(key)
  }

  lemma EndOfRun(rs: seq<Record>, key: Bytes, view: nat, i: nat)
    requires Sorted(rs) && Skipped(rs, key, view, i) && RunTail(rs, key, i) && i < |rs| && rs[i].key != key
    ensures forall q :: q in rs && q.key == key && !q.rangeDel ==> q.seqno > view
  {
    hide RankOf;
    RankInjectiveFor(rs[i].key, key);
    assert forall j :: i < j < |rs| ==> Before(rs[i], rs[j]);
  }

  lemma FirstVisible(rs: seq<Record>, key: Bytes, view: nat, i: nat)
    requires Sorted(rs) && Skipped(rs, key, view, i) && i < |rs| && rs[i].key == key && !rs[i].rangeDel
             && rs[i].seqno <= view
    ensures Newest(rs, key, view, rs[i])
  {
    hide RankOf;
    assert forall j :: i < j < |rs| ==> Before(rs[i], rs[j]);
  }

  lemma RankInjectiveFor(a: Bytes, b: Bytes)
    ensures RankOf(a) == RankOf(b) ==> a == b
  {
    if RankOf(a) == RankOf(b) { RankInjective(a, b); }
  }

  lemma NotFound(rs: seq<Record>, key: Bytes, i: nat, j: nat)
    requires Sorted(rs) && RunStart(rs, key, i) && j < |rs|
    ensures rs[j].key == key ==> i < |rs| && rs[i].key == key
  {
    hide RankOf;
    if rs[j].key == key && i < j {
      assert Before(rs[i], rs[j]);
      RankInjectiveFor(rs[i].key, key);
    }
  }
}
