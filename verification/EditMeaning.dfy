/** What a manifest edit does, table by table and field by field (`ManifestEdit` and `stage_*` of src/manifest.rs),
    and that the staged view and the applied manifest do it. */
module EditMeaning {
  import opened Keys
  import opened StagedEdit

  /** A table the edit does not remove: narrowing raises its first key, stamping sets its origin, the rest stays. */
  predicate LeavesAs(e: Edit, pos: nat, was: Ref, now: Ref) {
    && now.id == was.id && now.firstBlock == was.firstBlock && now.blockCount == was.blockCount
    && now.lastKey == was.lastKey && now.maxSeq == was.maxSeq && now.minSeq == was.minSeq
    && now.entryCount == was.entryCount && now.rdelBlocks == was.rdelBlocks
    && now.firstKey == (if pos in e.narrowed then e.narrowTo else was.firstKey)
    && (if e.stamped.Some? && e.stamped.value.id == was.id
        then now.nodeId == e.stamped.value.nodeId && now.sealWall == e.stamped.value.sealWall
        else now.nodeId == was.nodeId && now.sealWall == was.sealWall)
  }

  /** The pool positions of `[lo, hi)` that are not removed. */
  function Places(lo: nat, hi: nat, removed: set<nat>): seq<nat>
    decreases hi - lo
  {
    if lo >= hi then [] else (if lo in removed then [] else [lo]) + Places(lo + 1, hi, removed)
  }

  ghost predicate Ascends(places: seq<nat>) {
    forall i, j :: 0 <= i < j < |places| ==> places[i] < places[j]
  }

  /** Each of them once, ascending. */
  lemma {:induction false} PlacesExact(lo: nat, hi: nat, removed: set<nat>)
    ensures forall q :: q in Places(lo, hi, removed) <==> lo <= q < hi && q !in removed
    ensures Ascends(Places(lo, hi, removed))
    decreases hi - lo
  {
    hide Ascends;
    if lo < hi {
      var rest := Places(lo + 1, hi, removed);
      PlacesExact(lo + 1, hi, removed);
      AscendsCons(lo, rest);
      assert Places(lo, hi, removed) == if lo in removed then rest else [lo] + rest;
    } else {
      NoneAscends();
    }
  }

  lemma NoneAscends()
    ensures Ascends([])
  {}

  lemma AscendsCons(x: nat, rest: seq<nat>)
    requires Ascends(rest) && forall q :: q in rest ==> x < q
    ensures Ascends([x] + rest)
  {
    forall i, j | 0 <= i < j < |[x] + rest| ensures ([x] + rest)[i] < ([x] + rest)[j] {
      assert ([x] + rest)[j] == rest[j - 1] && rest[j - 1] in rest;
    }
  }

  /** The tables at those places, in their order. */
  ghost predicate KeptAs(flat: seq<Ref>, e: Edit, places: seq<nat>, level: seq<Ref>) {
    && |level| == |places|
    && forall i :: 0 <= i < |places| ==> places[i] < |flat| && LeavesAs(e, places[i], flat[places[i]], level[i])
  }

  /** The added table stands at `at`: at the end of level 0, in a deeper level behind exactly those that start below. */
  ghost predicate AddedAt(level: seq<Ref>, at: nat, a: Ref, deep: bool) {
    && at < |level| && level[at] == a
    && (deep ==> forall i :: 0 <= i < at ==> Order(level[i]) < Order(a))
    && (deep && at + 1 < |level| ==> Order(level[at + 1]) >= Order(a))
    && (!deep ==> at == |level| - 1)
  }

  function Without(level: seq<Ref>, at: nat): seq<Ref>
    requires at < |level|
  {
    level[..at] + level[at + 1..]
  }

  /** Level `li` as the edit means to leave it. */
  ghost predicate LevelMeans(p: Pool, e: Edit, li: nat, level: seq<Ref>)
    requires Packed(p) && li < |p.counts|
  {
    var places := Places(Start(p, li), Start(p, li) + p.counts[li], e.removed);
    if e.added.Some? && e.added.value.level == li
    then exists at :: AddedAt(level, at, e.added.value.ref, li > 0) && KeptAs(p.flat, e, places, Without(level, at))
    else KeptAs(p.flat, e, places, level)
  }

  /** `kept` are the tables of `rs`, which starts at pool position `base`, at the places. */
  ghost predicate Picked(rs: seq<Ref>, base: nat, places: seq<nat>, kept: seq<Ref>) {
    && |kept| == |places|
    && forall i :: 0 <= i < |places| ==> base <= places[i] < base + |rs| && kept[i] == rs[places[i] - base]
  }

  lemma PickedLater(rs: seq<Ref>, base: nat, places: seq<nat>, kept: seq<Ref>)
    requires rs != [] && Picked(rs[1..], base + 1, places, kept)
    ensures Picked(rs, base, places, kept) && Picked(rs, base, [base] + places, [rs[0]] + kept)
  {
    forall i | 0 <= i < |places| ensures base <= places[i] < base + |rs| && kept[i] == rs[places[i] - base] {
      assert rs[1..][places[i] - (base + 1)] == rs[places[i] - base];
    }
  }

  lemma NonePicked(rs: seq<Ref>, base: nat)
    ensures Picked(rs, base, [], [])
  {}

  lemma {:induction false} KeepPlaces(rs: seq<Ref>, base: nat, removed: set<nat>)
    ensures Picked(rs, base, Places(base, base + |rs|, removed), Keep(rs, base, removed))
  {
    hide Picked;
    if rs == [] {
      NonePicked(rs, base);
    } else {
      KeepPlaces(rs[1..], base + 1, removed);
      var places, kept := Places(base + 1, base + |rs|, removed), Keep(rs[1..], base + 1, removed);
      PickedLater(rs, base, places, kept);
      assert Places(base, base + |rs|, removed) == if base in removed then places else [base] + places;
      assert Keep(rs, base, removed) == if base in removed then kept else [rs[0]] + kept;
    }
  }

  lemma TouchedLeaves(e: Edit, pos: nat, r: Ref)
    ensures LeavesAs(e, pos, r, Touched(e, pos, r))
  {}

  lemma {:induction false} InsertedAt(rs: seq<Ref>, a: Ref) returns (at: nat)
    ensures AddedAt(Insert(rs, a), at, a, true) && Without(Insert(rs, a), at) == rs
  {
    hide Order;
    if rs == [] || Order(rs[0]) >= Order(a) {
      at := 0;
    } else {
      var below := InsertedAt(rs[1..], a);
      var tail := Insert(rs[1..], a);
      at := below + 1;
      assert Insert(rs, a) == [rs[0]] + tail;
      assert Without(Insert(rs, a), at) == [rs[0]] + Without(tail, below);
    }
  }

  /** Every level is left as the edit means it: its tables that are not removed, in their order and touched as asked,
      and the added one in its place. */
  lemma EditLeaves(p: Pool, e: Edit, li: nat)
    requires Packed(p) && li < |p.counts|
    ensures LevelMeans(p, e, li, LevelAfter(p, e, li))
  {
    hide Order, Keep, Insert, Places, Level, Sum, LeavesAs;
    var s := Start(p, li);
    var kept := Keep(TouchAll(e, Level(p, li), s), s, e.removed);
    KeptMeans(p, e, li);
    if e.added.Some? && e.added.value.level == li {
      var a := e.added.value.ref;
      if li == 0 {
        assert Without(kept + [a], |kept|) == kept && AddedAt(kept + [a], |kept|, a, false);
      } else {
        var at := InsertedAt(kept, a);
      }
    }
  }

  lemma KeptMeans(p: Pool, e: Edit, li: nat)
    requires Packed(p) && li < |p.counts|
    ensures KeptAs(p.flat, e, Places(Start(p, li), Start(p, li) + p.counts[li], e.removed),
                   Keep(TouchAll(e, Level(p, li), Start(p, li)), Start(p, li), e.removed))
  {
    hide Order, Touched, Keep, Sum, Places;
    SumSplit(p.counts, li);
    var s, n := Start(p, li), p.counts[li];
    var all := TouchAll(e, Level(p, li), s);
    KeepPlaces(all, s, e.removed);
    var places, kept := Places(s, s + n, e.removed), Keep(all, s, e.removed);
    forall i | 0 <= i < |places| ensures places[i] < |p.flat| && LeavesAs(e, places[i], p.flat[places[i]], kept[i]) {
      var q := places[i];
      assert s <= q < s + n && kept[i] == all[q - s] == Touched(e, q, Level(p, li)[q - s]);
      TouchedLeaves(e, q, p.flat[q]);
    }
  }
}
