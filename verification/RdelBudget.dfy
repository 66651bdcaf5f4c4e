/** The dry run of a job's range-tombstone merge (src/compact.rs): what its bound on an output's blocks covers. */
module RdelBudget {
  import opened Arithmetic
  import opened Keys
  import opened Tombstones
  import opened RdelMerge
  import opened RdelWeight

  const RDEL_TRAILER := 6

  // Overlap depth.

  /** How many of the ends lie past `k`. */
  function Past(ends: seq<Rank>, k: Rank): nat {
    if ends == [] then 0 else Past(ends[..|ends| - 1], k) + if ends[|ends| - 1] > k then 1 else 0
  }

  function CoverOf(k: Rank): Rdel -> nat {
    r => if Covers(r, k) then 1 else 0
  }

  /** How many tombstones contain `k`. */
  function Depth(rs: seq<Rdel>, k: Rank): nat {
    SumOf(rs, CoverOf(k))
  }

  lemma SumLast(rs: seq<Rdel>, r: Rdel, g: Rdel -> nat)
    ensures SumOf(rs + [r], g) == SumOf(rs, g) + g(r)
  {
    SumConcat(rs, [r], g);
    assert [r][1..] == [];
  }

  lemma {:induction false} PastConcat(a: seq<Rank>, b: seq<Rank>, k: Rank)
    ensures Past(a + b, k) == Past(a, k) + Past(b, k)
    decreases |b|
  {
    if b == [] {
      assert a + b == a;
    } else {
      assert (a + b)[..|a + b| - 1] == a + b[..|b| - 1];
      PastConcat(a, b[..|b| - 1], k);
    }
  }

  lemma {:induction false} PastBound(ends: seq<Rank>, k: Rank)
    ensures Past(ends, k) <= |ends|
    decreases |ends|
  {
    if ends != [] { PastBound(ends[..|ends| - 1], k); }
  }

  /** Changing one end changes the count by that end alone. */
  lemma PastUpdate(ends: seq<Rank>, i: nat, e: Rank, k: Rank)
    requires i < |ends|
    ensures Past(ends[i := e], k) + (if ends[i] > k then 1 else 0) == Past(ends, k) + (if e > k then 1 else 0)
  {
    PastConcat(ends[..i], [ends[i]] + ends[i + 1..], k);
    PastConcat([ends[i]], ends[i + 1..], k);
    PastConcat(ends[..i], [e] + ends[i + 1..], k);
    PastConcat([e], ends[i + 1..], k);
    assert ends == ends[..i] + ([ends[i]] + ends[i + 1..]) && ends[i := e] == ends[..i] + ([e] + ends[i + 1..]);
    PastOne(ends[i], k);
    PastOne(e, k);
  }

  lemma PastOne(e: Rank, k: Rank)
    ensures Past([e], k) == if e > k then 1 else 0
  {
    assert [e][..0] == [] && Past([], k) == 0;
  }

  /** Taking one end out. */
  lemma PastRemove(ends: seq<Rank>, i: nat, k: Rank)
    requires i < |ends|
    ensures var n := |ends| - 1; Past(ends[i := ends[n]][..n], k) + (if ends[i] > k then 1 else 0) == Past(ends, k)
  {
    hide Past;
    var n := |ends| - 1;
    PastUpdate(ends, i, ends[n], k);
    PastLast(ends[i := ends[n]], k);
  }

  lemma PastLast(ends: seq<Rank>, k: Rank)
    requires ends != []
    ensures Past(ends, k) == Past(ends[..|ends| - 1], k) + if ends[|ends| - 1] > k then 1 else 0
  {}

  ghost predicate Goes(all: seq<Rank>, kept: seq<Rank>, gone: Rank) {
    multiset(kept) + multiset{gone} == multiset(all) && forall e :: e in all ==> e <= gone
  }

  /** The ends kept are all but the latest. */
  ghost predicate LatestGoes(all: seq<Rank>, kept: seq<Rank>) {
    exists gone :: Goes(all, kept, gone)
  }

  lemma LatestOf(ends: seq<Rank>, m: nat, end: Rank)
    requires m < |ends| && forall j :: 0 <= j < |ends| ==> ends[j] <= ends[m]
    ensures ends[m] > end ==> LatestGoes(ends + [end], ends[m := end])
    ensures ends[m] <= end ==> LatestGoes(ends + [end], ends)
  {
    if ends[m] > end {
      assert multiset(ends[m := end]) + multiset{ends[m]} == multiset(ends + [end]);
      assert Goes(ends + [end], ends[m := end], ends[m]);
    } else {
      assert Goes(ends + [end], ends, end);
    }
  }

  /** The open ends tracked in fixed slots, and how many there was no room for. */
  class OpenEnds {
    const capacity: nat
    var ends: seq<Rank>
    var untracked: nat

    ghost predicate Valid()
      reads this
    {
      |ends| <= capacity
    }

    /** No key from `from` on is in more of the tombstones seen than are counted here. */
    ghost predicate Bounds(seen: seq<Rank>, from: Rank)
      reads this
    {
      forall k :: k >= from ==> Past(seen, k) <= Past(ends, k) + untracked
    }

    /** Every tombstone seen is tracked: the count is exact. */
    ghost predicate Exact(seen: seq<Rank>, from: Rank)
      reads this
    {
      untracked == 0 && forall k :: k >= from ==> Past(seen, k) == Past(ends, k)
    }

    constructor (capacity: nat)
      ensures Valid() && ends == [] && untracked == 0 && this.capacity == capacity
    {
      this.capacity, ends, untracked := capacity, [], 0;
    }

    /** `expire`: forgets the ends at or below `start`. */
    method Expire(start: Rank, ghost seen: seq<Rank>)
      requires Valid() && Bounds(seen, start)
      modifies this`ends
      ensures Valid() && Bounds(seen, start) && forall e :: e in ends ==> e > start
      ensures old(Exact(seen, start)) ==> Exact(seen, start)
    {
      var i := 0;
      while i < |ends|
        invariant 0 <= i <= |ends| && Valid() && Bounds(seen, start)
        invariant old(Exact(seen, start)) ==> Exact(seen, start)
        invariant forall j :: 0 <= j < i ==> ends[j] > start
        decreases |ends| - i
      {
        if ends[i] <= start {
          var n := |ends| - 1;
          forall k | k >= start ensures Past(ends[i := ends[n]][..n], k) == Past(ends, k) {
            PastRemove(ends, i, k);
          }
          ends := ends[i := ends[n]][..n];
        } else {
          i := i + 1;
        }
      }
    }

    /** `insert`: when full, the latest of the tracked ends and the new one is counted as never ending. */
    method Insert(end: Rank, start: Rank, ghost seen: seq<Rank>)
      requires Valid() && Bounds(seen, start)
      modifies this`ends, this`untracked
      ensures Valid() && Bounds(seen + [end], start)
      ensures old(|ends|) < capacity ==> ends == old(ends) + [end] && untracked == old(untracked)
      ensures old(|ends|) < capacity && old(Exact(seen, start)) ==> Exact(seen + [end], start)
      ensures old(|ends|) == capacity ==> untracked == old(untracked) + 1 && LatestGoes(old(ends) + [end], ends)
    {
      forall k ensures Past(seen + [end], k) == Past(seen, k) + if end > k then 1 else 0 {
        PastConcat(seen, [end], k);
        PastOne(end, k);
      }
      if |ends| < capacity {
        forall k ensures Past(ends + [end], k) == Past(ends, k) + if end > k then 1 else 0 {
          PastConcat(ends, [end], k);
          PastOne(end, k);
        }
        ends := ends + [end];
        return;
      }
      untracked := untracked + 1;
      if ends == [] {
        assert Goes([] + [end], [], end);
        return;
      }
      var m := 0;
      for i := 1 to |ends|
        invariant m < |ends| && forall j :: 0 <= j < i ==> ends[j] <= ends[m]
      {
        if ends[i] > ends[m] {
          m := i;
        }
      }
      LatestOf(ends, m, end);
      if ends[m] > end {
        forall k
          ensures Past(ends[m := end], k) + (if ends[m] > k then 1 else 0)
                  == Past(ends, k) + (if end > k then 1 else 0)
        {
          PastUpdate(ends, m, end, k);
        }
        ends := ends[m := end];
      }
    }

    function Count(): nat
      reads this
    {
      |ends| + untracked
    }
  }

  function Ends(rs: seq<Rdel>): (es: seq<Rank>)
    ensures |es| == |rs| && forall i :: 0 <= i < |rs| ==> es[i] == rs[i].end
  {
    seq(|rs|, i requires 0 <= i < |rs| => rs[i].end)
  }

  /** Once every tombstone that starts at or before `k` is seen, those that contain it are those that end past it. */
  lemma {:induction false} DepthIsPast(rs: seq<Rdel>, k: Rank)
    requires forall r :: r in rs ==> r.start <= k
    ensures Depth(rs, k) == Past(Ends(rs), k)
    decreases |rs|
  {
    if rs != [] {
      var init := rs[..|rs| - 1];
      assert Ends(rs)[..|rs| - 1] == Ends(init);
      assert rs[|rs| - 1] in rs && forall r :: r in init ==> r in rs;
      DepthIsPast(init, k);
      assert rs == init + [rs[|rs| - 1]];
      SumLast(init, rs[|rs| - 1], CoverOf(k));
    }
  }

  /** What the dry run found. */
  datatype DryRun = DryRun(entries: nat, bytes: nat, depth: nat)

  function Bytes(rs: seq<Rdel>, len: Rank -> nat): nat {
    SumOf(rs, OwnOf(12, len))
  }

  /** The depth seen so far bounds every key not past the last start. */
  ghost predicate DepthSoFar(rs: seq<Rdel>, depth: nat) {
    forall k :: Depth(rs, k) <= depth
  }

  /** The dry run's numbers hold of `rs`. */
  ghost predicate Counted(run: DryRun, rs: seq<Rdel>, len: Rank -> nat) {
    run.entries == |rs| && run.bytes == Bytes(rs, len) && forall k :: Depth(rs, k) <= run.depth
  }

  /** No range is empty, and no key is in more of them than there are slots. */
  ghost predicate Trackable(rs: seq<Rdel>, capacity: nat) {
    (forall r :: r in rs ==> r.start < r.end) && forall k :: Depth(rs, k) <= capacity
  }

  /** Some key is in as many tombstones as the depth says. */
  ghost predicate Attained(rs: seq<Rdel>, depth: nat) {
    depth == 0 || exists k :: Depth(rs, k) >= depth
  }

  /** The ends open after the first `i` entries, tracked as far as there is room. */
  ghost predicate Follows(open: OpenEnds, merged: seq<Rdel>, i: nat)
    requires i <= |merged|
    reads open
  {
    && open.Valid()
    && (i == 0 ==> open.ends == [] && open.untracked == 0)
    && (i > 0 ==> open.Bounds(Ends(merged[..i]), merged[i - 1].start))
    && (i > 0 && Trackable(merged, open.capacity) ==> open.Exact(Ends(merged[..i]), merged[i - 1].start))
  }

  /** The count of the first `i` entries. */
  ghost predicate CountedTo(merged: seq<Rdel>, i: nat, run: DryRun, len: Rank -> nat, capacity: nat)
    requires i <= |merged|
  {
    && run.entries == i && run.bytes == Bytes(merged[..i], len) && DepthSoFar(merged[..i], run.depth)
    && (Trackable(merged, capacity) ==> Attained(merged[..i], run.depth))
  }

  /** `count_rdel_merge` over the merged stream: no key is in more of its tombstones than the depth found; some key is
      in as many, as long as there are slots for all that overlap. */
  method CountMerge(merged: seq<Rdel>, len: Rank -> nat, capacity: nat) returns (run: DryRun)
    requires StartSorted(merged)
    ensures Counted(run, merged, len)
    ensures Trackable(merged, capacity) ==> Attained(merged, run.depth)
  {
    hide Trackable, Attained;
    run := DryRun(0, 0, 0);
    var open := new OpenEnds(capacity);
    assert merged[..0] == [];
    NothingCounted(merged, len, capacity);
    for i := 0 to |merged|
      invariant fresh(open) && open.capacity == capacity && Follows(open, merged, i)
      invariant CountedTo(merged, i, run, len, capacity)
    {
      run := CountOne(open, merged, i, run, len);
    }
    assert merged[..|merged|] == merged;
  }

  lemma NothingCounted(merged: seq<Rdel>, len: Rank -> nat, capacity: nat)
    ensures CountedTo(merged, 0, DryRun(0, 0, 0), len, capacity)
  {
    assert merged[..0] == [];
  }

  /** The next entry: those it outlives are forgotten, it is opened, and counted. */
  method CountOne(open: OpenEnds, merged: seq<Rdel>, i: nat, was: DryRun, len: Rank -> nat) returns (run: DryRun)
    requires StartSorted(merged) && i < |merged| && Follows(open, merged, i)
    requires CountedTo(merged, i, was, len, open.capacity)
    modifies open
    ensures Follows(open, merged, i + 1) && CountedTo(merged, i + 1, run, len, open.capacity)
  {
    hide Trackable, Attained, Depth, DepthSoFar;
    var e := merged[i];
    ghost var seen := Ends(merged[..i]);
    Later(merged, i);
    open.Expire(e.start, seen);
    if Trackable(merged, open.capacity) { RoomLeft(merged, i, open.ends, open.capacity); }
    ghost var kept := open.ends;
    open.Insert(e.end, e.start, seen);
    assert Ends(merged[..i + 1]) == seen + [e.end] && merged[..i + 1] == merged[..i] + [e];
    SumLast(merged[..i], e, OwnOf(12, len));
    run := DryRun(was.entries + 1, was.bytes + (12 + len(e.start) + len(e.end)),
                  if open.Count() > was.depth then open.Count() else was.depth);
    DepthStep(merged, i, open.ends, open.untracked, was.depth, run.depth);
    if Trackable(merged, open.capacity) {
      AttainedStep(merged, i, kept, was.depth, run.depth, open.capacity);
    }
  }

  /** What held from the last start on holds from the next. */
  lemma Later(merged: seq<Rdel>, i: nat)
    requires StartSorted(merged) && i < |merged|
    ensures i > 0 ==> merged[i - 1].start <= merged[i].start
    ensures i == 0 ==> Ends(merged[..i]) == []
  {}

  /** What was opened up to entry `i` and contains its start. */
  lemma OpenAt(merged: seq<Rdel>, i: nat)
    requires StartSorted(merged) && i < |merged| && merged[i].start < merged[i].end
    ensures Depth(merged[..i], merged[i].start) == Past(Ends(merged[..i]), merged[i].start)
    ensures Depth(merged[..i + 1], merged[i].start) == Depth(merged[..i], merged[i].start) + 1
    ensures Depth(merged[..i + 1], merged[i].start) <= Depth(merged, merged[i].start)
  {
    var k := merged[i].start;
    forall r | r in merged[..i] ensures r.start <= k {
      var j :| 0 <= j < i && merged[j] == r;
    }
    DepthIsPast(merged[..i], k);
    assert merged[..i + 1] == merged[..i] + [merged[i]];
    SumLast(merged[..i], merged[i], CoverOf(k));
    SumConcat(merged[..i + 1], merged[i + 1..], CoverOf(k));
    assert merged == merged[..i + 1] + merged[i + 1..];
  }

  lemma {:induction false} AllPast(ends: seq<Rank>, k: Rank)
    requires forall i :: 0 <= i < |ends| ==> ends[i] > k
    ensures Past(ends, k) == |ends|
    decreases |ends|
  {
    if ends != [] { AllPast(ends[..|ends| - 1], k); }
  }

  lemma RoomLeft(merged: seq<Rdel>, i: nat, ends: seq<Rank>, capacity: nat)
    requires StartSorted(merged) && i < |merged| && Trackable(merged, capacity)
    requires (forall e :: e in ends ==> e > merged[i].start)
             && Past(Ends(merged[..i]), merged[i].start) == Past(ends, merged[i].start)
    ensures |ends| < capacity
  {
    hide Depth, Past;
    OpenAt(merged, i);
    forall j | 0 <= j < |ends| ensures ends[j] > merged[i].start { assert ends[j] in ends; }
    AllPast(ends, merged[i].start);
    assert Depth(merged, merged[i].start) <= capacity;
  }

  /** With `kept` the open ends before, the depth after entry `i` is that of its start or an earlier one. */
  lemma AttainedStep(merged: seq<Rdel>, i: nat, kept: seq<Rank>, before: nat, after: nat, capacity: nat)
    requires StartSorted(merged) && i < |merged| && Trackable(merged, capacity) && Attained(merged[..i], before)
    requires (forall e :: e in kept ==> e > merged[i].start)
             && Past(Ends(merged[..i]), merged[i].start) == Past(kept, merged[i].start)
    requires after == if |kept| + 1 > before then |kept| + 1 else before
    ensures Attained(merged[..i + 1], after)
  {
    hide Past;
    var start := merged[i].start;
    OpenAt(merged, i);
    forall j | 0 <= j < |kept| ensures kept[j] > start { assert kept[j] in kept; }
    AllPast(kept, start);
    if after == before && before > 0 {
      var k :| Depth(merged[..i], k) >= before;
      assert merged[..i + 1] == merged[..i] + [merged[i]];
      SumLast(merged[..i], merged[i], CoverOf(k));
      assert Depth(merged[..i + 1], k) >= before;
    }
  }

  lemma DepthStep(merged: seq<Rdel>, i: nat, ends: seq<Rank>, untracked: nat, before: nat, after: nat)
    requires StartSorted(merged) && i < |merged| && DepthSoFar(merged[..i], before) && before <= after
             && |ends| + untracked <= after
    requires forall k :: k >= merged[i].start ==> Past(Ends(merged[..i + 1]), k) <= Past(ends, k) + untracked
    ensures DepthSoFar(merged[..i + 1], after)
  {
    var rs := merged[..i + 1];
    forall k ensures Depth(rs, k) <= after {
      if k >= merged[i].start {
        forall r | r in rs ensures r.start <= k {
          var j :| 0 <= j < |rs| && rs[j] == r;
        }
        DepthIsPast(rs, k);
        PastBound(ends, k);
      } else {
        assert rs == merged[..i] + [merged[i]];
        SumLast(merged[..i], merged[i], CoverOf(k));
        assert Depth(merged[..i], k) <= before && !Covers(merged[i], k);
      }
    }
  }

  // Packing.

  function Total(sizes: seq<nat>): nat {
    if sizes == [] then 0 else Total(sizes[..|sizes| - 1]) + sizes[|sizes| - 1]
  }

  /** The range-tombstone writer: blocks sealed, bytes and entries in the one in progress. */
  datatype Packer = Packer(blocks: nat, payload: nat, count: nat)

  function Pack(room: nat, p: Packer, size: nat): Packer {
    if p.payload + size > room then Packer(p.blocks + 1, size, 1) else Packer(p.blocks, p.payload + size, p.count + 1)
  }

  function PackAll(room: nat, sizes: seq<nat>): Packer {
    if sizes == [] then Packer(0, 0, 0) else Pack(room, PackAll(room, sizes[..|sizes| - 1]), sizes[|sizes| - 1])
  }

  /** `finish`: the blocks of the section. */
  function Used(p: Packer): nat {
    p.blocks + if p.count > 0 then 1 else 0
  }

  /** `packed_blocks_bound`, without a limit of entries per block. */
  function PackedBound(total: nat, n: nat, emax: nat, room: nat): (bound: nat)
    ensures bound <= n && (room > emax ==> bound <= total / (room - emax + 1) + 1)
  {
    if n == 0 then 0
    else
      var bound := (if room > emax then total / (room - emax + 1) else n) + 1;
      if bound < n then bound else n
  }

  /** `rdel_blocks_bound`; nothing when not even one entry fits a block. */
  function EntriesBound(n: nat, perBlock: nat): nat
    requires perBlock > 0
  {
    (n + perBlock - 1) / perBlock
  }

  /** Every sealed block was nearly full, and held at least as many entries as always fit. */
  lemma {:induction false} PackInvariant(room: nat, sizes: seq<nat>, emax: nat, perBlock: nat)
    requires 0 < emax <= room && (forall x :: x in sizes ==> x <= emax) && perBlock * emax <= room
    ensures var p := PackAll(room, sizes);
            && p.blocks * (room - emax + 1) + p.payload <= Total(sizes)
            && p.blocks * perBlock + p.count <= |sizes| && p.payload <= p.count * emax && p.payload <= room
            && p.blocks + p.count <= |sizes| && (sizes != [] ==> p.count > 0)
    decreases |sizes|
  {
    if sizes != [] {
      var init, x := sizes[..|sizes| - 1], sizes[|sizes| - 1];
      assert x in sizes && forall y :: y in init ==> y in sizes;
      PackInvariant(room, init, emax, perBlock);
      PackStep(room, PackAll(room, init), x, emax, perBlock);
    }
  }

  lemma PackStep(room: nat, p: Packer, x: nat, emax: nat, perBlock: nat)
    requires 0 < emax <= room && x <= emax && perBlock * emax <= room && p.payload <= p.count * emax
             && p.payload <= room
    ensures var q := Pack(room, p, x);
            && q.payload <= q.count * emax && q.payload <= room && q.count > 0
            && q.blocks * (room - emax + 1) + q.payload <= p.blocks * (room - emax + 1) + p.payload + x
            && q.blocks * perBlock + q.count <= p.blocks * perBlock + p.count + 1
            && q.blocks + q.count <= p.blocks + p.count + 1
  {
    Unfold(p.count + 1, emax);
    if p.payload + x > room {
      Unfold(p.blocks + 1, room - emax + 1);
      Unfold(p.blocks + 1, perBlock);
      if p.count < perBlock {
        MulMonotone(p.count + 1, perBlock, emax);
      }
      assert p.count >= perBlock;
      assert p.count > 0;
    }
  }

  /** Greedy packing stays within both bounds. */
  lemma PackedWithin(room: nat, sizes: seq<nat>, emax: nat, perBlock: nat)
    requires 0 < emax <= room && (forall x :: x in sizes ==> x <= emax) && 0 < perBlock && perBlock * emax <= room
    ensures Used(PackAll(room, sizes)) <= PackedBound(Total(sizes), |sizes|, emax, room)
    ensures Used(PackAll(room, sizes)) <= EntriesBound(|sizes|, perBlock)
  {
    PackInvariant(room, sizes, emax, perBlock);
    var p := PackAll(room, sizes);
    DivAtLeast(Total(sizes), room - emax + 1, p.blocks);
    if sizes != [] {
      Unfold(p.blocks + 1, perBlock);
      DivAtLeast(|sizes| + perBlock - 1, perBlock, p.blocks + 1);
    }
  }

  // An output's share.

  ghost predicate ShortKeys(len: Rank -> nat, keyMax: nat) {
    forall k :: len(k) <= keyMax
  }

  function Cuts(rs: seq<Rdel>, lo: Rank, to: Option<Rank>): nat {
    Depth(rs, lo) + if to.Some? then Depth(rs, to.value) else 0
  }

  /** Clipping lengthens a piece only at a bound that its tombstone contains. */
  lemma {:induction false} ShareBytes(rs: seq<Rdel>, lo: Rank, to: Option<Rank>, len: Rank -> nat, keyMax: nat)
    requires ShortKeys(len, keyMax)
    ensures Weight(rs, lo, to, 12, len) <= Bytes(rs, len) + Cuts(rs, lo, to) * keyMax
  {
    if rs != [] {
      var r := rs[0];
      ShareBytes(rs[1..], lo, to, len, keyMax);
      var a := if Covers(r, lo) then 1 else 0;
      var b := if to.Some? && Covers(r, to.value) then 1 else 0;
      assert Cuts(rs, lo, to) == Cuts(rs[1..], lo, to) + a + b;
      hide Cuts, Bytes, Weight;
      Distribute3(Cuts(rs[1..], lo, to), a, b, keyMax);
      PieceBytes(r, lo, to, len, keyMax, a, b);
      WeightStep(rs, lo, to, len);
    }
  }

  lemma WeightStep(rs: seq<Rdel>, lo: Rank, to: Option<Rank>, len: Rank -> nat)
    requires rs != []
    ensures Weight(rs, lo, to, 12, len) == PieceWeight(rs[0], lo, to, 12, len) + Weight(rs[1..], lo, to, 12, len)
    ensures Bytes(rs, len) == 12 + len(rs[0].start) + len(rs[0].end) + Bytes(rs[1..], len)
  {}

  lemma PieceBytes(r: Rdel, lo: Rank, to: Option<Rank>, len: Rank -> nat, keyMax: nat, a: nat, b: nat)
    requires ShortKeys(len, keyMax) && a == (if Covers(r, lo) then 1 else 0)
    requires b == if to.Some? && Covers(r, to.value) then 1 else 0
    ensures PieceWeight(r, lo, to, 12, len) <= 12 + len(r.start) + len(r.end) + a * keyMax + b * keyMax
  {
    assert a * keyMax == (if a == 1 then keyMax else 0) && b * keyMax == (if b == 1 then keyMax else 0);
    if Reaches(r, lo, to) {
      assert len(Max(r.start, lo)) <= len(r.start) + a * keyMax;
      assert len(ClipEnd(r, to)) <= len(r.end) + b * keyMax;
    }
  }

  function Zero(k: Rank): nat {
    0
  }

  /** An output takes at most one piece of each tombstone. */
  lemma ShareCount(rs: seq<Rdel>, pieces: seq<Rdel>, lo: Rank, to: Option<Rank>)
    requires Light(rs, pieces, lo, to)
    ensures |pieces| <= |rs|
  {
    assert SumOf(pieces, OwnOf(1, Zero)) <= Weight(rs, lo, to, 1, Zero);
    SumMonotone(rs, PieceOf(lo, to, 1, Zero), One);
    SumMonotone(pieces, One, OwnOf(1, Zero));
    SumIsCount(rs);
    SumIsCount(pieces);
  }

  /** The encoded sizes of the pieces written. */
  function PieceSizes(pieces: seq<Rdel>, len: Rank -> nat): (zs: seq<nat>)
    ensures |zs| == |pieces| && forall i :: 0 <= i < |zs| ==> zs[i] == 12 + len(pieces[i].start) + len(pieces[i].end)
  {
    seq(|pieces|, i requires 0 <= i < |pieces| => 12 + len(pieces[i].start) + len(pieces[i].end))
  }

  lemma {:induction false} SizesTotal(pieces: seq<Rdel>, len: Rank -> nat)
    ensures Total(PieceSizes(pieces, len)) == Bytes(pieces, len)
    decreases |pieces|
  {
    if pieces != [] {
      var init, p := pieces[..|pieces| - 1], pieces[|pieces| - 1];
      SizesTotal(init, len);
      assert pieces == init + [p] && PieceSizes(pieces, len)[..|init|] == PieceSizes(init, len);
      SumLast(init, p, OwnOf(12, len));
    }
  }

  /** `blocks_bound`: no more blocks than the entries alone can need, nor than their bytes can fill, nor than there are
      entries. */
  function BlocksBound(run: DryRun, block: nat, keyMax: nat): (bound: nat)
    requires block >= RDEL_TRAILER + 12 + 2 * keyMax
    ensures bound <= EntriesBound(run.entries, PerBlock(block - RDEL_TRAILER, 12 + 2 * keyMax)) && bound <= run.entries
    ensures var spare := block - RDEL_TRAILER - (12 + 2 * keyMax);
            spare > 0 ==> bound <= (run.bytes + run.depth * 2 * keyMax) / (spare + 1) + 1
  {
    var room, emax := block - RDEL_TRAILER, 12 + 2 * keyMax;
    var byEntries := if run.entries == 0 then 0 else EntriesBound(run.entries, PerBlock(room, emax));
    var byBytes := PackedBound(run.bytes + run.depth * 2 * keyMax, run.entries, emax, room);
    if byEntries < byBytes then byEntries else byBytes
  }

  function PerBlock(room: nat, emax: nat): (n: nat)
    requires 0 < emax <= room
    ensures n > 0 && n * emax <= room
  {
    var n := room / emax;
    assert room == emax * n + room % emax;
    DivAtLeast(room, emax, 1);
    n
  }

  /** The blocks the greedy writer needs for the pieces. */
  function BlocksFor(pieces: seq<Rdel>, len: Rank -> nat, block: nat): nat
    requires block >= RDEL_TRAILER
  {
    Used(PackAll(block - RDEL_TRAILER, PieceSizes(pieces, len)))
  }

  /** A count of tombstones bounds what any output takes of them, whatever its range. */
  lemma CountCovers(rs: seq<Rdel>, run: DryRun, pieces: seq<Rdel>, lo: Rank, to: Option<Rank>, len: Rank -> nat,
                    block: nat, keyMax: nat)
    requires ShortKeys(len, keyMax) && block >= RDEL_TRAILER + 12 + 2 * keyMax
    requires Counted(run, rs, len) && Light(rs, pieces, lo, to)
    ensures BlocksFor(pieces, len, block) <= BlocksBound(run, block, keyMax)
  {
    var room, emax := block - RDEL_TRAILER, 12 + 2 * keyMax;
    var zs := PieceSizes(pieces, len);
    assert forall x :: x in zs ==> x <= emax;
    assert Bytes(pieces, len) <= Weight(rs, lo, to, 12, len);
    assert Cuts(rs, lo, to) <= run.depth * 2;
    hide PackAll, Used, PackedBound, EntriesBound, Bytes, Total, PieceSizes, PerBlock, Weight, Light, Cuts;
    SizesTotal(pieces, len);
    ShareBytes(rs, lo, to, len, keyMax);
    ShareCount(rs, pieces, lo, to);
    MulMonotone(Cuts(rs, lo, to), run.depth * 2, keyMax);
    PackedWithin(room, zs, emax, PerBlock(room, emax));
    MoreBytes(Total(zs), run.bytes + run.depth * 2 * keyMax, |zs|, run.entries, emax, room);
    MoreEntries(|zs|, run.entries, PerBlock(room, emax));
  }

  /** The bounds only grow with what they are given. */
  lemma MoreBytes(total: nat, more: nat, n: nat, entries: nat, emax: nat, room: nat)
    requires total <= more && n <= entries && emax <= room
    ensures PackedBound(total, n, emax, room) <= PackedBound(more, entries, emax, room)
  {
    if room > emax { DivMonotone(total, more, room - emax + 1); }
  }

  lemma MoreEntries(n: nat, entries: nat, perBlock: nat)
    requires n <= entries && perBlock > 0
    ensures EntriesBound(n, perBlock) <= EntriesBound(entries, perBlock)
    ensures EntriesBound(0, perBlock) == 0
  {
    DivMonotone(n + perBlock - 1, entries + perBlock - 1, perBlock);
    assert (perBlock - 1) / perBlock == 0;
  }
}
