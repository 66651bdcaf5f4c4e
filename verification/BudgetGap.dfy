/** Where a dry run that coalesced or dropped a tombstone budgets too little: for any numbers of tombstones read and
    merged there is such a job, so that only the two being equal can vouch for the budget. */
module BudgetGap {
  import opened Keys
  import opened Tombstones
  import opened RdelMerge
  import opened RdelWeight
  import opened Coverage
  import opened Visibility
  import opened Retention
  import opened Merging
  import opened JobInputs
  import opened JobOutputs
  import opened CompactionJob
  import opened RdelBudget
  import opened JobBudget

  // Merging two heads.

  function Two(xs: seq<Rdel>, ts: seq<Rdel>, pending: Option<Rdel>, last: Option<Rdel>): State {
    State([xs, ts], pending, last)
  }

  lemma MinOfTwo(xs: seq<Rdel>, ts: seq<Rdel>)
    ensures MinHead([xs, ts], 2) == if xs == [] && ts == [] then -1
                                    else if xs != [] && (ts == [] || !EntryLess(ts[0], xs[0])) then 0
                                    else 1
  {
    assert MinHead([xs, ts], 0) == -1;
    assert MinHead([xs, ts], 1) == if xs == [] then -1 else 0;
  }

  lemma DrainFirst(rule: Rule, xs: seq<Rdel>, ts: seq<Rdel>, p: Option<Rdel>, last: Option<Rdel>)
    requires xs != [] && (ts == [] || !EntryLess(ts[0], xs[0])) && !Coalesces(p, xs[0])
    ensures var z := if p.Some? then p else last;
            Drain(rule, Two(xs, ts, p, last)) == AsSeq(p) + Drain(rule, Two(xs[1..], ts, Take(rule, z, xs[0]), z))
  {
    MinOfTwo(xs, ts);
    assert [xs, ts][0 := xs[1..]] == [xs[1..], ts];
  }

  lemma DrainSecond(rule: Rule, xs: seq<Rdel>, ts: seq<Rdel>, p: Option<Rdel>, last: Option<Rdel>)
    requires ts != [] && (xs == [] || EntryLess(ts[0], xs[0])) && !Coalesces(p, ts[0])
    ensures var z := if p.Some? then p else last;
            Drain(rule, Two(xs, ts, p, last)) == AsSeq(p) + Drain(rule, Two(xs, ts[1..], Take(rule, z, ts[0]), z))
  {
    MinOfTwo(xs, ts);
    assert [xs, ts][1 := ts[1..]] == [xs, ts[1..]];
  }

  lemma DrainNone(rule: Rule, p: Option<Rdel>, last: Option<Rdel>)
    ensures Drain(rule, Two([], [], p, last)) == AsSeq(p)
  {
    MinOfTwo([], []);
  }

  /** Tombstones of one range, all older than `z` and visible to every reader. */
  ghost predicate Behind(rule: Rule, z: Rdel, ts: seq<Rdel>) {
    && rule.bottommost && z.seqno <= rule.oldest
    && forall t :: t in ts ==> t.start == z.start && t.end == z.end && t.seqno < z.seqno
  }

  /** They are all dropped behind it. */
  lemma {:induction false} DropRun(rule: Rule, xs: seq<Rdel>, ts: seq<Rdel>, p: Option<Rdel>, last: Option<Rdel>,
                                   z: Rdel)
    requires ts != [] && Behind(rule, z, ts) && Some(z) == (if p.Some? then p else last)
    requires xs == [] || z.start < xs[0].start
    ensures Drain(rule, Two(xs, ts, p, last)) == AsSeq(p) + Drain(rule, Two(xs, [], None, Some(z)))
    decreases |ts|
  {
    hide Drain;
    assert ts[0] in ts;
    DrainSecond(rule, xs, ts, p, last);
    if |ts| > 1 {
      assert forall t :: t in ts[1..] ==> t in ts;
      DropRun(rule, xs, ts[1..], None, Some(z), z);
    } else {
      assert ts[1..] == [];
    }
  }

  /** Newer tombstones of different sequences. */
  ghost predicate Fresh(rule: Rule, xs: seq<Rdel>) {
    && (forall x :: x in xs ==> x.seqno > rule.oldest)
    && forall i, j :: 0 <= i < j < |xs| ==> xs[i].seqno > xs[j].seqno
  }

  /** They are all emitted. */
  lemma {:induction false} EmitRun(rule: Rule, xs: seq<Rdel>, ts: seq<Rdel>, p: Option<Rdel>, last: Option<Rdel>)
    returns (z: Option<Rdel>)
    requires xs != [] && Fresh(rule, xs) && (p.Some? ==> p.value.seqno != xs[0].seqno)
    requires ts == [] || forall x :: x in xs ==> !EntryLess(ts[0], x)
    ensures |Drain(rule, Two(xs, ts, p, last))|
            == |AsSeq(p)| + |xs| - 1 + |Drain(rule, Two([], ts, Some(xs[|xs| - 1]), z))|
    decreases |xs|
  {
    hide Drain;
    assert xs[0] in xs;
    DrainFirst(rule, xs, ts, p, last);
    z := if p.Some? then p else last;
    if |xs| > 1 {
      assert forall x :: x in xs[1..] ==> x in xs;
      z := EmitRun(rule, xs[1..], ts, Some(xs[0]), z);
    } else {
      assert xs[1..] == [];
    }
  }

  /** One newer tombstone that does not shadow them, then tombstones of one range: two are left. */
  lemma TwoLeft(rule: Rule, ts: seq<Rdel>, x: Rdel, last: Option<Rdel>)
    requires ts != [] && x.seqno != ts[0].seqno && !Shadowed(rule, Some(x), ts[0]) && Behind(rule, ts[0], ts[1..])
    ensures |Drain(rule, Two([], ts, Some(x), last))| == 2
  {
    hide Drain;
    DrainSecond(rule, [], ts, Some(x), last);
    if |ts| > 1 {
      DropRun(rule, [], ts[1..], Some(ts[0]), Some(x), ts[0]);
      DrainNone(rule, None, Some(ts[0]));
    } else {
      assert ts[1..] == [];
      DrainNone(rule, Some(ts[0]), Some(x));
    }
  }

  // The job.

  function KeyAt(x: nat): Rank
    requires x < 256
  {
    RankOf([x as Byte])
  }

  lemma KeyOrder(x: nat, y: nat)
    requires x < y < 256
    ensures KeyAt(x) < KeyAt(y)
  {
    assert [x as Byte][1..] == [] && [y as Byte][1..] == [] && RankOf([]) == 0.0;
    assert RankOf([x as Byte]) == ((x + 1) as real + 0.0) / 257.0
           && RankOf([y as Byte]) == ((y + 1) as real + 0.0) / 257.0;
  }

  /** Tombstones `KeyAt(3) .. KeyAt(9)`, newest first, past sequence `above`. */
  function Extras(count: nat, above: nat): (es: seq<Rdel>)
    ensures |es| == count
    ensures forall i :: 0 <= i < count ==> es[i] == Rdel(KeyAt(3), KeyAt(9), above + count - i)
  {
    seq(count, i requires 0 <= i < count => Rdel(KeyAt(3), KeyAt(9), above + count - i))
  }

  /** Tombstones `start .. KeyAt(9)`, newest first, from sequence `count` down. */
  function Olds(count: nat, start: Rank): (es: seq<Rdel>)
    ensures |es| == count && forall i :: 0 <= i < count ==> es[i] == Rdel(start, KeyAt(9), count - i)
  {
    seq(count, i requires 0 <= i < count => Rdel(start, KeyAt(9), count - i))
  }

  /** Covers the target's tombstones with one as newer, and reaches past the cut with others. */
  function SourceTable(n: nat, m: nat): Table
    requires n > 0
  {
    Table(KeyAt(1), KeyAt(9), [Entry(KeyAt(2), m + n + 1, false, [], 0), Entry(KeyAt(5), m + n + 2, false, [], 0)],
          [Rdel(KeyAt(1), KeyAt(9), m + 1)] + Extras(n - 1, m + 1))
  }

  function TargetTable(m: nat): Table {
    Table(KeyAt(1), KeyAt(9), [], Olds(m, KeyAt(1)))
  }

  function GapJob(m: nat): Job {
    Job([], m + 1, true, 0, Origin(0, 0, 0, 0, 0))
  }

  lemma KeysInOrder()
    ensures KeyAt(1) < KeyAt(2) < KeyAt(3) < KeyAt(5) < KeyAt(9)
  {
    KeyOrder(1, 2);
    KeyOrder(2, 3);
    KeyOrder(3, 5);
    KeyOrder(5, 9);
  }

  lemma {:induction false} ClipMap(lower: Rank, es: seq<Rdel>)
    requires forall e :: e in es ==> e.end > lower
    ensures |ClipEntries(lower, es)| == |es|
    ensures forall i :: 0 <= i < |es| ==> ClipEntries(lower, es)[i] == es[i].(start := Max(es[i].start, lower))
  {
    if es != [] {
      assert es[0] in es;
      ClipMap(lower, es[1..]);
      assert ClipEntries(lower, es) == ClipEntry(lower, es[0]) + ClipEntries(lower, es[1..]);
    }
  }

  /** The state a merge of one source and one target starts in. */
  lemma InitialTwo(s: Table, t: Table, xs: seq<Rdel>, ts: seq<Rdel>)
    requires ClipEntries(s.first, s.rdels) == xs && ClipEntries(t.first, t.rdels) == ts
    ensures Initial(SectionsOf([s]), SectionsOf([t])) == Two(xs, ts, None, None)
    ensures LiveRdels([s], [t]) == xs + ts
  {
    assert SectionsOf([s]) == [s.Sections()] && SectionsOf([t]) == [t.Sections()];
    LiveOne(s.Sections());
    LiveOne(t.Sections());
    assert SourceHeads([s.Sections()]) == [xs];
    assert Initial(SectionsOf([s]), SectionsOf([t])).heads == SourceHeads([s.Sections()]) + [ts];
  }

  lemma SourceClips(n: nat, m: nat)
    requires n > 0
    ensures ClipEntries(KeyAt(1), SourceTable(n, m).rdels) == SourceTable(n, m).rdels
  {
    hide RankOf;
    KeysInOrder();
    var es := SourceTable(n, m).rdels;
    ClipMap(KeyAt(1), es);
    assert forall i :: 0 <= i < |es| ==> es[i].start >= KeyAt(1);
  }

  lemma TargetClips(m: nat, first: Rank)
    requires KeyAt(1) <= first < KeyAt(9)
    ensures ClipEntries(first, Olds(m, KeyAt(1))) == Olds(m, first)
  {
    ClipMap(first, Olds(m, KeyAt(1)));
  }

  /** The source's first tombstone is read first, with the others behind it. */
  lemma AfterQ(n: nat, m: nat, ts: seq<Rdel>)
    requires n > 0 && ts != [] && KeyAt(1) <= ts[0].start && ts[0].seqno <= m
    ensures Drain(Rule(true, m + 1), Two(SourceTable(n, m).rdels, ts, None, None))
            == Drain(Rule(true, m + 1), Two(Extras(n - 1, m + 1), ts, Some(Rdel(KeyAt(1), KeyAt(9), m + 1)), None))
  {
    hide Drain, RankOf;
    var xs := SourceTable(n, m).rdels;
    DrainFirst(Rule(true, m + 1), xs, ts, None, None);
    assert xs[1..] == Extras(n - 1, m + 1);
  }

  lemma ExtrasFresh(count: nat, above: nat)
    ensures Fresh(Rule(true, above), Extras(count, above))
  {
    hide RankOf;
  }

  /** The dry run drops every tombstone of the target. */
  lemma DryCount(n: nat, m: nat)
    requires n > 0 && m > 0
    ensures |MergedOf(GapJob(m), [SourceTable(n, m)], [TargetTable(m)])| == n
    ensures |LiveRdels([SourceTable(n, m)], [TargetTable(m)])| == n + m
  {
    hide RankOf, Drain;
    KeysInOrder();
    var rule, q := Rule(true, m + 1), Rdel(KeyAt(1), KeyAt(9), m + 1);
    var es, ts := Extras(n - 1, m + 1), Olds(m, KeyAt(1));
    SourceClips(n, m);
    TargetClips(m, KeyAt(1));
    InitialTwo(SourceTable(n, m), TargetTable(m), SourceTable(n, m).rdels, ts);
    AfterQ(n, m, ts);
    DropRun(rule, es, ts, Some(q), None, q);
    if es == [] {
      DrainNone(rule, None, Some(q));
    } else {
      ExtrasFresh(n - 1, m + 1);
      var z := EmitRun(rule, es, [], None, Some(q));
      DrainNone(rule, Some(es[|es| - 1]), z);
    }
  }

  /** After a commit at `KeyAt(2)` its newest is back. */
  lemma CutCount(n: nat, m: nat)
    requires n > 0 && m > 0
    ensures |MergedOf(GapJob(m), [SourceTable(n, m)], [TargetTable(m).(first := KeyAt(3))])| == n + 1
  {
    hide RankOf, Drain;
    KeysInOrder();
    var rule, q := Rule(true, m + 1), Rdel(KeyAt(1), KeyAt(9), m + 1);
    var es, ts := Extras(n - 1, m + 1), Olds(m, KeyAt(3));
    SourceClips(n, m);
    TargetClips(m, KeyAt(3));
    InitialTwo(SourceTable(n, m), TargetTable(m).(first := KeyAt(3)), SourceTable(n, m).rdels, ts);
    AfterQ(n, m, ts);
    if es == [] {
      TwoLeft(rule, ts, q, None);
    } else {
      ExtrasFresh(n - 1, m + 1);
      var z := EmitRun(rule, es, ts, Some(q), None);
      TwoLeft(rule, ts, es[|es| - 1], z);
    }
  }

  // The budget.

  /** Blocks that hold one entry each. */
  lemma {:induction false} OnePerBlock(sizes: seq<nat>, room: nat)
    requires room > 0 && forall i :: 0 <= i < |sizes| ==> sizes[i] == room
    ensures var p := PackAll(room, sizes); Used(p) == |sizes| && (sizes != [] ==> p.payload == room && p.count == 1)
    decreases |sizes|
  {
    if sizes != [] {
      OnePerBlock(sizes[..|sizes| - 1], room);
    }
  }

  /** A budget of one block for each entry counted. */
  lemma OneEach(run: DryRun)
    requires run.entries > 0
    ensures BlocksBound(run, 20, 1) == run.entries
  {
    assert EntriesBound(run.entries, 1) == run.entries;
    assert PerBlock(14, 14) == 1;
  }

  lemma {:induction false} AllKept(job: Job, inexact: seq<Range>, merged: seq<Rdel>, lo: Rank, to: Option<Rank>)
    requires forall r :: r in merged ==> Piece(job, inexact, r, lo, to) == [ClipPiece(r, lo, to)]
    ensures |Pieces(job, inexact, merged, lo, to)| == |merged|
  {
    if merged != [] {
      assert merged[0] in merged;
      AllKept(job, inexact, merged[1..], lo, to);
    }
  }

  function OneByte(k: Rank): nat {
    1
  }

  lemma SizesAlike(pieces: seq<Rdel>)
    ensures BlocksFor(pieces, OneByte, 20) == |pieces|
  {
    OnePerBlock(PieceSizes(pieces, OneByte), 14);
  }

  lemma DepthAtMost(rs: seq<Rdel>, k: Rank)
    ensures Depth(rs, k) <= |rs|
  {
    SumMonotone(rs, CoverOf(k), One);
    SumIsCount(rs);
  }

  /** Keys of one byte, and the one that follows each. */
  ghost predicate OneByteKeys(ks: KeySpace) {
    ks.keyMax == 1 && ks.Valid() && forall x :: 0 <= x < 255 ==> ks.next(KeyAt(x)) == Some(KeyAt(x + 1))
  }

  lemma OneByteSpace() returns (ks: KeySpace)
    ensures OneByteKeys(ks)
  {
    ks := SpaceOf(1);
    hide RankOf, NextKey, KeySpace.Valid;
    forall x | 0 <= x < 255 ensures ks.next(KeyAt(x)) == Some(KeyAt(x + 1)) {
      NextByte(x);
      assert 0 < |[x as Byte]| <= 1;
    }
  }

  lemma NextByte(x: nat)
    requires x < 255
    ensures NextKey([x as Byte], 1) == Some([(x + 1) as Byte])
  {
    var k := [x as Byte];
    assert k[..0] + [k[0] + 1] == [(x + 1) as Byte];
  }

  lemma IsKey(ks: KeySpace, x: nat)
    requires ks.keyMax == 1 && x < 256
    ensures ks.Key(KeyAt(x))
  {
    assert 0 < |[x as Byte]| <= 1;
  }

  lemma SourceValid(ks: KeySpace, n: nat, m: nat)
    requires OneByteKeys(ks) && n > 0 && m + n + 2 <= MAX_SEQ
    ensures SourceTable(n, m).Valid(ks)
  {
    hide RankOf, KeySpace.Key, KeySpace.Valid, OneByteKeys;
    KeysInOrder();
    assert ks.keyMax == 1 by { OneByteMax(ks); }
    IsKey(ks, 1);
    IsKey(ks, 2);
    IsKey(ks, 3);
    IsKey(ks, 5);
    IsKey(ks, 9);
  }

  lemma OneByteMax(ks: KeySpace)
    requires OneByteKeys(ks)
    ensures ks.keyMax == 1 && ks.Valid() && ks.next(KeyAt(2)) == Some(KeyAt(3))
  {}

  lemma TargetValid(ks: KeySpace, m: nat)
    requires OneByteKeys(ks)
    ensures TargetTable(m).Valid(ks)
  {
    hide RankOf, KeySpace.Key, KeySpace.Valid, OneByteKeys;
    KeysInOrder();
    OneByteMax(ks);
    IsKey(ks, 1);
    IsKey(ks, 9);
  }

  /** The job can be started, and can split after `KeyAt(2)`. */
  lemma GapStarts(ks: KeySpace, n: nat, m: nat)
    requires OneByteKeys(ks) && n > 0 && m > 0 && m + n + 2 <= MAX_SEQ
    ensures Startable(ks, GapJob(m), [SourceTable(n, m)], [TargetTable(m)], KeyAt(1), KeyAt(9))
    ensures GoodCuts(ContextOf(ks, GapJob(m), [SourceTable(n, m)], [TargetTable(m)], KeyAt(1), KeyAt(9)), [KeyAt(2)])
  {
    hide RankOf, KeySpace.Key, KeySpace.Valid, OneByteKeys;
    KeysInOrder();
    OneByteMax(ks);
    IsKey(ks, 1);
    SourceValid(ks, n, m);
    TargetValid(ks, m);
    var s, t := SourceTable(n, m), TargetTable(m);
    GapCursors(n, m);
    var c := ContextOf(ks, GapJob(m), [s], [t], KeyAt(1), KeyAt(9));
    assert s.points[0] in c.inputs && s.points[1] in c.inputs;
    assert SplitsAfter(c, KeyAt(2));
  }

  lemma GapCursors(n: nat, m: nat)
    requires n > 0
    ensures Cursors([SourceTable(n, m)], [TargetTable(m)]) == [SourceTable(n, m).points, []]
    ensures ValidCursors(Cursors([SourceTable(n, m)], [TargetTable(m)]))
    ensures forall e :: e in SourceTable(n, m).points ==> e in Todo(Cursors([SourceTable(n, m)], [TargetTable(m)]))
  {
    hide RankOf;
    KeysInOrder();
    var s, t := SourceTable(n, m), TargetTable(m);
    assert LivePoints(s.first, s.points) == s.points;
    assert [t][1..] == [] && Concat([t]) == [];
    var cursors := Cursors([s], [t]);
    assert cursors == [s.points, []];
    forall e | e in s.points ensures e in Todo(cursors) { assert e in cursors[0]; }
  }

  /** Every tombstone merged after the cut reaches past it, and is kept for what lies outside the job. */
  lemma GapKept(ks: KeySpace, n: nat, m: nat, r: Rdel)
    requires n > 0 && m > 0
    requires r in MergedOf(GapJob(m), [SourceTable(n, m)], [TargetTable(m).(first := KeyAt(3))])
    ensures Piece(GapJob(m), [], r, KeyAt(3), None) == [ClipPiece(r, KeyAt(3), None)]
  {
    hide RankOf, Drain;
    KeysInOrder();
    var s, t := SourceTable(n, m), TargetTable(m).(first := KeyAt(3));
    SourceClips(n, m);
    TargetClips(m, KeyAt(3));
    InitialTwo(s, t, s.rdels, Olds(m, KeyAt(3)));
    var state := Two(s.rdels, Olds(m, KeyAt(3)), None, None);
    DrainBounds(Rule(true, m + 1), state, r);
    var a, b :| Unread(state, a) && Unread(state, b) && r.start == a.start && a.end <= r.end && r.end == b.end;
    GapUnread(n, m, a);
    GapUnread(n, m, b);
  }

  lemma GapUnread(n: nat, m: nat, r: Rdel)
    requires n > 0 && Unread(Two(SourceTable(n, m).rdels, Olds(m, KeyAt(3)), None, None), r)
    ensures (r.start == KeyAt(1) || r.start == KeyAt(3)) && r.end == KeyAt(9)
  {
    hide RankOf;
    var heads := [SourceTable(n, m).rdels, Olds(m, KeyAt(3))];
    var i :| 0 <= i < 2 && r in heads[i];
    var j :| 0 <= j < |heads[i]| && heads[i][j] == r;
  }

  /** One commit, and the dry run's budget is one block short. */
  lemma GapFails(ks: KeySpace, n: nat, m: nat)
    requires OneByteKeys(ks) && n > 0 && m > 0 && m + n + 2 <= MAX_SEQ
    ensures Counts(ks, GapJob(m), [SourceTable(n, m)], [TargetTable(m)], KeyAt(1), KeyAt(9), n, n + m)
    ensures !Enough(ContextOf(ks, GapJob(m), [SourceTable(n, m)], [TargetTable(m)], KeyAt(1), KeyAt(9)),
                    Progress([], KeyAt(1), [SourceTable(n, m)], [TargetTable(m)]))
  {
    hide RankOf, Drain, Startable, GoodCuts, OneByteKeys;
    KeysInOrder();
    OneByteMax(ks);
    GapStarts(ks, n, m);
    DryCount(n, m);
    CutCount(n, m);
    var job, s, t := GapJob(m), SourceTable(n, m), TargetTable(m);
    var c, p := ContextOf(ks, job, [s], [t], KeyAt(1), KeyAt(9)), Progress([], KeyAt(1), [s], [t]);
    var inexact: seq<Range> := [];
    var merged := MergedOf(job, [s], [t]);
    var run := DryRun(n, Bytes(merged, OneByte), n);
    forall k ensures Depth(merged, k) <= n { DepthAtMost(merged, k); }
    var q := AfterCuts(ks, p, [KeyAt(2)]);
    GapSettles(ks, n, m);
    var later := MergedOf(job, [s], [t.(first := KeyAt(3))]);
    forall r | r in later ensures Piece(job, inexact, r, KeyAt(3), None) == [ClipPiece(r, KeyAt(3), None)] {
      GapKept(ks, n, m, r);
    }
    AllKept(job, inexact, later, KeyAt(3), None);
    SizesAlike(PiecesFrom(job, inexact, q, None));
    OneEach(run);
    assert !EnoughAt(c, p, [KeyAt(2)], None, inexact, run, OneByte, 1, 20);
  }

  lemma GapSettles(ks: KeySpace, n: nat, m: nat)
    requires n > 0 && ks.next(KeyAt(2)) == Some(KeyAt(3))
    ensures AfterCuts(ks, Progress([], KeyAt(1), [SourceTable(n, m)], [TargetTable(m)]), [KeyAt(2)])
            == Progress([], KeyAt(3), [SourceTable(n, m)], [TargetTable(m).(first := KeyAt(3))])
  {
    hide RankOf;
    KeysInOrder();
    var s, t := SourceTable(n, m), TargetTable(m);
    assert [KeyAt(2)][..0] == [] && [s][1..] == [] && [t][1..] == [];
    assert LiveSources([s], KeyAt(2)) == [s] && LiveTargets([t], KeyAt(2), KeyAt(3)) == [t.(first := KeyAt(3))];
  }

  // A coalescing undone.

  lemma DrainStep(rule: Rule, s: State, m: nat)
    requires m < |s.heads| && s.heads[m] != [] && MinHead(s.heads, |s.heads|) == m
    ensures Drain(rule, s) == (if Emits(s, m) then AsSeq(s.pending) else []) + Drain(rule, Step(rule, s, m))
  {}

  lemma MinOfThree(a: seq<Rdel>, b: seq<Rdel>, c: seq<Rdel>)
    ensures MinHead([a, b, c], 3)
            == var m := MinHead([a, b], 2);
               if c == [] then m else if m == -1 || EntryLess(c[0], [a, b][m][0]) then 2 else m
  {
    assert MinHead([a, b, c], 0) == -1 && MinHead([a, b, c], 1) == MinHead([a, b], 1);
    assert MinHead([a, b, c], 2) == MinHead([a, b], 2);
    MinOfTwo(a, b);
  }

  /** Two fragments of one tombstone coalesce; an older one read before them comes between them once it is narrowed. */
  lemma ThreeHeads(rule: Rule, y: Rdel, a: Rdel, b: Rdel, hi: Rank)
    requires y.start < a.start < hi < b.start <= a.end && a.seqno == b.seqno != y.seqno && !rule.bottommost
    ensures |Drain(rule, State([[a], [b], [y]], None, None))| == 2
    ensures |Drain(rule, State([[a], [b], [y.(start := hi)]], None, None))| == 3
  {
    hide Drain;
    var z := y.(start := hi);
    PopOne(a);
    PopOne(b);
    PopOne(y);
    PopOne(z);
    assert [[a], [b], [y]][2 := []] == [[a], [b], []] && [[a], [b], []][0 := []] == [[], [b], []];
    assert [[], [b], []][1 := []] == [[], [], []];
    assert [[a], [b], [z]][0 := []] == [[], [b], [z]] && [[], [b], [z]][2 := []] == [[], [b], []];
    MinOfThree([a], [b], [y]);
    MinOfTwo([a], [b]);
    DrainStep(rule, State([[a], [b], [y]], None, None), 2);
    assert Step(rule, State([[a], [b], [y]], None, None), 2) == State([[a], [b], []], Some(y), None);
    MinOfThree([a], [b], []);
    DrainStep(rule, State([[a], [b], []], Some(y), None), 0);
    assert Step(rule, State([[a], [b], []], Some(y), None), 0) == State([[], [b], []], Some(a), Some(y));
    MinOfThree([], [b], []);
    MinOfTwo([], [b]);
    DrainStep(rule, State([[], [b], []], Some(a), Some(y)), 1);
    assert Step(rule, State([[], [b], []], Some(a), Some(y)), 1) == State([[], [], []], Some(Extend(a, b)), Some(y));
    ThreeDone(rule, Extend(a, b), Some(y));
    MinOfThree([a], [b], [z]);
    DrainStep(rule, State([[a], [b], [z]], None, None), 0);
    assert Step(rule, State([[a], [b], [z]], None, None), 0) == State([[], [b], [z]], Some(a), None);
    MinOfThree([], [b], [z]);
    DrainStep(rule, State([[], [b], [z]], Some(a), None), 2);
    assert Step(rule, State([[], [b], [z]], Some(a), None), 2) == State([[], [b], []], Some(z), Some(a));
    DrainStep(rule, State([[], [b], []], Some(z), Some(a)), 1);
    assert Step(rule, State([[], [b], []], Some(z), Some(a)), 1) == State([[], [], []], Some(b), Some(z));
    ThreeDone(rule, b, Some(z));
  }

  lemma PopOne(r: Rdel)
    ensures [r][1..] == []
  {}

  lemma ThreeDone(rule: Rule, p: Rdel, last: Option<Rdel>)
    ensures Drain(rule, State([[], [], []], Some(p), last)) == [p]
  {
    MinOfThree([], [], []);
    MinOfTwo([], []);
  }

  /** Without any drop at all: of three tombstones read the dry run counts two, and after a commit three are written. */
  lemma CoalescingReturns(job: Job)
    requires !job.bottommost
    ensures var y, a, b := Rdel(KeyAt(1), KeyAt(9), 3), Rdel(KeyAt(2), KeyAt(5), 7), Rdel(KeyAt(5), KeyAt(9), 7);
            var sources := [Table(KeyAt(2), KeyAt(5), [], [a]), Table(KeyAt(5), KeyAt(9), [], [b])];
            var targets := [Table(KeyAt(1), KeyAt(9), [], [y])];
            && |MergedOf(job, sources, targets)| == 2
            && |MergedOf(job, LiveSources(sources, KeyAt(2)), LiveTargets(targets, KeyAt(2), KeyAt(3)))| == 3
  {
    hide RankOf, Drain;
    KeysInOrder();
    var y, a, b := Rdel(KeyAt(1), KeyAt(9), 3), Rdel(KeyAt(2), KeyAt(5), 7), Rdel(KeyAt(5), KeyAt(9), 7);
    var s1, s2 := Table(KeyAt(2), KeyAt(5), [], [a]), Table(KeyAt(5), KeyAt(9), [], [b]);
    var t := Table(KeyAt(1), KeyAt(9), [], [y]);
    var n := t.(first := KeyAt(3));
    assert [s1, s2][1..] == [s2] && [s2][1..] == [] && [t][1..] == [];
    assert LiveSources([s2], KeyAt(2)) == [s2];
    assert LiveSources([s1, s2], KeyAt(2)) == [s1, s2] && LiveTargets([t], KeyAt(2), KeyAt(3)) == [n];
    ThreeHeads(Rule(false, job.oldest), y, a, b, KeyAt(3));
    OneClipped(s1, a);
    OneClipped(s2, b);
    OneClipped(t, y);
    OneClipped(n, y.(start := KeyAt(3)));
    InitialThree(s1, s2, t);
    InitialThree(s1, s2, n);
  }

  lemma OneClipped(t: Table, r: Rdel)
    requires |t.rdels| == 1 && t.rdels[0].end > t.first && r == t.rdels[0].(start := Max(t.rdels[0].start, t.first))
    ensures Live([t.Sections()]) == [r]
  {
    LiveOne(t.Sections());
    ClipMap(t.first, t.rdels);
  }

  lemma InitialThree(s1: Table, s2: Table, t: Table)
    ensures Initial(SectionsOf([s1, s2]), SectionsOf([t]))
            == State([Live([s1.Sections()]), Live([s2.Sections()]), Live([t.Sections()])], None, None)
  {
    hide Live;
    assert SectionsOf([t]) == [t.Sections()];
    assert SourceHeads(SectionsOf([s1, s2])) == [Live([s1.Sections()]), Live([s2.Sections()])];
  }

  /** What the dry run can count vouches for its budget exactly when it emitted all it read: then the budget is enough
      for every output of every such job, whatever its splits, sizes and drops, and otherwise there is a job with
      these counts for which it is not. */
  lemma BudgetExactly(merged: nat, read: nat)
    requires 0 < merged <= read <= MAX_SEQ - 2
    ensures merged == read <==>
            forall ks, job, sources, targets, lo, top :: Counts(ks, job, sources, targets, lo, top, merged, read) ==>
              Enough(ContextOf(ks, job, sources, targets, lo, top), Progress([], lo, sources, targets))
  {
    hide Counts, Enough;
    if merged == read {
      forall ks, job, sources, targets, lo, top | Counts(ks, job, sources, targets, lo, top, merged, read)
        ensures Enough(ContextOf(ks, job, sources, targets, lo, top), Progress([], lo, sources, targets))
      {
        WholeIsEnough(ks, job, sources, targets, lo, top, merged);
      }
    } else {
      var ks := OneByteSpace();
      GapFails(ks, merged, read - merged);
    }
  }
}