/** What a compaction job writes: outputs over adjoining key ranges, each with its share of the range tombstones
    (src/compact.rs, src/db/compaction.rs), and the tables they make. */
module JobOutputs {
  import opened Keys
  import opened Tombstones
  import opened RdelMerge
  import opened RdelWeight
  import opened Coverage
  import opened Visibility
  import opened Retention
  import opened Merging
  import opened JobInputs

  /** `clip`: the part of a merged tombstone inside an output's range. */
  function ClipPiece(r: Rdel, lo: Rank, hi: Option<Rank>): (p: Rdel)
    ensures forall k :: Covers(p, k) <==> Covers(r, k) && lo <= k && (hi.Some? ==> k < hi.value)
  {
    Rdel(Max(r.start, lo), if hi.Some? && hi.value < r.end then hi.value else r.end, r.seqno)
  }

  /** What one merged tombstone leaves in an output. */
  function Piece(job: Job, inexact: seq<Range>, r: Rdel, lo: Rank, hi: Option<Rank>): seq<Rdel> {
    var p := ClipPiece(r, lo, hi);
    if p.start < p.end && !DropsPiece(job, inexact, p) then [p] else []
  }

  function Pieces(job: Job, inexact: seq<Range>, merged: seq<Rdel>, lo: Rank, hi: Option<Rank>): seq<Rdel> {
    if merged == [] then [] else Piece(job, inexact, merged[0], lo, hi) + Pieces(job, inexact, merged[1..], lo, hi)
  }

  lemma {:induction false} PieceMembers(job: Job, inexact: seq<Range>, merged: seq<Rdel>, lo: Rank, hi: Option<Rank>,
                                        p: Rdel)
    ensures p in Pieces(job, inexact, merged, lo, hi) <==>
            exists r :: r in merged && p in Piece(job, inexact, r, lo, hi)
  {
    if merged != [] {
      PieceMembers(job, inexact, merged[1..], lo, hi, p);
      assert merged == [merged[0]] + merged[1..];
    }
  }

  predicate Within(lo: Rank, hi: Option<Rank>, k: Rank) {
    lo <= k && (hi.Some? ==> k < hi.value)
  }

  /** A piece covers only keys of the output's range, and only what its tombstone covered. */
  lemma PieceSound(job: Job, inexact: seq<Range>, merged: seq<Rdel>, lo: Rank, hi: Option<Rank>, k: Rank, view: nat,
                   p: Rdel)
    requires p in Pieces(job, inexact, merged, lo, hi) && VisibleCover(p, k, view)
    ensures p.seqno <= CoverSeq(merged, k, view) && Within(lo, hi, k)
  {
    PieceMembers(job, inexact, merged, lo, hi, p);
    var r :| r in merged && p in Piece(job, inexact, r, lo, hi);
    assert VisibleCover(r, k, view);
  }

  /** Inside the output's range a missing cover was dropped by the rule; outside it there is none. */
  lemma PiecesCover(job: Job, rdels: seq<Rdel>, inexact: seq<Range>, merged: seq<Rdel>, lo: Rank, hi: Option<Rank>,
                    k: Rank, view: nat)
    requires CoverSeq(merged, k, view) == CoverSeq(rdels, k, view)
    ensures Within(lo, hi, k) ==> PiecesAt(job, rdels, Pieces(job, inexact, merged, lo, hi), inexact, k, view)
    ensures !Within(lo, hi, k) ==> CoverSeq(Pieces(job, inexact, merged, lo, hi), k, view) == 0
  {
    var ps := Pieces(job, inexact, merged, lo, hi);
    var c := CoverSeq(rdels, k, view);
    forall p | p in ps && VisibleCover(p, k, view) ensures p.seqno <= c && Within(lo, hi, k) {
      PieceSound(job, inexact, merged, lo, hi, k, view, p);
    }
    if c > 0 && Within(lo, hi, k) {
      var r :| r in merged && VisibleCover(r, k, view) && r.seqno == c;
      var p := ClipPiece(r, lo, hi);
      assert Covers(p, k);
      if !DropsPiece(job, inexact, p) {
        PieceMembers(job, inexact, merged, lo, hi, p);
        assert p in Piece(job, inexact, r, lo, hi);
      }
    }
  }

  /** The sealing pass over the merged section. */
  method SealPieces(job: Job, inexact: seq<Range>, merger: Merger, lo: Rank, hi: Option<Rank>)
    returns (pieces: seq<Rdel>)
    requires merger.Ready()
    modifies merger
    ensures pieces == Pieces(job, inexact, old(Drain(merger.rule, merger.View())), lo, hi)
  {
    ghost var seen: seq<Rdel>;
    pieces, seen := [], [];
    ghost var all := Drain(merger.rule, merger.View());
    var more := Pull(merger, seen, all);
    while more
      invariant merger.Ready() && |seen| <= |all|
      invariant all == seen + (if more then [merger.current] else []) + Drain(merger.rule, merger.View())
      invariant !more ==> seen == all
      invariant pieces == Pieces(job, inexact, seen, lo, hi)
      decreases |all| - |seen|, more
    {
      PiecesAppend(job, inexact, seen, merger.current, lo, hi);
      pieces := pieces + Piece(job, inexact, merger.current, lo, hi);
      seen := seen + [merger.current];
      more := Pull(merger, seen, all);
    }
  }

  method Pull(merger: Merger, ghost seen: seq<Rdel>, ghost all: seq<Rdel>) returns (more: bool)
    requires merger.Ready() && all == seen + Drain(merger.rule, merger.View())
    modifies merger
    ensures merger.Ready()
    ensures all == seen + (if more then [merger.current] else []) + Drain(merger.rule, merger.View())
    ensures !more ==> seen == all
  {
    more := merger.NextMerged();
    if more {
      Reassociate(seen, merger.current, Drain(merger.rule, merger.View()));
    }
  }

  lemma {:induction false} PiecesAppend(job: Job, inexact: seq<Range>, merged: seq<Rdel>, r: Rdel, lo: Rank,
                                        hi: Option<Rank>)
    ensures Pieces(job, inexact, merged + [r], lo, hi) == Pieces(job, inexact, merged, lo, hi)
            + Piece(job, inexact, r, lo, hi)
  {
    if merged != [] {
      PiecesAppend(job, inexact, merged[1..], r, lo, hi);
      assert (merged + [r])[1..] == merged[1..] + [r];
    }
  }

  /** The pieces written are clipped from the merged section, and some of them dropped. */
  lemma {:induction false} PiecesWeight(job: Job, inexact: seq<Range>, merged: seq<Rdel>, lo: Rank, hi: Option<Rank>,
                                        base: nat, len: Rank -> nat)
    ensures SumOf(Pieces(job, inexact, merged, lo, hi), OwnOf(base, len)) <= Weight(merged, lo, hi, base, len)
  {
    if merged != [] {
      PiecesWeight(job, inexact, merged[1..], lo, hi, base, len);
      var p := Piece(job, inexact, merged[0], lo, hi);
      SumConcat(p, Pieces(job, inexact, merged[1..], lo, hi), OwnOf(base, len));
      if p != [] { assert p[1..] == []; }
    }
  }

  /** However the merge coalesces and drops, what is sealed weighs no more than the inputs' share. */
  lemma SealedLight(job: Job, inexact: seq<Range>, rule: Rule, sources: seq<Section>, targets: seq<Section>, lo: Rank,
                    hi: Option<Rank>)
    requires RdelMerge.Valid(Initial(sources, targets))
    ensures Light(Inputs(sources, targets), Pieces(job, inexact, Drain(rule, Initial(sources, targets)), lo, hi), lo,
                  hi)
  {
    var s := Initial(sources, targets);
    hide RdelMerge.Valid, Initial, Inputs, Pieces, Drain, SumOf;
    forall base: nat, len: Rank -> nat
      ensures SumOf(Pieces(job, inexact, Drain(rule, s), lo, hi), OwnOf(base, len))
              <= Weight(Inputs(sources, targets), lo, hi, base, len)
    {
      PiecesWeight(job, inexact, Drain(rule, s), lo, hi, base, len);
      PiecesJoin(lo, hi, base, len);
      DrainLight(rule, s, PieceOf(lo, hi, base, len));
      InitialSum(sources, targets, PieceOf(lo, hi, base, len));
    }
  }

  /** One sealed output: its key range, and the last key of the inputs it was sealed from. */
  datatype Output = Output(lo: Rank, hi: Option<Rank>, cap: Option<Rank>, inexact: seq<Range>, entries: seq<Entry>,
                           pieces: seq<Rdel>)

  predicate InOutput(o: Output, k: Rank) {
    Within(o.lo, o.hi, k)
  }

  function AllEntries(outputs: seq<Output>): set<Entry> {
    set o, e | o in outputs && e in o.entries :: e
  }

  function AllPieces(outputs: seq<Output>): seq<Rdel> {
    if outputs == [] then [] else outputs[0].pieces + AllPieces(outputs[1..])
  }

  /** The outputs' ranges follow one another from `lo` to `to`, which the last output of a job does not have. */
  ghost predicate Chained(outputs: seq<Output>, lo: Rank, to: Option<Rank>) {
    && (outputs != [] ==> outputs[0].lo == lo && outputs[|outputs| - 1].hi == to)
    && (forall i :: 0 <= i < |outputs| - 1 ==> outputs[i].hi == Some(outputs[i + 1].lo))
  }

  /** The output whose range holds `k`. */
  ghost function IndexOf(outputs: seq<Output>, lo: Rank, to: Option<Rank>, k: Rank): (i: nat)
    requires Chained(outputs, lo, to) && outputs != [] && Within(lo, to, k)
    ensures i < |outputs| && InOutput(outputs[i], k)
    decreases |outputs|
  {
    if InOutput(outputs[0], k) then 0
    else
      assert forall j :: 0 <= j < |outputs[1..]| ==> outputs[1..][j] == outputs[j + 1];
      1 + IndexOf(outputs[1..], outputs[0].hi.value, to, k)
  }

  /** Only the output whose range holds `k` can cover it. */
  lemma {:induction false} PiecesOf(outputs: seq<Output>, k: Rank, view: nat)
    requires forall o :: o in outputs && !InOutput(o, k) ==> CoverSeq(o.pieces, k, view) == 0
    requires forall i, j :: 0 <= i < j < |outputs| ==> !(InOutput(outputs[i], k) && InOutput(outputs[j], k))
    ensures forall i :: 0 <= i < |outputs| && InOutput(outputs[i], k) ==>
              CoverSeq(AllPieces(outputs), k, view) == CoverSeq(outputs[i].pieces, k, view)
    ensures (forall o :: o in outputs ==> !InOutput(o, k)) ==> CoverSeq(AllPieces(outputs), k, view) == 0
  {
    if outputs != [] {
      var rest := outputs[1..];
      assert forall j :: 0 <= j < |rest| ==> rest[j] == outputs[j + 1];
      PiecesOf(rest, k, view);
      CoverConcat(outputs[0].pieces, AllPieces(rest), k, view);
      if InOutput(outputs[0], k) {
        assert forall o :: o in rest ==> !InOutput(o, k);
      } else {
        assert outputs[0] in outputs;
      }
    }
  }

  /** Ranges of different outputs do not meet. */
  ghost predicate RangesInOrder(outputs: seq<Output>) {
    forall i, j :: 0 <= i < j < |outputs| ==> Precedes(outputs[i], outputs[j])
  }

  predicate Precedes(a: Output, b: Output) {
    a.hi.Some? && a.lo <= a.hi.value <= b.lo
  }

  // The shape of a sealed output.

  /** Its tombstones lie in its range, start and end at keys, and end by the inputs' last key. */
  ghost predicate PiecesFit(ks: KeySpace, top: Rank, o: Output) {
    && StartSorted(o.pieces)
    && (forall p :: p in o.pieces ==> ks.Key(p.start) && ks.Key(p.end) && o.lo <= p.start < p.end)
    && (forall p :: p in o.pieces && o.hi.Some? ==> p.end <= o.hi.value)
    && (o.pieces != [] ==> o.cap.Some? && ks.Key(o.cap.value) && o.cap.value <= top)
    && (forall p :: p in o.pieces && o.cap.Some? ==> ks.EndsBy(p.end, o.cap.value))
  }

  ghost predicate EntriesFit(ks: KeySpace, top: Rank, o: Output) {
    && Ordered(o.entries)
    && (forall e :: e in o.entries ==> ks.Key(e.key) && InOutput(o, e.key) && e.key <= top && e.seqno <= MAX_SEQ)
    && (o.hi.Some? ==> o.entries != [] && ks.next(o.entries[|o.entries| - 1].key) == o.hi)
  }

  /** No key of the output lies past `top`; all but a job's last output end at the key that follows their last one. */
  ghost predicate Shaped(ks: KeySpace, top: Rank, o: Output) {
    ks.Key(o.lo) && EntriesFit(ks, top, o) && PiecesFit(ks, top, o)
  }

  lemma {:induction false} PiecesSorted(job: Job, inexact: seq<Range>, merged: seq<Rdel>, lo: Rank, hi: Option<Rank>)
    requires StartSorted(merged)
    ensures StartSorted(Pieces(job, inexact, merged, lo, hi))
  {
    if merged != [] {
      StartSortedTail(merged);
      var rest := Pieces(job, inexact, merged[1..], lo, hi);
      PiecesSorted(job, inexact, merged[1..], lo, hi);
      var p := ClipPiece(merged[0], lo, hi);
      forall q | q in rest ensures p.start <= q.start {
        PieceMembers(job, inexact, merged[1..], lo, hi, q);
        var r :| r in merged[1..] && q in Piece(job, inexact, r, lo, hi);
        assert r in merged;
      }
      if Piece(job, inexact, merged[0], lo, hi) != [] {
        StartSortedCons(p, rest);
        assert [p] + rest == Pieces(job, inexact, merged, lo, hi);
      } else {
        assert [] + rest == rest;
      }
    }
  }

  /** Every tombstone of the merged section starts and ends at keys, and ends by the last key of the inputs. */
  lemma MergedEnds(ks: KeySpace, rule: Rule, sources: seq<Table>, targets: seq<Table>, cap: Option<Rank>, r: Rdel)
    requires TablesValid(ks, sources) && TablesValid(ks, targets) && Disjoint(targets)
             && r in Drain(rule, Initial(SectionsOf(sources), SectionsOf(targets)))
    requires cap.Some? ==> ks.Key(cap.value)
    requires forall t :: t in sources || t in targets ==> cap.Some? && t.last <= cap.value
    ensures ks.Key(r.start) && ks.Key(r.end) && r.start < r.end && cap.Some? && ks.EndsBy(r.end, cap.value)
  {
    var s := Initial(SectionsOf(sources), SectionsOf(targets));
    SectionsFit(ks, sources, targets);
    InitialValid(SectionsOf(sources), SectionsOf(targets));
    DrainBounds(rule, s, r);
    var a, b :| Unread(s, a) && Unread(s, b) && r.start == a.start && a.end <= r.end && r.end == b.end;
    assert a in Live(SectionsOf(sources)) || a in Live(SectionsOf(targets));
    assert b in Live(SectionsOf(sources)) || b in Live(SectionsOf(targets));
    InputEnds(ks, sources, targets, cap, a);
    InputEnds(ks, sources, targets, cap, b);
  }

  lemma InputEnds(ks: KeySpace, sources: seq<Table>, targets: seq<Table>, cap: Option<Rank>, r: Rdel)
    requires TablesValid(ks, sources) && TablesValid(ks, targets)
    requires r in Live(SectionsOf(sources)) || r in Live(SectionsOf(targets))
    requires cap.Some? ==> ks.Key(cap.value)
    requires forall t :: t in sources || t in targets ==> cap.Some? && t.last <= cap.value
    ensures ks.Key(r.start) && ks.Key(r.end) && r.start < r.end && cap.Some? && ks.EndsBy(r.end, cap.value)
  {
    hide KeySpace.Valid, KeySpace.EndsBy;
    if r in Live(SectionsOf(sources)) {
      LiveEnds(ks, sources, r);
      var t :| t in sources && ks.EndsBy(r.end, t.last);
      assert t.Valid(ks);
      EndsByLater(ks, r.end, t.last, cap.value);
    } else {
      LiveEnds(ks, targets, r);
      var t :| t in targets && ks.EndsBy(r.end, t.last);
      assert t.Valid(ks);
      EndsByLater(ks, r.end, t.last, cap.value);
    }
  }

  lemma PieceFits(ks: KeySpace, job: Job, o: Output, r: Rdel, p: Rdel)
    requires p in Piece(job, o.inexact, r, o.lo, o.hi) && ks.Key(r.start) && ks.Key(r.end) && o.cap.Some?
             && ks.EndsBy(r.end, o.cap.value)
    requires ks.Key(o.lo) && (o.hi.Some? ==> ks.Key(o.hi.value))
    ensures ks.Key(p.start) && ks.Key(p.end) && o.lo <= p.start < p.end && (o.hi.Some? ==> p.end <= o.hi.value)
    ensures ks.EndsBy(p.end, o.cap.value)
  {
    hide KeySpace.Key, DropsPiece;
  }

  /** What the sealing pass writes fits the output. */
  lemma SealedPiecesFit(ks: KeySpace, job: Job, sources: seq<Table>, targets: seq<Table>, merged: seq<Rdel>, o: Output,
                        top: Rank)
    requires TablesValid(ks, sources) && TablesValid(ks, targets) && Disjoint(targets)
    requires merged == Drain(Rule(job.bottommost, job.oldest), Initial(SectionsOf(sources), SectionsOf(targets)))
    requires o.pieces == Pieces(job, o.inexact, merged, o.lo, o.hi) && ks.Key(o.lo)
             && (o.hi.Some? ==> ks.Key(o.hi.value))
    requires o.cap.Some? ==> ks.Key(o.cap.value) && o.cap.value <= top
    requires forall t :: t in sources || t in targets ==> o.cap.Some? && t.last <= o.cap.value
    ensures PiecesFit(ks, top, o)
  {
    hide KeySpace.Valid, KeySpace.EndsBy, KeySpace.Key, Table.Valid, Drain, Piece;
    var rule := Rule(job.bottommost, job.oldest);
    SectionsFit(ks, sources, targets);
    MergedSection(rule, SectionsOf(sources), SectionsOf(targets));
    PiecesSorted(job, o.inexact, merged, o.lo, o.hi);
    forall p | p in o.pieces
      ensures ks.Key(p.start) && ks.Key(p.end) && o.lo <= p.start < p.end && (o.hi.Some? ==> p.end <= o.hi.value)
      ensures o.cap.Some? && ks.EndsBy(p.end, o.cap.value)
    {
      PieceMembers(job, o.inexact, merged, o.lo, o.hi, p);
      var r :| r in merged && p in Piece(job, o.inexact, r, o.lo, o.hi);
      MergedEnds(ks, rule, sources, targets, o.cap, r);
      PieceFits(ks, job, o, r, p);
    }
    assert o.pieces != [] ==> o.pieces[0] in o.pieces;
  }

  // Outputs as tables.

  function MaxEnd(ps: seq<Rdel>): (m: Rank)
    requires ps != []
    ensures (exists p :: p in ps && p.end == m) && forall p :: p in ps ==> p.end <= m
  {
    if |ps| == 1 then ps[0].end
    else
      assert ps == [ps[0]] + ps[1..];
      Max(ps[0].end, MaxEnd(ps[1..]))
  }

  /** `compact_seal_output` returns no table for an output with neither entries nor tombstones. */
  predicate Vacant(o: Output) {
    o.entries == [] && o.pieces == []
  }

  /** The table reference's first key. */
  function FirstKey(o: Output): Rank
    requires !Vacant(o)
  {
    if o.entries == [] || (o.pieces != [] && o.pieces[0].start < o.entries[0].key)
    then o.pieces[0].start
    else o.entries[0].key
  }

  /** Its last key: the last entry's, or for the last output the greatest tombstone end, at most the inputs' last
      key. */
  function LastKey(o: Output): Rank
    requires !Vacant(o)
  {
    if o.pieces == [] || (o.hi.Some? && o.entries != [])
    then if o.entries == [] then o.lo else o.entries[|o.entries| - 1].key
    else
      var m := MaxEnd(o.pieces);
      var end := if o.cap.Some? && m > o.cap.value then o.cap.value else m;
      if o.entries == [] then end else Max(o.entries[|o.entries| - 1].key, end)
  }

  function TableOf(o: Output): Table
    requires !Vacant(o)
  {
    Table(FirstKey(o), LastKey(o), o.entries, o.pieces)
  }

  function TablesOf(outputs: seq<Output>): seq<Table> {
    if outputs == [] then []
    else (if Vacant(outputs[0]) then [] else [TableOf(outputs[0])]) + TablesOf(outputs[1..])
  }

  lemma InOrderLast(es: seq<Entry>)
    requires Ordered(es) && es != []
    ensures forall e :: e in es ==> es[0].key <= e.key <= es[|es| - 1].key
  {
    forall e | e in es ensures es[0].key <= e.key <= es[|es| - 1].key {
      var i :| 0 <= i < |es| && es[i] == e;
      assert (i > 0 ==> Before(es[0], es[i])) && (i < |es| - 1 ==> Before(es[i], es[|es| - 1]));
    }
  }

  /** The bounds of a table reference hold what is in it. */
  lemma BoundsHold(ks: KeySpace, top: Rank, o: Output)
    requires ks.Valid() && Shaped(ks, top, o) && !Vacant(o)
    ensures ks.Key(FirstKey(o)) && ks.Key(LastKey(o)) && o.lo <= FirstKey(o) && LastKey(o) <= top
    ensures o.hi.Some? ==> LastKey(o) < o.hi.value
    ensures forall e :: e in o.entries ==> e.key <= LastKey(o)
  {
    hide KeySpace.Valid, KeySpace.Key, KeySpace.EndsBy, MaxEnd, Ordered, StartSorted;
    if o.entries != [] {
      InOrderLast(o.entries);
      assert o.entries[0] in o.entries && o.entries[|o.entries| - 1] in o.entries;
    }
    if o.pieces != [] {
      assert o.pieces[0] in o.pieces;
      var p :| p in o.pieces && p.end == MaxEnd(o.pieces);
    }
  }

  lemma EndsHold(ks: KeySpace, top: Rank, o: Output, p: Rdel)
    requires ks.Valid() && Shaped(ks, top, o) && p in o.pieces
    ensures ks.EndsBy(p.end, LastKey(o))
  {
    BoundsHold(ks, top, o);
    if o.hi.None? || o.entries == [] {
      if MaxEnd(o.pieces) > o.cap.value {
        EndsByLater(ks, p.end, o.cap.value, LastKey(o));
      }
    }
  }

  /** A job's output is a table a later job can take. */
  lemma OutputValid(ks: KeySpace, top: Rank, o: Output)
    requires ks.Valid() && Shaped(ks, top, o) && !Vacant(o)
    ensures TableOf(o).Valid(ks)
  {
    BoundsHold(ks, top, o);
    forall p | p in o.pieces ensures ks.EndsBy(p.end, LastKey(o)) { EndsHold(ks, top, o, p); }
  }

  lemma {:induction false} TablesMembers(outputs: seq<Output>, t: Table)
    requires t in TablesOf(outputs)
    ensures exists i :: 0 <= i < |outputs| && !Vacant(outputs[i]) && t == TableOf(outputs[i])
  {
    if !Vacant(outputs[0]) && t == TableOf(outputs[0]) {
    } else {
      TablesMembers(outputs[1..], t);
      var i :| 0 <= i < |outputs[1..]| && !Vacant(outputs[1..][i]) && t == TableOf(outputs[1..][i]);
      assert outputs[i + 1] == outputs[1..][i];
    }
  }

  /** A finished job's outputs are valid targets of a later one: disjoint, in key order, in the range the job
      covered. */
  lemma {:induction false} OutputsAreInputs(ks: KeySpace, top: Rank, outputs: seq<Output>)
    requires ks.Valid() && RangesInOrder(outputs) && forall o :: o in outputs ==> Shaped(ks, top, o)
    ensures TablesValid(ks, TablesOf(outputs)) && Disjoint(TablesOf(outputs))
    ensures forall t :: t in TablesOf(outputs) ==> (outputs != [] ==> outputs[0].lo <= t.first) && t.last <= top
  {
    hide KeySpace.Valid, Table.Valid, Shaped, FirstKey, LastKey, Disjoint, RangesInOrder;
    if outputs != [] {
      var o, rest := outputs[0], outputs[1..];
      LaterRanges(outputs);
      OutputsAreInputs(ks, top, rest);
      var tables := TablesOf(rest);
      LaterTables(ks, top, outputs);
      if !Vacant(o) {
        OutputValid(ks, top, o);
        BoundsHold(ks, top, o);
        DisjointCons(ks, TableOf(o), tables);
        assert TablesOf(outputs) == [TableOf(o)] + tables;
      } else {
        assert TablesOf(outputs) == tables;
      }
    } else {
      NoTables(ks);
    }
  }

  lemma NoTables(ks: KeySpace)
    requires ks.Valid()
    ensures TablesValid(ks, []) && Disjoint([])
  {}

  /** The tables of the later outputs start past the first one. */
  lemma LaterTables(ks: KeySpace, top: Rank, outputs: seq<Output>)
    requires ks.Valid() && outputs != [] && RangesInOrder(outputs) && forall o :: o in outputs ==> Shaped(ks, top, o)
    ensures forall t :: t in TablesOf(outputs[1..]) ==>
              outputs[0].lo <= t.first && (!Vacant(outputs[0]) ==> LastKey(outputs[0]) < t.first)
  {
    hide KeySpace.Valid, Table.Valid, Shaped, FirstKey, LastKey;
    var o, rest := outputs[0], outputs[1..];
    if !Vacant(o) { BoundsHold(ks, top, o); }
    forall t | t in TablesOf(rest) ensures o.lo <= t.first && (!Vacant(o) ==> LastKey(o) < t.first) {
      TablesMembers(rest, t);
      var i :| 0 <= i < |rest| && !Vacant(rest[i]) && t == TableOf(rest[i]);
      assert rest[i] == outputs[i + 1] && Precedes(outputs[0], outputs[i + 1]);
      BoundsHold(ks, top, rest[i]);
    }
  }

  // What the tables hold.

  /** The first key is the least of the entries' keys and the tombstones' starts. */
  lemma FirstExactly(ks: KeySpace, top: Rank, o: Output)
    requires Shaped(ks, top, o) && !Vacant(o)
    ensures forall e :: e in o.entries ==> FirstKey(o) <= e.key
    ensures forall p :: p in o.pieces ==> FirstKey(o) <= p.start
    ensures (exists e :: e in o.entries && e.key == FirstKey(o)) || exists p :: p in o.pieces && p.start == FirstKey(o)
  {
    hide KeySpace.Valid, KeySpace.Key, KeySpace.EndsBy;
    if o.entries != [] {
      InOrderLast(o.entries);
      assert o.entries[0] in o.entries;
    }
    if o.pieces != [] {
      StartSortedTail(o.pieces);
      assert o.pieces[0] in o.pieces;
    }
  }

  /** No key past the last one is held or covered, and the last key is that of an entry or one a tombstone reaches: of
      an output that was split off, its last entry's. */
  lemma LastExactly(ks: KeySpace, top: Rank, o: Output)
    requires ks.Valid() && Shaped(ks, top, o) && !Vacant(o)
    ensures forall e :: e in o.entries ==> e.key <= LastKey(o)
    ensures forall p, k :: p in o.pieces && ks.Key(k) && Covers(p, k) ==> k <= LastKey(o)
    ensures (exists e :: e in o.entries && e.key == LastKey(o)) || exists p :: p in o.pieces && LastKey(o) <= p.end
    ensures o.hi.Some? ==> exists e :: e in o.entries && e.key == LastKey(o)
  {
    BoundsHold(ks, top, o);
    forall p, k | p in o.pieces && ks.Key(k) && Covers(p, k) ensures k <= LastKey(o) {
      EndsHold(ks, top, o, p);
      assert ks.Follows(LastKey(o));
    }
    hide KeySpace.Valid, KeySpace.EndsBy, MaxEnd;
    assert o.entries != [] ==> o.entries[|o.entries| - 1] in o.entries;
    if o.pieces != [] {
      var p :| p in o.pieces && p.end == MaxEnd(o.pieces);
    }
  }

  lemma {:induction false} TableThere(outputs: seq<Output>, i: nat)
    requires i < |outputs| && !Vacant(outputs[i])
    ensures TableOf(outputs[i]) in TablesOf(outputs)
  {
    if i > 0 { TableThere(outputs[1..], i - 1); }
  }

  /** The tables hold exactly the outputs' entries. */
  lemma TablesEntries(ks: KeySpace, top: Rank, outputs: seq<Output>)
    requires forall o :: o in outputs ==> Shaped(ks, top, o)
    ensures Held([], TablesOf(outputs)) == AllEntries(outputs)
  {
    hide Shaped, FirstKey, LastKey;
    forall e ensures e in HeldBy(TablesOf(outputs)) <==> e in AllEntries(outputs) {
      if e in HeldBy(TablesOf(outputs)) {
        var t :| t in TablesOf(outputs) && e in t.points && e.key >= t.first;
        TablesMembers(outputs, t);
        var i :| 0 <= i < |outputs| && !Vacant(outputs[i]) && t == TableOf(outputs[i]);
        assert outputs[i] in outputs;
      }
      if e in AllEntries(outputs) {
        var o :| o in outputs && e in o.entries;
        var i :| 0 <= i < |outputs| && outputs[i] == o;
        FirstExactly(ks, top, o);
        TableThere(outputs, i);
        assert e in TableOf(o).points;
      }
    }
  }

  lemma {:induction false} PieceThere(outputs: seq<Output>, p: Rdel)
    ensures p in AllPieces(outputs) <==> exists o :: o in outputs && p in o.pieces
  {
    if outputs != [] {
      PieceThere(outputs[1..], p);
      assert outputs == [outputs[0]] + outputs[1..];
    }
  }

  lemma LiveArePieces(outputs: seq<Output>, k: Rank, view: nat)
    ensures Matched(Live(SectionsOf(TablesOf(outputs))), AllPieces(outputs), k, view)
  {
    hide FirstKey, LastKey, Live, AllPieces;
    var tables := TablesOf(outputs);
    forall r | r in Live(SectionsOf(tables)) && VisibleCover(r, k, view)
      ensures exists q :: q in AllPieces(outputs) && VisibleCover(q, k, view) && q.seqno >= r.seqno
    {
      LiveIsStored(tables, k, view, r);
      var t, p :| t in tables && p in t.rdels && t.first <= k && VisibleCover(p, k, view) && p.seqno == r.seqno;
      TablesMembers(outputs, t);
      var i :| 0 <= i < |outputs| && !Vacant(outputs[i]) && t == TableOf(outputs[i]);
      assert outputs[i] in outputs;
      PieceThere(outputs, p);
    }
  }

  lemma PiecesAreLive(ks: KeySpace, top: Rank, outputs: seq<Output>, k: Rank, view: nat)
    requires forall o :: o in outputs ==> Shaped(ks, top, o)
    ensures Matched(AllPieces(outputs), Live(SectionsOf(TablesOf(outputs))), k, view)
  {
    hide Shaped, FirstKey, LastKey, Live, AllPieces;
    var tables := TablesOf(outputs);
    forall p | p in AllPieces(outputs) && VisibleCover(p, k, view)
      ensures exists q :: q in Live(SectionsOf(tables)) && VisibleCover(q, k, view) && q.seqno >= p.seqno
    {
      PieceThere(outputs, p);
      var o :| o in outputs && p in o.pieces;
      var i :| 0 <= i < |outputs| && outputs[i] == o;
      FirstExactly(ks, top, o);
      TableThere(outputs, i);
      assert p in TableOf(o).rdels && TableOf(o).first <= k;
      StoredIsLive(tables, k, view, p.seqno);
    }
  }

  /** And cover every key as the outputs' tombstones do. */
  lemma TablesCover(ks: KeySpace, top: Rank, outputs: seq<Output>, k: Rank, view: nat)
    requires forall o :: o in outputs ==> Shaped(ks, top, o)
    ensures CoverSeq(LiveRdels([], TablesOf(outputs)), k, view) == CoverSeq(AllPieces(outputs), k, view)
  {
    hide Shaped, AllPieces, TablesOf, Matched, CoverSeq;
    var live, all := Live(SectionsOf(TablesOf(outputs))), AllPieces(outputs);
    LiveArePieces(outputs, k, view);
    PiecesAreLive(ks, top, outputs, k, view);
    MatchedCover(live, all, k, view);
    MatchedCover(all, live, k, view);
    OnlyTargets(TablesOf(outputs));
  }

  lemma OnlyTargets(tables: seq<Table>)
    ensures LiveRdels([], tables) == Live(SectionsOf(tables))
  {
    assert SectionsOf([]) == [];
  }

  lemma LaterRanges(outputs: seq<Output>)
    requires RangesInOrder(outputs) && outputs != []
    ensures RangesInOrder(outputs[1..])
  {
    var rest := outputs[1..];
    forall i, j | 0 <= i < j < |rest| ensures Precedes(rest[i], rest[j]) {
      assert Precedes(outputs[i + 1], outputs[j + 1]);
    }
  }
}
