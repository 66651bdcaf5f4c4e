/** A whole compaction job: merge, split outputs, seal each with its share of the range tombstones
    (src/compact.rs and src/db/compaction.rs), and what every reader sees afterwards. */
module CompactionJob {
  import opened Keys
  import opened Tombstones
  import opened RdelMerge
  import opened RdelWeight
  import opened Coverage
  import opened Visibility
  import opened Retention
  import opened Merging
  import opened JobInputs
  import opened JobOutputs

  /** The job's outcome at key `k` meets the retention rule, with an exact cover if `exact`. */
  ghost predicate CompactedAt(job: Job, inputs: set<Entry>, rdels: seq<Rdel>, emitted: set<Entry>, pieces: seq<Rdel>,
                              exact: bool, k: Rank) {
    exists inexact, cover, dropped ::
      Compacted(job, inputs, rdels, emitted, pieces, inexact, cover, dropped, k) && (exact ==> inexact == [])
  }

  /** Compaction preserves meaning. In a database written by one node, reading any key at the live view, at a
      snapshot the job was started with or at one taken since, with any clock at or past the purge cutoff,
      gives the same answer from the outside tables and the outputs as from the outside tables and the inputs. */
  lemma CompactionPreserves(job: Job, inputs: set<Entry>, rdels: seq<Rdel>, emitted: set<Entry>, pieces: seq<Rdel>,
                            exact: bool, outside: set<Entry>, outsideRdels: seq<Rdel>, k: Rank, view: nat, now: nat,
                            v: Value)
    requires job.WellFormed() && InRangeSeqs(inputs) && UniqueSeqs(inputs)
    requires CompactedAt(job, inputs, rdels, emitted, pieces, exact, k)
    requires OutsideAbove(job, outside, k)
    requires Protected(job, inputs, rdels, view) && now >= job.purgeBefore
    ensures Sees(outside + inputs, outsideRdels + rdels, k, view, now, v) <==>
              Sees(outside + emitted, outsideRdels + pieces, k, view, now, v)
  {
    var inexact, cover, dropped :| Compacted(job, inputs, rdels, emitted, pieces, inexact, cover, dropped, k);
    if Sees(outside + inputs, outsideRdels + rdels, k, view, now, v) {
      StillSees(job, inputs, rdels, emitted, pieces, inexact, cover, dropped, outside, outsideRdels, k, view, now, v);
    }
    if Sees(outside + emitted, outsideRdels + pieces, k, view, now, v) {
      NothingReturns(job, inputs, rdels, emitted, pieces, inexact, cover, dropped, outside, outsideRdels, k, view, now,
                     v);
    }
  }

  /** What a job works on: the keys, the job as it was started, the inputs' live entries and tombstones, and the
      bounds of the keys it merges. `exact`: its coverage stream never has more tombstones open that can decide a cover
      than it can track. */
  datatype Context = Context(ks: KeySpace, job: Job, inputs: set<Entry>, rdels: seq<Rdel>, lo: Rank, top: Rank,
                             exact: bool) {
    ghost predicate Valid() {
      && ks.Valid() && ks.Key(lo) && job.WellFormed() && InRangeSeqs(inputs)
      && (forall e :: e in inputs ==> ks.Key(e.key) && lo <= e.key <= top)
      && (forall r :: r in rdels ==> lo <= r.start)
    }
  }

  /** A job under way: the outputs committed, where the next one starts, and the inputs still live. */
  datatype Progress = Progress(outputs: seq<Output>, from: Rank, sources: seq<Table>, targets: seq<Table>)

  /** The tombstones of the output stand for the inputs' over its range, and for none outside it; they weigh no more,
      and the rule lets none of them go. */
  ghost predicate SharesRight(c: Context, o: Output) {
    && (forall k, view: nat ::
          InOutput(o, k) && (view >= c.job.oldest || forall r :: r in c.rdels ==> r.seqno <= view) ==>
          PiecesAt(c.job, c.rdels, o.pieces, o.inexact, k, view))
    && (forall k, view: nat :: !InOutput(o, k) ==> CoverSeq(o.pieces, k, view) == 0)
    && Light(c.rdels, o.pieces, o.lo, o.hi)
    && (forall p :: p in o.pieces ==> !DropsPiece(c.job, o.inexact, p))
  }

  /** What sealing an output settles for every key of its range. */
  ghost predicate SealedRight(c: Context, covers: map<Rank, nat>, o: Output) {
    && (forall e :: e in c.inputs && InOutput(o, e.key) ==>
          && e.key in covers && covers[e.key] <= SettledCover(c.job, c.rdels, e.key)
          && (!InRanges(o.inexact, e.key) ==> covers[e.key] == SettledCover(c.job, c.rdels, e.key)))
    && SharesRight(c, o) && (c.exact ==> o.inexact == [])
  }

  /** The inputs still live hold every entry from `from` on, and give every key from there the cover the job's
      inputs gave it; the targets among them start there. */
  ghost predicate LiveInputs(c: Context, p: Progress) {
    && TablesValid(c.ks, p.sources) && TablesValid(c.ks, p.targets) && Disjoint(p.targets)
    && SameFrom(p.from, c.rdels, LiveRdels(p.sources, p.targets))
    && NoHeavier(p.from, c.rdels, LiveRdels(p.sources, p.targets))
    && HoldAlike(c.inputs, Held(p.sources, p.targets), p.from)
    && (forall t :: t in p.sources || t in p.targets ==> t.last <= c.top)
    && (forall t :: t in p.targets ==> p.from <= t.first)
  }

  /** Seals the closed output: its share of the merged section of the inputs still live. */
  method Seal(ghost c: Context, job: Job, p: Progress, inexact: seq<Range>, entries: seq<Entry>, hi: Option<Rank>)
    returns (o: Output)
    requires job == c.job && LiveInputs(c, p) && c.ks.Key(p.from) && (hi.Some? ==> c.ks.Key(hi.value))
    ensures o.lo == p.from && o.hi == hi && o.inexact == inexact && o.entries == entries
    ensures SharesRight(c, o) && PiecesFit(c.ks, c.top, o)
  {
    hide Table.Valid, KeySpace.Valid, SharesRight, PiecesFit, SameFrom;
    var merger := new Merger(Rule(job.bottommost, job.oldest), SectionsOf(p.sources), SectionsOf(p.targets));
    ghost var merged := Drain(merger.rule, merger.View());
    var pieces := SealPieces(job, inexact, merger, p.from, hi);
    var cap := LastOfLive(p.sources, p.targets);
    o := Output(p.from, hi, cap, inexact, entries, pieces);
    ShareIsRight(c, p, merged, o);
    CapIsKey(c, p, cap);
    SealedPiecesFit(c.ks, job, p.sources, p.targets, merged, o, c.top);
  }

  lemma CapIsKey(c: Context, p: Progress, cap: Option<Rank>)
    requires LiveInputs(c, p) && (cap.Some? ==> exists t :: (t in p.sources || t in p.targets) && t.last == cap.value)
    ensures cap.Some? ==> c.ks.Key(cap.value) && cap.value <= c.top
  {
    if cap.Some? {
      var t :| (t in p.sources || t in p.targets) && t.last == cap.value;
      assert t.Valid(c.ks);
    }
  }

  lemma ShareIsRight(c: Context, p: Progress, merged: seq<Rdel>, o: Output)
    requires LiveInputs(c, p) && o.lo == p.from
    requires merged
             == Drain(Rule(c.job.bottommost, c.job.oldest), Initial(SectionsOf(p.sources), SectionsOf(p.targets)))
    requires o.pieces == Pieces(c.job, o.inexact, merged, o.lo, o.hi)
    ensures SharesRight(c, o)
  {
    hide Table.Valid, KeySpace.Valid;
    var rule := Rule(c.job.bottommost, c.job.oldest);
    var live := LiveRdels(p.sources, p.targets);
    SectionsFit(c.ks, p.sources, p.targets);
    MergedSection(rule, SectionsOf(p.sources), SectionsOf(p.targets));
    forall k, view: nat | InOutput(o, k) && (view >= c.job.oldest || forall r :: r in c.rdels ==> r.seqno <= view)
      ensures PiecesAt(c.job, c.rdels, o.pieces, o.inexact, k, view)
    {
      assert Reader(rule, live, view);
      PiecesCover(c.job, c.rdels, o.inexact, merged, o.lo, o.hi, k, view);
    }
    forall k, view: nat | !InOutput(o, k) ensures CoverSeq(o.pieces, k, view) == 0 {
      PiecesCover(c.job, merged, o.inexact, merged, o.lo, o.hi, k, view);
    }
    ShareIsLight(c, p, merged, o);
    forall q | q in o.pieces ensures !DropsPiece(c.job, o.inexact, q) {
      PieceMembers(c.job, o.inexact, merged, o.lo, o.hi, q);
    }
  }

  lemma ShareIsLight(c: Context, p: Progress, merged: seq<Rdel>, o: Output)
    requires LiveInputs(c, p) && o.lo == p.from
    requires merged == Drain(Rule(c.job.bottommost, c.job.oldest),
                             Initial(SectionsOf(p.sources), SectionsOf(p.targets)))
    requires o.pieces == Pieces(c.job, o.inexact, merged, o.lo, o.hi)
    ensures Light(c.rdels, o.pieces, o.lo, o.hi)
  {
    hide Table.Valid, KeySpace.Valid, Drain, Pieces, Weight, SumOf, SameFrom, HoldAlike;
    SectionsFit(c.ks, p.sources, p.targets);
    InitialValid(SectionsOf(p.sources), SectionsOf(p.targets));
    SealedLight(c.job, o.inexact, Rule(c.job.bottommost, c.job.oldest), SectionsOf(p.sources), SectionsOf(p.targets),
                o.lo,
                o.hi);
  }

  // The outputs so far.

  /** The outputs sealed so far reach from `lo` to `from`. */
  ghost predicate ChainedTo(outputs: seq<Output>, lo: Rank, from: Rank) {
    && (outputs == [] ==> from == lo)
    && Chained(outputs, lo, Some(from))
    && (forall i :: 0 <= i < |outputs| ==> outputs[i].hi.Some? && outputs[i].lo <= outputs[i].hi.value <= from)
  }

  /** Every key's versions lie in one output, and the outputs are in key order. */
  ghost predicate EntriesInOrder(outputs: seq<Output>) {
    && (forall o :: o in outputs ==> Ordered(o.entries))
    && (forall i, j, e, f :: 0 <= i < j < |outputs| && e in outputs[i].entries && f in outputs[j].entries ==>
          e.key < f.key)
  }

  ghost predicate SoFar(c: Context, covers: map<Rank, nat>, outputs: seq<Output>, sealed: set<Entry>) {
    && (forall o :: o in outputs ==> SealedRight(c, covers, o) && Shaped(c.ks, c.top, o))
    && AllEntries(outputs) == sealed
    && EntriesInOrder(outputs)
  }

  lemma SoFarLater(c: Context, a: Books, b: Books, outputs: seq<Output>)
    requires SoFar(c, a.covers, outputs, a.sealed) && Later(a, b)
    ensures SoFar(c, b.covers, outputs, b.sealed)
  {
    hide Shaped, SharesRight;
    forall o | o in outputs ensures SealedRight(c, b.covers, o) {
      assert SealedRight(c, a.covers, o);
    }
  }

  lemma SoFarSealed(c: Context, covers: map<Rank, nat>, outputs: seq<Output>, sealed: set<Entry>, o: Output)
    requires SoFar(c, covers, outputs, sealed) && SealedRight(c, covers, o) && Shaped(c.ks, c.top, o)
    requires Ordered(o.entries) && forall e, f :: e in sealed && f in o.entries ==> e.key < f.key
    ensures SoFar(c, covers, outputs + [o], sealed + Points(o.entries))
  {
    hide Shaped, SealedRight;
    var all := outputs + [o];
    forall e ensures e in AllEntries(all) <==> e in sealed + Points(o.entries) {
      if e in AllEntries(all) {
        var p :| p in all && e in p.entries;
        assert p in outputs || p == o;
        assert p in outputs ==> e in AllEntries(outputs);
      }
      if e in sealed {
        var p :| p in outputs && e in p.entries;
        assert p in all;
      }
      if e in Points(o.entries) { assert o in all; }
    }
    forall i, j, e, f | 0 <= i < j < |all| && e in all[i].entries && f in all[j].entries ensures e.key < f.key {
      if j == |outputs| { assert outputs[i] in outputs && e in AllEntries(outputs); }
    }
  }

  /** What the merge knows when an output is closed at `hi` settles the output's keys. */
  lemma ClosedRight(c: Context, todo: set<Entry>, stream: seq<Rdel>, covers: map<Rank, nat>, o: Output)
    requires CoversSound(c.job, stream, o.inexact, covers)
    requires forall k :: SettledCover(c.job, stream, k) == SettledCover(c.job, c.rdels, k)
    requires forall d :: d in c.inputs - todo ==> d.key in covers
    requires forall t :: t in todo ==> o.hi.Some? && o.hi.value <= t.key
    requires SharesRight(c, o) && (c.exact ==> o.inexact == [])
    ensures SealedRight(c, covers, o)
  {
    hide SharesRight;
    forall e | e in c.inputs && InOutput(o, e.key) ensures e.key in covers {
      assert e !in todo;
    }
  }

  // Every key the outputs reach is settled.

  /** The versions written for key `k`, none of which is still to be read, are the kept ones. */
  lemma EntriesRight(c: Context, todo: set<Entry>, b: Books, k: Rank, cover: nat, dropped: bool)
    requires Account(c.job, c.inputs, todo, b.covers, b.drops, b.sealed)
    requires forall e :: e in c.inputs && e.key == k ==>
               e !in todo && k in b.covers && cover == b.covers[k] && dropped == (k in b.drops)
    requires dropped ==> k in b.drops
    ensures forall e :: e in c.inputs && e.key == k && Kept(c.job, c.inputs, cover, dropped, e) ==>
              Emit(c.job, e) in b.sealed
    ensures forall f :: f in b.sealed && f.key == k ==>
              exists e :: e in c.inputs && e.key == k && Kept(c.job, c.inputs, cover, dropped, e) && f == Emit(c.job, e)
    ensures dropped ==> Droppable(c.job, c.inputs, k)
    ensures (exists e :: e in c.inputs && e.key == k) ==> (dropped <==> Droppable(c.job, c.inputs, k))
  {
    forall e | e in c.inputs && e.key == k && Kept(c.job, c.inputs, cover, dropped, e)
      ensures Emit(c.job, e) in b.sealed
    {
      assert e in c.inputs - todo && Settled(c.job, c.inputs, b.covers, b.drops, e);
    }
    forall f | f in b.sealed && f.key == k
      ensures exists e :: e in c.inputs && e.key == k && Kept(c.job, c.inputs, cover, dropped, e) && f == Emit(c.job, e)
    {
      var d :| d in c.inputs - todo && Settled(c.job, c.inputs, b.covers, b.drops, d) && f == Emit(c.job, d);
    }
  }

  /** The outputs, sealed right and in order, from the job's lower bound to `to`. */
  ghost predicate Row(c: Context, covers: map<Rank, nat>, outputs: seq<Output>, to: Option<Rank>) {
    && outputs != [] && Chained(outputs, c.lo, to) && RangesInOrder(outputs)
    && forall o :: o in outputs ==> SealedRight(c, covers, o)
  }

  /** Of the outputs' pieces only those of `k`'s own output cover it. */
  lemma PiecesHere(c: Context, covers: map<Rank, nat>, outputs: seq<Output>, to: Option<Rank>, k: Rank, view: nat)
    requires Row(c, covers, outputs, to)
    ensures Within(c.lo, to, k) ==>
              CoverSeq(AllPieces(outputs), k, view) == CoverSeq(outputs[IndexOf(outputs, c.lo, to, k)].pieces, k, view)
    ensures c.lo > k ==> CoverSeq(AllPieces(outputs), k, view) == 0
  {
    forall o | o in outputs && !InOutput(o, k) ensures CoverSeq(o.pieces, k, view) == 0 {
      assert SealedRight(c, covers, o);
    }
    forall i, j | 0 <= i < j < |outputs| ensures !(InOutput(outputs[i], k) && InOutput(outputs[j], k)) {
      assert Precedes(outputs[i], outputs[j]);
    }
    PiecesOf(outputs, k, view);
    if c.lo > k {
      forall o | o in outputs ensures !InOutput(o, k) {
        var i :| 0 <= i < |outputs| && outputs[i] == o;
        assert i > 0 ==> Precedes(outputs[0], outputs[i]);
      }
    }
  }

  /** The inexact ranges of the output that holds `k`. */
  ghost function InexactAt(outputs: seq<Output>, lo: Rank, to: Option<Rank>, k: Rank): seq<Range>
    requires Chained(outputs, lo, to) && outputs != []
  {
    if Within(lo, to, k) then outputs[IndexOf(outputs, lo, to, k)].inexact else []
  }

  lemma ExactAt(c: Context, covers: map<Rank, nat>, outputs: seq<Output>, to: Option<Rank>, k: Rank)
    requires Row(c, covers, outputs, to) && c.exact
    ensures InexactAt(outputs, c.lo, to, k) == []
  {
    hide RangesInOrder, SharesRight;
    if Within(c.lo, to, k) { assert SealedRight(c, covers, outputs[IndexOf(outputs, c.lo, to, k)]); }
  }

  lemma AllPiecesAt(c: Context, covers: map<Rank, nat>, outputs: seq<Output>, to: Option<Rank>, k: Rank, view: nat)
    requires Row(c, covers, outputs, to) && (forall r :: r in c.rdels ==> c.lo <= r.start)
             && (to.Some? ==> k < to.value)
    requires view >= c.job.oldest || (forall r :: r in c.rdels ==> r.seqno <= view)
    ensures PiecesAt(c.job, c.rdels, AllPieces(outputs), InexactAt(outputs, c.lo, to, k), k, view)
  {
    hide RangesInOrder, AllPieces, SharesRight;
    PiecesHere(c, covers, outputs, to, k, view);
    if c.lo <= k {
      var o := outputs[IndexOf(outputs, c.lo, to, k)];
      assert SealedRight(c, covers, o);
      ShareAt(c, o, AllPieces(outputs), k, view);
    } else {
      assert CoverSeq(c.rdels, k, view) == 0;
    }
  }

  lemma ShareAt(c: Context, o: Output, pieces: seq<Rdel>, k: Rank, view: nat)
    requires SharesRight(c, o) && InOutput(o, k) && CoverSeq(pieces, k, view) == CoverSeq(o.pieces, k, view)
    requires view >= c.job.oldest || (forall r :: r in c.rdels ==> r.seqno <= view)
    ensures PiecesAt(c.job, c.rdels, pieces, o.inexact, k, view)
  {
    assert PiecesAt(c.job, c.rdels, o.pieces, o.inexact, k, view);
  }

  lemma CoverAt(c: Context, covers: map<Rank, nat>, outputs: seq<Output>, to: Option<Rank>, e: Entry)
    requires Row(c, covers, outputs, to) && Within(c.lo, to, e.key) && e in c.inputs
    ensures e.key in covers && covers[e.key] <= SettledCover(c.job, c.rdels, e.key)
    ensures !InRanges(InexactAt(outputs, c.lo, to, e.key), e.key) ==>
              covers[e.key] == SettledCover(c.job, c.rdels, e.key)
  {
    assert SealedRight(c, covers, outputs[IndexOf(outputs, c.lo, to, e.key)]);
  }

  /** A piece that is missing at the key was dropped by the rule, for every reader. */
  ghost predicate PiecesRight(c: Context, pieces: seq<Rdel>, inexact: seq<Range>, k: Rank) {
    forall view: nat :: view >= c.job.oldest || (forall r :: r in c.rdels ==> r.seqno <= view) ==>
      PiecesAt(c.job, c.rdels, pieces, inexact, k, view)
  }

  /** A key whose versions are all read, with the cover and the drop decision booked for it. */
  lemma KeyDone(c: Context, todo: set<Entry>, b: Books, pieces: seq<Rdel>, inexact: seq<Range>, k: Rank, cover: nat,
                dropped: bool)
    requires Account(c.job, c.inputs, todo, b.covers, b.drops, b.sealed) && PiecesRight(c, pieces, inexact, k)
    requires forall e :: e in c.inputs && e.key == k ==>
               e !in todo && k in b.covers && cover == b.covers[k] && dropped == (k in b.drops)
    requires (dropped ==> k in b.drops) && cover <= SettledCover(c.job, c.rdels, k)
    requires (exists e :: e in c.inputs && e.key == k) && !InRanges(inexact, k) ==>
               cover == SettledCover(c.job, c.rdels, k)
    requires c.exact ==> inexact == []
    ensures CompactedAt(c.job, c.inputs, c.rdels, b.sealed, pieces, c.exact, k)
  {
    EntriesRight(c, todo, b, k, cover, dropped);
    assert Droppable(c.job, c.inputs, k) ==> exists e :: e in c.inputs && e.key == k;
    hide Account, Kept, PiecesAt, SettledCover, InRanges, MayDropKey, Newest;
    assert Compacted(c.job, c.inputs, c.rdels, b.sealed, pieces, inexact, cover, dropped, k);
  }

  /** Every key the outputs reach meets the retention rule, once nothing of it is still to be read. */
  lemma JobDone(c: Context, todo: set<Entry>, b: Books, outputs: seq<Output>, to: Option<Rank>, k: Rank)
    requires c.Valid() && Account(c.job, c.inputs, todo, b.covers, b.drops, b.sealed)
    requires Row(c, b.covers, outputs, to) && AllEntries(outputs) == b.sealed
    requires (to.Some? ==> k < to.value) && forall t :: t in todo ==> t.key != k
    ensures CompactedAt(c.job, c.inputs, c.rdels, AllEntries(outputs), AllPieces(outputs), c.exact, k)
  {
    var inexact := InexactAt(outputs, c.lo, to, k);
    if c.exact { ExactAt(c, b.covers, outputs, to, k); }
    hide Row, Account, AllPieces, AllEntries, InexactAt, PiecesAt, KeySpace.Valid, CompactedAt, SettledCover, InRanges;
    assert PiecesRight(c, AllPieces(outputs), inexact, k) by {
      forall view: nat | view >= c.job.oldest || (forall r :: r in c.rdels ==> r.seqno <= view)
        ensures PiecesAt(c.job, c.rdels, AllPieces(outputs), inexact, k, view)
      {
        AllPiecesAt(c, b.covers, outputs, to, k, view);
      }
    }
    hide PiecesRight;
    if e :| e in c.inputs && e.key == k {
      CoverAt(c, b.covers, outputs, to, e);
      KeyDone(c, todo, b, AllPieces(outputs), inexact, k, b.covers[k], k in b.drops);
    } else {
      KeyDone(c, todo, b, AllPieces(outputs), inexact, k, 0, false);
    }
  }

  // The merge under way.

  /** The coverage stream is sorted and settles every key as the inputs do. */
  ghost predicate RightStream(c: Context, stream: seq<Rdel>) {
    && StartSorted(stream) && (forall k :: SettledCover(c.job, stream, k) == SettledCover(c.job, c.rdels, k))
    && (c.exact ==> Few(stream, c.job.oldest))
  }

  lemma StreamIsInputs(ks: KeySpace, job: Job, sources: seq<Table>, targets: seq<Table>)
    requires TablesValid(ks, sources) && TablesValid(ks, targets) && Disjoint(targets)
    ensures var stream := Drain(Rule(false, job.oldest), Initial(SectionsOf(sources), SectionsOf(targets)));
            StartSorted(stream)
            && forall k :: SettledCover(job, stream, k) == SettledCover(job, LiveRdels(sources, targets), k)
  {
    hide Table.Valid, KeySpace.Valid;
    var rule := Rule(false, job.oldest);
    SectionsFit(ks, sources, targets);
    MergedSection(rule, SectionsOf(sources), SectionsOf(targets));
    forall k ensures SettledCover(job, Drain(rule, Initial(SectionsOf(sources), SectionsOf(targets))), k)
                     == SettledCover(job, LiveRdels(sources, targets), k)
    {
      assert job.oldest > 0 ==> Reader(rule, LiveRdels(sources, targets), job.oldest - 1);
    }
  }

  /** Where the current output starts: at the job's lower bound, or at the key after the last sealed one. */
  ghost predicate StartsAt(c: Context, from: Rank, sealed: set<Entry>) {
    from == c.lo || exists f :: f in sealed && c.ks.next(f.key) == Some(from)
  }

  /** Every version written so far is a read version's. */
  lemma WrittenFrom(c: Context, w: Work, b: Books, f: Entry) returns (d: Entry)
    requires c.Valid() && Consistent(c.job, c.inputs, w, b) && f in b.sealed + Points(w.out)
    ensures d in c.inputs - Todo(w.cursors) && d.key == f.key && d.seqno == f.seqno && c.ks.Key(f.key)
  {
    d :| d in c.inputs - Todo(w.cursors) && Settled(c.job, c.inputs, b.covers, b.drops, d) && f == Emit(c.job, d);
  }

  /** Between keys, what is still to be read lies past every key read. */
  lemma ReadBelow(c: Context, w: Work, b: Books)
    requires Consistent(c.job, c.inputs, w, b) && w.state.Idle?
    ensures forall d, t :: d in c.inputs - Todo(w.cursors) && t in Todo(w.cursors) ==> d.key < t.key && t in c.inputs
    ensures Ordered(w.out) && forall f, g :: f in b.sealed && g in w.out ==> f.key < g.key
    ensures forall d :: d in c.inputs - Todo(w.cursors) ==> d.key in b.covers
  {
    forall d, t | d in c.inputs - Todo(w.cursors) && t in Todo(w.cursors) ensures d.key < t.key {
      assert d.key in b.covers;
    }
  }

  /** Where an output that is full ends: at the key after its last one. There is one, as keys are still to be read;
      it lies past the output's own keys and not past any of those. */
  lemma CutBetween(c: Context, w: Work, b: Books) returns (hi: Rank)
    requires c.Valid() && Consistent(c.job, c.inputs, w, b) && w.state.Idle? && w.out != [] && Todo(w.cursors) != {}
    ensures c.ks.Key(w.out[|w.out| - 1].key) && c.ks.next(w.out[|w.out| - 1].key) == Some(hi) && c.ks.Key(hi)
    ensures w.out[|w.out| - 1].key < hi && forall t :: t in Todo(w.cursors) ==> hi <= t.key
  {
    var f := w.out[|w.out| - 1];
    assert f in w.out;
    ReadBelow(c, w, b);
    var d := WrittenFrom(c, w, b, f);
    var t :| t in Todo(w.cursors);
    assert c.ks.Follows(f.key) && t in c.inputs;
    hi := c.ks.next(f.key).value;
  }

  /** Between a key and the next there is none. */
  lemma NextStep(c: Context, a: Rank, b: Rank, next: Rank)
    requires c.Valid() && c.ks.Key(a) && c.ks.Key(b) && c.ks.next(a) == Some(next)
    ensures a < next && (a < b ==> next <= b) && (b <= a ==> b < next)
  {
    assert c.ks.Follows(a);
  }

  /** The entries of the output being closed are keys of the job, past the sealed ones. */
  lemma OutEntry(c: Context, w: Work, b: Books, from: Rank, e: Entry)
    requires c.Valid() && Consistent(c.job, c.inputs, w, b) && w.state.Idle? && StartsAt(c, from, b.sealed)
             && e in w.out
    ensures c.ks.Key(e.key) && from <= e.key <= c.top && e.seqno <= MAX_SEQ
  {
    ReadBelow(c, w, b);
    var d := WrittenFrom(c, w, b, e);
    assert d.key <= c.top && d.seqno <= MAX_SEQ && c.lo <= d.key;
    hide Consistent, Context.Valid;
    if from != c.lo {
      var f :| f in b.sealed && c.ks.next(f.key) == Some(from);
      var g := WrittenFrom(c, w, b, f);
      NextStep(c, f.key, e.key, from);
    }
  }

  /** They lie in its range. */
  lemma OutFits(c: Context, w: Work, b: Books, o: Output)
    requires c.Valid() && Consistent(c.job, c.inputs, w, b) && w.state.Idle? && StartsAt(c, o.lo, b.sealed)
             && o.entries == w.out
    requires o.hi.Some? ==> w.out != [] && c.ks.next(w.out[|w.out| - 1].key) == o.hi
    ensures EntriesFit(c.ks, c.top, o)
  {
    hide Consistent, Context.Valid, StartsAt;
    ReadBelow(c, w, b);
    forall e | e in w.out
      ensures c.ks.Key(e.key) && o.lo <= e.key <= c.top && e.seqno <= MAX_SEQ && (o.hi.Some? ==> e.key < o.hi.value)
    {
      OutEntry(c, w, b, o.lo, e);
      if o.hi.Some? {
        var last := w.out[|w.out| - 1];
        OutEntry(c, w, b, o.lo, last);
        InOrderLast(w.out);
        NextStep(c, last.key, e.key, o.hi.value);
      }
    }
  }

  /** Closes and seals the current output. */
  method EndOutput(ghost c: Context, merge: Merge, p: Progress, hi: Option<Rank>) returns (all: seq<Output>)
    requires c.Valid() && merge.Valid() && merge.w.state.Idle? && merge.job == c.job && merge.inputs == c.inputs
    requires LiveInputs(c, p) && c.ks.Key(p.from) && StartsAt(c, p.from, merge.books.sealed)
    requires RightStream(c, merge.coverage.stream)
    requires forall t :: t in Todo(merge.w.cursors) ==> hi.Some? && hi.value <= t.key
    requires hi.Some? ==> c.ks.Key(hi.value) && merge.w.out != [] && c.ks.next(merge.w.out[|merge.w.out| - 1].key) == hi
    requires SoFar(c, merge.books.covers, p.outputs, merge.books.sealed)
    modifies merge`w, merge`books
    ensures merge.Valid() && merge.w == old(merge.w).(out := [])
    ensures merge.books == old(merge.books).(sealed := old(merge.books).sealed + Points(old(merge.w).out))
    ensures SoFar(c, merge.books.covers, all, merge.books.sealed)
    ensures |all| == |p.outputs| + 1 && all[..|p.outputs|] == p.outputs
    ensures all[|p.outputs|].lo == p.from && all[|p.outputs|].hi == hi
  {
    hide Context.Valid, LiveInputs, EntriesFit, PiecesFit, SharesRight, SealedRight, SoFar, Consistent, StartsAt,
        CoversSound, InRangeSeqs;
    hide CoverStream.Valid, CoverStream.TrackedAt;
    var o := Seal(c, merge.job, p, merge.coverage.inexact, merge.w.out, hi);
    OutFits(c, merge.w, merge.books, o);
    assert Shaped(c.ks, c.top, o);
    ReadBelow(c, merge.w, merge.books);
    ClosedRight(c, Todo(merge.w.cursors), merge.coverage.stream, merge.books.covers, o);
    var entries := merge.CloseOutput();
    SoFarSealed(c, merge.books.covers, p.outputs, old(merge.books).sealed, o);
    all := p.outputs + [o];
  }

  lemma SettleInputs(c: Context, p: Progress, k: Rank, hi: Rank, outputs: seq<Output>)
    requires c.Valid() && LiveInputs(c, p) && p.from <= hi && c.ks.Key(k) && c.ks.next(k) == Some(hi)
    ensures LiveInputs(c, Progress(outputs, hi, LiveSources(p.sources, k), LiveTargets(p.targets, k, hi)))
  {
    var s', t' := LiveSources(p.sources, k), LiveTargets(p.targets, k, hi);
    NextStep(c, k, k, hi);
    hide Context.Valid, TablesValid, SameFrom, NoHeavier, LiveRdels, LiveSources, LiveTargets, Held, Disjoint;
    LiveSourcesValid(c.ks, p.sources, k, c.top);
    LiveTargetsValid(c.ks, p.targets, k, hi);
    LiveTargetsLast(p.targets, k, hi, c.top);
    LiveTargetsFrom(c.ks, p.targets, k, hi);
    SettleSame(c.ks, p.sources, p.targets, k, hi);
    SettleLighter(p.sources, p.targets, k, hi);
    LighterOn(p.from, hi, c.rdels, LiveRdels(p.sources, p.targets), LiveRdels(s', t'));
    SettleHeld(c.ks, p.sources, p.targets, k, hi);
    SameOn(p.from, hi, c.rdels, LiveRdels(p.sources, p.targets), LiveRdels(s', t'));
    AlikeOn(p.from, hi, c.inputs, Held(p.sources, p.targets), Held(s', t'));
  }

  lemma LighterOn(from: Rank, hi: Rank, rdels: seq<Rdel>, a: seq<Rdel>, b: seq<Rdel>)
    requires NoHeavier(from, rdels, a) && NoHeavier(hi, a, b) && from <= hi
    ensures NoHeavier(hi, rdels, b)
  {
    forall lo, to, base: nat, len: Rank -> nat | hi <= lo
      ensures Weight(b, lo, to, base, len) <= Weight(rdels, lo, to, base, len)
    {
      assert Weight(b, lo, to, base, len) <= Weight(a, lo, to, base, len) <= Weight(rdels, lo, to, base, len);
    }
  }

  lemma AlikeOn(from: Rank, hi: Rank, a: set<Entry>, b: set<Entry>, d: set<Entry>)
    requires HoldAlike(a, b, from) && HoldAlike(b, d, hi) && from <= hi
    ensures HoldAlike(a, d, hi)
  {}

  lemma SameOn(from: Rank, hi: Rank, rdels: seq<Rdel>, a: seq<Rdel>, b: seq<Rdel>)
    requires SameFrom(from, rdels, a) && SameFrom(hi, a, b) && from <= hi
    ensures SameFrom(hi, rdels, b)
  {
    forall r | r in b ensures exists q :: q in rdels && q.seqno == r.seqno {
      var p :| p in a && p.seqno == r.seqno;
    }
  }

  lemma ChainOn(outputs: seq<Output>, all: seq<Output>, lo: Rank, from: Rank, hi: Rank)
    requires ChainedTo(outputs, lo, from) && from <= hi
    requires |all| == |outputs| + 1 && all[..|outputs|] == outputs
    requires all[|outputs|].lo == from && all[|outputs|].hi == Some(hi)
    ensures ChainedTo(all, lo, hi) && RangesInOrder(all)
  {
    assert forall i :: 0 <= i < |outputs| ==> all[i] == outputs[i];
    forall i, j | 0 <= i < j < |all| ensures Precedes(all[i], all[j]) { ChainAscends(outputs, lo, from, i, j); }
  }

  lemma ChainEnd(outputs: seq<Output>, all: seq<Output>, lo: Rank, from: Rank)
    requires ChainedTo(outputs, lo, from)
    requires |all| == |outputs| + 1 && all[..|outputs|] == outputs
    requires all[|outputs|].lo == from && all[|outputs|].hi == None
    ensures Chained(all, lo, None) && RangesInOrder(all)
  {
    assert forall i :: 0 <= i < |outputs| ==> all[i] == outputs[i];
    forall i, j | 0 <= i < j < |all| ensures Precedes(all[i], all[j]) { ChainAscends(outputs, lo, from, i, j); }
  }

  lemma {:induction false} ChainAscends(outputs: seq<Output>, lo: Rank, from: Rank, i: nat, j: nat)
    requires ChainedTo(outputs, lo, from) && i < j <= |outputs|
    ensures outputs[i].hi.Some? && outputs[i].hi.value <= if j == |outputs| then from else outputs[j].lo
    decreases j
  {
    if i + 1 < j {
      ChainAscends(outputs, lo, from, i, j - 1);
    }
  }

  /** Below `from` every key meets the retention rule in the outputs alone. */
  ghost predicate BelowSettled(c: Context, p: Progress) {
    forall k :: k < p.from ==>
      CompactedAt(c.job, c.inputs, c.rdels, AllEntries(p.outputs), AllPieces(p.outputs), c.exact, k)
  }

  /** What holds after every commit of a job. */
  ghost predicate Committed(c: Context, p: Progress) {
    && LiveInputs(c, p) && c.ks.Key(p.from) && c.lo <= p.from && ChainedTo(p.outputs, c.lo, p.from)
    && BelowSettled(c, p)
    && forall o :: o in p.outputs ==> Shaped(c.ks, c.top, o)
  }

  ghost predicate OnTrack(c: Context, b: Books, p: Progress) {
    Committed(c, p) && StartsAt(c, p.from, b.sealed) && SoFar(c, b.covers, p.outputs, b.sealed)
  }

  /** The rule lets no tombstone of the output go. */
  ghost predicate Tidy(c: Context, o: Output) {
    && (forall p :: p in o.pieces ==> !DropsPiece(c.job, o.inexact, p))
    && (c.exact ==> o.inexact == [])
  }

  /** What a finished job leaves. */
  ghost predicate Finished(c: Context, outputs: seq<Output>) {
    && Chained(outputs, c.lo, None) && RangesInOrder(outputs) && EntriesInOrder(outputs)
    && (forall o :: o in outputs ==> Shaped(c.ks, c.top, o) && Light(c.rdels, o.pieces, o.lo, o.hi) && Tidy(c, o))
    && forall k :: CompactedAt(c.job, c.inputs, c.rdels, AllEntries(outputs), AllPieces(outputs), c.exact, k)
  }

  /** Below the job's lower bound there is nothing to settle. */
  lemma NothingBelow(c: Context, p: Progress)
    requires c.Valid() && p.outputs == [] && p.from == c.lo
    ensures BelowSettled(c, p)
  {
    forall k | k < p.from
      ensures CompactedAt(c.job, c.inputs, c.rdels, AllEntries(p.outputs), AllPieces(p.outputs), c.exact, k)
    {
      assert AllEntries([]) == {} && AllPieces([]) == [] && forall view: nat :: CoverSeq(c.rdels, k, view) == 0;
      assert Compacted(c.job, c.inputs, c.rdels, {}, [], [], 0, false, k);
    }
  }

  /** The outputs up to `hi` settle every key below it. */
  lemma SettledNext(c: Context, w: Work, b: Books, next: Progress)
    requires c.Valid() && Consistent(c.job, c.inputs, w, b) && w.out == [] && next.outputs != []
    requires SoFar(c, b.covers, next.outputs, b.sealed) && ChainedTo(next.outputs, c.lo, next.from)
             && RangesInOrder(next.outputs)
    requires forall t :: t in Todo(w.cursors) ==> next.from <= t.key
    ensures BelowSettled(c, next)
  {
    hide SealedRight, Shaped, KeySpace.Valid;
    assert b.sealed + Points(w.out) == b.sealed;
    forall k | k < next.from
      ensures CompactedAt(c.job, c.inputs, c.rdels, AllEntries(next.outputs), AllPieces(next.outputs), c.exact, k)
    {
      JobDone(c, Todo(w.cursors), b, next.outputs, Some(next.from), k);
    }
  }

  /** A full output is sealed, and the inputs settled against its last key. */
  method SplitOutput(ghost c: Context, ks: KeySpace, merge: Merge, p: Progress) returns (next: Progress)
    requires c.Valid() && c.ks == ks && merge.Valid() && merge.job == c.job && merge.inputs == c.inputs
    requires merge.w.state.Idle? && merge.w.out != [] && Todo(merge.w.cursors) != {}
    requires RightStream(c, merge.coverage.stream) && OnTrack(c, merge.books, p)
    modifies merge`w, merge`books
    ensures merge.Valid() && OnTrack(c, merge.books, next) && Committed(c, next) && merge.w == old(merge.w).(out := [])
    ensures |next.outputs| == |p.outputs| + 1 && next.outputs[..|p.outputs|] == p.outputs
  {
    hide Context.Valid, LiveInputs, SoFar, BelowSettled, Shaped, RightStream, Consistent, ChainedTo, StartsAt,
        CoversSound, InRangeSeqs;
    hide CoverStream.Valid, CoverStream.TrackedAt;
    ghost var cut := CutBetween(c, merge.w, merge.books);
    var last := merge.w.out[|merge.w.out| - 1];
    var hi := ks.next(last.key).value;
    StartBelow(c, merge.w, merge.books, p.from);
    var all := EndOutput(c, merge, p, Some(hi));
    next := Progress(all, hi, LiveSources(p.sources, last.key), LiveTargets(p.targets, last.key, hi));
    ChainOn(p.outputs, all, c.lo, p.from, hi);
    SettleInputs(c, p, last.key, hi, all);
    SettledNext(c, merge.w, merge.books, next);
    StartsNext(c, merge.books, last, hi);
    OutputsShaped(c, merge.books, all);
  }

  lemma StartsNext(c: Context, b: Books, last: Entry, hi: Rank)
    requires last in b.sealed && c.ks.next(last.key) == Some(hi)
    ensures StartsAt(c, hi, b.sealed)
  {}

  lemma OutputsShaped(c: Context, b: Books, outputs: seq<Output>)
    requires SoFar(c, b.covers, outputs, b.sealed)
    ensures forall o :: o in outputs ==> Shaped(c.ks, c.top, o)
  {}

  /** The output being closed starts at or below its last key. */
  lemma StartBelow(c: Context, w: Work, b: Books, from: Rank)
    requires c.Valid() && Consistent(c.job, c.inputs, w, b) && w.state.Idle? && w.out != []
             && StartsAt(c, from, b.sealed)
    ensures from <= w.out[|w.out| - 1].key
  {
    var o := Output(from, None, None, [], w.out, []);
    OutFits(c, w, b, o);
    assert w.out[|w.out| - 1] in w.out;
  }

  /** Every input is read: the last output is sealed. */
  method LastOutput(ghost c: Context, merge: Merge, p: Progress) returns (all: seq<Output>)
    requires c.Valid() && merge.Valid() && merge.job == c.job && merge.inputs == c.inputs
    requires merge.w.state.Idle? && Todo(merge.w.cursors) == {}
    requires RightStream(c, merge.coverage.stream) && OnTrack(c, merge.books, p)
    modifies merge`w, merge`books
    ensures Finished(c, all) && |all| == |p.outputs| + 1 && all[..|p.outputs|] == p.outputs
  {
    hide Context.Valid, LiveInputs, BelowSettled, SoFar, Shaped, RightStream, Consistent, StartsAt, Finished;
    hide CoverStream.Valid, CoverStream.TrackedAt;
    all := EndOutput(c, merge, p, None);
    ChainEnd(p.outputs, all, c.lo, p.from);
    Finish(c, merge.w, merge.books, all);
  }

  lemma Finish(c: Context, w: Work, b: Books, all: seq<Output>)
    requires c.Valid() && Consistent(c.job, c.inputs, w, b) && w.out == [] && Todo(w.cursors) == {}
    requires SoFar(c, b.covers, all, b.sealed) && all != [] && Chained(all, c.lo, None) && RangesInOrder(all)
    ensures Finished(c, all)
  {
    LightOutputs(c, b, all);
    hide SealedRight, Shaped, KeySpace.Valid, Light, Tidy;
    assert b.sealed + Points(w.out) == b.sealed;
    forall k ensures CompactedAt(c.job, c.inputs, c.rdels, AllEntries(all), AllPieces(all), c.exact, k) {
      JobDone(c, {}, b, all, None, k);
    }
  }

  lemma LightOutputs(c: Context, b: Books, outputs: seq<Output>)
    requires SoFar(c, b.covers, outputs, b.sealed)
    ensures forall o :: o in outputs ==> Light(c.rdels, o.pieces, o.lo, o.hi) && Tidy(c, o)
  {
    hide Shaped, Light;
    forall o | o in outputs ensures Light(c.rdels, o.pieces, o.lo, o.hi) && Tidy(c, o) {
      assert SealedRight(c, b.covers, o);
    }
  }

  /** `compact_advance` until the job ends. `commits` are the states it committed on the way. */
  method Drive(ghost c: Context, ks: KeySpace, merge: Merge, sources: seq<Table>, targets: seq<Table>, lo: Rank)
    returns (outputs: seq<Output>, ghost commits: seq<Progress>)
    requires c.Valid() && c.ks == ks && c.lo == lo && merge.Valid() && merge.job == c.job && merge.inputs == c.inputs
    requires merge.books.sealed == {} && RightStream(c, merge.coverage.stream)
    requires LiveInputs(c, Progress([], lo, sources, targets))
    modifies merge`w, merge`books, merge.coverage, merge.coverage.merger
    ensures Finished(c, outputs) && (forall p :: p in commits ==> Committed(c, p)) && OneByOne(commits, outputs)
  {
    hide Context.Valid, LiveInputs, RightStream, Consistent, Finished, Committed, OnTrack;
    hide CoverStream.Valid, CoverStream.TrackedAt, CoversSound, InRangeSeqs;
    var p := Progress([], lo, sources, targets);
    StartsOnTrack(c, merge.books, p);
    commits := [];
    while true
      invariant merge.Valid() && OnTrack(c, merge.books, p)
      invariant forall q :: q in commits ==> Committed(c, q)
      invariant |p.outputs| == |commits| && forall i :: 0 <= i < |commits| ==> commits[i].outputs == p.outputs[..i + 1]
      decreases Todo(merge.w.cursors), merge.w.out != []
    {
      ghost var before := merge.books;
      var outcome := merge.MergeStep();
      OnTrackLater(c, before, merge.books, p);
      if outcome.Exhausted? {
        outputs := LastOutput(c, merge, p);
        FirstOutputs(commits, p.outputs, outputs);
        return;
      }
      if outcome.Split? {
        ghost var was := p;
        p := SplitOutput(c, ks, merge, p);
        CommitMore(commits, was, p);
        commits := commits + [p];
      }
    }
  }

  /** There is a commit for every output but the last, which ends the job; each adds one output. */
  ghost predicate OneByOne(commits: seq<Progress>, outputs: seq<Output>) {
    |outputs| == |commits| + 1 && forall i :: 0 <= i < |commits| ==> commits[i].outputs == outputs[..i + 1]
  }

  lemma CommitMore(commits: seq<Progress>, was: Progress, next: Progress)
    requires |was.outputs| == |commits| && forall i :: 0 <= i < |commits| ==> commits[i].outputs == was.outputs[..i + 1]
    requires |next.outputs| == |was.outputs| + 1 && next.outputs[..|was.outputs|] == was.outputs
    ensures forall i :: 0 <= i < |commits| + 1 ==> (commits + [next])[i].outputs == next.outputs[..i + 1]
  {
    forall i | 0 <= i < |commits| ensures commits[i].outputs == next.outputs[..i + 1] {
      assert was.outputs[..i + 1] == next.outputs[..i + 1];
    }
    assert next.outputs[..|next.outputs|] == next.outputs;
  }

  lemma FirstOutputs(commits: seq<Progress>, was: seq<Output>, all: seq<Output>)
    requires |was| == |commits| && forall i :: 0 <= i < |commits| ==> commits[i].outputs == was[..i + 1]
    requires |all| == |was| + 1 && all[..|was|] == was
    ensures OneByOne(commits, all)
  {
    forall i | 0 <= i < |commits| ensures commits[i].outputs == all[..i + 1] { assert was[..i + 1] == all[..i + 1]; }
  }

  lemma StartsOnTrack(c: Context, b: Books, p: Progress)
    requires c.Valid() && LiveInputs(c, p) && p.outputs == [] && p.from == c.lo && b.sealed == {}
    ensures OnTrack(c, b, p)
  {
    hide KeySpace.Valid, LiveInputs;
    NothingBelow(c, p);
  }

  lemma OnTrackLater(c: Context, a: Books, b: Books, p: Progress)
    requires OnTrack(c, a, p) && Later(a, b)
    ensures OnTrack(c, b, p)
  {
    hide Committed, SoFar, StartsAt;
    SoFarLater(c, a, b, p.outputs);
  }

  /** The job over these inputs, `lo` at or below all of them and `top` at or above. */
  ghost function ContextOf(ks: KeySpace, job: Job, sources: seq<Table>, targets: seq<Table>, lo: Rank,
                           top: Rank): Context {
    Context(ks, job, Todo(Cursors(sources, targets)), LiveRdels(sources, targets), lo, top,
            Few(Drain(Rule(false, job.oldest), Initial(SectionsOf(sources), SectionsOf(targets))), job.oldest))
  }

  /** What a job is started with: valid tables, the targets disjoint, no version in two of them, bounds that hold. */
  ghost predicate Startable(ks: KeySpace, job: Job, sources: seq<Table>, targets: seq<Table>, lo: Rank, top: Rank) {
    && job.WellFormed() && ks.Key(lo)
    && TablesValid(ks, sources) && TablesValid(ks, targets) && Disjoint(targets)
    && ValidCursors(Cursors(sources, targets))
    && forall t :: t in sources || t in targets ==> lo <= t.first && t.last <= top
  }

  lemma ContextValid(ks: KeySpace, job: Job, sources: seq<Table>, targets: seq<Table>, lo: Rank, top: Rank)
    requires Startable(ks, job, sources, targets, lo, top)
    ensures ContextOf(ks, job, sources, targets, lo, top).Valid()
    ensures LiveInputs(ContextOf(ks, job, sources, targets, lo, top), Progress([], lo, sources, targets))
    ensures UniqueSeqs(Todo(Cursors(sources, targets)))
  {
    hide KeySpace.Valid;
    CursorsUnique(Cursors(sources, targets));
    InputsFit(ks, sources, targets, lo);
    HeldIsTodo(ks, sources, targets);
    forall e | e in Held(sources, targets) ensures e.key <= top {
      var t :| (t in sources || t in targets) && e in t.points && e.key >= t.first;
      assert t.Valid(ks);
    }
  }

  /** Runs a job to its end. */
  method RunJob(ks: KeySpace, job: Job, sources: seq<Table>, targets: seq<Table>, lo: Rank, ghost top: Rank)
    returns (outputs: seq<Output>, ghost commits: seq<Progress>)
    requires Startable(ks, job, sources, targets, lo, top)
    ensures Finished(ContextOf(ks, job, sources, targets, lo, top), outputs)
    ensures forall p :: p in commits ==> Committed(ContextOf(ks, job, sources, targets, lo, top), p)
    ensures OneByOne(commits, outputs)
  {
    hide KeySpace.Valid, Table.Valid, LiveInputs, Finished, Committed;
    ghost var c := ContextOf(ks, job, sources, targets, lo, top);
    ContextValid(ks, job, sources, targets, lo, top);
    StreamIsInputs(ks, job, sources, targets);
    SectionsFit(ks, sources, targets);
    var reader := new Merger(Rule(false, job.oldest), SectionsOf(sources), SectionsOf(targets));
    var coverage := new CoverStream(job.oldest, reader);
    var merge := new Merge(job, coverage, Cursors(sources, targets), lo);
    outputs, commits := Drive(c, ks, merge, sources, targets, lo);
  }

  lemma {:induction false} OrderedUnique(es: seq<Entry>, e: Entry, f: Entry)
    requires Ordered(es) && e in es && f in es && e.key == f.key && e.seqno == f.seqno
    ensures e == f
  {
    TailOrdered(es);
    if e in es[1..] && f in es[1..] {
      OrderedUnique(es[1..], e, f);
    } else {
      assert forall i :: 1 <= i < |es| ==> Before(es[0], es[i]);
    }
  }

  lemma CursorsUnique(cursors: seq<seq<Entry>>)
    requires ValidCursors(cursors)
    ensures UniqueSeqs(Todo(cursors))
  {
    forall e, f | e in Todo(cursors) && f in Todo(cursors) && e.key == f.key && e.seqno == f.seqno ensures e == f {
      var i :| 0 <= i < |cursors| && e in cursors[i];
      var j :| 0 <= j < |cursors| && f in cursors[j];
      assert i == j;
      OrderedUnique(cursors[i], e, f);
    }
  }

  /** The readers of a job's keys: nothing outside it at `k` lies below the captured minimum, the view is one the job
      protects, and the clock is at or past the purge cutoff. */
  ghost predicate ReaderOf(c: Context, outside: set<Entry>, k: Rank, view: nat, now: nat) {
    OutsideAbove(c.job, outside, k) && Protected(c.job, c.inputs, c.rdels, view) && now >= c.job.purgeBefore
  }

  /** What `RunJob` leaves reads as its inputs did, for every key and every protected view. */
  lemma JobPreserves(ks: KeySpace, job: Job, sources: seq<Table>, targets: seq<Table>, lo: Rank, top: Rank,
                     outputs: seq<Output>,
                     outside: set<Entry>, outsideRdels: seq<Rdel>, k: Rank, view: nat, now: nat, v: Value)
    requires Startable(ks, job, sources, targets, lo, top)
             && Finished(ContextOf(ks, job, sources, targets, lo, top), outputs)
    requires ReaderOf(ContextOf(ks, job, sources, targets, lo, top), outside, k, view, now)
    ensures Sees(outside + Held(sources, targets), outsideRdels + LiveRdels(sources, targets), k, view, now, v)
            <==> Sees(outside + AllEntries(outputs), outsideRdels + AllPieces(outputs), k, view, now, v)
  {
    hide KeySpace.Valid, Table.Valid, LiveInputs, Sees;
    ContextValid(ks, job, sources, targets, lo, top);
    HeldIsTodo(ks, sources, targets);
    CompactionPreserves(job, Todo(Cursors(sources, targets)), LiveRdels(sources, targets), AllEntries(outputs),
                        AllPieces(outputs), ContextOf(ks, job, sources, targets, lo, top).exact, outside, outsideRdels,
                        k, view, now, v);
  }

  /** The tables a finished job leaves can be the targets of the next. */
  lemma JobCloses(ks: KeySpace, job: Job, sources: seq<Table>, targets: seq<Table>, lo: Rank, top: Rank,
                  outputs: seq<Output>)
    requires Startable(ks, job, sources, targets, lo, top)
             && Finished(ContextOf(ks, job, sources, targets, lo, top), outputs)
    ensures TablesValid(ks, TablesOf(outputs)) && Disjoint(TablesOf(outputs))
    ensures forall t :: t in TablesOf(outputs) ==> lo <= t.first && t.last <= top
  {
    OutputsAreInputs(ks, top, outputs);
  }

  // Reading between two commits.

  /** A reader takes no entry or tombstone of a live input below `from`: the commit narrowed it. */
  function NarrowTo(tables: seq<Table>, from: Rank): seq<Table> {
    seq(|tables|, i requires 0 <= i < |tables| => tables[i].(first := Max(tables[i].first, from)))
  }

  /** What a reader finds in the committed outputs and the live inputs. */
  ghost function CommitEntries(p: Progress): set<Entry> {
    AllEntries(p.outputs) + Held(NarrowTo(p.sources, p.from), NarrowTo(p.targets, p.from))
  }

  ghost function CommitRdels(p: Progress): seq<Rdel> {
    AllPieces(p.outputs) + LiveRdels(NarrowTo(p.sources, p.from), NarrowTo(p.targets, p.from))
  }

  /** What a read of `k` depends on. */
  lemma SeesLocal(a: set<Entry>, b: set<Entry>, ra: seq<Rdel>, rb: seq<Rdel>, k: Rank, view: nat, now: nat, v: Value)
    requires (forall e: Entry :: e.key == k ==> (e in a <==> e in b)) && CoverSeq(ra, k, view) == CoverSeq(rb, k, view)
    ensures Sees(a, ra, k, view, now, v) ==> Sees(b, rb, k, view, now, v)
  {
    if Sees(a, ra, k, view, now, v) {
      var e :| SeesAs(a, ra, k, view, now, v, e);
      assert SeesAs(b, rb, k, view, now, v, e);
    }
  }

  lemma NarrowedHeld(tables: seq<Table>, from: Rank)
    ensures forall e: Entry :: e in HeldBy(NarrowTo(tables, from)) <==> e in HeldBy(tables) && e.key >= from
  {
    var n := NarrowTo(tables, from);
    forall e: Entry ensures e in HeldBy(n) <==> e in HeldBy(tables) && e.key >= from {
      if e in HeldBy(n) {
        var t :| t in n && e in t.points && e.key >= t.first;
        var i :| 0 <= i < |n| && n[i] == t;
        assert tables[i] in tables;
      }
      if e in HeldBy(tables) && e.key >= from {
        var t :| t in tables && e in t.points && e.key >= t.first;
        var i :| 0 <= i < |tables| && tables[i] == t;
        assert n[i] in n;
      }
    }
  }

  /** From `from` on the narrowed tables cover as before; below it they cover nothing. */
  lemma NarrowedCover(tables: seq<Table>, from: Rank, k: Rank, view: nat)
    ensures k >= from ==> Matched(Live(SectionsOf(tables)), Live(SectionsOf(NarrowTo(tables, from))), k, view)
    ensures k >= from ==> Matched(Live(SectionsOf(NarrowTo(tables, from))), Live(SectionsOf(tables)), k, view)
    ensures forall r :: r in Live(SectionsOf(NarrowTo(tables, from))) ==> from <= r.start
  {
    var n := NarrowTo(tables, from);
    LiveFrom(n, from);
    if k >= from {
      forall t, e | t in tables && e in t.rdels && t.first <= k && Covers(e, k)
        ensures exists m :: m in n && m.rdels == t.rdels && m.first <= k
      {
        var i :| 0 <= i < |tables| && tables[i] == t;
        assert n[i] in n;
      }
      forall m | m in n ensures exists t :: t in tables && t.rdels == m.rdels && t.first <= m.first {
        var i :| 0 <= i < |n| && n[i] == m;
        assert tables[i] in tables;
      }
      SettleMatches(tables, n, k, view);
    }
  }

  lemma LiveCover(p: Progress, k: Rank, view: nat)
    ensures var n := LiveRdels(NarrowTo(p.sources, p.from), NarrowTo(p.targets, p.from));
            CoverSeq(n, k, view) == if k >= p.from then CoverSeq(LiveRdels(p.sources, p.targets), k, view) else 0
  {
    var s, t := NarrowTo(p.sources, p.from), NarrowTo(p.targets, p.from);
    NarrowedCover(p.sources, p.from, k, view);
    NarrowedCover(p.targets, p.from, k, view);
    if k >= p.from {
      MatchedConcat(Live(SectionsOf(p.sources)), Live(SectionsOf(p.targets)), Live(SectionsOf(s)), Live(SectionsOf(t)),
                    k, view);
      MatchedConcat(Live(SectionsOf(s)), Live(SectionsOf(t)), Live(SectionsOf(p.sources)), Live(SectionsOf(p.targets)),
                    k, view);
      MatchedCover(LiveRdels(p.sources, p.targets), LiveRdels(s, t), k, view);
      MatchedCover(LiveRdels(s, t), LiveRdels(p.sources, p.targets), k, view);
    }
  }

  lemma {:induction false} PiecesBelow(outputs: seq<Output>, from: Rank, k: Rank, view: nat)
    requires from <= k && forall o, r :: o in outputs && r in o.pieces ==> r.end <= from
    ensures CoverSeq(AllPieces(outputs), k, view) == 0
  {
    if outputs != [] {
      PiecesBelow(outputs[1..], from, k, view);
      CoverConcat(outputs[0].pieces, AllPieces(outputs[1..]), k, view);
      assert outputs[0] in outputs;
    }
  }

  /** What is committed lies below `from`. */
  lemma CommitBelow(c: Context, p: Progress)
    requires Committed(c, p)
    ensures forall e :: e in AllEntries(p.outputs) ==> e.key < p.from
    ensures forall o, r :: o in p.outputs && r in o.pieces ==> r.end <= p.from
  {
    hide BelowSettled, LiveInputs, KeySpace.Valid;
    forall o | o in p.outputs ensures Shaped(c.ks, c.top, o) && o.hi.Some? && o.hi.value <= p.from {
      var i :| 0 <= i < |p.outputs| && p.outputs[i] == o;
    }
  }

  /** After every commit of a job its keys read as they did before it: those below `from` from the committed outputs
      alone, the others from the inputs still live. A job that stops there has lost nothing. */
  lemma CommitPreserves(c: Context, p: Progress, outside: set<Entry>, outsideRdels: seq<Rdel>, k: Rank, view: nat,
                        now: nat, v: Value)
    requires c.Valid() && UniqueSeqs(c.inputs) && Committed(c, p) && ReaderOf(c, outside, k, view, now)
    ensures Sees(outside + c.inputs, outsideRdels + c.rdels, k, view, now, v)
            <==> Sees(outside + CommitEntries(p), outsideRdels + CommitRdels(p), k, view, now, v)
  {
    CommitEntriesAt(c, p, k);
    CommitCoverAt(c, p, k, view);
    CoverConcat(outsideRdels, CommitRdels(p), k, view);
    hide CommitEntries, CommitRdels, Sees, Context.Valid, LiveInputs, ChainedTo, Shaped;
    if k < p.from {
      assert CompactedAt(c.job, c.inputs, c.rdels, AllEntries(p.outputs), AllPieces(p.outputs), c.exact, k);
      PreservesBelow(c, p, outside, outsideRdels, k, view, now, v);
      CoverConcat(outsideRdels, AllPieces(p.outputs), k, view);
      SameReads(outside + AllEntries(p.outputs), outside + CommitEntries(p), outsideRdels + AllPieces(p.outputs),
                outsideRdels + CommitRdels(p),
                k, view, now, v);
    } else {
      CoverConcat(outsideRdels, c.rdels, k, view);
      SameReads(outside + c.inputs, outside + CommitEntries(p), outsideRdels + c.rdels, outsideRdels + CommitRdels(p),
                k, view, now, v);
    }
  }

  lemma PreservesBelow(c: Context, p: Progress, outside: set<Entry>, outsideRdels: seq<Rdel>, k: Rank, view: nat,
                       now: nat, v: Value)
    requires c.Valid() && UniqueSeqs(c.inputs) && ReaderOf(c, outside, k, view, now)
    requires CompactedAt(c.job, c.inputs, c.rdels, AllEntries(p.outputs), AllPieces(p.outputs), c.exact, k)
    ensures Sees(outside + c.inputs, outsideRdels + c.rdels, k, view, now, v)
            <==> Sees(outside + AllEntries(p.outputs), outsideRdels + AllPieces(p.outputs), k, view, now, v)
  {
    hide Sees, CompactedAt, KeySpace.Valid;
    CompactionPreserves(c.job, c.inputs, c.rdels, AllEntries(p.outputs), AllPieces(p.outputs), c.exact, outside,
                        outsideRdels,
                        k, view, now, v);
  }

  /** The entries a reader of `k` finds. */
  lemma CommitEntriesAt(c: Context, p: Progress, k: Rank)
    requires Committed(c, p)
    ensures forall e: Entry :: e.key == k ==>
              (e in CommitEntries(p) <==> e in if k < p.from then AllEntries(p.outputs) else c.inputs)
  {
    CommitBelow(c, p);
    NarrowedHeld(p.sources, p.from);
    NarrowedHeld(p.targets, p.from);
    assert HoldAlike(c.inputs, Held(p.sources, p.targets), p.from);
    hide Committed, HeldBy, AllEntries;
  }

  /** The cover it finds. */
  lemma CommitCoverAt(c: Context, p: Progress, k: Rank, view: nat)
    requires Committed(c, p)
    ensures CoverSeq(CommitRdels(p), k, view)
            == if k < p.from then CoverSeq(AllPieces(p.outputs), k, view) else CoverSeq(c.rdels, k, view)
  {
    CommitBelow(c, p);
    LiveCover(p, k, view);
    assert SameFrom(p.from, c.rdels, LiveRdels(p.sources, p.targets));
    hide Committed, LiveRdels, NarrowTo, AllPieces;
    CoverConcat(AllPieces(p.outputs), LiveRdels(NarrowTo(p.sources, p.from), NarrowTo(p.targets, p.from)), k, view);
    if k >= p.from { PiecesBelow(p.outputs, p.from, k, view); }
  }

  lemma SameReads(a: set<Entry>, b: set<Entry>, ra: seq<Rdel>, rb: seq<Rdel>, k: Rank, view: nat, now: nat, v: Value)
    requires (forall e: Entry :: e.key == k ==> (e in a <==> e in b)) && CoverSeq(ra, k, view) == CoverSeq(rb, k, view)
    ensures Sees(a, ra, k, view, now, v) <==> Sees(b, rb, k, view, now, v)
  {
    SeesLocal(a, b, ra, rb, k, view, now, v);
    SeesLocal(b, a, rb, ra, k, view, now, v);
  }
}
