/** The block budget of a job's range-tombstone sections (src/compact.rs, src/db/compaction.rs). The dry run counts the
    merged section of the whole job; every output is sealed from a merge of the inputs still live, narrowed by the
    commits before it, which can hold tombstones that the dry run saw coalesced or dropped. */
module JobBudget {
  import opened Keys
  import opened Tombstones
  import opened RdelMerge
  import opened RdelWeight
  import opened Coverage
  import opened Retention
  import opened JobInputs
  import opened JobOutputs
  import opened CompactionJob
  import opened RdelBudget

  /** The merged section of these inputs, as the dry run and every sealing pass read it. */
  ghost function MergedOf(job: Job, sources: seq<Table>, targets: seq<Table>): seq<Rdel> {
    Drain(Rule(job.bottommost, job.oldest), Initial(SectionsOf(sources), SectionsOf(targets)))
  }

  /** Sizes a database can have: keys within their limit, and a block that holds the largest entry. */
  ghost predicate Sizes(len: Rank -> nat, keyMax: nat, block: nat) {
    ShortKeys(len, keyMax) && block >= RDEL_TRAILER + 12 + 2 * keyMax
  }

  // What is always enough.

  /** A budget counted from the tombstones as they are read is enough for every output of the job. */
  lemma ReadBudgetHolds(c: Context, outputs: seq<Output>, o: Output, run: DryRun, len: Rank -> nat, keyMax: nat,
                        block: nat)
    requires Finished(c, outputs) && o in outputs && Sizes(len, keyMax, block) && Counted(run, c.rdels, len)
    ensures BlocksFor(o.pieces, len, block) <= BlocksBound(run, block, keyMax)
  {
    hide Shaped, Counted, Light, CompactedAt;
    CountCovers(c.rdels, run, o.pieces, o.lo, o.hi, len, block, keyMax);
  }

  /** A dry run that emitted all it read counted just that. */
  lemma NothingLost(job: Job, sources: seq<Table>, targets: seq<Table>, run: DryRun, len: Rank -> nat)
    requires |MergedOf(job, sources, targets)| == |LiveRdels(sources, targets)|
    requires Counted(run, MergedOf(job, sources, targets), len)
    ensures Counted(run, LiveRdels(sources, targets), len)
  {
    hide SumOf, Drain;
    var live := LiveRdels(sources, targets);
    forall g: Rdel -> nat ensures SumOf(MergedOf(job, sources, targets), g) == SumOf(live, g) {
      DrainWhole(Rule(job.bottommost, job.oldest), Initial(SectionsOf(sources), SectionsOf(targets)), g);
      InitialSum(SectionsOf(sources), SectionsOf(targets), g);
      InitialSum(SectionsOf(sources), SectionsOf(targets), One);
      SumIsCount(live);
    }
    assert SumOf(MergedOf(job, sources, targets), OwnOf(12, len)) == SumOf(live, OwnOf(12, len));
    forall k ensures Depth(live, k) <= run.depth {
      assert SumOf(MergedOf(job, sources, targets), CoverOf(k)) == SumOf(live, CoverOf(k));
      assert Depth(MergedOf(job, sources, targets), k) <= run.depth;
    }
  }

  /** The dry run's own budget is enough for every output of a job in which it coalesced and dropped nothing. */
  lemma MergedBudgetHolds(ks: KeySpace, job: Job, sources: seq<Table>, targets: seq<Table>, lo: Rank, top: Rank,
                          outputs: seq<Output>, o: Output, run: DryRun, len: Rank -> nat, keyMax: nat, block: nat)
    requires Finished(ContextOf(ks, job, sources, targets, lo, top), outputs) && o in outputs
             && Sizes(len, keyMax, block)
    requires Counted(run, MergedOf(job, sources, targets), len)
    requires run.entries == |LiveRdels(sources, targets)|
    ensures BlocksFor(o.pieces, len, block) <= BlocksBound(run, block, keyMax)
  {
    NothingLost(job, sources, targets, run, len);
    ReadBudgetHolds(ContextOf(ks, job, sources, targets, lo, top), outputs, o, run, len, keyMax, block);
  }

  // Commits a job can make.

  /** The job can split after key `k`: it merges that key and a later one. */
  ghost predicate SplitsAfter(c: Context, k: Rank) {
    (exists e :: e in c.inputs && e.key == k) && exists f :: f in c.inputs && k < f.key
  }

  /** Keys after which outputs end, in order. */
  ghost predicate GoodCuts(c: Context, cuts: seq<Rank>) {
    && (forall i :: 0 <= i < |cuts| ==> SplitsAfter(c, cuts[i]))
    && (forall i, j :: 0 <= i < j < |cuts| ==> cuts[i] < cuts[j])
  }

  /** The commit of an output that ends with key `k`. */
  function SettleAt(ks: KeySpace, p: Progress, k: Rank): Progress {
    var next := ks.next(k);
    if next.None? then p
    else Progress(p.outputs, next.value, LiveSources(p.sources, k), LiveTargets(p.targets, k, next.value))
  }

  /** Where the commits after the keys `cuts` leave the job's inputs. */
  function AfterCuts(ks: KeySpace, p: Progress, cuts: seq<Rank>): Progress {
    if cuts == [] then p else SettleAt(ks, AfterCuts(ks, p, cuts[..|cuts| - 1]), cuts[|cuts| - 1])
  }

  lemma CutKey(c: Context, k: Rank)
    requires c.Valid() && SplitsAfter(c, k)
    ensures c.ks.Key(k) && c.lo <= k && c.ks.next(k).Some? && k < c.ks.next(k).value
  {
    var e :| e in c.inputs && e.key == k;
    var f :| f in c.inputs && k < f.key;
    assert c.ks.Key(e.key) && c.ks.Key(f.key) && c.ks.Follows(k);
  }

  /** After every commit the inputs still live hold what the job has yet to merge. */
  lemma {:induction false} CutsLive(c: Context, p: Progress, cuts: seq<Rank>)
    requires c.Valid() && LiveInputs(c, p) && p.from == c.lo && GoodCuts(c, cuts)
    ensures LiveInputs(c, AfterCuts(c.ks, p, cuts)) && c.ks.Key(AfterCuts(c.ks, p, cuts).from)
    ensures cuts == [] ==> AfterCuts(c.ks, p, cuts).from == c.lo
    ensures cuts != [] ==> c.ks.next(cuts[|cuts| - 1]) == Some(AfterCuts(c.ks, p, cuts).from)
  {
    hide LiveInputs;
    if cuts != [] {
      var init, k := cuts[..|cuts| - 1], cuts[|cuts| - 1];
      CutsLive(c, p, init);
      var q := AfterCuts(c.ks, p, init);
      CutKey(c, k);
      var hi := c.ks.next(k).value;
      if init != [] {
        CutKey(c, init[|init| - 1]);
        NextStep(c, init[|init| - 1], k, q.from);
      }
      SettleInputs(c, q, k, hi, q.outputs);
      assert c.ks.Follows(k);
    }
  }

  /** The pieces of an output sealed from `p` up to `to`. */
  ghost function PiecesFrom(job: Job, inexact: seq<Range>, p: Progress, to: Option<Rank>): seq<Rdel> {
    Pieces(job, inexact, MergedOf(job, p.sources, p.targets), p.from, to)
  }

  /** The dry run's budget is enough for an output sealed after `cuts`. */
  ghost predicate EnoughAt(c: Context, p: Progress, cuts: seq<Rank>, to: Option<Rank>, inexact: seq<Range>, run: DryRun,
                           len: Rank -> nat, keyMax: nat, block: nat) {
    GoodCuts(c, cuts) && Sizes(len, keyMax, block) && Counted(run, MergedOf(c.job, p.sources, p.targets), len) ==>
      BlocksFor(PiecesFrom(c.job, inexact, AfterCuts(c.ks, p, cuts), to), len, block) <= BlocksBound(run, block, keyMax)
  }

  /** It is enough for every output of the job, whatever its splits and sizes. */
  ghost predicate Enough(c: Context, p: Progress) {
    forall cuts, to, inexact, run, len: Rank -> nat, keyMax: nat, block: nat ::
      EnoughAt(c, p, cuts, to, inexact, run, len, keyMax, block)
  }

  /** What an output is sealed from weighs no more than what the job read. */
  lemma CutLight(c: Context, p: Progress, cuts: seq<Rank>, to: Option<Rank>, inexact: seq<Range>)
    requires c.Valid() && LiveInputs(c, p) && p.from == c.lo && GoodCuts(c, cuts)
    ensures Light(c.rdels, PiecesFrom(c.job, inexact, AfterCuts(c.ks, p, cuts), to), AfterCuts(c.ks, p, cuts).from, to)
  {
    hide LiveInputs, GoodCuts, Light;
    CutsLive(c, p, cuts);
    var q := AfterCuts(c.ks, p, cuts);
    var o := Output(q.from, to, None, inexact, [], PiecesFrom(c.job, inexact, q, to));
    ShareIsLight(c, q, MergedOf(c.job, q.sources, q.targets), o);
  }

  /** A job whose dry run reads `read` live tombstones and emits `merged`. */
  ghost predicate Counts(ks: KeySpace, job: Job, sources: seq<Table>, targets: seq<Table>, lo: Rank, top: Rank,
                         merged: nat, read: nat) {
    && Startable(ks, job, sources, targets, lo, top)
    && |MergedOf(job, sources, targets)| == merged && |LiveRdels(sources, targets)| == read
  }

  lemma WholeIsEnough(ks: KeySpace, job: Job, sources: seq<Table>, targets: seq<Table>, lo: Rank, top: Rank, n: nat)
    requires Counts(ks, job, sources, targets, lo, top, n, n)
    ensures Enough(ContextOf(ks, job, sources, targets, lo, top), Progress([], lo, sources, targets))
  {
    var c, p := ContextOf(ks, job, sources, targets, lo, top), Progress([], lo, sources, targets);
    ContextValid(ks, job, sources, targets, lo, top);
    hide Context.Valid, LiveInputs, GoodCuts, Startable, Light, Counted;
    forall cuts, to, inexact, run, len: Rank -> nat, keyMax: nat, block: nat
      ensures EnoughAt(c, p, cuts, to, inexact, run, len, keyMax, block)
    {
      if GoodCuts(c, cuts) && Sizes(len, keyMax, block) && Counted(run, MergedOf(job, sources, targets), len) {
        CutLight(c, p, cuts, to, inexact);
        NothingLost(job, sources, targets, run, len);
        var q := AfterCuts(ks, p, cuts);
        CountCovers(c.rdels, run, PiecesFrom(job, inexact, q, to), q.from, to, len, block, keyMax);
      }
    }
  }
}
