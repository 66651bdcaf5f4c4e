/** The tables a job commits (src/db/compaction.rs) read, within their bounds, as the inputs did. */
module JobTables {
  import opened Keys
  import opened Tombstones
  import opened RdelMerge
  import opened Visibility
  import opened Retention
  import opened JobInputs
  import opened JobOutputs
  import opened CompactionJob

  /** A finished job's tables hold, from their first keys on, what its outputs hold, and cover every key alike. */
  lemma FinishedTables(c: Context, outputs: seq<Output>, k: Rank, view: nat)
    requires Finished(c, outputs)
    ensures Held([], TablesOf(outputs)) == AllEntries(outputs)
    ensures CoverSeq(LiveRdels([], TablesOf(outputs)), k, view) == CoverSeq(AllPieces(outputs), k, view)
  {
    TablesEntries(c.ks, c.top, outputs);
    TablesCover(c.ks, c.top, outputs, k, view);
  }

  /** What a reader finds in a finished job's tables is what the inputs gave, for every key and every protected view. */
  lemma TablesPreserve(ks: KeySpace, job: Job, sources: seq<Table>, targets: seq<Table>, lo: Rank, top: Rank,
                       outputs: seq<Output>, outside: set<Entry>, outsideRdels: seq<Rdel>, k: Rank, view: nat, now: nat,
                       v: Value)
    requires Startable(ks, job, sources, targets, lo, top)
             && Finished(ContextOf(ks, job, sources, targets, lo, top), outputs)
    requires ReaderOf(ContextOf(ks, job, sources, targets, lo, top), outside, k, view, now)
    ensures Sees(outside + Held(sources, targets), outsideRdels + LiveRdels(sources, targets), k, view, now, v)
            <==> Sees(outside + Held([], TablesOf(outputs)), outsideRdels + LiveRdels([], TablesOf(outputs)), k, view,
                      now, v)
  {
    hide Finished, Startable, ReaderOf, Sees, Held, LiveRdels, TablesOf, AllEntries, AllPieces;
    JobPreserves(ks, job, sources, targets, lo, top, outputs, outside, outsideRdels, k, view, now, v);
    FinishedTables(ContextOf(ks, job, sources, targets, lo, top), outputs, k, view);
    CoverConcat(outsideRdels, AllPieces(outputs), k, view);
    CoverConcat(outsideRdels, LiveRdels([], TablesOf(outputs)), k, view);
    SameReads(outside + AllEntries(outputs), outside + Held([], TablesOf(outputs)), outsideRdels + AllPieces(outputs),
              outsideRdels + LiveRdels([], TablesOf(outputs)), k, view, now, v);
  }

  /** The same after every commit on the way, from the tables committed so far and the inputs still live. */
  lemma CommittedTables(c: Context, p: Progress, outside: set<Entry>, outsideRdels: seq<Rdel>, k: Rank, view: nat,
                        now: nat, v: Value)
    requires c.Valid() && UniqueSeqs(c.inputs) && Committed(c, p) && ReaderOf(c, outside, k, view, now)
    ensures var tables := TablesOf(p.outputs);
            Sees(outside + c.inputs, outsideRdels + c.rdels, k, view, now, v)
            <==> Sees(outside + (Held([], tables) + Held(NarrowTo(p.sources, p.from), NarrowTo(p.targets, p.from))),
                      outsideRdels
                      + (LiveRdels([], tables) + LiveRdels(NarrowTo(p.sources, p.from), NarrowTo(p.targets, p.from))),
                      k, view, now, v)
  {
    CommitPreserves(c, p, outside, outsideRdels, k, view, now, v);
    TablesEntries(c.ks, c.top, p.outputs);
    TablesCover(c.ks, c.top, p.outputs, k, view);
    hide *;
    var n := LiveRdels(NarrowTo(p.sources, p.from), NarrowTo(p.targets, p.from));
    var t, a := LiveRdels([], TablesOf(p.outputs)), AllPieces(p.outputs);
    assert CommitRdels(p) == a + n && CommitEntries(p)
        == AllEntries(p.outputs) + Held(NarrowTo(p.sources, p.from), NarrowTo(p.targets, p.from)) by { Committing(p); }
    CoverConcat(a, n, k, view);
    CoverConcat(t, n, k, view);
    CoverConcat(outsideRdels, a + n, k, view);
    CoverConcat(outsideRdels, t + n, k, view);
    SameReads(outside + CommitEntries(p), outside + CommitEntries(p), outsideRdels + (a + n), outsideRdels + (t + n),
              k, view, now, v);
  }

  lemma Committing(p: Progress)
    ensures CommitRdels(p) == AllPieces(p.outputs) + LiveRdels(NarrowTo(p.sources, p.from), NarrowTo(p.targets, p.from))
    ensures CommitEntries(p)
            == AllEntries(p.outputs) + Held(NarrowTo(p.sources, p.from), NarrowTo(p.targets, p.from))
  {}

  /** A key outside a table's bounds is neither held nor covered by it, and the bounds are no wider than the table's
      contents: its first key is an entry's or a tombstone's start, its last key an entry's or reached by a tombstone.
      */
  lemma BoundsExactly(c: Context, outputs: seq<Output>, t: Table)
    requires c.ks.Valid() && Finished(c, outputs) && t in TablesOf(outputs)
    ensures forall e :: e in t.points ==> t.first <= e.key <= t.last
    ensures forall r, k :: r in t.rdels && c.ks.Key(k) && Covers(r, k) ==> t.first <= k <= t.last
    ensures (exists e :: e in t.points && e.key == t.first) || exists r :: r in t.rdels && r.start == t.first
    ensures (exists e :: e in t.points && e.key == t.last) || exists r :: r in t.rdels && t.last <= r.end
  {
    TablesMembers(outputs, t);
    var i :| 0 <= i < |outputs| && !Vacant(outputs[i]) && t == TableOf(outputs[i]);
    assert Shaped(c.ks, c.top, outputs[i]);
    FirstExactly(c.ks, c.top, outputs[i]);
    LastExactly(c.ks, c.top, outputs[i]);
    hide Finished, Shaped, FirstKey, LastKey, KeySpace.Valid;
  }
}
