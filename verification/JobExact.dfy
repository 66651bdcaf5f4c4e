/** What a compaction job reclaims (src/compact.rs): it leaves nothing behind that it may drop. */
module JobExact {
  import opened Keys
  import opened Tombstones
  import opened RdelWeight
  import opened Coverage
  import opened Visibility
  import opened Retention
  import opened Merging
  import opened JobOutputs
  import opened CompactionJob
  import opened Versions

  /** Nothing outside the job is older than sequence `seqno` of its node or than the job's own wall. */
  predicate NothingOlder(o: Origin, seqno: nat) {
    && seqno < o.outsideSameMin
    && (o.maxWall < o.foreignWall || (o.maxWall == o.foreignWall && o.node < o.foreignNode))
  }

  /** A deletion, or a value past the purge cutoff. */
  predicate Deleted(job: Job, e: Entry) {
    e.tombstone || 0 < e.expireAt <= job.purgeBefore
  }

  /** The newest version of `k` deletes it for every reader, and below the job lies nothing it could hide. */
  ghost predicate Forgotten(job: Job, inputs: set<Entry>, k: Rank) {
    exists e :: e in inputs && e.key == k && (forall f :: f in inputs && f.key == k ==> f.seqno <= e.seqno)
                && job.bottommost && Deleted(job, e) && e.seqno < job.oldest && NothingOlder(job.origin, e.seqno)
  }

  /** A range tombstone that every snapshot sees hides the version. */
  ghost predicate Buried(job: Job, rdels: seq<Rdel>, e: Entry) {
    exists r :: r in rdels && Covers(r, e.key) && e.seqno < r.seqno < job.oldest
  }

  /** The version is the newest of its key for the live view or for a snapshot. */
  ghost predicate Wanted(job: Job, inputs: set<Entry>, e: Entry) {
    || (forall f :: f in inputs && f.key == e.key ==> f.seqno <= e.seqno)
    || exists s :: s in job.snapshots && e.seqno <= s
         && forall f :: f in inputs && f.key == e.key && f.seqno <= s ==> f.seqno <= e.seqno
  }

  /** As a version is written: a value past the cutoff as a deletion, and a deletion without expiry. */
  predicate WrittenAs(job: Job, e: Entry, f: Entry) {
    && f.key == e.key && f.seqno == e.seqno
    && (if Deleted(job, e) then f.tombstone && f.expireAt == 0 && (!e.tombstone ==> f.value == [])
        else f == e)
  }

  lemma ForgottenIs(job: Job, inputs: set<Entry>, k: Rank)
    requires InRangeSeqs(inputs)
    ensures Forgotten(job, inputs, k) <==> Droppable(job, inputs, k)
  {
    if Forgotten(job, inputs, k) {
      var e :| e in inputs && e.key == k && (forall f :: f in inputs && f.key == k ==> f.seqno <= e.seqno)
               && job.bottommost && Deleted(job, e) && e.seqno < job.oldest && NothingOlder(job.origin, e.seqno);
      assert Newest(inputs, k, MAX_SEQ, e) && MayDropKey(job, e);
    }
    if e :| Newest(inputs, k, MAX_SEQ, e) && MayDropKey(job, e) {
      forall f | f in inputs && f.key == k ensures f.seqno <= e.seqno { assert VersionAt(f, k, MAX_SEQ); }
    }
  }

  lemma BuriedIs(job: Job, rdels: seq<Rdel>, e: Entry)
    ensures Buried(job, rdels, e) <==> e.seqno < SettledCover(job, rdels, e.key)
  {
    var c := SettledCover(job, rdels, e.key);
    if Buried(job, rdels, e) {
      var r :| r in rdels && Covers(r, e.key) && e.seqno < r.seqno < job.oldest;
      assert VisibleCover(r, e.key, job.oldest - 1);
    }
    if e.seqno < c {
      var r :| r in rdels && VisibleCover(r, e.key, job.oldest - 1) && r.seqno == c;
    }
  }

  lemma WantedIs(job: Job, inputs: set<Entry>, e: Entry)
    requires InRangeSeqs(inputs) && e in inputs
    ensures Wanted(job, inputs, e) <==> Serves(job, inputs, e)
  {
    if forall f :: f in inputs && f.key == e.key ==> f.seqno <= e.seqno {
      assert Threshold(job, 0) == MAX_SEQ;
    } else if s :| s in job.snapshots && e.seqno <= s
                   && forall f :: f in inputs && f.key == e.key && f.seqno <= s ==> f.seqno <= e.seqno {
      var i :| 0 <= i < |job.snapshots| && job.snapshots[i] == s;
      assert Threshold(job, i + 1) == s;
    }
    if Serves(job, inputs, e) {
      var i :| 0 <= i <= |job.snapshots| && e.seqno <= Threshold(job, i)
               && forall f :: f in inputs && VersionAt(f, e.key, Threshold(job, i)) ==> f.seqno <= e.seqno;
      forall f | f in inputs && f.key == e.key && f.seqno <= Threshold(job, i) ensures f.seqno <= e.seqno {
        assert VersionAt(f, e.key, Threshold(job, i));
      }
      if i > 0 { assert Threshold(job, i) in job.snapshots; }
    }
  }

  lemma EmitIs(job: Job, e: Entry)
    ensures WrittenAs(job, e, Emit(job, e))
  {}

  /** The retention rule, said of the inputs alone. */
  ghost predicate Stays(c: Context, e: Entry) {
    !Forgotten(c.job, c.inputs, e.key) && !Buried(c.job, c.rdels, e) && Wanted(c.job, c.inputs, e)
  }

  /** A job that tracks its tombstones exactly writes exactly the versions that some reader can still get, each once. */
  lemma JobExactly(c: Context, outputs: seq<Output>)
    requires c.Valid() && Finished(c, outputs) && c.exact
    ensures forall e :: e in c.inputs && Stays(c, e) ==>
              exists f :: f in AllEntries(outputs) && WrittenAs(c.job, e, f)
    ensures forall f :: f in AllEntries(outputs) ==>
              exists e :: e in c.inputs && Stays(c, e) && WrittenAs(c.job, e, f)
  {
    hide Stays, Finished, CompactedAt, WrittenAs, AllEntries;
    forall e | e in c.inputs && Stays(c, e) ensures exists f :: f in AllEntries(outputs) && WrittenAs(c.job, e, f) {
      FinishedAt(c, outputs, e.key);
      KeyExactly(c, outputs, e.key);
    }
    forall f | f in AllEntries(outputs) ensures exists e :: e in c.inputs && Stays(c, e) && WrittenAs(c.job, e, f) {
      FinishedAt(c, outputs, f.key);
      KeyExactly(c, outputs, f.key);
    }
  }

  lemma FinishedAt(c: Context, outputs: seq<Output>, k: Rank)
    requires Finished(c, outputs)
    ensures CompactedAt(c.job, c.inputs, c.rdels, AllEntries(outputs), AllPieces(outputs), c.exact, k)
  {
    hide Shaped, Light, Tidy, Compacted;
  }

  lemma KeyExactly(c: Context, outputs: seq<Output>, k: Rank)
    requires c.Valid() && c.exact
    requires CompactedAt(c.job, c.inputs, c.rdels, AllEntries(outputs), AllPieces(outputs), true, k)
    ensures forall e :: e in c.inputs && e.key == k && Stays(c, e) ==>
              exists f :: f in AllEntries(outputs) && WrittenAs(c.job, e, f)
    ensures forall f :: f in AllEntries(outputs) && f.key == k ==>
              exists e :: e in c.inputs && Stays(c, e) && WrittenAs(c.job, e, f)
  {
    hide Stays, Kept, WrittenAs, PiecesAt, AllEntries, AllPieces, Droppable;
    var inexact, cover, dropped :|
      Compacted(c.job, c.inputs, c.rdels, AllEntries(outputs), AllPieces(outputs), inexact, cover, dropped, k)
      && inexact == [];
    forall e | e in c.inputs && e.key == k ensures Stays(c, e) <==> Kept(c.job, c.inputs, cover, dropped, e) {
      assert !InRanges(inexact, k);
      StaysIsKept(c, k, cover, dropped, e);
    }
    forall e | e in c.inputs && e.key == k && Stays(c, e)
      ensures exists f :: f in AllEntries(outputs) && WrittenAs(c.job, e, f)
    {
      EmitIs(c.job, e);
    }
    forall f | f in AllEntries(outputs) && f.key == k
      ensures exists e :: e in c.inputs && Stays(c, e) && WrittenAs(c.job, e, f)
    {
      var e :| e in c.inputs && e.key == k && Kept(c.job, c.inputs, cover, dropped, e) && f == Emit(c.job, e);
      EmitIs(c.job, e);
    }
  }

  lemma StaysIsKept(c: Context, k: Rank, cover: nat, dropped: bool, e: Entry)
    requires InRangeSeqs(c.inputs) && e in c.inputs && e.key == k && cover == SettledCover(c.job, c.rdels, k)
    requires dropped <==> exists n :: Newest(c.inputs, k, MAX_SEQ, n) && MayDropKey(c.job, n)
    ensures Stays(c, e) <==> Kept(c.job, c.inputs, cover, dropped, e)
  {
    assert dropped <==> Droppable(c.job, c.inputs, k);
    hide Forgotten, Buried, Wanted, Droppable, Serves, SettledCover;
    ForgottenIs(c.job, c.inputs, k);
    BuriedIs(c.job, c.rdels, e);
    WantedIs(c.job, c.inputs, e);
  }

  /** And keeps no range tombstone that hides nothing: in a bottommost job with nothing older outside, only those that
      some snapshot does not see. */
  lemma TombstonesReclaimed(c: Context, outputs: seq<Output>, o: Output, p: Rdel)
    requires Finished(c, outputs) && c.exact && o in outputs && p in o.pieces
    requires c.job.bottommost && NothingOlder(c.job.origin, p.seqno)
    ensures p.seqno >= c.job.oldest
  {
    assert Tidy(c, o);
  }

  // The gates.

  /** A version of the job hides nothing outside it exactly when its own node's versions there are all newer, and the
      least of another node's beats it under the merge rule. */
  lemma ClearIsRule(o: Origin, wall: nat, seqno: nat)
    requires o.node != o.foreignNode && seqno > 0
    ensures OutsideClear(o, wall, seqno) <==>
            && seqno < o.outsideSameMin
            && Gt(Version(o.foreignNode, o.foreignWall, 1), Version(o.node, wall, seqno))
  {}

  /** A range tombstone is dropped exactly when the output is bottommost, every snapshot sees it, it hides nothing
      outside the job, and no key it covers was tracked inexactly. */
  lemma DropsExactly(job: Job, inexact: seq<Range>, p: Rdel)
    requires p.start < p.end && forall i :: 0 <= i < |inexact| ==> inexact[i].from < inexact[i].to
    ensures DropsPiece(job, inexact, p) <==>
            && job.bottommost && p.seqno < job.oldest && OutsideClear(job.origin, job.origin.maxWall, p.seqno)
            && forall k :: Covers(p, k) ==> !InRanges(inexact, k)
  {
    if forall k :: Covers(p, k) ==> !InRanges(inexact, k) {
      forall i | 0 <= i < |inexact| ensures p.end <= inexact[i].from || inexact[i].to <= p.start {
        var k := Max(p.start, inexact[i].from);
        if k < p.end && k < inexact[i].to { assert Covers(p, k) && InRanges(inexact, k); }
      }
    }
  }
}
