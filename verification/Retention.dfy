/** What a compaction may drop without any reader noticing (src/compact.rs, src/model.rs). */
module Retention {
  import opened Keys
  import opened Tombstones
  import opened Visibility
  import opened Coverage

  /** The origin half of the tombstone-drop gates (`DropOrigin`). */
  datatype Origin = Origin(node: nat, maxWall: nat, outsideSameMin: nat, foreignWall: nat, foreignNode: nat)

  /** What `compact_start` captures for one job. */
  datatype Job = Job(snapshots: seq<nat>, oldest: nat, bottommost: bool, purgeBefore: nat, origin: Origin) {
    /** `oldest` bounds every live snapshot from below. */
    predicate WellFormed() {
      && oldest <= MAX_SEQ
      && forall i :: 0 <= i < |snapshots| ==> oldest <= snapshots[i] <= MAX_SEQ
    }
  }

  /** `outside_clear`: a version `(wall, seqno)` of this job hides nothing outside it. */
  predicate OutsideClear(o: Origin, wall: nat, seqno: nat) {
    && seqno < o.outsideSameMin
    && (wall < o.foreignWall || (wall == o.foreignWall && o.node < o.foreignNode))
  }

  /** A deletion, or a value the TTL purge turns into one. */
  predicate EffectiveTombstone(job: Job, e: Entry) {
    e.tombstone || (e.expireAt != 0 && e.expireAt <= job.purgeBefore)
  }

  /** `may_drop_key`, asked of a key's newest version. */
  predicate MayDropKey(job: Job, e: Entry) {
    job.bottommost && EffectiveTombstone(job, e) && e.seqno < job.oldest
        && OutsideClear(job.origin, job.origin.maxWall, e.seqno)
  }

  /** What the merge writes for a kept version: an expired value leaves as a deletion at its own sequence. */
  function Emit(job: Job, e: Entry): (r: Entry)
    ensures r.key == e.key && r.seqno == e.seqno
    ensures !r.tombstone ==> r == e && !EffectiveTombstone(job, e)
  {
    var purged := !e.tombstone && e.expireAt != 0 && e.expireAt <= job.purgeBefore;
    Entry(e.key, e.seqno, e.tombstone || purged,
          if purged then [] else e.value,
          if e.tombstone || purged then 0 else e.expireAt)
  }

  /** Threshold 0 is the live view, the others are the snapshots. */
  function Threshold(job: Job, i: nat): nat
    requires i <= |job.snapshots|
  {
    if i == 0 then MAX_SEQ else job.snapshots[i - 1]
  }

  /** `e` is the newest version of its key at some threshold. */
  ghost predicate Serves(job: Job, inputs: set<Entry>, e: Entry) {
    exists i :: 0 <= i <= |job.snapshots| && e.seqno <= Threshold(job, i)
      && forall f :: f in inputs && VersionAt(f, e.key, Threshold(job, i)) ==> f.seqno <= e.seqno
  }

  /** The retention rule for one input version, given its key's cover and whether the whole key is dropped. */
  ghost predicate Kept(job: Job, inputs: set<Entry>, cover: nat, dropped: bool, e: Entry) {
    !dropped && e.seqno >= cover && Serves(job, inputs, e)
  }

  /** The views the job protects: the snapshots it was started with, and every view at or past all it merges
      (the live view, and any snapshot taken later). */
  ghost predicate Protected(job: Job, inputs: set<Entry>, rdels: seq<Rdel>, view: nat) {
    || view in job.snapshots
    || ((forall e :: e in inputs ==> e.seqno <= view) && forall r :: r in rdels ==> r.seqno <= view)
  }

  /** The highest cover every reader sees. */
  function SettledCover(job: Job, rdels: seq<Rdel>, k: Rank): nat {
    if job.oldest == 0 then 0 else CoverSeq(rdels, k, job.oldest - 1)
  }

  /** `RdelDrop::drops`: the piece hides nothing that is left. */
  predicate DropsPiece(job: Job, inexact: seq<Range>, piece: Rdel) {
    && job.bottommost && piece.seqno < job.oldest
    && piece.seqno < job.origin.outsideSameMin
    && (job.origin.maxWall < job.origin.foreignWall
        || (job.origin.maxWall == job.origin.foreignWall && job.origin.node < job.origin.foreignNode))
    && forall i :: 0 <= i < |inexact| ==> piece.end <= inexact[i].from || inexact[i].to <= piece.start
  }

  /** What the job did at key `k`: the versions it emitted, the cover it computed, the pieces it kept. */
  ghost predicate Compacted(job: Job, inputs: set<Entry>, rdels: seq<Rdel>, emitted: set<Entry>, pieces: seq<Rdel>,
                            inexact: seq<Range>, cover: nat, dropped: bool, k: Rank) {
    // the emitted versions are exactly the kept ones
    && (forall e :: e in inputs && e.key == k && Kept(job, inputs, cover, dropped, e) ==> Emit(job, e) in emitted)
    && (forall f :: f in emitted && f.key == k ==>
          exists e :: e in inputs && e.key == k && Kept(job, inputs, cover, dropped, e) && f == Emit(job, e))
    // a whole key is dropped exactly when its newest version allows it
    && (dropped <==> exists e :: Newest(inputs, k, MAX_SEQ, e) && MayDropKey(job, e))
    // the cover is sound, and exact away from the inexact ranges
    && cover <= SettledCover(job, rdels, k)
    && ((exists e :: e in inputs && e.key == k) && !InRanges(inexact, k) ==> cover == SettledCover(job, rdels, k))
    // a piece that is missing at the key was dropped by the rule
    && (forall view: nat :: view >= job.oldest || (forall r :: r in rdels ==> r.seqno <= view) ==>
          PiecesAt(job, rdels, pieces, inexact, k, view))
  }

  ghost predicate PiecesAt(job: Job, rdels: seq<Rdel>, pieces: seq<Rdel>, inexact: seq<Range>, k: Rank, view: nat) {
    var c := CoverSeq(rdels, k, view);
    && CoverSeq(pieces, k, view) <= c
    && (CoverSeq(pieces, k, view) == c || (c < job.oldest && c < job.origin.outsideSameMin && !InRanges(inexact, k)))
  }

  /** Everything outside the job that shares key `k` with it is at or above the captured minimum. */
  ghost predicate OutsideAbove(job: Job, outside: set<Entry>, k: Rank) {
    forall e :: e in outside && e.key == k ==> e.seqno >= job.origin.outsideSameMin
  }

  ghost predicate InRangeSeqs(inputs: set<Entry>) {
    forall e :: e in inputs ==> e.seqno <= MAX_SEQ
  }

  lemma ServesView(job: Job, inputs: set<Entry>, rdels: seq<Rdel>, view: nat, k: Rank, e: Entry)
    requires job.WellFormed() && InRangeSeqs(inputs) && Protected(job, inputs, rdels, view)
             && Newest(inputs, k, view, e)
    ensures Serves(job, inputs, e)
  {
    if view in job.snapshots {
      var i :| 0 <= i < |job.snapshots| && job.snapshots[i] == view;
      assert Threshold(job, i + 1) == view;
    } else {
      assert Threshold(job, 0) == MAX_SEQ;
      forall f | f in inputs && VersionAt(f, e.key, MAX_SEQ) ensures f.seqno <= e.seqno {
        assert VersionAt(f, k, view);
      }
    }
  }

  lemma SettledBelow(job: Job, inputs: set<Entry>, rdels: seq<Rdel>, k: Rank, view: nat)
    requires job.WellFormed() && Protected(job, inputs, rdels, view)
    ensures SettledCover(job, rdels, k) <= CoverSeq(rdels, k, view)
    ensures CoverSeq(rdels, k, view) < job.oldest ==> CoverSeq(rdels, k, view) <= SettledCover(job, rdels, k)
    ensures view >= job.oldest || (forall r :: r in rdels ==> r.seqno <= view)
  {
    if view in job.snapshots {
      var i :| 0 <= i < |job.snapshots| && job.snapshots[i] == view;
    }
    var s, c := SettledCover(job, rdels, k), CoverSeq(rdels, k, view);
    if s > 0 {
      var r :| r in rdels && VisibleCover(r, k, job.oldest - 1) && r.seqno == s;
      assert VisibleCover(r, k, view);
    }
    if 0 < c < job.oldest {
      var r :| r in rdels && VisibleCover(r, k, view) && r.seqno == c;
      assert VisibleCover(r, k, job.oldest - 1);
    }
  }

  /** The version a reader gets from the inputs is emitted unchanged. */
  lemma LiveIsKept(job: Job, inputs: set<Entry>, rdels: seq<Rdel>, emitted: set<Entry>, pieces: seq<Rdel>,
                   inexact: seq<Range>, cover: nat, dropped: bool, k: Rank, view: nat, now: nat, e: Entry)
    requires job.WellFormed() && InRangeSeqs(inputs) && UniqueSeqs(inputs)
    requires Compacted(job, inputs, rdels, emitted, pieces, inexact, cover, dropped, k)
    requires Protected(job, inputs, rdels, view) && now >= job.purgeBefore
    requires Newest(inputs, k, view, e) && CoverSeq(rdels, k, view) <= e.seqno && !e.tombstone && !Expired(e, now)
    ensures e in emitted
  {
    if dropped {
      var d :| Newest(inputs, k, MAX_SEQ, d) && MayDropKey(job, d);
      DropVisible(job, inputs, rdels, view, k, d, e);
    }
    ServesView(job, inputs, rdels, view, k, e);
    SettledBelow(job, inputs, rdels, k, view);
    assert Emit(job, e) == e;
  }

  /** The compaction theorem at one key, forwards: nothing a reader saw is lost. */
  lemma StillSees(job: Job, inputs: set<Entry>, rdels: seq<Rdel>, emitted: set<Entry>, pieces: seq<Rdel>,
                  inexact: seq<Range>, cover: nat, dropped: bool, outside: set<Entry>, outsideRdels: seq<Rdel>,
                  k: Rank, view: nat, now: nat, v: Value)
    requires job.WellFormed() && InRangeSeqs(inputs) && UniqueSeqs(inputs)
    requires Compacted(job, inputs, rdels, emitted, pieces, inexact, cover, dropped, k)
    requires Protected(job, inputs, rdels, view) && now >= job.purgeBefore
    requires Sees(outside + inputs, outsideRdels + rdels, k, view, now, v)
    ensures Sees(outside + emitted, outsideRdels + pieces, k, view, now, v)
  {
    var e :| SeesAs(outside + inputs, outsideRdels + rdels, k, view, now, v, e);
    SettledBelow(job, inputs, rdels, k, view);
    assert PiecesAt(job, rdels, pieces, inexact, k, view);
    CoverConcat(outsideRdels, rdels, k, view);
    CoverConcat(outsideRdels, pieces, k, view);
    if e in outside {
      assert e in outside + emitted;
    } else {
      assert Newest(inputs, k, view, e) by {
        forall f | f in inputs && VersionAt(f, k, view) ensures f.seqno <= e.seqno { assert f in outside + inputs; }
      }
      LiveIsKept(job, inputs, rdels, emitted, pieces, inexact, cover, dropped, k, view, now, e);
      assert e in outside + emitted;
    }
    assert Newest(outside + emitted, k, view, e) by {
      forall f | f in outside + emitted && VersionAt(f, k, view) ensures f.seqno <= e.seqno {
        if f in emitted {
          var g :| g in inputs && g.key == k && f == Emit(job, g);
          assert g in outside + inputs;
        } else {
          assert f in outside + inputs;
        }
      }
    }
    assert SeesAs(outside + emitted, outsideRdels + pieces, k, view, now, v, e);
  }

  /** A dropped key's newest version was already deleted, for every protected view. */
  lemma DropVisible(job: Job, inputs: set<Entry>, rdels: seq<Rdel>, view: nat, k: Rank, d: Entry, e: Entry)
    requires job.WellFormed() && InRangeSeqs(inputs) && UniqueSeqs(inputs) && Protected(job, inputs, rdels, view)
    requires Newest(inputs, k, MAX_SEQ, d) && MayDropKey(job, d) && Newest(inputs, k, view, e)
    ensures e == d
  {
    if view in job.snapshots {
      var i :| 0 <= i < |job.snapshots| && job.snapshots[i] == view;
    }
    assert VersionAt(d, k, view) && VersionAt(e, k, MAX_SEQ);
  }

  lemma CoverConcat(a: seq<Rdel>, b: seq<Rdel>, k: Rank, view: nat)
    ensures CoverSeq(a + b, k, view)
            == if CoverSeq(a, k, view) >= CoverSeq(b, k, view) then CoverSeq(a, k, view) else CoverSeq(b, k, view)
  {
    var c := CoverSeq(a + b, k, view);
    if c > 0 {
      var r :| r in a + b && VisibleCover(r, k, view) && r.seqno == c;
      assert r in a || r in b;
    }
    if CoverSeq(a, k, view) > 0 {
      var r :| r in a && VisibleCover(r, k, view) && r.seqno == CoverSeq(a, k, view);
      assert r in a + b;
    }
    if CoverSeq(b, k, view) > 0 {
      var r :| r in b && VisibleCover(r, k, view) && r.seqno == CoverSeq(b, k, view);
      assert r in a + b;
    }
  }

  /** A visible version newer than anything the compacted store shows is hidden by a tombstone it still has. */
  lemma NewestSurvives(job: Job, inputs: set<Entry>, rdels: seq<Rdel>, emitted: set<Entry>, pieces: seq<Rdel>,
                       inexact: seq<Range>, cover: nat, dropped: bool, outside: set<Entry>,
                       k: Rank, view: nat, e: Entry, p: Entry)
    requires job.WellFormed() && InRangeSeqs(inputs)
    requires Compacted(job, inputs, rdels, emitted, pieces, inexact, cover, dropped, k)
    requires OutsideAbove(job, outside, k) && Protected(job, inputs, rdels, view)
    requires Newest(outside + emitted, k, view, e) && CoverSeq(pieces, k, view) <= e.seqno
    requires p in inputs && VersionAt(p, k, view)
    ensures p.seqno <= e.seqno
  {
    var q := NewestExists(inputs, k, view, p);
    ServesView(job, inputs, rdels, view, k, q);
    SettledBelow(job, inputs, rdels, k, view);
    assert PiecesAt(job, rdels, pieces, inexact, k, view);
    if Kept(job, inputs, cover, dropped, q) {
      assert Emit(job, q) in outside + emitted;
    } else if dropped {
      var d :| Newest(inputs, k, MAX_SEQ, d) && MayDropKey(job, d);
      assert q.seqno <= d.seqno;
    }
  }

  /** The compaction theorem at one key, backwards: nothing a reader could not see comes back. */
  lemma NothingReturns(job: Job, inputs: set<Entry>, rdels: seq<Rdel>, emitted: set<Entry>, pieces: seq<Rdel>,
                       inexact: seq<Range>, cover: nat, dropped: bool, outside: set<Entry>, outsideRdels: seq<Rdel>,
                       k: Rank, view: nat, now: nat, v: Value)
    requires job.WellFormed() && InRangeSeqs(inputs)
    requires Compacted(job, inputs, rdels, emitted, pieces, inexact, cover, dropped, k)
    requires OutsideAbove(job, outside, k)
    requires Protected(job, inputs, rdels, view) && now >= job.purgeBefore
    requires Sees(outside + emitted, outsideRdels + pieces, k, view, now, v)
    ensures Sees(outside + inputs, outsideRdels + rdels, k, view, now, v)
  {
    var e :| SeesAs(outside + emitted, outsideRdels + pieces, k, view, now, v, e);
    SettledBelow(job, inputs, rdels, k, view);
    assert PiecesAt(job, rdels, pieces, inexact, k, view);
    CoverConcat(outsideRdels, rdels, k, view);
    CoverConcat(outsideRdels, pieces, k, view);
    if e !in outside {
      var g :| g in inputs && g.key == k && Kept(job, inputs, cover, dropped, g) && e == Emit(job, g);
      assert e == g;
    }
    assert e in outside + inputs;
    forall f | f in outside + inputs && VersionAt(f, k, view) ensures f.seqno <= e.seqno {
      if f in outside {
        assert f in outside + emitted;
      } else {
        NewestSurvives(job, inputs, rdels, emitted, pieces, inexact, cover, dropped, outside, k, view, e, f);
      }
    }
    assert CoverSeq(rdels, k, view) <= e.seqno;
    assert SeesAs(outside + inputs, outsideRdels + rdels, k, view, now, v, e);
  }
}
