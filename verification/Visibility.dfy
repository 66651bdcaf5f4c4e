/** The reader's rule (src/model.rs): the highest sequence at or below the view wins, and a winning
    deletion, range tombstone or expired value reads as absent. */
module Visibility {
  import opened Keys
  import opened Tombstones

  type Value = seq<Byte>

  /** Sequence numbers are `u64`; the live view reads at the largest. */
  const MAX_SEQ: nat := 0xFFFF_FFFF_FFFF_FFFF

  /** One point version. `expireAt == 0` means the value never expires. */
  datatype Entry = Entry(key: Rank, seqno: nat, tombstone: bool, value: Value, expireAt: nat)

  predicate Expired(e: Entry, now: nat) {
    e.expireAt != 0 && e.expireAt <= now
  }

  predicate VersionAt(e: Entry, k: Rank, view: nat) {
    e.key == k && e.seqno <= view
  }

  ghost predicate Newest(points: set<Entry>, k: Rank, view: nat, e: Entry) {
    && e in points && VersionAt(e, k, view)
    && forall f :: f in points && VersionAt(f, k, view) ==> f.seqno <= e.seqno
  }

  ghost predicate Unhidden(rdels: seq<Rdel>, k: Rank, view: nat, e: Entry) {
    CoverSeq(rdels, k, view) <= e.seqno
  }

  /** Reading `k` at `view` and clock `now` yields `v`. */
  ghost predicate Sees(points: set<Entry>, rdels: seq<Rdel>, k: Rank, view: nat, now: nat, v: Value) {
    exists e :: SeesAs(points, rdels, k, view, now, v, e)
  }

  ghost predicate SeesAs(points: set<Entry>, rdels: seq<Rdel>, k: Rank, view: nat, now: nat, v: Value, e: Entry) {
    && Newest(points, k, view, e) && Unhidden(rdels, k, view, e)
    && !e.tombstone && !Expired(e, now) && e.value == v
  }

  /** No two versions of a key carry one sequence number. */
  ghost predicate UniqueSeqs(points: set<Entry>) {
    forall e, f :: e in points && f in points && e.key == f.key && e.seqno == f.seqno ==> e == f
  }

  lemma {:induction false} NewestExists(points: set<Entry>, k: Rank, view: nat, p: Entry) returns (e: Entry)
    requires p in points && VersionAt(p, k, view)
    ensures Newest(points, k, view, e)
    decreases |points|
  {
    var rest := points - {p};
    if f :| f in rest && VersionAt(f, k, view) {
      var g := NewestExists(rest, k, view, f);
      e := if g.seqno >= p.seqno then g else p;
    } else {
      e := p;
    }
    forall f | f in points && VersionAt(f, k, view) ensures f.seqno <= e.seqno {
      if f != p { assert f in rest; }
    }
  }

  /** The reader's answer is a function of the database. */
  lemma SeesUnique(points: set<Entry>, rdels: seq<Rdel>, k: Rank, view: nat, now: nat, v: Value, w: Value)
    requires UniqueSeqs(points)
    requires Sees(points, rdels, k, view, now, v) && Sees(points, rdels, k, view, now, w)
    ensures v == w
  {
    var e :| SeesAs(points, rdels, k, view, now, v, e);
    var f :| SeesAs(points, rdels, k, view, now, w, f);
    assert e.seqno == f.seqno;
  }

  datatype Winner = Nothing | RangeDeleted(seqno: nat) | Point(index: nat)

  /** `model_visible_value`: one pass over a key's versions, one over the tombstones covering it. */
  method VisibleValue(versions: seq<Entry>, covering: seq<nat>, view: nat, now: nat, ghost k: Rank,
                      ghost rdels: seq<Rdel>)
    returns (live: bool, index: nat)
    requires forall i :: 0 <= i < |versions| ==> versions[i].key == k
    requires forall i, j :: 0 <= i < j < |versions| ==> versions[i].seqno != versions[j].seqno
    requires forall q :: q in covering <==> exists r :: r in rdels && Covers(r, k) && r.seqno == q
    ensures live ==> index < |versions|
    ensures live ==> Sees(Points(versions), rdels, k, view, now, versions[index].value)
    ensures !live ==> forall v :: !Sees(Points(versions), rdels, k, view, now, v)
  {
    var win := Nothing;
    var seqno := 0;
    var i := 0;
    while i < |versions|
      invariant 0 <= i <= |versions|
      invariant win.Nothing? || (win.Point? && win.index < i && seqno == versions[win.index].seqno <= view)
      invariant forall j :: 0 <= j < i && versions[j].seqno <= view ==> win.Point? && versions[j].seqno <= seqno
    {
      if versions[i].seqno <= view && (win.Nothing? || versions[i].seqno > seqno) {
        win, seqno := Point(i), versions[i].seqno;
      }
      i := i + 1;
    }
    ghost var best := seqno;
    ghost var point := win;
    var j := 0;
    while j < |covering|
      invariant 0 <= j <= |covering|
      invariant win.RangeDeleted? || win == point
      invariant win == point ==> seqno == best && forall l :: 0 <= l < j && covering[l] <= view ==>
                  win.Point? && covering[l] <= seqno
      invariant win.RangeDeleted? ==> exists l ::
                  0 <= l < j && covering[l] <= view && (point.Point? ==> covering[l] > best)
    {
      if covering[j] <= view && (win.Nothing? || covering[j] > seqno) {
        win, seqno := RangeDeleted(covering[j]), covering[j];
      }
      j := j + 1;
    }
    live, index := false, 0;
    if win.Point? {
      index := win.index;
      live := !versions[index].tombstone && !Expired(versions[index], now);
    }
    ghost var c := CoverSeq(rdels, k, view);
    if win == point && point.Point? {
      ghost var e := versions[index];
      assert c <= e.seqno by {
        if c > 0 {
          var r :| r in rdels && VisibleCover(r, k, view) && r.seqno == c;
          assert c in covering;
        }
      }
      assert Newest(Points(versions), k, view, e);
      assert live ==> SeesAs(Points(versions), rdels, k, view, now, e.value, e);
    } else if point.Point? {
      ghost var l :| 0 <= l < |covering| && covering[l] <= view && covering[l] > best;
      assert covering[l] in covering;
    }
  }

  function Points(versions: seq<Entry>): set<Entry> {
    set e | e in versions
  }
}
