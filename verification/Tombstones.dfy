/** Range tombstones and the cover they give a key. */
module Tombstones {
  import opened Keys

  /** Deletes every key of `[start, end)` written before `seqno`. */
  datatype Rdel = Rdel(start: Rank, end: Rank, seqno: nat)

  predicate Covers(r: Rdel, k: Rank) {
    r.start <= k < r.end
  }

  predicate VisibleCover(r: Rdel, k: Rank, view: nat) {
    Covers(r, k) && r.seqno <= view
  }

  /** The highest sequence among the tombstones of `rs` that cover `k` and are visible at `view` (0: none). */
  function CoverSeq(rs: seq<Rdel>, k: Rank, view: nat): (c: nat)
    ensures forall r :: r in rs && VisibleCover(r, k, view) ==> r.seqno <= c
    ensures c == 0 || exists r :: r in rs && VisibleCover(r, k, view) && r.seqno == c
  {
    if rs == [] then 0
    else
      var c := CoverSeq(rs[1..], k, view);
      if VisibleCover(rs[0], k, view) && rs[0].seqno > c then rs[0].seqno else c
  }

  /** Every tombstone of `a` that covers `k` at `view` is matched by one of `b` at least as new. */
  ghost predicate Matched(a: seq<Rdel>, b: seq<Rdel>, k: Rank, view: nat) {
    forall r :: r in a && VisibleCover(r, k, view) ==>
      exists q :: q in b && VisibleCover(q, k, view) && q.seqno >= r.seqno
  }

  lemma MatchedCover(a: seq<Rdel>, b: seq<Rdel>, k: Rank, view: nat)
    requires Matched(a, b, k, view)
    ensures CoverSeq(a, k, view) <= CoverSeq(b, k, view)
  {
    var c := CoverSeq(a, k, view);
    if c != 0 {
      var r :| r in a && VisibleCover(r, k, view) && r.seqno == c;
      var q :| q in b && VisibleCover(q, k, view) && q.seqno >= r.seqno;
    }
  }

  ghost predicate StartSorted(rs: seq<Rdel>) {
    forall i, j :: 0 <= i < j < |rs| ==> rs[i].start <= rs[j].start
  }

  lemma StartSortedTail(rs: seq<Rdel>)
    requires StartSorted(rs) && rs != []
    ensures StartSorted(rs[1..])
    ensures forall r :: r in rs ==> rs[0].start <= r.start
  {}

  lemma StartSortedCons(r: Rdel, rs: seq<Rdel>)
    requires StartSorted(rs)
    requires forall q :: q in rs ==> r.start <= q.start
    ensures StartSorted([r] + rs)
  {
    var s := [r] + rs;
    forall i, j | 0 <= i < j < |s| ensures s[i].start <= s[j].start {
      assert s[j] == rs[j - 1];
      assert s[j] in rs;
    }
  }
}
