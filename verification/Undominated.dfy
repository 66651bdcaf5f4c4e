/** Which of the open tombstones can still decide a key's cover: those that no newer one reaching as far dominates
    (`Compaction::cover_key` of src/compact.rs). */
module Undominated {
  import opened Keys
  import opened Tombstones

  /** `a` is at least as new as `r` and reaches at least as far. */
  predicate Dominates(a: Rdel, r: Rdel) {
    a.seqno >= r.seqno && a.end >= r.end
  }

  /** Every snapshot sees it, and it reaches past `key`. */
  predicate Open(r: Rdel, oldest: nat, key: Rank) {
    r.seqno < oldest && r.end > key
  }

  /** Only its like dominates it. */
  ghost predicate Deciding(seen: seq<Rdel>, oldest: nat, key: Rank, r: Rdel) {
    Open(r, oldest, key) && forall q :: q in seen && Open(q, oldest, key) && Dominates(q, r) ==> Dominates(r, q)
  }

  /** The open tombstones that nothing dominates, by sequence and end. */
  ghost function Edge(seen: seq<Rdel>, oldest: nat, key: Rank): set<(nat, Rank)> {
    set r | r in seen && Deciding(seen, oldest, key, r) :: (r.seqno, r.end)
  }

  /** None of them dominates another. */
  ghost predicate Apart(active: seq<Rdel>) {
    forall i, j :: 0 <= i < |active| && 0 <= j < |active| && i != j ==> !Dominates(active[i], active[j])
  }

  /** Some tracked tombstone dominates `r`. */
  ghost predicate DominatedIn(active: seq<Rdel>, r: Rdel) {
    exists a :: a in active && Dominates(a, r)
  }

  /** The tracked tombstones are open, none dominates another, and every open one is dominated by one of them. */
  ghost predicate Complete(seen: seq<Rdel>, active: seq<Rdel>, oldest: nat, key: Rank) {
    && Apart(active)
    && (forall a :: a in active ==> a in seen && Open(a, oldest, key))
    && (forall r :: r in seen && Open(r, oldest, key) ==> DominatedIn(active, r))
  }

  ghost function Pairs(active: seq<Rdel>): set<(nat, Rank)> {
    set a | a in active :: (a.seqno, a.end)
  }

  lemma {:induction false} PairsCount(active: seq<Rdel>)
    requires Apart(active)
    ensures |Pairs(active)| == |active|
  {
    if active != [] {
      var rest, last := active[..|active| - 1], active[|active| - 1];
      PairsCount(rest);
      forall a | a in rest ensures (a.seqno, a.end) != (last.seqno, last.end) {
        var i :| 0 <= i < |rest| && rest[i] == a;
        assert active[i] == a && !Dominates(active[i], active[|active| - 1]);
      }
      assert active == rest + [last];
      assert Pairs(active) == Pairs(rest) + {(last.seqno, last.end)};
    }
  }

  lemma {:induction false} SameIfBoth(active: seq<Rdel>, a: Rdel, b: Rdel)
    requires Apart(active) && a in active && b in active && Dominates(b, a)
    ensures a == b
  {
    var i :| 0 <= i < |active| && active[i] == a;
    var j :| 0 <= j < |active| && active[j] == b;
  }

  /** A complete set is the edge, each of its tombstones once. */
  lemma EdgeIs(seen: seq<Rdel>, active: seq<Rdel>, oldest: nat, key: Rank)
    requires Complete(seen, active, oldest, key)
    ensures Edge(seen, oldest, key) == Pairs(active) && |Edge(seen, oldest, key)| == |active|
  {
    forall a | a in active ensures Deciding(seen, oldest, key, a) {
      forall q | q in seen && Open(q, oldest, key) && Dominates(q, a) ensures Dominates(a, q) {
        var b :| b in active && Dominates(b, q);
        SameIfBoth(active, a, b);
      }
    }
    forall r | r in seen && Deciding(seen, oldest, key, r) ensures (r.seqno, r.end) in Pairs(active) {
      var a :| a in active && Dominates(a, r);
    }
    PairsCount(active);
  }

  /** A tombstone that is not open, or dominated, changes nothing. */
  lemma IgnoredComplete(seen: seq<Rdel>, active: seq<Rdel>, oldest: nat, key: Rank, r: Rdel)
    requires Complete(seen, active, oldest, key) && (!Open(r, oldest, key) || DominatedIn(active, r))
    ensures Complete(seen + [r], active, oldest, key)
  {}

  /** What the new tombstone dominates goes, and it comes in. */
  lemma TrackedComplete(seen: seq<Rdel>, active: seq<Rdel>, oldest: nat, key: Rank, r: Rdel, kept: seq<Rdel>)
    requires Complete(seen, active, oldest, key) && Open(r, oldest, key) && !DominatedIn(active, r)
    requires Apart(kept) && forall a :: a in kept <==> a in active && !Dominates(r, a)
    ensures Complete(seen + [r], kept + [r], oldest, key)
  {
    var now := kept + [r];
    forall i, j | 0 <= i < |now| && 0 <= j < |now| && i != j ensures !Dominates(now[i], now[j]) {
      assert i < |kept| ==> kept[i] in kept;
      assert j < |kept| ==> kept[j] in kept;
    }
    forall q | q in seen + [r] && Open(q, oldest, key) ensures DominatedIn(now, q) {
      assert r in now;
      if q in seen {
        var a :| a in active && Dominates(a, q);
        assert !Dominates(r, a) ==> a in now;
      }
    }
  }

  /** What no longer reaches the key goes. */
  lemma ExpiredComplete(seen: seq<Rdel>, active: seq<Rdel>, oldest: nat, key: Rank, next: Rank, kept: seq<Rdel>)
    requires Complete(seen, active, oldest, key) && key <= next
    requires Apart(kept) && forall a :: a in kept <==> a in active && a.end > next
    ensures Complete(seen, kept, oldest, next)
  {
    forall r | r in seen && Open(r, oldest, next) ensures DominatedIn(kept, r) {
      assert Open(r, oldest, key);
      var a :| a in active && Dominates(a, r);
      assert a in kept;
    }
  }
}
