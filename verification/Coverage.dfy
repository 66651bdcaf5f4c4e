/** The coverage stream: which tombstone decides each key's cover, tracked in eight slots
    (`Compaction::cover_key` and `Compaction::evict` of src/compact.rs). */
module Coverage {
  import opened Keys
  import opened Tombstones
  import opened RdelMerge
  import opened Undominated

  const COVER_ACTIVE: nat := 8
  const INEXACT_RANGES: nat := 4

  datatype Range = Range(from: Rank, to: Rank)

  predicate InRanges(ranges: seq<Range>, k: Rank) {
    exists i :: 0 <= i < |ranges| && ranges[i].from <= k < ranges[i].to
  }

  /** `evict`: from `from` up to `to` a tombstone that reaches is no longer tracked, so covers there may be too low. */
  function Evict(ranges: seq<Range>, from: Rank, to: Rank): (r: seq<Range>)
    requires |ranges| <= INEXACT_RANGES
    ensures |r| <= 4
  {
    var n := |ranges|;
    if n > 0 && (n == INEXACT_RANGES || from <= ranges[n - 1].to) then
      ranges[n - 1 := ranges[n - 1].(to := Max(ranges[n - 1].to, to))]
    else ranges + [Range(from, to)]
  }

  /** Evictions come in key order, so widening the last range loses no key. */
  lemma EvictCovers(ranges: seq<Range>, from: Rank, to: Rank)
    requires |ranges| <= INEXACT_RANGES
    requires forall i :: 0 <= i < |ranges| ==> ranges[i].from <= from
    ensures forall k :: InRanges(ranges, k) || from <= k < to ==> InRanges(Evict(ranges, from, to), k)
    ensures forall i :: 0 <= i < |Evict(ranges, from, to)| ==> Evict(ranges, from, to)[i].from <= from
  {
    var r := Evict(ranges, from, to);
    forall k | InRanges(ranges, k) || from <= k < to ensures InRanges(r, k) {
      if InRanges(ranges, k) {
        var i :| 0 <= i < |ranges| && ranges[i].from <= k < ranges[i].to;
        assert r[i].from <= k < r[i].to;
      } else {
        assert r[|r| - 1].from <= k < r[|r| - 1].to;
      }
    }
  }

  /** No key becomes inexact that the evicted tombstone does not reach, unless all four ranges are taken: then the last
      one also takes in what lies between. */
  lemma EvictTight(ranges: seq<Range>, from: Rank, to: Rank)
    requires |ranges| <= INEXACT_RANGES
    ensures forall k :: InRanges(Evict(ranges, from, to), k) ==>
              || InRanges(ranges, k) || from <= k < to
              || (|ranges| == 4 && ranges[3].to <= k < from)
    ensures ranges != [] && from <= ranges[|ranges| - 1].to ==> |Evict(ranges, from, to)| == |ranges|
    ensures |ranges| < 4 && (ranges != [] ==> ranges[|ranges| - 1].to < from) ==>
              Evict(ranges, from, to) == ranges + [Range(from, to)]
  {
    var r := Evict(ranges, from, to);
    forall k | InRanges(r, k) && !InRanges(ranges, k)
      ensures from <= k < to || (|ranges| == 4 && ranges[3].to <= k < from)
    {
      var i :| 0 <= i < |r| && r[i].from <= k < r[i].to;
      if i < |ranges| { assert !(ranges[i].from <= k < ranges[i].to); }
    }
  }

  /** Removes every tombstone ending at or below `key`, each by moving the last one into its place. */
  method Expire(active: seq<Rdel>, key: Rank) returns (kept: seq<Rdel>)
    ensures |kept| <= |active|
    ensures forall a :: a in kept <==> a in active && a.end > key
    ensures Apart(active) ==> Apart(kept)
  {
    kept := active;
    var i := 0;
    while i < |kept|
      invariant 0 <= i <= |kept| <= |active|
      invariant forall a :: a in kept ==> a in active
      invariant forall a :: a in active && a.end > key ==> a in kept
      invariant forall j :: 0 <= j < i ==> kept[j].end > key
      invariant Apart(active) ==> Apart(kept)
      decreases |kept| - i
    {
      if kept[i].end <= key {
        ghost var was := kept;
        var n := |kept| - 1;
        kept := kept[i := kept[n]][..n];
        SwapRemoved(was, i, kept);
      } else {
        i := i + 1;
      }
    }
  }

  /** Removes every tombstone that `r` dominates, the same way. */
  method Prune(active: seq<Rdel>, r: Rdel) returns (kept: seq<Rdel>)
    ensures |kept| <= |active| && (|kept| == |active| ==> kept == active)
    ensures forall a :: a in kept <==> a in active && !Dominates(r, a)
    ensures (forall a :: a in active ==> !Dominates(r, a)) ==> kept == active
    ensures Apart(active) ==> Apart(kept)
  {
    kept := active;
    var i := 0;
    while i < |kept|
      invariant 0 <= i <= |kept| <= |active|
      invariant |kept| == |active| ==> kept == active
      invariant (forall a :: a in active ==> !Dominates(r, a)) ==> kept == active
      invariant forall a :: a in kept ==> a in active
      invariant forall a :: a in active && !Dominates(r, a) ==> a in kept
      invariant forall j :: 0 <= j < i ==> !Dominates(r, kept[j])
      invariant Apart(active) ==> Apart(kept)
      decreases |kept| - i
    {
      if Dominates(r, kept[i]) {
        ghost var was := kept;
        var n := |kept| - 1;
        kept := kept[i := kept[n]][..n];
        SwapRemoved(was, i, kept);
      } else {
        i := i + 1;
      }
    }
  }

  lemma SwapRemoved(was: seq<Rdel>, i: nat, now: seq<Rdel>)
    requires i < |was| && now == was[i := was[|was| - 1]][..|was| - 1]
    ensures forall a :: a in now ==> a in was
    ensures forall a :: a in was && a != was[i] ==> a in now
    ensures forall j :: 0 <= j < i ==> now[j] == was[j]
    ensures Apart(was) ==> Apart(now)
  {
    forall a | a in was && a != was[i] ensures a in now {
      var j :| 0 <= j < |was| && was[j] == a;
      if j == |was| - 1 { assert now[i] == a; } else { assert now[j] == a; }
    }
  }

  /** Everything taken into account (`seen`) starts at or below `key`, every active tombstone is one of
      those and older than every snapshot, and at each key from `key` on outside the inexact ranges
      some active tombstone is at least as new as any taken one that covers it. */
  ghost predicate Tracks(seen: seq<Rdel>, active: seq<Rdel>, inexact: seq<Range>, oldest: nat, key: Rank) {
    && (forall r :: r in seen ==> r.start <= key)
    && (forall a :: a in active ==> a in seen && a.seqno < oldest)
    && (forall i :: 0 <= i < |inexact| ==> inexact[i].from <= key)
    && (forall r, k :: r in seen && r.seqno < oldest && key <= k < r.end && !InRanges(inexact, k) ==>
          CoveredByActive(active, r.seqno, k))
  }

  /** No key leaves the inexact ranges. */
  ghost predicate Widened(was: seq<Range>, now: seq<Range>) {
    forall k :: InRanges(was, k) ==> InRanges(now, k)
  }

  ghost predicate Reaching(active: seq<Rdel>, key: Rank) {
    forall a :: a in active ==> a.end > key
  }

  /** At no key and no point of the stream more tombstones are open that can decide a cover than there are slots. */
  ghost predicate Few(stream: seq<Rdel>, oldest: nat) {
    forall n: nat, key :: n <= |stream| && (n > 0 ==> stream[n - 1].start <= key) ==>
      |Edge(stream[..n], oldest, key)| <= 8
  }

  /** As long as nothing was let go, the active set is complete. */
  ghost predicate Whole(seen: seq<Rdel>, active: seq<Rdel>, inexact: seq<Range>, oldest: nat, key: Rank) {
    inexact == [] ==> Complete(seen, active, oldest, key)
  }

  lemma NothingTracked(oldest: nat, key: Rank)
    ensures Tracks([], [], [], oldest, key) && Whole([], [], [], oldest, key)
  {}

  /** Of the nine the oldest is let go, and the keys it reaches become inexact. */
  ghost predicate LeastGoes(nine: seq<Rdel>, active: seq<Rdel>, was: seq<Range>, now: seq<Range>, key: Rank) {
    exists gone :: Goes(nine, active, was, now, key, gone)
  }

  ghost predicate Goes(nine: seq<Rdel>, active: seq<Rdel>, was: seq<Range>, now: seq<Range>, key: Rank, gone: Rdel) {
    && |was| <= INEXACT_RANGES && now == Evict(was, key, gone.end)
    && (forall a :: a in nine ==> gone.seqno <= a.seqno)
    && multiset(active) + multiset{gone} == multiset(nine)
  }

  lemma OldestGoes(eight: seq<Rdel>, min: nat, r: Rdel, was: seq<Range>, key: Rank)
    requires min < |eight| && |was| <= INEXACT_RANGES
    requires forall j :: 0 <= j < |eight| ==> eight[min].seqno <= eight[j].seqno
    ensures r.seqno > eight[min].seqno ==>
              LeastGoes(eight + [r], eight[min := r], was, Evict(was, key, eight[min].end), key)
    ensures r.seqno <= eight[min].seqno ==> LeastGoes(eight + [r], eight, was, Evict(was, key, r.end), key)
  {
    hide Evict;
    if r.seqno > eight[min].seqno {
      assert multiset(eight[min := r]) + multiset{eight[min]} == multiset(eight + [r]);
      assert Goes(eight + [r], eight[min := r], was, Evict(was, key, eight[min].end), key, eight[min]);
    } else {
      assert Goes(eight + [r], eight, was, Evict(was, key, r.end), key, r);
    }
  }

  datatype Position = Pull | Look | Done

  class CoverStream {
    const oldest: nat
    const merger: Merger
    var position: Position
    var look: Rdel
    var active: seq<Rdel>
    var inexact: seq<Range>
    /** The whole merged stream, and the part of it already taken into account. */
    ghost const stream: seq<Rdel>
    ghost var seen: seq<Rdel>

    ghost predicate Valid()
      reads this, merger
    {
      StartSorted(stream) && Linked()
    }

    ghost predicate Linked()
      reads this, merger
    {
      && merger.Ready()
      && |active| <= COVER_ACTIVE && |inexact| <= INEXACT_RANGES
      && stream == seen + Ahead()
      && (position.Done? ==> Upcoming() == [])
    }

    ghost function Upcoming(): seq<Rdel>
      reads merger
      requires merger.Ready()
    {
      Drain(merger.rule, merger.View())
    }

    ghost function Ahead(): seq<Rdel>
      reads this, merger
      requires merger.Ready()
    {
      (if position.Look? then [look] else []) + Upcoming()
    }

    ghost predicate TrackedAt(key: Rank)
      reads this
    {
      Tracks(seen, active, inexact, oldest, key) && Whole(seen, active, inexact, oldest, key)
    }

    constructor (oldest: nat, merger: Merger)
      requires merger.Ready() && StartSorted(Drain(merger.rule, merger.View()))
      ensures Valid() && fresh(this)
      ensures this.oldest == oldest && this.merger == merger
      ensures stream == Drain(merger.rule, merger.View())
      ensures inexact == [] && forall key :: TrackedAt(key)
    {
      this.oldest, this.merger := oldest, merger;
      position, look, active, inexact := Pull, Rdel(0.0, 0.0, 0), [], [];
      stream, seen := Drain(merger.rule, merger.View()), [];
      new;
      hide Drain, Tracks, Whole;
      forall key ensures TrackedAt(key) { NothingTracked(oldest, key); }
    }

    /** Pulls the next tombstone into `look`; false when the stream is at its end. */
    method PullLook() returns (looking: bool)
      requires Linked()
      modifies this`position, this`look, merger
      ensures Linked()
      ensures Ahead() == old(Ahead())
      ensures looking <==> Ahead() != []
      ensures looking ==> position.Look? && look == Ahead()[0]
    {
      if position.Pull? {
        ghost var before := Ahead();
        var more := merger.NextMerged();
        if more {
          look, position := merger.current, Look;
          assert Ahead() == before;
        } else {
          position := Done;
        }
      }
      looking := position.Look?;
    }

    /** Takes `r`, the tombstone just read, into account at key `key`. */
    method Admit(r: Rdel, key: Rank)
      requires |active| <= COVER_ACTIVE && |inexact| <= INEXACT_RANGES
      requires TrackedAt(key) && r.start <= key
      requires Reaching(active, key)
      modifies this`active, this`inexact, this`seen
      ensures |active| <= COVER_ACTIVE && |inexact| <= INEXACT_RANGES
      ensures seen == old(seen) + [r] && TrackedAt(key)
      ensures Reaching(active, key)
      ensures Widened(old(inexact), inexact)
      ensures !Open(r, oldest, key) || DominatedIn(old(active), r) ==> active == old(active) && inexact == old(inexact)
      ensures Open(r, oldest, key) && !DominatedIn(old(active), r) ==>
                if |old(active)| == 8 && forall a :: a in old(active) ==> !Dominates(r, a)
                then LeastGoes(old(active) + [r], active, old(inexact), inexact, key)
                else inexact == old(inexact)
                     && forall a :: a in active <==> a == r || (a in old(active) && !Dominates(r, a))
      ensures old(inexact) == [] ==> (inexact == [] <==> |Edge(seen, oldest, key)| <= 8)
    {
      hide LeastGoes, Edge, Complete, Apart;
      ghost var before := seen;
      seen := seen + [r];
      if r.seqno >= oldest || r.end <= key {
        Ignored(before, r, key);
        return;
      }
      if exists i :: 0 <= i < |active| && Dominates(active[i], r) {
        assert forall k :: key <= k < r.end ==> CoveredByActive(active, r.seqno, k);
        Ignored(before, r, key);
        return;
      }
      ghost var was := active;
      var kept := Prune(active, r);
      Pruned(before, r, key, kept);
      if |kept| < COVER_ACTIVE {
        active := kept + [r];
        Replaced(was, active, r);
      } else {
        inexact := LetGo(r, key, before);
      }
    }

    lemma Pruned(before: seq<Rdel>, r: Rdel, key: Rank, kept: seq<Rdel>)
      requires Whole(before, active, inexact, oldest, key) && Open(r, oldest, key) && !DominatedIn(active, r)
      requires (Apart(active) ==> Apart(kept)) && forall a :: a in kept <==> a in active && !Dominates(r, a)
      ensures Whole(before + [r], kept + [r], inexact, oldest, key)
      ensures inexact == [] ==> |Edge(before + [r], oldest, key)| == |kept| + 1
    {
      if inexact == [] {
        TrackedComplete(before, active, oldest, key, r, kept);
        EdgeIs(before + [r], kept + [r], oldest, key);
      }
    }

    lemma Ignored(before: seq<Rdel>, r: Rdel, key: Rank)
      requires Whole(before, active, inexact, oldest, key) && (!Open(r, oldest, key) || DominatedIn(active, r))
      ensures Whole(before + [r], active, inexact, oldest, key)
      ensures inexact == [] ==> |Edge(before + [r], oldest, key)| == |active|
    {
      if inexact == [] {
        IgnoredComplete(before, active, oldest, key, r);
        EdgeIs(before + [r], active, oldest, key);
      }
    }

    /** All eight slots are taken by others that `r` does not dominate: the oldest of the nine goes. */
    method LetGo(r: Rdel, key: Rank, ghost before: seq<Rdel>) returns (ranges: seq<Range>)
      requires |active| == COVER_ACTIVE && |inexact| <= INEXACT_RANGES
      requires r.start <= key < r.end && r.seqno < oldest && Reaching(active, key)
      requires Tracks(before, active, inexact, oldest, key)
      modifies this`active
      ensures |active| == COVER_ACTIVE && |ranges| <= INEXACT_RANGES
      ensures Tracks(before + [r], active, ranges, oldest, key) && Reaching(active, key)
      ensures Widened(inexact, ranges) && ranges != []
      ensures LeastGoes(old(active) + [r], active, inexact, ranges, key)
    {
      hide LeastGoes;
      var min := OldestOf(active);
      OldestGoes(active, min, r, inexact, key);
      if r.seqno > active[min].seqno {
        ghost var was := active;
        var gone := active[min];
        active := active[min := r];
        EvictCovers(inexact, key, gone.end);
        ranges := Evict(inexact, key, gone.end);
        assert active[min] == r;
        Swapped(was, min, r, active);
      } else {
        EvictCovers(inexact, key, r.end);
        ranges := Evict(inexact, key, r.end);
      }
    }

    /** `cover_key`: advances the stream to `key` and returns its cover, as far as it was tracked.
        It never exceeds the true highest covering sequence below the oldest snapshot, and equals it
        at every key outside the inexact ranges. */
    method CoverKey(key: Rank, ghost previous: Rank) returns (cover: nat)
      requires Valid() && TrackedAt(previous) && previous <= key
      modifies this`position, this`look, this`active, this`inexact, this`seen, merger
      ensures Valid() && TrackedAt(key)
      ensures Widened(old(inexact), inexact)
      ensures oldest == 0 ==> cover == 0
      ensures oldest > 0 ==> cover <= CoverSeq(stream, key, oldest - 1)
      ensures oldest > 0 && !InRanges(inexact, key) ==> cover == CoverSeq(stream, key, oldest - 1)
      ensures Few(stream, oldest) && old(inexact) == [] ==> inexact == []
    {
      DropExpired(key, previous);
      var going := true;
      while going
        invariant Linked() && TrackedAt(key)
        invariant Reaching(active, key)
        invariant Widened(old(inexact), inexact)
        invariant Few(stream, oldest) && old(inexact) == [] ==> inexact == []
        invariant !going ==> Ahead() == [] || Ahead()[0].start > key
        decreases going, |Ahead()|
      {
        going := Feed(key);
      }
      cover := NewestSeq(active);
      Tracked(key, cover);
    }

    /** The stream moves up to `key`: what no longer reaches it leaves the active set. */
    method DropExpired(key: Rank, ghost previous: Rank)
      requires Linked() && TrackedAt(previous) && previous <= key
      modifies this`active
      ensures Linked() && TrackedAt(key) && Ahead() == old(Ahead())
      ensures Reaching(active, key)
    {
      ghost var was := active;
      active := Expire(active, key);
      if inexact == [] { ExpiredComplete(seen, was, oldest, previous, key, active); }
      forall q, k | 0 <= q && key <= k && CoveredByActive(was, q, k) ensures CoveredByActive(active, q, k) {
        var i :| 0 <= i < |was| && was[i].seqno >= q && k < was[i].end;
        assert was[i] in active;
      }
    }

    /** Takes the next tombstone of the stream into account, unless it starts past the key. */
    method Feed(key: Rank) returns (going: bool)
      requires Linked() && TrackedAt(key)
      requires Reaching(active, key)
      modifies this`position, this`look, this`active, this`inexact, this`seen, merger
      ensures Linked() && TrackedAt(key)
      ensures Reaching(active, key)
      ensures Widened(old(inexact), inexact)
      ensures Few(stream, oldest) && old(inexact) == [] ==> inexact == []
      ensures going ==> |Ahead()| < old(|Ahead()|)
      ensures !going ==> Ahead() == [] || Ahead()[0].start > key
    {
      var looking := PullLook();
      if !looking || look.start > key {
        return false;
      }
      TakeLook(key);
      return true;
    }

    method TakeLook(key: Rank)
      requires Linked() && TrackedAt(key) && position.Look? && look.start <= key
      requires Reaching(active, key)
      modifies this`position, this`active, this`inexact, this`seen
      ensures Linked() && TrackedAt(key)
      ensures Reaching(active, key)
      ensures Widened(old(inexact), inexact)
      ensures Few(stream, oldest) && old(inexact) == [] ==> inexact == []
      ensures |Ahead()| < old(|Ahead()|)
    {
      hide Tracks, Reaching, Widened, Drain, Whole, Edge;
      ghost var rest := Upcoming();
      position := Pull;
      Admit(look, key);
      Reassociate(old(seen), look, rest);
      assert stream[..|seen|] == seen;
    }

    lemma Tracked(key: Rank, cover: nat)
      requires Valid() && TrackedAt(key)
      requires forall a :: a in active ==> a.end > key && a.seqno <= cover
      requires cover == 0 || exists a :: a in active && a.seqno == cover
      requires Ahead() == [] || Ahead()[0].start > key
      ensures oldest == 0 ==> cover == 0
      ensures oldest > 0 ==> cover <= CoverSeq(stream, key, oldest - 1)
      ensures oldest > 0 && !InRanges(inexact, key) ==> cover == CoverSeq(stream, key, oldest - 1)
    {
      if cover > 0 {
        var a :| a in active && a.seqno == cover;
        assert a in stream;
        assert VisibleCover(a, key, oldest - 1);
      }
      if oldest > 0 && !InRanges(inexact, key) {
        var c := CoverSeq(stream, key, oldest - 1);
        if c > 0 {
          var r :| r in stream && VisibleCover(r, key, oldest - 1) && r.seqno == c;
          assert r in seen by { StartedIsSeen(seen, Ahead(), key, r); }
          assert CoveredByActive(active, r.seqno, key);
        }
      }
    }
  }

  lemma StartedIsSeen(seen: seq<Rdel>, ahead: seq<Rdel>, key: Rank, r: Rdel)
    requires StartSorted(seen + ahead) && r in seen + ahead && r.start <= key
    requires ahead == [] || ahead[0].start > key
    ensures r in seen
  {
    var s := seen + ahead;
    var i :| 0 <= i < |s| && s[i] == r;
    assert ahead != [] ==> s[|seen|] == ahead[0];
  }

  ghost predicate CoveredByActive(active: seq<Rdel>, q: nat, k: Rank) {
    exists i :: 0 <= i < |active| && active[i].seqno >= q && k < active[i].end
  }

  lemma Reassociate(a: seq<Rdel>, r: Rdel, b: seq<Rdel>)
    ensures a + ([r] + b) == (a + [r]) + b
  {}

  lemma Swapped(was: seq<Rdel>, min: nat, r: Rdel, now: seq<Rdel>)
    requires min < |was| && now == was[min := r]
    ensures forall q, k :: CoveredByActive(was, q, k) && k >= was[min].end ==> CoveredByActive(now, q, k)
    ensures forall q, k :: q == r.seqno && k < r.end ==> CoveredByActive(now, q, k)
  {
    assert now[min] == r;
    forall q, k | CoveredByActive(was, q, k) && k >= was[min].end ensures CoveredByActive(now, q, k) {
      var i :| 0 <= i < |was| && was[i].seqno >= q && k < was[i].end;
      assert now[i] == was[i];
    }
  }

  lemma Replaced(was: seq<Rdel>, now: seq<Rdel>, r: Rdel)
    requires r in now && forall a :: a in was && !Dominates(r, a) ==> a in now
    ensures forall q, k :: CoveredByActive(was, q, k) ==> CoveredByActive(now, q, k)
    ensures forall q, k :: q == r.seqno && k < r.end ==> CoveredByActive(now, q, k)
  {
    var j :| 0 <= j < |now| && now[j] == r;
    forall q, k | CoveredByActive(was, q, k) ensures CoveredByActive(now, q, k) {
      var i :| 0 <= i < |was| && was[i].seqno >= q && k < was[i].end;
      if Dominates(r, was[i]) {
        assert now[j].seqno >= q && k < now[j].end;
      } else {
        assert was[i] in now;
      }
    }
  }

  method OldestOf(active: seq<Rdel>) returns (min: nat)
    requires active != []
    ensures min < |active|
    ensures forall j :: 0 <= j < |active| ==> active[min].seqno <= active[j].seqno
  {
    min := 0;
    for j := 1 to |active|
      invariant min < |active|
      invariant forall i :: 0 <= i < j ==> active[min].seqno <= active[i].seqno
    {
      if active[j].seqno < active[min].seqno {
        min := j;
      }
    }
  }

  method NewestSeq(active: seq<Rdel>) returns (cover: nat)
    ensures forall a :: a in active ==> a.seqno <= cover
    ensures cover == 0 || exists a :: a in active && a.seqno == cover
  {
    cover := 0;
    for i := 0 to |active|
      invariant forall j :: 0 <= j < i ==> active[j].seqno <= cover
      invariant cover == 0 || exists j :: 0 <= j < i && active[j].seqno == cover
    {
      if active[i].seqno > cover {
        cover := active[i].seqno;
      }
    }
  }
}
