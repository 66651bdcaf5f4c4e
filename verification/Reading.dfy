/** What a scan must see across sources of several nodes (src/scan.rs, src/version.rs, src/db/read.rs). */
module Reading {
  import opened Keys
  import opened Tombstones
  import opened Visibility
  import opened Versions

  /** What a table's reference promises of its contents: its last key, its highest sequence. */
  datatype Limits = Limits(last: Rank, maxSeq: nat)

  /** A memtable or a table: its origin, its live lower bound, its versions and range tombstones. The memtable has
      no limits. */
  datatype Source = Source(node: nat, wall: nat, first: Rank, limits: Option<Limits>, points: set<Entry>,
                           rdels: seq<Rdel>)

  /** The limits hold. A split output's tombstones may end at the key that follows its last one. */
  ghost predicate Bounded(ks: KeySpace, s: Source) {
    && (forall e :: e in s.points ==> ks.Key(e.key))
    && (s.limits.Some? ==>
          && ks.Key(s.limits.value.last)
          && (forall e :: e in s.points ==> e.key <= s.limits.value.last)
          && (forall r :: r in s.rdels ==> r.seqno <= s.limits.value.maxSeq && ks.EndsBy(r.end, s.limits.value.last)))
  }

  ghost predicate AllBounded(ks: KeySpace, sources: seq<Source>) {
    ks.Valid() && forall i :: 0 <= i < |sources| ==> Bounded(ks, sources[i])
  }

  function VersionOf(s: Source, e: Entry): Version {
    Version(s.node, s.wall, e.seqno)
  }

  /** `e` is a live version of `k` in source `i` at the view. Sequence 0 is reserved. */
  predicate IsVersion(sources: seq<Source>, k: Rank, view: nat, i: nat, e: Entry) {
    i < |sources| && e in sources[i].points && e.key == k && k >= sources[i].first && 0 < e.seqno <= view
  }

  /** A live version: what lies below a table's bound was merged into other tables, and sequence 0 is reserved. */
  predicate IsLive(s: Source, e: Entry) {
    e in s.points && e.key >= s.first && e.seqno > 0
  }

  /** A key's versions at a view are its live ones up to it. */
  lemma LiveIsVersion(sources: seq<Source>, k: Rank, view: nat, i: nat, e: Entry)
    requires i < |sources|
    ensures IsVersion(sources, k, view, i, e) <==> IsLive(sources[i], e) && e.key == k && e.seqno <= view
  {}

  /** No sequence of a node is used twice among a key's live versions. Where another node has versions of the key too,
      the node's later ones have no lower walls. */
  ghost predicate Fair(sources: seq<Source>) {
    forall i, j, e, f :: 0 <= i < |sources| && 0 <= j < |sources| && IsLive(sources[i], e) && IsLive(sources[j], f)
                         && sources[i].node == sources[j].node && e.key == f.key ==>
      && (e.seqno == f.seqno ==> i == j && e == f)
      && (e.seqno > f.seqno && Contested(sources, sources[i].node, e.key) ==> sources[i].wall >= sources[j].wall)
  }

  /** Some other node has a live version of `k`. */
  ghost predicate Contested(sources: seq<Source>, node: nat, k: Rank) {
    exists i, e :: 0 <= i < |sources| && IsLive(sources[i], e) && e.key == k && sources[i].node != node
  }

  ghost predicate Beats(sources: seq<Source>, i: nat, e: Entry, j: nat, f: Entry) {
    i < |sources| && j < |sources| && ((i == j && e == f) || Gt(VersionOf(sources[i], e), VersionOf(sources[j], f)))
  }

  /** `e` of source `i` wins key `k`. */
  ghost predicate Wins(sources: seq<Source>, k: Rank, view: nat, i: nat, e: Entry) {
    && IsVersion(sources, k, view, i, e)
    && forall j: nat, f :: IsVersion(sources, k, view, j, f) ==> Beats(sources, i, e, j, f)
  }

  /** A range tombstone newer than version `v` covers `k`. */
  ghost predicate Hidden(sources: seq<Source>, k: Rank, view: nat, v: Version) {
    exists j, r :: 0 <= j < |sources| && HidesAt(sources[j], k, view, v, r)
  }

  predicate HidesAt(s: Source, k: Rank, view: nat, v: Version, r: Rdel) {
    s.first <= k && r in s.rdels && VisibleCover(r, k, view) && Gt(Version(s.node, s.wall, r.seqno), v)
  }

  /** Reading `k` yields `val`. */
  ghost predicate Reads(sources: seq<Source>, k: Rank, view: nat, now: nat, val: Value) {
    exists i: nat, e :: Wins(sources, k, view, i, e) && Yields(sources, k, view, now, i, e) && e.value == val
  }

  ghost predicate Yields(sources: seq<Source>, k: Rank, view: nat, now: nat, i: nat, e: Entry) {
    i < |sources| && !e.tombstone && !Expired(e, now) && !Hidden(sources, k, view, VersionOf(sources[i], e))
  }

  /** Newer than newer is newer. */
  lemma BeatsChain(sources: seq<Source>, k: Rank, view: nat, i: nat, e: Entry, j: nat, f: Entry, l: nat, g: Entry)
    requires Fair(sources) && IsVersion(sources, k, view, i, e) && IsVersion(sources, k, view, j, f)
             && IsVersion(sources, k, view, l, g)
    requires Beats(sources, i, e, j, f) && Beats(sources, j, f, l, g)
    ensures Beats(sources, i, e, l, g)
  {}

  /** Two versions compare. */
  lemma BeatsTotal(sources: seq<Source>, k: Rank, view: nat, i: nat, e: Entry, j: nat, f: Entry)
    requires Fair(sources) && IsVersion(sources, k, view, i, e) && IsVersion(sources, k, view, j, f)
    ensures Beats(sources, i, e, j, f) || Beats(sources, j, f, i, e)
    ensures Beats(sources, i, e, j, f) && Beats(sources, j, f, i, e) ==> i == j && e == f
  {}

  /** The answer is unique. */
  lemma ReadsUnique(sources: seq<Source>, k: Rank, view: nat, now: nat, v: Value, w: Value)
    requires Fair(sources) && Reads(sources, k, view, now, v) && Reads(sources, k, view, now, w)
    ensures v == w
  {
    hide Fair, Yields, Beats;
    var i: nat, e :| Wins(sources, k, view, i, e) && Yields(sources, k, view, now, i, e) && e.value == v;
    var j: nat, f :| Wins(sources, k, view, j, f) && Yields(sources, k, view, now, j, f) && f.value == w;
    BeatsTotal(sources, k, view, i, e, j, f);
  }

  /** `e` of source `i` leads `f` of source `j`: within a node by its sequence; across nodes by its wall, and at one
      wall by its node. */
  ghost predicate LeadsBy(sources: seq<Source>, i: nat, e: Entry, j: nat, f: Entry) {
    && i < |sources| && j < |sources|
    && if sources[i].node == sources[j].node then e.seqno > f.seqno
       else sources[i].wall > sources[j].wall
            || (sources[i].wall == sources[j].wall && sources[i].node > sources[j].node)
  }

  /** The winner of a key is the version that leads every other one. */
  lemma WinsExactly(sources: seq<Source>, k: Rank, view: nat, i: nat, e: Entry)
    requires IsVersion(sources, k, view, i, e)
    ensures Wins(sources, k, view, i, e) <==>
            forall j: nat, f :: IsVersion(sources, k, view, j, f) && (i != j || e != f) ==> LeadsBy(sources, i, e, j, f)
  {
    forall j: nat, f | IsVersion(sources, k, view, j, f) && (i != j || e != f)
      ensures Beats(sources, i, e, j, f) <==> LeadsBy(sources, i, e, j, f)
    {}
  }

  /** A tombstone hides a version of its own node when its sequence is higher, and one of another node when its table
      leads. */
  lemma HidesExactly(s: Source, k: Rank, view: nat, v: Version, r: Rdel)
    requires v.seqno > 0 && r in s.rdels && s.first <= k && VisibleCover(r, k, view) && r.seqno > 0
    ensures HidesAt(s, k, view, v, r) <==>
            if s.node == v.node then r.seqno > v.seqno
            else s.wall > v.wall || (s.wall == v.wall && s.node > v.node)
  {}

  /** A source's best version of `k` at the view. */
  ghost predicate Head(sources: seq<Source>, k: Rank, view: nat, i: nat, h: Option<Entry>) {
    if h.Some? then
      && IsVersion(sources, k, view, i, h.value)
      && forall e :: IsVersion(sources, k, view, i, e) ==> e.seqno <= h.value.seqno
    else forall e :: !IsVersion(sources, k, view, i, e)
  }

  /** Every source's best version of `k`. */
  ghost predicate Heads(sources: seq<Source>, k: Rank, view: nat, heads: seq<Option<Entry>>) {
    |heads| == |sources| && forall i :: 0 <= i < |sources| ==> Head(sources, k, view, i, heads[i])
  }

  /** The best of the heads wins the key. */
  lemma HeadWins(sources: seq<Source>, k: Rank, view: nat, heads: seq<Option<Entry>>, w: nat)
    requires Fair(sources) && Heads(sources, k, view, heads) && w < |heads| && heads[w].Some?
    requires forall j :: 0 <= j < |heads| && heads[j].Some? ==> Beats(sources, w, heads[w].value, j, heads[j].value)
    ensures Wins(sources, k, view, w, heads[w].value)
  {
    assert Head(sources, k, view, w, heads[w]);
    forall j: nat, f | IsVersion(sources, k, view, j, f) ensures Beats(sources, w, heads[w].value, j, f) {
      assert Head(sources, k, view, j, heads[j]);
      var h := heads[j].value;
      assert Beats(sources, j, h, j, f) by {
        assert h in sources[j].points && f in sources[j].points;
      }
      BeatsChain(sources, k, view, w, heads[w].value, j, h, j, f);
    }
  }

  /** The fold over the heads: each newer one takes the lead, whatever the order of the sources. */
  method PickWinner(sources: seq<Source>, k: Rank, view: nat, heads: seq<Option<Entry>>) returns (w: Option<nat>)
    requires Fair(sources) && Heads(sources, k, view, heads)
    ensures w.Some? ==>
              w.value < |heads| && heads[w.value].Some? && Wins(sources, k, view, w.value, heads[w.value].value)
    ensures w.None? ==> forall i: nat, e :: !IsVersion(sources, k, view, i, e)
  {
    hide Fair, Gt;
    w := None;
    var best := Version(0, 0, 0);
    for j := 0 to |heads|
      invariant Leads(sources, k, view, heads, j, w, best)
    {
      assert Head(sources, k, view, j, heads[j]);
      LeadStep(sources, k, view, heads, j, w, best);
      if heads[j].Some? && Gt(VersionOf(sources[j], heads[j].value), best) {
        w, best := Some(j), VersionOf(sources[j], heads[j].value);
      }
    }
    if w.Some? {
      HeadWins(sources, k, view, heads, w.value);
    } else {
      forall i: nat, e ensures !IsVersion(sources, k, view, i, e) {
        if i < |heads| { assert Head(sources, k, view, i, heads[i]); }
      }
    }
  }

  ghost predicate Leads(sources: seq<Source>, k: Rank, view: nat, heads: seq<Option<Entry>>, n: nat, w: Option<nat>,
                        best: Version) {
    && n <= |heads| == |sources|
    && (w.None? ==> best.seqno == 0 && forall j :: 0 <= j < n ==> heads[j].None?)
    && (w.Some? ==> w.value < n && heads[w.value].Some? && best == VersionOf(sources[w.value], heads[w.value].value))
    && (w.Some? ==> forall j :: 0 <= j < n && heads[j].Some? ==>
          Beats(sources, w.value, heads[w.value].value, j, heads[j].value))
  }

  lemma LeadStep(sources: seq<Source>, k: Rank, view: nat, heads: seq<Option<Entry>>, n: nat, w: Option<nat>,
                 best: Version)
    requires Fair(sources) && Heads(sources, k, view, heads) && Leads(sources, k, view, heads, n, w, best)
             && n < |heads|
    ensures var newer := heads[n].Some? && Gt(VersionOf(sources[n], heads[n].value), best);
            Leads(sources, k, view, heads, n + 1, if newer then Some(n) else w,
                  if newer then VersionOf(sources[n], heads[n].value) else best)
  {
    hide Fair;
    assert Head(sources, k, view, n, heads[n]);
    if heads[n].Some? && w.Some? {
      assert Head(sources, k, view, w.value, heads[w.value]);
      BeatsTotal(sources, k, view, n, heads[n].value, w.value, heads[w.value].value);
      forall j | 0 <= j < n && heads[j].Some? && Beats(sources, n, heads[n].value, w.value, heads[w.value].value)
        ensures Beats(sources, n, heads[n].value, j, heads[j].value)
      {
        assert Head(sources, k, view, j, heads[j]);
        BeatsChain(sources, k, view, n, heads[n].value, w.value, heads[w.value].value, j, heads[j].value);
      }
    }
  }

  /** `rdel_hides` skips a table without tombstones, without a version above `v`, or whose bounds leave `k` out. */
  predicate Pruned(s: Source, k: Rank, v: Version) {
    && s.limits.Some?
    && (s.rdels == [] || !Gt(Version(s.node, s.wall, s.limits.value.maxSeq), v) || s.first > k
        || s.limits.value.last < k)
  }

  /** What is skipped hides no key. */
  lemma PruneExact(ks: KeySpace, s: Source, k: Rank, view: nat, v: Version, r: Rdel)
    requires ks.Valid() && Bounded(ks, s) && ks.Key(k) && Pruned(s, k, v)
    ensures !HidesAt(s, k, view, v, r)
  {
    assert ks.Follows(s.limits.value.last);
  }

  /** `rdel_hides`: each source's highest covering tombstone against the winner. */
  method RdelHides(ghost ks: KeySpace, sources: seq<Source>, k: Rank, view: nat, v: Version) returns (hidden: bool)
    requires AllBounded(ks, sources) && ks.Key(k)
    ensures hidden <==> Hidden(sources, k, view, v)
  {
    for j := 0 to |sources|
      invariant forall i, r :: 0 <= i < j ==> !HidesAt(sources[i], k, view, v, r)
    {
      if Pruned(sources[j], k, v) {
        forall r ensures !HidesAt(sources[j], k, view, v, r) { PruneExact(ks, sources[j], k, view, v, r); }
        continue;
      }
      var q := if sources[j].first <= k then CoverSeq(sources[j].rdels, k, view) else 0;
      CoverHides(sources[j], k, view, v);
      if q > 0 && Gt(Version(sources[j].node, sources[j].wall, q), v) {
        return true;
      }
    }
    return false;
  }

  /** If any covering tombstone of a source is newer, its highest is. */
  lemma CoverHides(s: Source, k: Rank, view: nat, v: Version)
    ensures (exists r :: HidesAt(s, k, view, v, r)) <==>
            s.first <= k && CoverSeq(s.rdels, k, view) > 0 && Gt(Version(s.node, s.wall, CoverSeq(s.rdels, k, view)), v)
  {
    var q := CoverSeq(s.rdels, k, view);
    if q > 0 {
      var r :| r in s.rdels && VisibleCover(r, k, view) && r.seqno == q;
      assert s.first <= k && Gt(Version(s.node, s.wall, q), v) ==> HidesAt(s, k, view, v, r);
    }
    forall r | HidesAt(s, k, view, v, r) ensures q > 0 && Gt(Version(s.node, s.wall, q), v) {
      assert r.seqno <= q;
    }
  }

  // One node.

  /** The sources hold versions of one node, none with the reserved sequence. */
  ghost predicate OneNode(sources: seq<Source>) {
    && (forall i, j :: 0 <= i < |sources| && 0 <= j < |sources| ==> sources[i].node == sources[j].node)
    && (forall i, e :: 0 <= i < |sources| && e in sources[i].points && e.key >= sources[i].first ==> e.seqno > 0)
  }

  /** No sequence of a key is live twice. */
  ghost predicate SeqsOnce(sources: seq<Source>) {
    forall i, j, e, f :: 0 <= i < |sources| && 0 <= j < |sources| && IsLive(sources[i], e) && IsLive(sources[j], f) ==>
      (e.key == f.key && e.seqno == f.seqno ==> i == j && e == f)
  }

  /** Of one node that is all that is asked: walls are not compared. */
  lemma FairAlone(sources: seq<Source>)
    requires OneNode(sources)
    ensures Fair(sources) <==> SeqsOnce(sources)
  {
    forall i, k | 0 <= i < |sources| ensures !Contested(sources, sources[i].node, k) {}
    if Fair(sources) {
      forall i, j, e, f | 0 <= i < |sources| && 0 <= j < |sources| && IsLive(sources[i], e) && IsLive(sources[j], f)
        ensures e.key == f.key && e.seqno == f.seqno ==> i == j && e == f
      {
        assert sources[i].node == sources[j].node;
      }
    }
  }

  /** The sequences of the tombstones that cover `k`. */
  ghost function RdelSeqs(rdels: seq<Rdel>, k: Rank, view: nat): set<nat> {
    set r | r in rdels && VisibleCover(r, k, view) :: r.seqno
  }

  ghost function SourceSeqs(sources: seq<Source>, k: Rank, view: nat): set<nat> {
    set i, r | 0 <= i < |sources| && r in sources[i].rdels && CoverIn(sources[i], k, view, r) :: r.seqno
  }

  /** `points` and `rdels` are what the sources hold, above their live bounds. */
  ghost predicate Together(sources: seq<Source>, points: set<Entry>, rdels: seq<Rdel>, k: Rank, view: nat) {
    && (forall e :: e in points <==>
          exists i :: 0 <= i < |sources| && e in sources[i].points && e.key >= sources[i].first)
    && RdelSeqs(rdels, k, view) == SourceSeqs(sources, k, view)
  }

  predicate CoverIn(s: Source, k: Rank, view: nat, r: Rdel) {
    r in s.rdels && s.first <= k && VisibleCover(r, k, view)
  }

  lemma WinsIsNewest(sources: seq<Source>, points: set<Entry>, rdels: seq<Rdel>, k: Rank, view: nat, i: nat, e: Entry)
    requires Fair(sources) && OneNode(sources) && Together(sources, points, rdels, k, view)
    requires i < |sources| && e in sources[i].points && e.key >= sources[i].first
    ensures Wins(sources, k, view, i, e) <==> Newest(points, k, view, e)
  {
    hide Fair;
    if Wins(sources, k, view, i, e) {
      forall f | f in points && VersionAt(f, k, view) ensures f.seqno <= e.seqno {
        var j :| 0 <= j < |sources| && f in sources[j].points && f.key >= sources[j].first;
        assert IsVersion(sources, k, view, j, f);
      }
    }
    if Newest(points, k, view, e) {
      forall j: nat, f | IsVersion(sources, k, view, j, f) ensures Beats(sources, i, e, j, f) {
        assert f in points && VersionAt(f, k, view);
        BeatsTotal(sources, k, view, i, e, j, f);
      }
    }
  }

  lemma HidesIsNewer(s: Source, k: Rank, view: nat, v: Version, q: Rdel)
    requires v.node == s.node && v.seqno > 0
    ensures HidesAt(s, k, view, v, q) <==> CoverIn(s, k, view, q) && q.seqno > v.seqno
  {}

  /** The highest cover is past `n` when some cover is. */
  lemma CoverPast(rdels: seq<Rdel>, k: Rank, view: nat, n: nat)
    ensures CoverSeq(rdels, k, view) > n <==> exists q :: q in RdelSeqs(rdels, k, view) && q > n
  {
    var c := CoverSeq(rdels, k, view);
    if c > n {
      var r :| r in rdels && VisibleCover(r, k, view) && r.seqno == c;
      assert c in RdelSeqs(rdels, k, view);
    }
  }

  lemma HiddenIsCovered(sources: seq<Source>, points: set<Entry>, rdels: seq<Rdel>, k: Rank, view: nat, i: nat,
                        e: Entry)
    requires OneNode(sources) && Together(sources, points, rdels, k, view)
    requires i < |sources| && e in sources[i].points && e.key >= sources[i].first
    ensures Hidden(sources, k, view, VersionOf(sources[i], e)) <==> CoverSeq(rdels, k, view) > e.seqno
  {
    var v := VersionOf(sources[i], e);
    CoverPast(rdels, k, view, e.seqno);
    HiddenPast(sources, k, view, v);
  }

  lemma HiddenPast(sources: seq<Source>, k: Rank, view: nat, v: Version)
    requires v.seqno > 0 && forall j :: 0 <= j < |sources| ==> sources[j].node == v.node
    ensures Hidden(sources, k, view, v) <==> exists q :: q in SourceSeqs(sources, k, view) && q > v.seqno
  {
    if Hidden(sources, k, view, v) {
      var j, r :| 0 <= j < |sources| && HidesAt(sources[j], k, view, v, r);
      HidesIsNewer(sources[j], k, view, v, r);
      assert r.seqno in SourceSeqs(sources, k, view);
    }
    if q :| q in SourceSeqs(sources, k, view) && q > v.seqno {
      var j, r :| 0 <= j < |sources| && r in sources[j].rdels && CoverIn(sources[j], k, view, r) && r.seqno == q;
      HidesIsNewer(sources[j], k, view, v, r);
    }
  }

  /** In a database of one node the scans' rule is the simple visibility rule. */
  lemma ReadsIsSees(sources: seq<Source>, points: set<Entry>, rdels: seq<Rdel>, k: Rank, view: nat, now: nat, v: Value)
    requires Fair(sources) && OneNode(sources) && Together(sources, points, rdels, k, view)
    ensures Reads(sources, k, view, now, v) <==> Sees(points, rdels, k, view, now, v)
  {
    hide Fair, OneNode;
    if Reads(sources, k, view, now, v) {
      var i: nat, e :| Wins(sources, k, view, i, e) && Yields(sources, k, view, now, i, e) && e.value == v;
      WinsIsNewest(sources, points, rdels, k, view, i, e);
      HiddenIsCovered(sources, points, rdels, k, view, i, e);
      assert SeesAs(points, rdels, k, view, now, v, e);
    }
    if Sees(points, rdels, k, view, now, v) {
      var e :| SeesAs(points, rdels, k, view, now, v, e);
      var i :| 0 <= i < |sources| && e in sources[i].points && e.key >= sources[i].first;
      WinsIsNewest(sources, points, rdels, k, view, i, e);
      HiddenIsCovered(sources, points, rdels, k, view, i, e);
      assert Wins(sources, k, view, i, e) && Yields(sources, k, view, now, i, e);
    }
  }
}
