/** The tables a compaction job merges, and how each committed output settles them (src/db/compaction.rs). */
module JobInputs {
  import opened Keys
  import opened Tombstones
  import opened RdelMerge
  import opened RdelWeight
  import opened Visibility
  import opened Retention
  import opened Merging

  /** One input table. Everything below `first` is dead: a past job already merged it. */
  datatype Table = Table(first: Rank, last: Rank, points: seq<Entry>, rdels: seq<Rdel>) {
    /** Its tombstones end by its last key, at the latest at the key that follows it: a split output's do. */
    ghost predicate Valid(ks: KeySpace) {
      && ks.Key(first) && ks.Key(last) && Ordered(points)
      && (forall e :: e in points ==> ks.Key(e.key) && e.key <= last && e.seqno <= MAX_SEQ)
      && WellFormed(Sections())
      && (forall r :: r in rdels ==> ks.Key(r.start) && ks.Key(r.end) && ks.EndsBy(r.end, last))
    }

    function Sections(): Section {
      Section(first, rdels)
    }
  }

  /** Target tables are disjoint and in key order. */
  ghost predicate Disjoint(tables: seq<Table>) {
    forall i, j :: 0 <= i < j < |tables| ==> tables[i].last < tables[j].first
  }

  /** Where `init_cursor` parks: past the dead prefix. */
  function LivePoints(first: Rank, points: seq<Entry>): seq<Entry> {
    if points != [] && points[0].key < first then LivePoints(first, points[1..]) else points
  }

  /** The concatenating target cursor. */
  function Concat(tables: seq<Table>): seq<Entry> {
    if tables == [] then [] else LivePoints(tables[0].first, tables[0].points) + Concat(tables[1..])
  }

  function Cursors(sources: seq<Table>, targets: seq<Table>): seq<seq<Entry>> {
    seq(|sources|, i requires 0 <= i < |sources| => LivePoints(sources[i].first, sources[i].points)) + [Concat(targets)]
  }

  function SectionsOf(tables: seq<Table>): (s: seq<Section>)
    ensures |s| == |tables| && forall i :: 0 <= i < |tables| ==> s[i] == tables[i].Sections()
  {
    seq(|tables|, i requires 0 <= i < |tables| => tables[i].Sections())
  }

  ghost function LiveRdels(sources: seq<Table>, targets: seq<Table>): seq<Rdel> {
    Inputs(SectionsOf(sources), SectionsOf(targets))
  }

  ghost predicate TablesValid(ks: KeySpace, tables: seq<Table>) {
    ks.Valid() && forall t :: t in tables ==> t.Valid(ks)
  }

  /** What ends by a table's last key ends before a later table starts. */
  lemma EndsBefore(ks: KeySpace, end: Rank, last: Rank, first: Rank)
    requires ks.Valid() && ks.Key(last) && ks.Key(first) && ks.EndsBy(end, last) && last < first
    ensures end <= first
  {
    assert ks.Follows(last);
  }

  /** What ends by a key at or below `k` ends by the key that follows `k`. */
  lemma EndsBelow(ks: KeySpace, end: Rank, last: Rank, k: Rank, hi: Rank)
    requires ks.Valid() && ks.Key(last) && ks.Key(k) && ks.EndsBy(end, last) && last <= k && ks.next(k) == Some(hi)
    ensures end <= hi
  {
    assert ks.Follows(k);
    NextMonotone(ks, last, k);
  }

  lemma {:induction false} LivePointsOrdered(first: Rank, points: seq<Entry>)
    requires Ordered(points)
    ensures Ordered(LivePoints(first, points))
    ensures forall e :: e in LivePoints(first, points) <==> e in points && e.key >= first
  {
    if points != [] {
      TailOrdered(points);
      if points[0].key < first {
        LivePointsOrdered(first, points[1..]);
      } else {
        forall e | e in points ensures e.key >= first {
          var i :| 0 <= i < |points| && points[i] == e;
          assert i > 0 ==> Before(points[0], points[i]);
        }
      }
    }
  }

  lemma {:induction false} ConcatOrdered(ks: KeySpace, tables: seq<Table>)
    requires TablesValid(ks, tables) && Disjoint(tables)
    ensures Ordered(Concat(tables))
    ensures forall e :: e in Concat(tables) <==>
              exists i :: 0 <= i < |tables| && e in tables[i].points && e.key >= tables[i].first
  {
    if tables != [] {
      var t, rest := tables[0], tables[1..];
      assert t.Valid(ks);
      assert Disjoint(rest) by {
        forall i, j | 0 <= i < j < |rest| ensures rest[i].last < rest[j].first {
          assert rest[i] == tables[i + 1] && rest[j] == tables[j + 1];
        }
      }
      ConcatOrdered(ks, rest);
      LivePointsOrdered(t.first, t.points);
      var a, b := LivePoints(t.first, t.points), Concat(rest);
      forall x, y | x in a && y in b ensures Before(x, y) {
        var i :| 0 <= i < |rest| && y in rest[i].points && y.key >= rest[i].first;
        assert rest[i] == tables[i + 1];
      }
      OrderedConcat(a, b);
      forall e
        ensures e in Concat(tables) <==> exists i ::
                  0 <= i < |tables| && e in tables[i].points && e.key >= tables[i].first
      {
        if e in b {
          var i :| 0 <= i < |rest| && e in rest[i].points && e.key >= rest[i].first;
          assert rest[i] == tables[i + 1];
        }
        if i :| 0 <= i < |tables| && e in tables[i].points && e.key >= tables[i].first {
          if i > 0 { assert tables[i] == rest[i - 1]; }
        }
      }
    }
  }

  /** Some stored tombstone of a table that reaches `k` covers it with sequence `q`. */
  ghost predicate StoredCover(tables: seq<Table>, k: Rank, view: nat, q: nat) {
    exists t, e :: t in tables && e in t.rdels && t.first <= k && VisibleCover(e, k, view) && e.seqno == q
  }

  /** A table's live tombstones cover `k` as its stored ones do, from its lower bound on. */
  lemma LiveIsStored(tables: seq<Table>, k: Rank, view: nat, r: Rdel)
    requires r in Live(SectionsOf(tables)) && VisibleCover(r, k, view)
    ensures StoredCover(tables, k, view, r.seqno)
  {
    LiveMembers(SectionsOf(tables), r);
    var i, e :| 0 <= i < |tables| && e in SectionsOf(tables)[i].entries && e.end > SectionsOf(tables)[i].lower
                && r == e.(start := Max(e.start, SectionsOf(tables)[i].lower));
    assert tables[i] in tables && e in tables[i].rdels && VisibleCover(e, k, view);
  }

  lemma StoredIsLive(tables: seq<Table>, k: Rank, view: nat, q: nat)
    requires StoredCover(tables, k, view, q)
    ensures exists r :: r in Live(SectionsOf(tables)) && VisibleCover(r, k, view) && r.seqno == q
  {
    var t, e :| t in tables && e in t.rdels && t.first <= k && VisibleCover(e, k, view) && e.seqno == q;
    var i :| 0 <= i < |tables| && tables[i] == t;
    var r := e.(start := Max(e.start, t.first));
    LiveMembers(SectionsOf(tables), r);
    assert SectionsOf(tables)[i] == t.Sections();
    assert VisibleCover(r, k, view) && r in Live(SectionsOf(tables));
  }

  /** The sources still live once every key up to `k` is in committed outputs. */
  function LiveSources(sources: seq<Table>, k: Rank): seq<Table> {
    if sources == [] then []
    else (if sources[0].last <= k then [] else [sources[0]]) + LiveSources(sources[1..], k)
  }

  /** The targets still live, those reaching past `k` narrowed to start at `hi`. */
  function LiveTargets(targets: seq<Table>, k: Rank, hi: Rank): seq<Table> {
    if targets == [] then []
    else (if targets[0].last <= k then [] else [Narrow(targets[0], k, hi)]) + LiveTargets(targets[1..], k, hi)
  }

  function Narrow(t: Table, k: Rank, hi: Rank): Table {
    if t.first <= k then t.(first := hi) else t
  }

  lemma {:induction false} LiveSourcesMembers(sources: seq<Table>, k: Rank)
    ensures forall t :: t in LiveSources(sources, k) <==> t in sources && t.last > k
  {
    if sources != [] {
      LiveSourcesMembers(sources[1..], k);
      assert sources == [sources[0]] + sources[1..];
    }
  }

  lemma LiveSourcesValid(ks: KeySpace, sources: seq<Table>, k: Rank, top: Rank)
    requires TablesValid(ks, sources) && forall t :: t in sources ==> t.last <= top
    ensures TablesValid(ks, LiveSources(sources, k)) && forall t :: t in LiveSources(sources, k) ==> t.last <= top
  {
    hide Table.Valid, KeySpace.Valid;
    LiveSourcesMembers(sources, k);
  }

  lemma LiveTargetsLast(targets: seq<Table>, k: Rank, hi: Rank, top: Rank)
    requires forall t :: t in targets ==> t.last <= top
    ensures forall t :: t in LiveTargets(targets, k, hi) ==> t.last <= top
  {
    LiveTargetsMembers(targets, k, hi);
  }

  lemma {:induction false} LiveTargetsMembers(targets: seq<Table>, k: Rank, hi: Rank)
    ensures forall t :: t in targets && t.last > k ==> Narrow(t, k, hi) in LiveTargets(targets, k, hi)
    ensures forall n :: n in LiveTargets(targets, k, hi) ==>
              exists t :: t in targets && t.last > k && n == Narrow(t, k, hi)
  {
    if targets != [] {
      LiveTargetsMembers(targets[1..], k, hi);
      assert targets == [targets[0]] + targets[1..];
    }
  }

  lemma {:induction false} LiveTargetsValid(ks: KeySpace, targets: seq<Table>, k: Rank, hi: Rank)
    requires TablesValid(ks, targets) && Disjoint(targets) && ks.Key(k) && ks.next(k) == Some(hi)
    ensures TablesValid(ks, LiveTargets(targets, k, hi)) && Disjoint(LiveTargets(targets, k, hi))
  {
    hide Table.Valid, KeySpace.Valid;
    if targets != [] {
      var rest := targets[1..];
      assert forall j :: 0 <= j < |rest| ==> rest[j] == targets[j + 1];
      LiveTargetsValid(ks, rest, k, hi);
      var live := LiveTargets(rest, k, hi);
      if targets[0].last > k {
        var n := Narrow(targets[0], k, hi);
        assert targets[0].Valid(ks);
        NarrowValid(ks, targets[0], k, hi);
        LiveTargetsBeyond(targets[0].last, rest, k, hi);
        DisjointCons(ks, n, live);
      }
    }
  }

  /** What is still live of the targets starts past the keys that are committed. */
  lemma LiveTargetsFrom(ks: KeySpace, targets: seq<Table>, k: Rank, hi: Rank)
    requires TablesValid(ks, targets) && ks.Key(k) && ks.next(k) == Some(hi)
    ensures forall t :: t in LiveTargets(targets, k, hi) ==> hi <= t.first
  {
    LiveTargetsMembers(targets, k, hi);
    forall n | n in LiveTargets(targets, k, hi) ensures hi <= n.first {
      var t :| t in targets && t.last > k && n == Narrow(t, k, hi);
      assert t.Valid(ks) && ks.Follows(k);
    }
  }

  lemma NarrowValid(ks: KeySpace, t: Table, k: Rank, hi: Rank)
    requires ks.Valid() && t.Valid(ks) && ks.Key(k) && ks.next(k) == Some(hi)
    ensures Narrow(t, k, hi).Valid(ks)
  {
    assert ks.Follows(k);
  }

  lemma LiveTargetsBeyond(last: Rank, targets: seq<Table>, k: Rank, hi: Rank)
    requires forall i :: 0 <= i < |targets| ==> last < targets[i].first
    requires k < last
    ensures forall j :: 0 <= j < |LiveTargets(targets, k, hi)| ==> last < LiveTargets(targets, k, hi)[j].first
  {
    var live := LiveTargets(targets, k, hi);
    forall j | 0 <= j < |live| ensures last < live[j].first {
      LiveTargetsMembers(targets, k, hi);
      assert live[j] in live;
      var t :| t in targets && t.last > k && live[j] == Narrow(t, k, hi);
      var i :| 0 <= i < |targets| && targets[i] == t;
      assert last < t.first;
    }
  }

  lemma DisjointCons(ks: KeySpace, t: Table, rest: seq<Table>)
    requires Disjoint(rest) && TablesValid(ks, rest) && t.Valid(ks)
             && forall j :: 0 <= j < |rest| ==> t.last < rest[j].first
    ensures Disjoint([t] + rest) && TablesValid(ks, [t] + rest)
  {
    hide Table.Valid, KeySpace.Valid;
    var s := [t] + rest;
    forall i, j | 0 <= i < j < |s| ensures s[i].last < s[j].first {
      assert s[j] == rest[j - 1];
      if i > 0 { assert s[i] == rest[i - 1]; }
    }
  }

  /** From `hi` on, the live inputs give every key the cover the job's inputs gave it. */
  ghost predicate SameFrom(hi: Rank, a: seq<Rdel>, b: seq<Rdel>) {
    && (forall k, view: nat :: k >= hi ==> CoverSeq(a, k, view) == CoverSeq(b, k, view))
    && (forall r :: r in b ==> exists q :: q in a && q.seqno == r.seqno)
  }

  lemma SettleSame(ks: KeySpace, sources: seq<Table>, targets: seq<Table>, k: Rank, hi: Rank)
    requires TablesValid(ks, sources) && TablesValid(ks, targets) && Disjoint(targets) && ks.Key(k)
             && ks.next(k) == Some(hi)
    ensures SameFrom(hi, LiveRdels(sources, targets), LiveRdels(LiveSources(sources, k), LiveTargets(targets, k, hi)))
  {
    LiveSourcesMembers(sources, k);
    LiveTargetsMembers(targets, k, hi);
    var s', t' := LiveSources(sources, k), LiveTargets(targets, k, hi);
    var a, b := LiveRdels(sources, targets), LiveRdels(s', t');
    forall q, view: nat | q >= hi ensures CoverSeq(a, q, view) == CoverSeq(b, q, view) {
      SourcesNarrowed(ks, sources, k, hi, q);
      TargetsNarrowed(ks, targets, k, hi, q);
      SettleMatches(sources, s', q, view);
      SettleMatches(targets, t', q, view);
      MatchedConcat(Live(SectionsOf(sources)), Live(SectionsOf(targets)), Live(SectionsOf(s')), Live(SectionsOf(t')),
                    q, view);
      MatchedConcat(Live(SectionsOf(s')), Live(SectionsOf(t')), Live(SectionsOf(sources)), Live(SectionsOf(targets)),
                    q, view);
      MatchedCover(a, b, q, view);
      MatchedCover(b, a, q, view);
    }
    forall r | r in b ensures exists q :: q in a && q.seqno == r.seqno {
      SourcesNarrowed(ks, sources, k, hi, hi);
      TargetsNarrowed(ks, targets, k, hi, hi);
      if r in Live(SectionsOf(s')) {
        StoredSeq(sources, s', r);
      } else {
        StoredSeq(targets, t', r);
      }
    }
  }

  /** Retiring and narrowing make an output's share no heavier. */
  lemma SettleLighter(sources: seq<Table>, targets: seq<Table>, k: Rank, hi: Rank)
    requires k < hi
    ensures NoHeavier(hi, LiveRdels(sources, targets), LiveRdels(LiveSources(sources, k), LiveTargets(targets, k, hi)))
  {
    var s', t' := LiveSources(sources, k), LiveTargets(targets, k, hi);
    forall lo, to, base: nat, len: Rank -> nat | hi <= lo
      ensures Weight(LiveRdels(s', t'), lo, to, base, len) <= Weight(LiveRdels(sources, targets), lo, to, base, len)
    {
      var g := PieceOf(lo, to, base, len);
      SourcesLighter(sources, k, g);
      TargetsLighter(targets, k, hi, lo, to, base, len);
      SumConcat(Live(SectionsOf(sources)), Live(SectionsOf(targets)), g);
      SumConcat(Live(SectionsOf(s')), Live(SectionsOf(t')), g);
    }
  }

  /** The tables' live tombstones, one table after the other. */
  lemma LiveCons(t: Table, tables: seq<Table>, g: Rdel -> nat)
    ensures SumOf(Live(SectionsOf([t] + tables)), g) == SumOf(ClipEntries(t.first, t.rdels), g)
            + SumOf(Live(SectionsOf(tables)), g)
  {
    assert SectionsOf([t] + tables)[1..] == SectionsOf(tables);
    SumConcat(ClipEntries(t.first, t.rdels), Live(SectionsOf(tables)), g);
  }

  lemma {:induction false} SourcesLighter(sources: seq<Table>, k: Rank, g: Rdel -> nat)
    ensures SumOf(Live(SectionsOf(LiveSources(sources, k))), g) <= SumOf(Live(SectionsOf(sources)), g)
  {
    hide SumOf, Live, SectionsOf, ClipEntries;
    if sources != [] {
      var t, rest := sources[0], sources[1..];
      SourcesLighter(rest, k, g);
      LiveCons(t, rest, g);
      assert sources == [t] + rest;
      if t.last > k {
        LiveCons(t, LiveSources(rest, k), g);
      } else {
        assert LiveSources(sources, k) == LiveSources(rest, k);
      }
    }
  }

  lemma {:induction false} TargetsLighter(targets: seq<Table>, k: Rank, hi: Rank, lo: Rank, to: Option<Rank>, base: nat,
                                          len: Rank -> nat)
    requires k < hi <= lo
    ensures Weight(Live(SectionsOf(LiveTargets(targets, k, hi))), lo, to, base, len)
            <= Weight(Live(SectionsOf(targets)), lo, to, base, len)
  {
    hide SumOf, Live, SectionsOf, ClipEntries, PieceOf;
    if targets != [] {
      var t, rest := targets[0], targets[1..];
      var g := PieceOf(lo, to, base, len);
      TargetsLighter(rest, k, hi, lo, to, base, len);
      LiveCons(t, rest, g);
      assert targets == [t] + rest;
      if t.last > k {
        var n := Narrow(t, k, hi);
        LiveCons(n, LiveTargets(rest, k, hi), g);
        if t.first <= k {
          ClipWeight(t.first, t.rdels, lo, to, base, len);
          ClipWeight(hi, t.rdels, lo, to, base, len);
        }
      } else {
        assert LiveTargets(targets, k, hi) == LiveTargets(rest, k, hi);
      }
    }
  }

  /** `after` is `before` without the tables that end below, some of the others narrowed. */
  ghost predicate Narrowed(before: seq<Table>, after: seq<Table>, k: Rank) {
    && (forall t, e :: t in before && e in t.rdels && t.first <= k && Covers(e, k) ==>
          exists n :: n in after && n.rdels == t.rdels && n.first <= k)
    && (forall n :: n in after ==> exists t :: t in before && t.rdels == n.rdels && t.first <= n.first)
  }

  lemma SettleMatches(before: seq<Table>, after: seq<Table>, k: Rank, view: nat)
    requires Narrowed(before, after, k)
    ensures Matched(Live(SectionsOf(before)), Live(SectionsOf(after)), k, view)
    ensures Matched(Live(SectionsOf(after)), Live(SectionsOf(before)), k, view)
  {
    forall r | r in Live(SectionsOf(before)) && VisibleCover(r, k, view)
      ensures exists q :: q in Live(SectionsOf(after)) && VisibleCover(q, k, view) && q.seqno >= r.seqno
    {
      LiveIsStored(before, k, view, r);
      var t, e :| t in before && e in t.rdels && t.first <= k && VisibleCover(e, k, view) && e.seqno == r.seqno;
      var n :| n in after && n.rdels == t.rdels && n.first <= k;
      assert e in n.rdels;
      StoredIsLive(after, k, view, r.seqno);
    }
    forall r | r in Live(SectionsOf(after)) && VisibleCover(r, k, view)
      ensures exists q :: q in Live(SectionsOf(before)) && VisibleCover(q, k, view) && q.seqno >= r.seqno
    {
      LiveIsStored(after, k, view, r);
      var n, e :| n in after && e in n.rdels && n.first <= k && VisibleCover(e, k, view) && e.seqno == r.seqno;
      var t :| t in before && t.rdels == n.rdels && t.first <= n.first;
      assert e in t.rdels;
      StoredIsLive(before, k, view, r.seqno);
    }
  }

  /** A table whose tombstone covers a key past `hi` is not retired. */
  lemma StillLive(ks: KeySpace, t: Table, e: Rdel, k: Rank, hi: Rank, q: Rank)
    requires ks.Valid() && t.Valid(ks) && e in t.rdels && ks.Key(k) && ks.next(k) == Some(hi) && hi <= q && Covers(e, q)
    ensures t.last > k
  {
    if t.last <= k { EndsBelow(ks, e.end, t.last, k, hi); }
  }

  lemma SourcesNarrowed(ks: KeySpace, sources: seq<Table>, k: Rank, hi: Rank, q: Rank)
    requires TablesValid(ks, sources) && ks.Key(k) && ks.next(k) == Some(hi) && hi <= q
    ensures Narrowed(sources, LiveSources(sources, k), q)
  {
    hide Table.Valid, KeySpace.Valid;
    LiveSourcesMembers(sources, k);
    forall t, e | t in sources && e in t.rdels && t.first <= q && Covers(e, q)
      ensures exists n :: n in LiveSources(sources, k) && n.rdels == t.rdels && n.first <= q
    {
      assert t.Valid(ks);
      StillLive(ks, t, e, k, hi, q);
      assert t in LiveSources(sources, k);
    }
    forall n | n in LiveSources(sources, k)
      ensures exists t :: t in sources && t.rdels == n.rdels && t.first <= n.first
    {
      assert n in sources;
    }
  }

  lemma TargetsNarrowed(ks: KeySpace, targets: seq<Table>, k: Rank, hi: Rank, q: Rank)
    requires TablesValid(ks, targets) && Disjoint(targets) && ks.Key(k) && ks.next(k) == Some(hi) && hi <= q
    ensures Narrowed(targets, LiveTargets(targets, k, hi), q)
  {
    assert k < hi by { assert ks.Follows(k); }
    hide Table.Valid, KeySpace.Valid;
    LiveTargetsMembers(targets, k, hi);
    forall t, e | t in targets && e in t.rdels && t.first <= q && Covers(e, q)
      ensures exists n :: n in LiveTargets(targets, k, hi) && n.rdels == t.rdels && n.first <= q
    {
      assert t.Valid(ks);
      StillLive(ks, t, e, k, hi, q);
      assert Narrow(t, k, hi) in LiveTargets(targets, k, hi);
    }
  }

  lemma StoredSeq(before: seq<Table>, after: seq<Table>, r: Rdel)
    requires forall n :: n in after ==> exists t :: t in before && t.rdels == n.rdels && t.first <= n.first
    requires r in Live(SectionsOf(after))
    ensures exists q :: q in Live(SectionsOf(before)) && q.seqno == r.seqno
  {
    LiveMembers(SectionsOf(after), r);
    var i, e :| 0 <= i < |after| && e in SectionsOf(after)[i].entries && e.end > SectionsOf(after)[i].lower
                && r == e.(start := Max(e.start, SectionsOf(after)[i].lower));
    var t :| t in before && t.rdels == after[i].rdels && t.first <= after[i].first;
    var j :| 0 <= j < |before| && before[j] == t;
    var q := e.(start := Max(e.start, t.first));
    LiveMembers(SectionsOf(before), q);
    assert SectionsOf(before)[j] == t.Sections();
    assert q in Live(SectionsOf(before));
  }

  lemma MatchedConcat(a1: seq<Rdel>, a2: seq<Rdel>, b1: seq<Rdel>, b2: seq<Rdel>, k: Rank, view: nat)
    requires Matched(a1, b1, k, view) && Matched(a2, b2, k, view)
    ensures Matched(a1 + a2, b1 + b2, k, view)
  {
    forall r | r in a1 + a2 && VisibleCover(r, k, view)
      ensures exists q :: q in b1 + b2 && VisibleCover(q, k, view) && q.seqno >= r.seqno
    {
      if r in a1 {
        var q :| q in b1 && VisibleCover(q, k, view) && q.seqno >= r.seqno;
        assert q in b1 + b2;
      } else {
        var q :| q in b2 && VisibleCover(q, k, view) && q.seqno >= r.seqno;
        assert q in b1 + b2;
      }
    }
  }

  /** Well-formed inputs give the tombstone merger what it asks for. */
  lemma SectionsFit(ks: KeySpace, sources: seq<Table>, targets: seq<Table>)
    requires TablesValid(ks, sources) && TablesValid(ks, targets) && Disjoint(targets)
    ensures forall s :: s in SectionsOf(sources) || s in SectionsOf(targets) ==> WellFormed(s)
    ensures DisjointTargets(SectionsOf(targets))
  {
    forall s | s in SectionsOf(sources) || s in SectionsOf(targets) ensures WellFormed(s) {
      if s in SectionsOf(sources) {
        var i :| 0 <= i < |sources| && SectionsOf(sources)[i] == s;
        assert sources[i] in sources && sources[i].Valid(ks);
      } else {
        var i :| 0 <= i < |targets| && SectionsOf(targets)[i] == s;
        assert targets[i] in targets && targets[i].Valid(ks);
      }
    }
    forall i, j, e | 0 <= i < j < |targets| && e in SectionsOf(targets)[i].entries
      ensures e.end <= SectionsOf(targets)[j].lower
    {
      assert targets[i] in targets && targets[i].Valid(ks) && targets[j] in targets && targets[j].Valid(ks);
      EndsBefore(ks, e.end, targets[i].last, targets[j].first);
    }
  }

  /** Well-formed inputs give the merge what it asks for. */
  lemma InputsFit(ks: KeySpace, sources: seq<Table>, targets: seq<Table>, lo: Rank)
    requires TablesValid(ks, sources) && TablesValid(ks, targets) && Disjoint(targets)
    requires forall t :: t in sources || t in targets ==> lo <= t.first
    ensures InRangeSeqs(Todo(Cursors(sources, targets)))
    ensures forall e :: e in Todo(Cursors(sources, targets)) ==> lo <= e.key && ks.Key(e.key)
    ensures forall r :: r in LiveRdels(sources, targets) ==> lo <= r.start
  {
    ConcatOrdered(ks, targets);
    var cursors := Cursors(sources, targets);
    forall e | e in Todo(cursors) ensures e.seqno <= MAX_SEQ && lo <= e.key && ks.Key(e.key) {
      var i :| 0 <= i < |cursors| && e in cursors[i];
      if i < |sources| {
        assert sources[i] in sources && sources[i].Valid(ks);
        LivePointsOrdered(sources[i].first, sources[i].points);
      } else {
        var j :| 0 <= j < |targets| && e in targets[j].points && e.key >= targets[j].first;
        assert targets[j] in targets && targets[j].Valid(ks);
      }
    }
    LiveFrom(sources, lo);
    LiveFrom(targets, lo);
  }

  lemma LiveFrom(tables: seq<Table>, lo: Rank)
    requires forall t :: t in tables ==> lo <= t.first
    ensures forall r :: r in Live(SectionsOf(tables)) ==> lo <= r.start
  {
    forall r | r in Live(SectionsOf(tables)) ensures lo <= r.start {
      LiveMembers(SectionsOf(tables), r);
      var i, e :| 0 <= i < |tables| && e in SectionsOf(tables)[i].entries && e.end > SectionsOf(tables)[i].lower
                  && r == e.(start := Max(e.start, SectionsOf(tables)[i].lower));
      assert tables[i] in tables;
    }
  }

  // The entries the inputs still hold.

  /** The live entries of the tables. */
  ghost function Held(sources: seq<Table>, targets: seq<Table>): set<Entry> {
    HeldBy(sources) + HeldBy(targets)
  }

  ghost function HeldBy(tables: seq<Table>): set<Entry> {
    set t, e | t in tables && e in t.points && e.key >= t.first :: e
  }

  /** They are what the merge reads. */
  lemma HeldIsTodo(ks: KeySpace, sources: seq<Table>, targets: seq<Table>)
    requires TablesValid(ks, sources) && TablesValid(ks, targets) && Disjoint(targets)
    ensures Held(sources, targets) == Todo(Cursors(sources, targets))
  {
    hide Table.Valid, KeySpace.Valid;
    ConcatOrdered(ks, targets);
    var cursors := Cursors(sources, targets);
    forall e ensures e in Held(sources, targets) <==> e in Todo(cursors) {
      if e in Held(sources, targets) {
        var t :| (t in sources || t in targets) && e in t.points && e.key >= t.first;
        if t in sources {
          var i :| 0 <= i < |sources| && sources[i] == t;
          SourceCursor(ks, t);
          assert e in cursors[i];
        } else {
          var i :| 0 <= i < |targets| && targets[i] == t;
          assert e in cursors[|sources|];
        }
      }
      if e in Todo(cursors) {
        var i :| 0 <= i < |cursors| && e in cursors[i];
        if i < |sources| {
          assert sources[i] in sources;
          SourceCursor(ks, sources[i]);
        } else {
          var j :| 0 <= j < |targets| && e in targets[j].points && e.key >= targets[j].first;
          assert targets[j] in targets;
        }
      }
    }
  }

  lemma SourceCursor(ks: KeySpace, t: Table)
    requires t.Valid(ks)
    ensures forall e :: e in LivePoints(t.first, t.points) <==> e in t.points && e.key >= t.first
  {
    LivePointsOrdered(t.first, t.points);
  }

  /** From `hi` on both hold the same entries. */
  ghost predicate HoldAlike(a: set<Entry>, b: set<Entry>, hi: Rank) {
    forall e: Entry :: e.key >= hi ==> (e in a <==> e in b)
  }

  lemma HeldSources(ks: KeySpace, sources: seq<Table>, k: Rank, hi: Rank)
    requires TablesValid(ks, sources) && k < hi
    ensures HoldAlike(HeldBy(sources), HeldBy(LiveSources(sources, k)), hi)
  {
    hide KeySpace.Valid;
    LiveSourcesMembers(sources, k);
    forall e: Entry | e.key >= hi && e in HeldBy(sources) ensures e in HeldBy(LiveSources(sources, k)) {
      var t :| t in sources && e in t.points && e.key >= t.first;
      assert t.Valid(ks);
    }
  }

  lemma HeldTargets(ks: KeySpace, targets: seq<Table>, k: Rank, hi: Rank)
    requires TablesValid(ks, targets) && k < hi
    ensures HoldAlike(HeldBy(targets), HeldBy(LiveTargets(targets, k, hi)), hi)
  {
    hide KeySpace.Valid;
    LiveTargetsMembers(targets, k, hi);
    var live := LiveTargets(targets, k, hi);
    forall e: Entry | e.key >= hi && e in HeldBy(targets) ensures e in HeldBy(live) {
      var t :| t in targets && e in t.points && e.key >= t.first;
      assert t.Valid(ks);
      assert Narrow(t, k, hi) in live;
    }
    forall e: Entry | e.key >= hi && e in HeldBy(live) ensures e in HeldBy(targets) {
      var n :| n in live && e in n.points && e.key >= n.first;
      var t :| t in targets && t.last > k && n == Narrow(t, k, hi);
    }
  }

  /** Settling past `k` loses no entry from `hi` on. */
  lemma SettleHeld(ks: KeySpace, sources: seq<Table>, targets: seq<Table>, k: Rank, hi: Rank)
    requires TablesValid(ks, sources) && TablesValid(ks, targets) && k < hi
    ensures HoldAlike(Held(sources, targets), Held(LiveSources(sources, k), LiveTargets(targets, k, hi)), hi)
  {
    hide TablesValid, HeldBy;
    HeldSources(ks, sources, k, hi);
    HeldTargets(ks, targets, k, hi);
  }

  /** `live_inputs_last`: no key the job merges lies above it. */
  method LastOfLive(sources: seq<Table>, targets: seq<Table>) returns (last: Option<Rank>)
    ensures last.None? ==> sources == [] && targets == []
    ensures last.Some? ==> exists t :: (t in sources || t in targets) && t.last == last.value
    ensures forall t :: t in sources || t in targets ==> last.Some? && t.last <= last.value
  {
    last := None;
    for i := 0 to |sources|
      invariant last.None? <==> i == 0
      invariant last.Some? ==> exists t :: t in sources && t.last == last.value
      invariant forall j :: 0 <= j < i ==> last.Some? && sources[j].last <= last.value
    {
      if last.None? || last.value < sources[i].last {
        assert sources[i] in sources;
        last := Some(sources[i].last);
      }
    }
    for i := 0 to |targets|
      invariant last.None? ==> sources == [] && i == 0
      invariant last.Some? ==> exists t :: (t in sources || t in targets) && t.last == last.value
      invariant forall t :: t in sources ==> last.Some? && t.last <= last.value
      invariant forall j :: 0 <= j < i ==> last.Some? && targets[j].last <= last.value
    {
      if last.None? || last.value < targets[i].last {
        assert targets[i] in targets;
        last := Some(targets[i].last);
      }
    }
  }

  /** A live tombstone starts and ends at keys, and ends by its table's last one. */
  lemma LiveEnds(ks: KeySpace, tables: seq<Table>, r: Rdel)
    requires TablesValid(ks, tables) && r in Live(SectionsOf(tables))
    ensures ks.Key(r.start) && ks.Key(r.end) && r.start < r.end && exists t :: t in tables && ks.EndsBy(r.end, t.last)
  {
    hide KeySpace.Valid;
    LiveMembers(SectionsOf(tables), r);
    var i, e :| 0 <= i < |tables| && e in SectionsOf(tables)[i].entries && e.end > SectionsOf(tables)[i].lower
                && r == e.(start := Max(e.start, SectionsOf(tables)[i].lower));
    assert tables[i] in tables && tables[i].Valid(ks);
  }

  /** A higher last key bounds no less. */
  lemma EndsByLater(ks: KeySpace, end: Rank, last: Rank, cap: Rank)
    requires ks.Valid() && ks.Key(end) && ks.Key(last) && ks.Key(cap) && last <= cap && ks.EndsBy(end, last)
    ensures ks.EndsBy(end, cap)
  {
    assert ks.Follows(cap);
    if ks.next(cap).Some? { NextMonotone(ks, last, cap); }
  }
}
