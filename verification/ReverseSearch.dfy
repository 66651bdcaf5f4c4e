/** The backward search of a table (src/scan.rs): restart search, region walk, and the version run across blocks. */
module ReverseSearch {
  import opened Keys
  import opened Visibility
  import opened Merging
  import opened TableLookup

  /** Keys below `key`, or up to it. */
  datatype Bound = Everything | UpTo(key: Rank, inclusive: bool)

  predicate Within(b: Bound, k: Rank) {
    b.Everything? || k < b.key || (b.inclusive && k == b.key)
  }

  /** The keys up to a bound: all, those below its key, or that one too. */
  lemma WithinExactly(key: Rank, k: Rank)
    ensures Within(Everything, k) && (Within(UpTo(key, true), k) <==> k <= key)
            && (Within(UpTo(key, false), k) <==> k < key)
  {}

  predicate Qualifies(b: Bound, view: nat, e: Entry) {
    Within(b, e.key) && e.seqno <= view
  }

  /** Where a backward cursor must park: the greatest qualifying key with a visible version, at its newest one. */
  ghost predicate Top(es: set<Entry>, b: Bound, view: nat, e: Entry) {
    && e in es && Qualifies(b, view, e)
    && forall f :: f in es && Qualifies(b, view, f) ==> f.key < e.key || (f.key == e.key && f.seqno <= e.seqno)
  }

  ghost predicate Nothing(es: set<Entry>, b: Bound, view: nat) {
    forall f :: f in es ==> !Qualifies(b, view, f)
  }

  ghost predicate Answer(es: set<Entry>, b: Bound, view: nat, r: Option<Entry>) {
    if r.Some? then Top(es, b, view, r.value) else Nothing(es, b, view)
  }

  /** The entries at positions `lo .. hi`. */
  ghost function Slice(es: seq<Entry>, lo: nat, hi: nat): set<Entry> {
    set i | 0 <= i < |es| && lo <= i < hi :: es[i]
  }

  ghost predicate Restarted(b: DataBlock) {
    b.Valid() && b.restarts != [] && b.restarts[0] == 0
  }

  // One region.

  /** The best entry of a region: the strictly greatest qualifying key, so the first version met of it. */
  method RegionBest(es: seq<Entry>, lo: nat, limit: nat, b: Bound, view: nat) returns (best: Option<Entry>)
    requires Ordered(es) && lo <= limit <= |es|
    ensures Answer(Slice(es, lo, limit), b, view, best)
  {
    best := None;
    var off := lo;
    while off < limit
      invariant lo <= off <= limit
      invariant Answer(Slice(es, lo, off), b, view, best)
    {
      var e := es[off];
      if !Within(b, e.key) {
        Dominated(es, lo, off, limit, b, view, best);
        return;
      }
      SliceNext(es, lo, off);
      InOrder(es, lo, off);
      if e.seqno <= view && (best.None? || e.key > best.value.key) {
        best := Some(e);
      }
      off := off + 1;
    }
  }

  lemma SliceNext(es: seq<Entry>, lo: nat, off: nat)
    requires lo <= off < |es|
    ensures Slice(es, lo, off + 1) == Slice(es, lo, off) + {es[off]}
  {}

  lemma InOrder(es: seq<Entry>, lo: nat, off: nat)
    requires Ordered(es) && lo <= off < |es|
    ensures forall f :: f in Slice(es, lo, off) ==> Before(f, es[off])
  {}

  /** Entries ascend: past the bound nothing qualifies. */
  lemma Dominated(es: seq<Entry>, lo: nat, off: nat, limit: nat, b: Bound, view: nat, best: Option<Entry>)
    requires Ordered(es) && lo <= off < limit <= |es| && !Within(b, es[off].key)
             && Answer(Slice(es, lo, off), b, view, best)
    ensures Answer(Slice(es, lo, limit), b, view, best)
  {
    forall i | off < i < |es| ensures !Within(b, es[i].key) {
      assert Before(es[off], es[i]);
    }
    forall f | f in Slice(es, lo, limit) && Qualifies(b, view, f) ensures f in Slice(es, lo, off) {
      var i :| 0 <= i < |es| && lo <= i < limit && es[i] == f;
    }
  }

  // One block.

  /** `last_qualifying_restart`. */
  method LastQualifying(blk: DataBlock, b: Bound) returns (r: Option<nat>)
    requires Restarted(blk)
    ensures r.Some? ==> r.value < |blk.restarts|
    ensures r.Some? && r.value + 1 < |blk.restarts| ==> !Within(b, blk.entries[blk.restarts[r.value + 1]].key)
    ensures r.None? ==> !Within(b, blk.entries[0].key)
  {
    var lo, hi: nat := 0, |blk.restarts|;
    r := None;
    while lo < hi
      invariant 0 <= lo <= hi <= |blk.restarts|
      invariant r == if lo == 0 then None else Some(lo - 1)
      invariant hi < |blk.restarts| ==> !Within(b, blk.entries[blk.restarts[hi]].key)
    {
      var mid := lo + (hi - lo) / 2;
      if Within(b, blk.entries[blk.restarts[mid]].key) {
        r := Some(mid);
        lo := mid + 1;
      } else {
        hi := mid;
      }
    }
  }

  /** Joining an earlier region: a tie keeps its version, which is the newer one. */
  lemma Join(es: seq<Entry>, lo: nat, mid: nat, hi: nat, b: Bound, view: nat, early: Option<Entry>, late: Option<Entry>)
    requires Ordered(es) && lo <= mid <= hi <= |es|
    requires Answer(Slice(es, lo, mid), b, view, early) && Answer(Slice(es, mid, hi), b, view, late)
    ensures Answer(Slice(es, lo, hi), b, view,
                   if early.Some? && (late.None? || early.value.key >= late.value.key) then early else late)
  {
    assert Slice(es, lo, hi) == Slice(es, lo, mid) + Slice(es, mid, hi);
    forall f, g | f in Slice(es, lo, mid) && g in Slice(es, mid, hi) ensures Before(f, g) {
      var i :| 0 <= i < |es| && lo <= i < mid && es[i] == f;
      var j :| 0 <= j < |es| && mid <= j < hi && es[j] == g;
    }
  }

  /** Once the next region starts below the best key, nothing further back can tie or beat it. */
  lemma NothingBefore(es: seq<Entry>, mid: nat, b: Bound, view: nat, best: Entry)
    requires Ordered(es) && mid < |es| && es[mid].key < best.key && Top(Slice(es, mid, |es|), b, view, best)
    ensures Top(Slice(es, 0, |es|), b, view, best)
  {
    forall f | f in Slice(es, 0, |es|) && Qualifies(b, view, f) ensures f.key < best.key || f in Slice(es, mid, |es|) {
      var i :| 0 <= i < |es| && es[i] == f;
      assert i < mid ==> Before(es[i], es[mid]);
    }
    assert best in Slice(es, 0, |es|);
  }

  /** `walk_regions_rev`: regions from the last that can hold a match, backward. */
  method WalkRegions(blk: DataBlock, top: nat, b: Bound, view: nat) returns (best: Option<Entry>)
    requires Restarted(blk) && top < |blk.restarts|
    ensures Answer(Slice(blk.entries, 0, |blk.entries|), b, view, best)
  {
    hide Ordered, Slice, Answer, Qualifies;
    var es := blk.entries;
    best := RegionBest(es, blk.restarts[top], |es|, b, view);
    var j := top;
    while j > 0
      invariant 0 <= j <= top
      invariant Answer(Slice(es, blk.restarts[j], |es|), b, view, best)
    {
      if best.Some? && es[blk.restarts[j]].key < best.value.key {
        BreakOut(es, blk.restarts[j], b, view, best);
        return;
      }
      assert blk.restarts[j - 1] < blk.restarts[j];
      var rbest := RegionBest(es, blk.restarts[j - 1], blk.restarts[j], b, view);
      Join(es, blk.restarts[j - 1], blk.restarts[j], |es|, b, view, rbest, best);
      if rbest.Some? && (best.None? || rbest.value.key >= best.value.key) {
        best := rbest;
      }
      j := j - 1;
    }
  }

  lemma BreakOut(es: seq<Entry>, mid: nat, b: Bound, view: nat, best: Option<Entry>)
    requires Ordered(es) && mid < |es| && best.Some? && es[mid].key < best.value.key
             && Answer(Slice(es, mid, |es|), b, view, best)
    ensures Answer(Slice(es, 0, |es|), b, view, best)
  {
    NothingBefore(es, mid, b, view, best.value);
  }

  /** `search_block_rev`. */
  method SearchBlock(blk: DataBlock, b: Bound, view: nat) returns (best: Option<Entry>)
    requires Restarted(blk)
    ensures Answer(Points(blk.entries), b, view, best)
  {
    assert Slice(blk.entries, 0, |blk.entries|) == Points(blk.entries);
    var r := LastQualifying(blk, b);
    if r.None? {
      Dominated(blk.entries, 0, 0, |blk.entries|, b, view, None);
      return None;
    }
    best := WalkRegions(blk, r.value, b, view);
  }

  // The table.

  ghost predicate Searchable(blocks: seq<DataBlock>) {
    Sorted(blocks) && forall b :: b in blocks ==> Restarted(b)
  }

  /** The versions in blocks `lo .. hi`. */
  ghost function Blocks(blocks: seq<DataBlock>, lo: nat, hi: nat): set<Entry> {
    set i, e | 0 <= i < |blocks| && lo <= i < hi && e in blocks[i].entries :: e
  }

  datatype Parked = Parked(entry: Entry, block: nat)

  /** Versions of `key` in the blocks before `idx` are all above the view, or end at their newest visible one. */
  ghost predicate Newer(blocks: seq<DataBlock>, idx: nat, key: Rank, view: nat, r: Option<Parked>) {
    if r.None? then forall f :: f in Blocks(blocks, 0, idx) ==> !VersionAt(f, key, view)
    else
      && r.value.block < idx && r.value.block < |blocks| && r.value.entry in blocks[r.value.block].entries
      && Newest(Blocks(blocks, 0, idx), key, view, r.value.entry)
  }

  /** `resolve_run`: follows the key's run into earlier blocks, up to its newest visible version. */
  method ResolveRun(blocks: seq<DataBlock>, idx: nat, key: Rank, view: nat) returns (best: Option<Parked>)
    requires Searchable(blocks) && idx < |blocks| && FirstKey(blocks, idx) == key
    ensures Newer(blocks, idx, key, view, best)
  {
    best := None;
    var p := idx;
    while p > 0
      invariant 0 <= p <= idx && FirstKey(blocks, p) == key
      invariant RunSoFar(blocks, p, idx, key, view, best)
    {
      p := p - 1;
      assert blocks[p] in blocks;
      var hit := SearchBlock(blocks[p], UpTo(key, true), view);
      RunStep(blocks, p, idx, key, view, best, hit);
      if hit.None? || hit.value.key != key {
        return;
      }
      best := Some(Parked(hit.value, p));
      if FirstKey(blocks, p) != key {
        RunHead(blocks, p, idx, key, view, hit.value);
        return;
      }
    }
  }

  /** The blocks `p .. idx` of a run are followed. */
  ghost predicate RunSoFar(blocks: seq<DataBlock>, p: nat, idx: nat, key: Rank, view: nat, r: Option<Parked>) {
    if r.None? then forall f :: f in Blocks(blocks, p, idx) ==> !VersionAt(f, key, view)
    else p <= r.value.block < idx && r.value.block < |blocks| && r.value.entry in blocks[r.value.block].entries
         && Newest(Blocks(blocks, p, idx), key, view, r.value.entry)
  }

  lemma BlocksSplit(blocks: seq<DataBlock>, p: nat, idx: nat)
    requires p < idx <= |blocks|
    ensures Blocks(blocks, p, idx) == Points(blocks[p].entries) + Blocks(blocks, p + 1, idx)
    ensures Blocks(blocks, 0, idx) == Blocks(blocks, 0, p) + Blocks(blocks, p, idx)
  {}

  /** A block of the run without a visible version ends it: what comes before is newer still. */
  lemma RunStep(blocks: seq<DataBlock>, p: nat, idx: nat, key: Rank, view: nat, best: Option<Parked>,
                hit: Option<Entry>)
    requires Searchable(blocks) && p < idx < |blocks| && FirstKey(blocks, p + 1) == key
    requires RunSoFar(blocks, p + 1, idx, key, view, best)
             && Answer(Points(blocks[p].entries), UpTo(key, true), view, hit)
    ensures hit.None? || hit.value.key != key ==> Newer(blocks, idx, key, view, best)
    ensures hit.Some? && hit.value.key == key ==> RunSoFar(blocks, p, idx, key, view, Some(Parked(hit.value, p)))
  {
    BlocksSplit(blocks, p, idx);
    if hit.Some? && hit.value.key == key {
      HitInRun(blocks, p, idx, key, view, hit.value);
    } else {
      forall f | f in Blocks(blocks, 0, p + 1) ensures !VersionAt(f, key, view) {
        NoVisible(blocks, p, key, view, hit, f);
      }
      BlocksJoin(blocks, p + 1, idx);
    }
  }

  lemma BlocksJoin(blocks: seq<DataBlock>, p: nat, idx: nat)
    requires p <= idx <= |blocks|
    ensures Blocks(blocks, 0, idx) == Blocks(blocks, 0, p) + Blocks(blocks, p, idx)
  {}

  lemma HitInRun(blocks: seq<DataBlock>, p: nat, idx: nat, key: Rank, view: nat, e: Entry)
    requires Searchable(blocks) && p < idx < |blocks| && Top(Points(blocks[p].entries), UpTo(key, true), view, e)
             && e.key == key
    ensures Newest(Blocks(blocks, p, idx), key, view, e)
  {
    BlocksSplit(blocks, p, idx);
    forall f | f in Blocks(blocks, p, idx) && VersionAt(f, key, view) ensures f.seqno <= e.seqno {
      if f !in Points(blocks[p].entries) {
        var i :| p < i < idx && f in blocks[i].entries;
        assert Before(e, f);
      }
    }
  }

  /** The run's last entry of block `p` is not visible, so none before it is. */
  lemma NoVisible(blocks: seq<DataBlock>, p: nat, key: Rank, view: nat, hit: Option<Entry>, f: Entry)
    requires Searchable(blocks) && p + 1 < |blocks| && FirstKey(blocks, p + 1) == key
    requires Answer(Points(blocks[p].entries), UpTo(key, true), view, hit) && (hit.Some? ==> hit.value.key != key)
    requires f in Blocks(blocks, 0, p + 1)
    ensures !VersionAt(f, key, view)
  {
    var i :| 0 <= i < p + 1 && f in blocks[i].entries;
    if i == p {
      assert f in Points(blocks[p].entries);
    } else if VersionAt(f, key, view) {
      assert blocks[p] in blocks;
      var g := blocks[p].entries[0];
      assert g in blocks[p].entries && g in Points(blocks[p].entries) && Before(f, g);
      assert blocks[p + 1] in blocks && blocks[p + 1].entries[0] in blocks[p + 1].entries;
      assert Before(g, blocks[p + 1].entries[0]);
      assert VersionAt(g, key, view) && Qualifies(UpTo(key, true), view, g);
    }
  }

  /** A run that does not start its block cannot reach further back. */
  lemma RunHead(blocks: seq<DataBlock>, p: nat, idx: nat, key: Rank, view: nat, e: Entry)
    requires Searchable(blocks) && p < idx < |blocks| && FirstKey(blocks, p) != key && e.key == key
    requires RunSoFar(blocks, p, idx, key, view, Some(Parked(e, p)))
    ensures Newer(blocks, idx, key, view, Some(Parked(e, p)))
  {
    BlocksJoin(blocks, p, idx);
    forall f | f in Blocks(blocks, 0, p) ensures f.key != key {
      var i :| 0 <= i < p && f in blocks[i].entries;
      FirstKeysSorted(blocks, i, p);
      EntryFrom(blocks, p, e);
    }
  }

  /** `park_cursor_rev`: from block `idx` backward. */
  method ParkRev(blocks: seq<DataBlock>, idx: nat, b: Bound, view: nat) returns (r: Option<Parked>)
    requires Searchable(blocks) && idx < |blocks|
    ensures Answer(Blocks(blocks, 0, idx + 1), b, view, if r.None? then None else Some(r.value.entry))
    ensures r.Some? ==> r.value.block <= idx && r.value.entry in blocks[r.value.block].entries
  {
    var i: nat := idx;
    while true
      invariant i <= idx && Nothing(Blocks(blocks, i + 1, idx + 1), b, view)
      decreases i
    {
      assert blocks[i] in blocks;
      var best := SearchBlock(blocks[i], b, view);
      if best.Some? {
        var e := best.value;
        if i > 0 && e.key == FirstKey(blocks, i) {
          var newer := ResolveRun(blocks, i, e.key, view);
          ParkResolved(blocks, i, idx, b, view, e, newer);
          return if newer.Some? then newer else Some(Parked(e, i));
        }
        ParkHere(blocks, i, idx, b, view, e);
        return Some(Parked(e, i));
      }
      BlocksSplit(blocks, i, idx + 1);
      if i == 0 {
        return None;
      }
      i := i - 1;
    }
  }

  /** The key starts inside the block: its newest visible version is here. */
  lemma ParkHere(blocks: seq<DataBlock>, i: nat, idx: nat, b: Bound, view: nat, e: Entry)
    requires Searchable(blocks) && i <= idx < |blocks| && Nothing(Blocks(blocks, i + 1, idx + 1), b, view)
    requires Top(Points(blocks[i].entries), b, view, e) && (i == 0 || e.key != FirstKey(blocks, i))
    ensures Top(Blocks(blocks, 0, idx + 1), b, view, e)
  {
    forall f | f in Blocks(blocks, 0, i) ensures f.key < e.key {
      var j :| 0 <= j < i && f in blocks[j].entries;
      FirstKeysSorted(blocks, j, i);
      EntryFrom(blocks, i, e);
    }
    TopJoin(blocks, i, idx, b, view, e);
  }

  lemma TopJoin(blocks: seq<DataBlock>, i: nat, idx: nat, b: Bound, view: nat, e: Entry)
    requires i <= idx < |blocks| && Nothing(Blocks(blocks, i + 1, idx + 1), b, view)
    requires Top(Points(blocks[i].entries), b, view, e)
    requires forall f :: f in Blocks(blocks, 0, i) && Qualifies(b, view, f) ==>
               f.key < e.key || (f.key == e.key && f.seqno <= e.seqno)
    ensures Top(Blocks(blocks, 0, idx + 1), b, view, e)
  {
    BlocksSplit(blocks, i, idx + 1);
  }

  /** The key may start in an earlier block: the run's newest visible version is the answer. */
  lemma ParkResolved(blocks: seq<DataBlock>, i: nat, idx: nat, b: Bound, view: nat, e: Entry, newer: Option<Parked>)
    requires Searchable(blocks) && i <= idx < |blocks| && Nothing(Blocks(blocks, i + 1, idx + 1), b, view)
    requires Top(Points(blocks[i].entries), b, view, e) && e.key == FirstKey(blocks, i)
             && Newer(blocks, i, e.key, view, newer)
    ensures Top(Blocks(blocks, 0, idx + 1), b, view, if newer.None? then e else newer.value.entry)
  {
    forall f | f in Blocks(blocks, 0, i) ensures f.key <= e.key {
      var j :| 0 <= j < i && f in blocks[j].entries;
      FirstKeysSorted(blocks, j, i);
    }
    if newer.None? {
      TopJoin(blocks, i, idx, b, view, e);
    } else {
      ResolvedTop(blocks, i, idx, b, view, e, newer.value);
    }
  }

  lemma ResolvedTop(blocks: seq<DataBlock>, i: nat, idx: nat, b: Bound, view: nat, e: Entry, w: Parked)
    requires Searchable(blocks) && i <= idx < |blocks| && Nothing(Blocks(blocks, i + 1, idx + 1), b, view)
    requires Top(Points(blocks[i].entries), b, view, e) && Newer(blocks, i, e.key, view, Some(w))
    requires forall f :: f in Blocks(blocks, 0, i) ==> f.key <= e.key
    ensures Top(Blocks(blocks, 0, idx + 1), b, view, w.entry)
  {
    BlocksSplit(blocks, i, idx + 1);
    assert Before(w.entry, e);
  }

  /** A backward seek: starting at the last block that can hold a match, the whole table's answer. */
  method SeekRev(blocks: seq<DataBlock>, b: Bound, view: nat) returns (r: Option<Parked>)
    requires Searchable(blocks) && blocks != []
    ensures Answer(All(blocks), b, view, if r.None? then None else Some(r.value.entry))
    ensures r.Some? ==> r.value.block < |blocks| && r.value.entry in blocks[r.value.block].entries
  {
    assert All(blocks) == Blocks(blocks, 0, |blocks|);
    if b.Everything? {
      r := ParkRev(blocks, |blocks| - 1, b, view);
      return;
    }
    var lo := UpperBound(blocks, b.key);
    BlocksJoin(blocks, lo, |blocks|);
    forall f | f in Blocks(blocks, lo, |blocks|) ensures !Within(b, f.key) {
      var i :| lo <= i < |blocks| && f in blocks[i].entries;
      EntryFrom(blocks, i, f);
    }
    if lo == 0 {
      return None;
    }
    r := ParkRev(blocks, lo - 1, b, view);
  }
}
