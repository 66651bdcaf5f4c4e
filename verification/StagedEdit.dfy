/** Staged manifest edits (src/manifest.rs): what a commit writes before the edit is applied is what applying it
    in memory leaves. Tables live in one flat pool, level after level; an edit names pool positions. */
module StagedEdit {
  import opened Keys

  type Bytes = seq<Byte>

  datatype Ref = Ref(id: nat, firstBlock: nat, blockCount: nat, firstKey: Bytes, lastKey: Bytes, maxSeq: nat,
                     minSeq: nat,
                     entryCount: nat, rdelBlocks: nat, nodeId: nat, sealWall: nat)

  datatype Stamp = Stamp(id: nat, nodeId: nat, sealWall: nat)

  datatype Added = Added(level: nat, ref: Ref)

  datatype Edit = Edit(walHead: Option<nat>, flushed: nat, seqHigh: nat, nextId: nat,
                       removed: set<nat>, narrowed: set<nat>, narrowTo: Bytes, added: Option<Added>,
                           stamped: Option<Stamp>)

  /** The pool: `counts[i]` tables of level `i`, after those of the levels before. */
  datatype Pool = Pool(flat: seq<Ref>, counts: seq<nat>)

  datatype Scalars = Scalars(walHead: nat, nextId: nat, flushed: nat, seqHigh: nat)

  function Order(r: Ref): Rank {
    RankOf(r.firstKey)
  }

  function Sum(counts: seq<nat>): nat {
    if counts == [] then 0 else Sum(counts[..|counts| - 1]) + counts[|counts| - 1]
  }

  /** Where level `li` starts. */
  function Start(p: Pool, li: nat): nat
    requires li <= |p.counts|
  {
    Sum(p.counts[..li])
  }

  ghost predicate Packed(p: Pool) {
    Sum(p.counts) == |p.flat|
  }

  lemma {:induction false} SumSplit(counts: seq<nat>, i: nat)
    requires i < |counts|
    ensures Sum(counts[..i]) + counts[i] == Sum(counts[..i + 1]) <= Sum(counts)
    decreases |counts|
  {
    assert counts[..i + 1][..i] == counts[..i];
    if i + 1 == |counts| {
      assert counts[..i + 1] == counts;
    } else {
      SumSplit(counts[..|counts| - 1], i);
      assert counts[..|counts| - 1][..i] == counts[..i] && counts[..|counts| - 1][..i + 1] == counts[..i + 1];
    }
  }

  /** The tables of level `li`. */
  function Level(p: Pool, li: nat): (rs: seq<Ref>)
    requires Packed(p) && li < |p.counts|
    ensures |rs| == p.counts[li]
  {
    SumSplit(p.counts, li);
    p.flat[Start(p, li) .. Start(p, li) + p.counts[li]]
  }

  // What an edit leaves.

  function Stamped(e: Edit, r: Ref): Ref {
    if e.stamped.Some? && r.id == e.stamped.value.id
    then r.(nodeId := e.stamped.value.nodeId, sealWall := e.stamped.value.sealWall)
    else r
  }

  /** The table at pool position `pos`, narrowed and stamped. */
  function Touched(e: Edit, pos: nat, r: Ref): Ref {
    Stamped(e, if pos in e.narrowed then r.(firstKey := e.narrowTo) else r)
  }

  /** The tables from pool position `base` on, without those removed. */
  function Keep(rs: seq<Ref>, base: nat, removed: set<nat>): seq<Ref> {
    if rs == [] then [] else (if base in removed then [] else [rs[0]]) + Keep(rs[1..], base + 1, removed)
  }

  function TouchAll(e: Edit, rs: seq<Ref>, base: nat): (t: seq<Ref>)
    ensures |t| == |rs| && forall i :: 0 <= i < |rs| ==> t[i] == Touched(e, base + i, rs[i])
  {
    seq(|rs|, i requires 0 <= i < |rs| => Touched(e, base + i, rs[i]))
  }

  /** In first-key order, before the first table that does not start below. */
  function Insert(rs: seq<Ref>, a: Ref): seq<Ref> {
    if rs == [] || Order(rs[0]) >= Order(a) then [a] + rs else [rs[0]] + Insert(rs[1..], a)
  }

  /** Level `li` as the edit leaves it. */
  function LevelAfter(p: Pool, e: Edit, li: nat): seq<Ref>
    requires Packed(p) && li < |p.counts|
  {
    var kept := Keep(TouchAll(e, Level(p, li), Start(p, li)), Start(p, li), e.removed);
    if e.added.None? || e.added.value.level != li then kept
    else if li == 0 then kept + [e.added.value.ref]
    else Insert(kept, e.added.value.ref)
  }

  function ScalarsAfter(s: Scalars, e: Edit): Scalars {
    Scalars(if e.walHead.Some? then e.walHead.value else s.walHead,
            MaxNat(s.nextId, e.nextId), MaxNat(s.flushed, e.flushed),
            MaxNat(MaxNat(s.seqHigh, e.seqHigh), e.flushed))
  }

  function MaxNat(a: nat, b: nat): nat {
    if a < b then b else a
  }

  /** `n` is the greater of the two. */
  predicate Greater(n: nat, a: nat, b: nat) {
    n >= a && n >= b && (n == a || n == b)
  }

  /** The WAL head is the edit's, if it has one. The other numbers never go back, and nothing is flushed past the
      highest sequence. */
  ghost predicate ScalarsMean(s: Scalars, e: Edit, r: Scalars) {
    && (e.walHead.Some? ==> r.walHead == e.walHead.value) && (e.walHead.None? ==> r.walHead == s.walHead)
    && Greater(r.nextId, s.nextId, e.nextId) && Greater(r.flushed, s.flushed, e.flushed)
    && r.seqHigh >= s.seqHigh && r.seqHigh >= e.seqHigh && r.seqHigh >= e.flushed
    && (r.seqHigh == s.seqHigh || r.seqHigh == e.seqHigh || r.seqHigh == e.flushed)
  }

  lemma ScalarsMerge(s: Scalars, e: Edit)
    ensures ScalarsMean(s, e, ScalarsAfter(s, e))
  {}

  // The view a commit encodes.

  /** `view_level`: one pass over the level, the added table slipped in where it belongs. */
  method ViewLevel(p: Pool, e: Edit, li: nat) returns (out: seq<Ref>)
    requires Packed(p) && li < |p.counts|
    ensures out == LevelAfter(p, e, li)
  {
    hide Touched, Order;
    SumSplit(p.counts, li);
    var s := Start(p, li);
    ghost var level := Level(p, li);
    ghost var all := TouchAll(e, level, s);
    var pending: Option<Ref> := if e.added.Some? && e.added.value.level == li then Some(e.added.value.ref) else None;
    ghost var a := pending;
    out := [];
    ghost var kept: seq<Ref> := [];
    for i := 0 to p.counts[li]
      invariant kept == Keep(all[..i], s, e.removed)
      invariant ViewSoFar(out, kept, a, pending, li)
    {
      assert all[..i + 1] == all[..i] + [all[i]];
      KeepNext(all[..i], s, e.removed, all[i]);
      if s + i !in e.removed {
        var t := Touched(e, s + i, p.flat[s + i]);
        assert t == all[i];
        ViewStep(out, kept, a, pending, li, t);
        if li > 0 && pending.Some? && Order(t) >= Order(pending.value) {
          out := out + [pending.value];
          pending := None;
        }
        out := out + [t];
        kept := kept + [t];
      }
    }
    assert all[..|all|] == all;
    ViewEnd(out, kept, a, pending, li);
    if pending.Some? {
      out := out + [pending.value];
    }
  }

  /** What was shown: the kept tables, with the added one in its place once that is passed. */
  ghost predicate ViewSoFar(out: seq<Ref>, kept: seq<Ref>, a: Option<Ref>, pending: Option<Ref>, li: nat) {
    if pending.Some?
    then out == kept && a == pending && (li > 0 ==> forall i :: 0 <= i < |kept| ==> Order(kept[i]) < Order(a.value))
    else if a.None? then out == kept
    else li > 0 && out == Insert(kept, a.value) && exists i :: 0 <= i < |kept| && Order(kept[i]) >= Order(a.value)
  }

  lemma ViewStep(out: seq<Ref>, kept: seq<Ref>, a: Option<Ref>, pending: Option<Ref>, li: nat, t: Ref)
    requires ViewSoFar(out, kept, a, pending, li)
    ensures var now := li > 0 && pending.Some? && Order(t) >= Order(pending.value);
            ViewSoFar(if now then out + [pending.value] + [t] else out + [t], kept + [t], a,
                      if now then None else pending, li)
  {
    hide Order;
    if a.Some? {
      if pending.Some? {
        if li > 0 && Order(t) >= Order(a.value) {
          InsertPast(kept, a.value, [t]);
          assert (kept + [t])[|kept|] == t;
          assert kept + ([a.value] + [t]) == kept + [a.value] + [t];
        }
      } else {
        InsertInside(kept, a.value, [t]);
        var i :| 0 <= i < |kept| && Order(kept[i]) >= Order(a.value);
        assert (kept + [t])[i] == kept[i];
      }
    }
  }

  lemma ViewEnd(out: seq<Ref>, kept: seq<Ref>, a: Option<Ref>, pending: Option<Ref>, li: nat)
    requires ViewSoFar(out, kept, a, pending, li)
    ensures (if pending.Some? then out + [pending.value] else out) ==
            if a.None? then kept else if li == 0 then kept + [a.value] else Insert(kept, a.value)
  {
    hide Order;
    if pending.Some? && li > 0 {
      InsertPast(kept, a.value, []);
      assert kept + [] == kept;
    }
  }

  /** Inserting past tables that all start below. */
  lemma {:induction false} InsertPast(low: seq<Ref>, a: Ref, rest: seq<Ref>)
    requires forall i :: 0 <= i < |low| ==> Order(low[i]) < Order(a)
    requires rest != [] ==> Order(rest[0]) >= Order(a)
    ensures Insert(low + rest, a) == low + ([a] + rest)
    decreases |low|
  {
    hide Order;
    if low == [] {
      assert low + rest == rest;
    } else {
      assert (low + rest)[1..] == low[1..] + rest;
      InsertPast(low[1..], a, rest);
    }
  }

  /** What comes after the insertion point does not matter. */
  lemma {:induction false} InsertInside(rs: seq<Ref>, a: Ref, more: seq<Ref>)
    requires exists i :: 0 <= i < |rs| && Order(rs[i]) >= Order(a)
    ensures Insert(rs + more, a) == Insert(rs, a) + more
    decreases |rs|
  {
    hide Order;
    if Order(rs[0]) < Order(a) {
      assert (rs + more)[1..] == rs[1..] + more;
      var i :| 0 <= i < |rs| && Order(rs[i]) >= Order(a);
      assert rs[1..][i - 1] == rs[i];
      InsertInside(rs[1..], a, more);
    }
  }

  lemma {:induction false} KeepConcat(a: seq<Ref>, b: seq<Ref>, base: nat, removed: set<nat>)
    ensures Keep(a + b, base, removed) == Keep(a, base, removed) + Keep(b, base + |a|, removed)
    decreases |a|
  {
    if a == [] {
      assert a + b == b;
    } else {
      assert (a + b)[1..] == a[1..] + b && (a + b)[0] == a[0];
      KeepConcat(a[1..], b, base + 1, removed);
      var head: seq<Ref> := if base in removed then [] else [a[0]];
      var x, y := Keep(a[1..], base + 1, removed), Keep(b, base + |a|, removed);
      assert head + (x + y) == head + x + y;
    }
  }

  lemma KeepNext(rs: seq<Ref>, base: nat, removed: set<nat>, r: Ref)
    ensures Keep(rs + [r], base, removed) == Keep(rs, base, removed) + if base + |rs| in removed then [] else [r]
  {
    KeepConcat(rs, [r], base, removed);
  }

  // Applying the edit in memory.

  ghost predicate UniqueIds(rs: seq<Ref>) {
    forall i, j :: 0 <= i < j < |rs| ==> rs[i].id != rs[j].id
  }

  /** Stamps the table with the id, then raises the first keys. */
  method Touch(flat: seq<Ref>, e: Edit) returns (r: seq<Ref>)
    requires UniqueIds(flat)
    ensures r == TouchAll(e, flat, 0)
  {
    r := flat;
    if e.stamped.Some? {
      var i := 0;
      while i < |flat| && flat[i].id != e.stamped.value.id
        invariant 0 <= i <= |flat| && forall j :: 0 <= j < i ==> flat[j].id != e.stamped.value.id
      {
        i := i + 1;
      }
      if i < |flat| {
        r := r[i := Stamped(e, r[i])];
      }
    }
    assert |r| == |flat| && forall j :: 0 <= j < |flat| ==> r[j] == Stamped(e, flat[j]);
    for i := 0 to |flat|
      invariant |r| == |flat|
      invariant forall j :: 0 <= j < |flat| ==> r[j] == if j < i then Touched(e, j, flat[j]) else Stamped(e, flat[j])
    {
      if i in e.narrowed {
        r := r[i := r[i].(firstKey := e.narrowTo)];
      }
    }
  }

  lemma TouchLevel(p: Pool, e: Edit, li: nat)
    requires Packed(p) && li < |p.counts|
    ensures Level(Pool(TouchAll(e, p.flat, 0), p.counts), li) == TouchAll(e, Level(p, li), Start(p, li))
  {
    hide Touched;
    SumSplit(p.counts, li);
  }

  /** `level_at`. */
  method LevelAt(counts: seq<nat>, pos: nat, ghost l: nat) returns (li: nat)
    requires l < |counts| && Sum(counts[..l]) <= pos < Sum(counts[..l]) + counts[l]
    ensures li == l
  {
    var end := 0;
    li := 0;
    while li < |counts|
      invariant 0 <= li <= l && end == Sum(counts[..li]) <= pos
      decreases |counts| - li
    {
      SumSplit(counts, li);
      end := end + counts[li];
      if pos < end {
        if li < l { SumMonotone(counts, li + 1, l); }
        return;
      }
      if li == l { assert false; }
      li := li + 1;
    }
    assert false;
  }

  lemma {:induction false} SumMonotone(counts: seq<nat>, i: nat, j: nat)
    requires i <= j <= |counts|
    ensures Sum(counts[..i]) <= Sum(counts[..j])
    decreases j
  {
    if i < j {
      SumSplit(counts, j - 1);
      SumMonotone(counts, i, j - 1);
    }
  }

  /** The level of a pool position. */
  lemma {:induction false} FindLevel(counts: seq<nat>, pos: nat) returns (l: nat)
    requires pos < Sum(counts)
    ensures l < |counts| && Sum(counts[..l]) <= pos < Sum(counts[..l]) + counts[l]
    decreases |counts|
  {
    var init := counts[..|counts| - 1];
    if pos < Sum(init) {
      l := FindLevel(init, pos);
      assert counts[..l] == init[..l];
    } else {
      l := |counts| - 1;
    }
  }

  ghost function From(removed: set<nat>, lo: nat): set<nat> {
    set q | q in removed && q >= lo
  }

  lemma {:induction false} KeepAll(rs: seq<Ref>, base: nat, removed: set<nat>)
    requires forall q :: base <= q < base + |rs| ==> q !in removed
    ensures Keep(rs, base, removed) == rs
    decreases |rs|
  {
    if rs != [] { KeepAll(rs[1..], base + 1, removed); }
  }

  lemma {:induction false} KeepSame(rs: seq<Ref>, base: nat, a: set<nat>, b: set<nat>)
    requires forall q :: base <= q < base + |rs| ==> (q in a <==> q in b)
    ensures Keep(rs, base, a) == Keep(rs, base, b)
    decreases |rs|
  {
    if rs != [] { KeepSame(rs[1..], base + 1, a, b); }
  }

  /** Removing position `pos` when everything removed so far lies past it. */
  lemma KeepOneLess(rs: seq<Ref>, base: nat, removed: set<nat>, pos: nat)
    requires base <= pos < base + |rs| && pos in removed
    ensures var k, at := Keep(rs, base, From(removed, pos + 1)), pos - base;
            at < |k| && Keep(rs, base, From(removed, pos)) == k[..at] + k[at + 1..]
  {
    hide Keep;
    var at := pos - base;
    var pre, post := rs[..at], rs[at + 1..];
    assert rs == pre + ([rs[at]] + post);
    KeepConcat(pre, [rs[at]] + post, base, From(removed, pos + 1));
    KeepConcat(pre, [rs[at]] + post, base, From(removed, pos));
    KeepAll(pre, base, From(removed, pos + 1));
    KeepAll(pre, base, From(removed, pos));
    KeepFirst(rs[at], post, pos, From(removed, pos + 1));
    KeepFirst(rs[at], post, pos, From(removed, pos));
    KeepSame(post, pos + 1, From(removed, pos), From(removed, pos + 1));
  }

  lemma KeepFirst(r: Ref, rs: seq<Ref>, base: nat, removed: set<nat>)
    ensures Keep([r] + rs, base, removed) == (if base in removed then [] else [r]) + Keep(rs, base + 1, removed)
  {
    assert ([r] + rs)[1..] == rs;
  }

  /** The pool with the removed positions from `lo` on taken out. */
  ghost predicate RemovedTo(p: Pool, removed: set<nat>, lo: nat, q: Pool) {
    && Packed(p) && q.flat == Keep(p.flat, 0, From(removed, lo)) && |q.counts| == |p.counts|
    && forall li :: 0 <= li < |p.counts| ==> q.counts[li] == |Keep(Level(p, li), Start(p, li), From(removed, lo))|
  }

  /** Levels before a position that nothing was removed up to still start where they did. */
  lemma {:induction false} SameStart(p: Pool, removed: set<nat>, lo: nat, q: Pool, li: nat)
    requires RemovedTo(p, removed, lo, q) && li <= |p.counts| && Start(p, li) <= lo
    ensures Start(q, li) == Start(p, li)
    decreases li
  {
    if li > 0 {
      SumSplit(p.counts, li - 1);
      SameStart(p, removed, lo, q, li - 1);
      KeepAll(Level(p, li - 1), Start(p, li - 1), From(removed, lo));
      SumSplit(q.counts, li - 1);
    }
  }

  /** The position's level still reaches past it. */
  lemma StillThere(p: Pool, removed: set<nat>, pos: nat, q: Pool, l: nat)
    requires RemovedTo(p, removed, pos + 1, q) && l < |p.counts| && Start(p, l) <= pos < Start(p, l) + p.counts[l]
    ensures Sum(q.counts[..l]) <= pos < Sum(q.counts[..l]) + q.counts[l]
  {
    SameStart(p, removed, pos + 1, q, l);
    SumSplit(p.counts, l);
    hide Keep, Level, Sum;
    KeepsFront(Level(p, l), Start(p, l), removed, pos + 1 - Start(p, l));
  }

  /** Positions below those removed are kept. */
  lemma KeepsFront(rs: seq<Ref>, base: nat, removed: set<nat>, n: nat)
    requires n <= |rs|
    ensures |Keep(rs, base, From(removed, base + n))| >= n
  {
    hide Keep;
    KeepConcat(rs[..n], rs[n..], base, From(removed, base + n));
    KeepAll(rs[..n], base, From(removed, base + n));
    assert rs[..n] + rs[n..] == rs;
  }

  lemma RemoveStep(p: Pool, removed: set<nat>, pos: nat, q: Pool, l: nat)
    requires RemovedTo(p, removed, pos + 1, q) && l < |p.counts| && Start(p, l) <= pos < Start(p, l) + p.counts[l]
    requires pos in removed && pos < |q.flat| && q.counts[l] > 0
    ensures RemovedTo(p, removed, pos, Pool(q.flat[..pos] + q.flat[pos + 1..], q.counts[l := q.counts[l] - 1]))
  {
    hide Keep;
    SumSplit(p.counts, l);
    KeepOneLess(p.flat, 0, removed, pos);
    KeepOneLess(Level(p, l), Start(p, l), removed, pos);
    forall li | 0 <= li < |p.counts| && li != l
      ensures Keep(Level(p, li), Start(p, li), From(removed, pos))
              == Keep(Level(p, li), Start(p, li), From(removed, pos + 1))
    {
      SumSplit(p.counts, li);
      if li < l { SumMonotone(p.counts, li + 1, l); } else { SumMonotone(p.counts, l + 1, li); }
      KeepSame(Level(p, li), Start(p, li), From(removed, pos), From(removed, pos + 1));
    }
  }

  lemma NothingRemoved(p: Pool, removed: set<nat>)
    requires Packed(p) && forall q :: q in removed ==> q < |p.flat|
    ensures RemovedTo(p, removed, |p.flat|, p)
  {
    assert From(removed, |p.flat|) == {};
    KeepAll(p.flat, 0, {});
    forall li | 0 <= li < |p.counts|
      ensures p.counts[li] == |Keep(Level(p, li), Start(p, li), From(removed, |p.flat|))|
    {
      SumSplit(p.counts, li);
      KeepAll(Level(p, li), Start(p, li), {});
    }
  }

  /** The removal loop, highest position first, so that lower positions stay put. */
  method RemoveAll(p: Pool, removed: set<nat>) returns (q: Pool)
    requires Packed(p) && forall r :: r in removed ==> r < |p.flat|
    ensures Packed(q) && |q.counts| == |p.counts|
    ensures forall li :: 0 <= li < |p.counts| ==> Level(q, li) == Keep(Level(p, li), Start(p, li), removed)
  {
    hide Keep, Level;
    q := p;
    NothingRemoved(p, removed);
    var pos := |p.flat|;
    while pos > 0
      invariant 0 <= pos <= |p.flat| && RemovedTo(p, removed, pos, q)
    {
      pos := pos - 1;
      if pos in removed {
        ghost var l := FindLevel(p.counts, pos);
        StillThere(p, removed, pos, q, l);
        KeepOneLess(p.flat, 0, removed, pos);
        var level := LevelAt(q.counts, pos, l);
        RemoveStep(p, removed, pos, q, l);
        q := Pool(q.flat[..pos] + q.flat[pos + 1..], q.counts[level := q.counts[level] - 1]);
      } else {
        assert From(removed, pos) == From(removed, pos + 1);
      }
    }
    assert From(removed, 0) == removed;
    KeptLevels(p, removed, q);
  }

  lemma KeepUpTo(rs: seq<Ref>, a: nat, b: nat, removed: set<nat>)
    requires a <= b <= |rs|
    ensures Keep(rs[..b], 0, removed) == Keep(rs[..a], 0, removed) + Keep(rs[a..b], a, removed)
  {
    KeepConcat(rs[..a], rs[a..b], 0, removed);
    assert rs[..a] + rs[a..b] == rs[..b];
  }

  /** Where level `li` starts in the smaller pool. */
  ghost predicate StartsAt(p: Pool, removed: set<nat>, q: Pool, li: nat) {
    && li <= |p.counts| && li <= |q.counts| && Start(p, li) <= |p.flat|
    && Start(q, li) == |Keep(p.flat[..Start(p, li)], 0, From(removed, 0))|
  }

  lemma StartsNext(p: Pool, removed: set<nat>, q: Pool, li: nat)
    requires RemovedTo(p, removed, 0, q) && li < |p.counts| && StartsAt(p, removed, q, li)
    ensures StartsAt(p, removed, q, li + 1)
  {
    hide Keep, Sum, From;
    SumSplit(p.counts, li);
    SumSplit(q.counts, li);
    KeepUpTo(p.flat, Start(p, li), Start(p, li + 1), From(removed, 0));
  }

  lemma {:induction false} KeptStart(p: Pool, removed: set<nat>, q: Pool, li: nat)
    requires RemovedTo(p, removed, 0, q) && li <= |p.counts|
    ensures StartsAt(p, removed, q, li)
    decreases li
  {
    if li == 0 {
      assert p.flat[..0] == [];
    } else {
      hide StartsAt, RemovedTo;
      KeptStart(p, removed, q, li - 1);
      StartsNext(p, removed, q, li - 1);
    }
  }

  lemma Middle(x: seq<Ref>, y: seq<Ref>, z: seq<Ref>)
    ensures (x + y + z)[|x| .. |x| + |y|] == y
  {}

  lemma KeptLevels(p: Pool, removed: set<nat>, q: Pool)
    requires RemovedTo(p, removed, 0, q) && From(removed, 0) == removed
    ensures Packed(q) && forall li :: 0 <= li < |p.counts| ==> Level(q, li) == Keep(Level(p, li), Start(p, li), removed)
  {
    hide Keep;
    KeptStart(p, removed, q, |p.counts|);
    assert p.counts[..|p.counts|] == p.counts && q.counts[..|q.counts|] == q.counts && p.flat[..|p.flat|] == p.flat;
    forall li | 0 <= li < |p.counts| ensures Level(q, li) == Keep(Level(p, li), Start(p, li), removed) {
      KeptLevel(p, removed, q, li);
    }
  }

  lemma KeptLevel(p: Pool, removed: set<nat>, q: Pool, li: nat)
    requires RemovedTo(p, removed, 0, q) && From(removed, 0) == removed && Packed(q) && li < |p.counts|
    ensures Level(q, li) == Keep(Level(p, li), Start(p, li), removed)
  {
    hide Keep, Sum, From;
    KeptStart(p, removed, q, li);
    SumSplit(p.counts, li);
    SumSplit(q.counts, li);
    var a, b := Start(p, li), Start(p, li) + p.counts[li];
    KeepUpTo(p.flat, a, b, removed);
    KeepUpTo(p.flat, b, |p.flat|, removed);
    assert p.flat[..|p.flat|] == p.flat;
    Middle(Keep(p.flat[..a], 0, removed), Keep(p.flat[a..b], a, removed), Keep(p.flat[b..|p.flat|], b, removed));
  }

  // The added table.

  lemma {:induction false} SumBump(counts: seq<nat>, level: nat, li: nat)
    requires level < |counts| && li <= |counts|
    ensures Sum(counts[level := counts[level] + 1][..li]) == Sum(counts[..li]) + if li > level then 1 else 0
    decreases li
  {
    var bumped := counts[level := counts[level] + 1];
    if li > 0 {
      SumBump(counts, level, li - 1);
      SumSplit(counts, li - 1);
      SumSplit(bumped, li - 1);
    }
  }

  function InsertAt(p: Pool, level: nat, at: nat, a: Ref): Pool
    requires level < |p.counts| && at <= |p.flat|
  {
    Pool(p.flat[..at] + [a] + p.flat[at..], p.counts[level := p.counts[level] + 1])
  }

  /** `insert_at`: one level grows, the others keep their tables. */
  lemma Inserted(p: Pool, level: nat, w: nat, a: Ref)
    requires Packed(p) && level < |p.counts| && w <= p.counts[level]
    ensures Start(p, level) + w <= |p.flat|
    ensures var r := InsertAt(p, level, Start(p, level) + w, a);
            Packed(r) && forall li :: 0 <= li < |p.counts| ==>
              Level(r, li) == if li == level then Level(p, li)[..w] + [a] + Level(p, li)[w..] else Level(p, li)
  {
    SumSplit(p.counts, level);
    var r := InsertAt(p, level, Start(p, level) + w, a);
    SumBump(p.counts, level, |p.counts|);
    assert p.counts[..|p.counts|] == p.counts && r.counts[..|r.counts|] == r.counts;
    forall li | 0 <= li < |p.counts|
      ensures Level(r, li) == if li == level then Level(p, li)[..w] + [a] + Level(p, li)[w..] else Level(p, li)
    {
      InsertedLevel(p, level, w, a, li);
    }
  }

  lemma InsertedLevel(p: Pool, level: nat, w: nat, a: Ref, li: nat)
    requires Packed(p) && level < |p.counts| && w <= p.counts[level] && li < |p.counts|
    requires Start(p, level) + w <= |p.flat| && Packed(InsertAt(p, level, Start(p, level) + w, a))
    ensures Level(InsertAt(p, level, Start(p, level) + w, a), li) ==
            if li == level then Level(p, li)[..w] + [a] + Level(p, li)[w..] else Level(p, li)
  {
    hide Sum, Start;
    var at := Start(p, level) + w;
    InsertedBounds(p, level, w, a, li);
    var i, j := Start(p, li), Start(p, li) + p.counts[li];
    if li < level {
      SliceBefore(p.flat, at, a, i, j);
    } else if li > level {
      SliceAfter(p.flat, at, a, i, j);
    } else {
      SliceAround(p.flat, at, a, i, j);
    }
  }

  lemma InsertedBounds(p: Pool, level: nat, w: nat, a: Ref, li: nat)
    requires Packed(p) && level < |p.counts| && w <= p.counts[level] && li < |p.counts|
             && Start(p, level) + w <= |p.flat|
    ensures var r := InsertAt(p, level, Start(p, level) + w, a);
            Start(r, li) == Start(p, li) + (if li > level then 1 else 0)
                && r.counts[li] == p.counts[li] + (if li == level then 1 else 0)
    ensures Start(p, li) + p.counts[li] <= |p.flat|
    ensures li < level ==> Start(p, li) + p.counts[li] <= Start(p, level)
    ensures li > level ==> Start(p, level) + p.counts[level] <= Start(p, li)
  {
    hide Sum;
    SumBump(p.counts, level, li);
    SumSplit(p.counts, li);
    SumSplit(p.counts, level);
    if li < level {
      SumMonotone(p.counts, li + 1, level);
    } else if li > level {
      SumMonotone(p.counts, level + 1, li);
    }
  }

  lemma SliceBefore(x: seq<Ref>, at: nat, a: Ref, i: nat, j: nat)
    requires i <= j <= at <= |x|
    ensures (x[..at] + [a] + x[at..])[i..j] == x[i..j]
  {}

  lemma SliceAfter(x: seq<Ref>, at: nat, a: Ref, i: nat, j: nat)
    requires at <= i <= j <= |x|
    ensures (x[..at] + [a] + x[at..])[i + 1..j + 1] == x[i..j]
  {}

  lemma SliceAround(x: seq<Ref>, at: nat, a: Ref, i: nat, j: nat)
    requires i <= at <= j <= |x|
    ensures (x[..at] + [a] + x[at..])[i..j + 1] == x[i..j][..at - i] + [a] + x[i..j][at - i..]
  {
    var y := x[..at] + [a] + x[at..];
    assert y[i..j + 1] == y[i..at] + [y[at]] + y[at + 1..j + 1];
    assert y[i..at] == x[i..at] == x[i..j][..at - i];
    assert y[at + 1..j + 1] == x[at..j] == x[i..j][at - i..];
  }

  ghost predicate ByFirstKey(rs: seq<Ref>) {
    forall i, j :: 0 <= i < j < |rs| ==> Order(rs[i]) <= Order(rs[j])
  }

  /** `partition_point`: how many tables start below `a`. */
  method PartitionPoint(rs: seq<Ref>, a: Ref) returns (lo: nat)
    requires ByFirstKey(rs)
    ensures lo <= |rs| && Insert(rs, a) == rs[..lo] + [a] + rs[lo..]
  {
    hide Order;
    lo := 0;
    var hi := |rs|;
    while lo < hi
      invariant 0 <= lo <= hi <= |rs|
      invariant forall i :: 0 <= i < lo ==> Order(rs[i]) < Order(a)
      invariant forall i :: hi <= i < |rs| ==> Order(rs[i]) >= Order(a)
    {
      var mid := lo + (hi - lo) / 2;
      if Order(rs[mid]) < Order(a) {
        lo := mid + 1;
      } else {
        hi := mid;
      }
    }
    InsertPast(rs[..lo], a, rs[lo..]);
    assert rs[..lo] + rs[lo..] == rs;
  }

  /** `add_table_to_level`. */
  method AddTable(p: Pool, level: nat, a: Ref) returns (r: Pool)
    requires Packed(p) && level < |p.counts| && (level > 0 ==> ByFirstKey(Level(p, level)))
    ensures Packed(r) && |r.counts| == |p.counts|
    ensures forall li :: 0 <= li < |p.counts| ==>
              Level(r, li) == if li != level then Level(p, li)
                              else if li == 0 then Level(p, li) + [a]
                              else Insert(Level(p, li), a)
  {
    SumSplit(p.counts, level);
    var s := Start(p, level);
    var w := p.counts[level];
    if level > 0 {
      w := PartitionPoint(p.flat[s .. s + p.counts[level]], a);
    }
    hide Sum, Insert;
    Inserted(p, level, w, a);
    r := InsertAt(p, level, s + w, a);
    if level == 0 {
      assert Level(p, 0)[..w] + [a] + Level(p, 0)[w..] == Level(p, 0) + [a];
    }
  }

  datatype Refusal = ManifestFull | BadLevel

  /** The removed positions from `lo` up to `hi`. */
  function RemovedIn(removed: set<nat>, lo: nat, hi: nat): set<nat> {
    set q | q in removed && lo <= q < hi
  }

  /** `check_edit`. */
  function CheckEdit(p: Pool, e: Edit, tables: nat, capacity: nat): Option<Refusal> {
    if exists q :: q in e.removed + e.narrowed && q >= |p.flat| then Some(ManifestFull)
    else if e.added.None? then None
    else if e.added.value.level >= |p.counts| then Some(BadLevel)
    else if |p.flat| - |e.removed| >= capacity then Some(ManifestFull)
    else if e.added.value.level == 0 && p.counts[0] - |RemovedIn(e.removed, 0, p.counts[0])| >= tables
    then Some(ManifestFull)
    else None
  }

  lemma {:induction false} KeepLen(rs: seq<Ref>, base: nat, removed: set<nat>)
    ensures |Keep(rs, base, removed)| + |RemovedIn(removed, base, base + |rs|)| == |rs|
  {
    var all := RemovedIn(removed, base, base + |rs|);
    if rs == [] {
      assert all == {};
    } else {
      var rest := RemovedIn(removed, base + 1, base + |rs|);
      KeepLen(rs[1..], base + 1, removed);
      assert all == (if base in removed then {base} else {}) + rest;
    }
  }

  lemma {:induction false} InsertLen(rs: seq<Ref>, a: Ref)
    ensures |Insert(rs, a)| == |rs| + 1
  {
    hide Order;
    if rs != [] && Order(rs[0]) < Order(a) { InsertLen(rs[1..], a); }
  }

  /** A level loses its removed tables and gains the added one. */
  lemma LevelAfterLen(p: Pool, e: Edit, li: nat)
    requires Packed(p) && li < |p.counts|
    ensures Start(p, li) + p.counts[li] == Start(p, li + 1)
    ensures |LevelAfter(p, e, li)| + |RemovedIn(e.removed, Start(p, li), Start(p, li + 1))|
            == p.counts[li] + if e.added.Some? && e.added.value.level == li then 1 else 0
  {
    hide Keep, Insert, Touched;
    SumSplit(p.counts, li);
    var kept := Keep(TouchAll(e, Level(p, li), Start(p, li)), Start(p, li), e.removed);
    KeepLen(TouchAll(e, Level(p, li), Start(p, li)), Start(p, li), e.removed);
    if e.added.Some? && li > 0 { InsertLen(kept, e.added.value.ref); }
  }

  /** What an edit must see to besides what is checked: deeper levels stay sorted. */
  ghost predicate StaysSorted(p: Pool, e: Edit)
    requires Packed(p)
  {
    e.added.Some? && 0 < e.added.value.level < |p.counts| ==>
      var l := e.added.value.level;
      ByFirstKey(Keep(TouchAll(e, Level(p, l), Start(p, l)), Start(p, l), e.removed))
  }

  /** What `check_edit` and `stage_*` see to, and deeper levels that stay sorted. */
  ghost predicate Accepted(p: Pool, e: Edit) {
    && Packed(p) && UniqueIds(p.flat)
    && (forall q :: q in e.removed || q in e.narrowed ==> q < |p.flat|)
    && (e.added.Some? ==> e.added.value.level < |p.counts|)
    && StaysSorted(p, e)
  }

  /** `apply_checked` on the pool: it leaves every level as the edit's view shows it. */
  method ApplyChecked(p: Pool, e: Edit) returns (r: Pool)
    requires Accepted(p, e)
    ensures Packed(r) && |r.counts| == |p.counts|
    ensures forall li :: 0 <= li < |p.counts| ==> Level(r, li) == LevelAfter(p, e, li)
  {
    hide Sum, Level, Keep, Insert;
    var flat := Touch(p.flat, e);
    var touched := Pool(flat, p.counts);
    forall li | 0 <= li < |p.counts| ensures Level(touched, li) == TouchAll(e, Level(p, li), Start(p, li)) {
      TouchLevel(p, e, li);
    }
    r := RemoveAll(touched, e.removed);
    if e.added.Some? {
      r := AddTable(r, e.added.value.level, e.added.value.ref);
    }
  }

  /** The scalars, updated one after the other. */
  method ApplyScalars(s: Scalars, e: Edit) returns (r: Scalars)
    ensures r == ScalarsAfter(s, e)
  {
    r := s;
    if e.walHead.Some? { r := r.(walHead := e.walHead.value); }
    if e.flushed > r.flushed { r := r.(flushed := e.flushed); }
    if e.flushed > r.seqHigh { r := r.(seqHigh := e.flushed); }
    if e.seqHigh > r.seqHigh { r := r.(seqHigh := e.seqHigh); }
    if e.nextId > r.nextId { r := r.(nextId := e.nextId); }
  }

  function Levels(p: Pool): (ls: seq<seq<Ref>>)
    requires Packed(p)
    ensures |ls| == |p.counts| && forall li :: 0 <= li < |ls| ==> ls[li] == Level(p, li)
  {
    seq(|p.counts|, li requires 0 <= li < |p.counts| => Level(p, li))
  }

  /** A staged edit equals an applied one: what the commit encodes level by level, without touching the
      manifest, is what applying the edit then leaves in memory. */
  method StagedIsApplied(p: Pool, s: Scalars, e: Edit) returns (view: seq<seq<Ref>>, after: Pool, scalars: Scalars)
    requires Accepted(p, e)
    ensures Packed(after) && view == Levels(after) && scalars == ScalarsAfter(s, e) && ScalarsMean(s, e, scalars)
    ensures |view| == |p.counts| && forall li :: 0 <= li < |view| ==> view[li] == LevelAfter(p, e, li)
  {
    hide LevelAfter, Level, Sum;
    view := [];
    for li := 0 to |p.counts|
      invariant |view| == li && forall j :: 0 <= j < li ==> view[j] == LevelAfter(p, e, j)
    {
      var level := ViewLevel(p, e, li);
      view := view + [level];
    }
    after := ApplyChecked(p, e);
    scalars := ApplyScalars(s, e);
    ScalarsMerge(s, e);
  }
}
