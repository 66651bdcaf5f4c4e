/** A failed block write retried over itself, without a recovery in between (`rollback_commit` in src/db/mod.rs):
    exactly when a tear of the retry can make recovery replay part of a group. */
module WalRetry {
  import opened Keys
  import opened PayloadCodec
  import opened WalLog
  import opened WalRecord
  import opened Wal

  // Where a torn write meets what lay beneath it.

  /** The bytes of the records. */
  function SizeOf(rs: seq<Item>): nat {
    if rs == [] then 0 else SizeOf(rs[..|rs| - 1]) + if rs[|rs| - 1].Rec? then LenOf(rs[|rs| - 1].op) + 6 else 0
  }

  predicate HasJunk(rs: seq<Item>) {
    exists i :: 0 <= i < |rs| && rs[i].Junk?
  }

  /** Item `j` of the old block starts where the first `k` new records end. Behind junk, anything may. */
  predicate Meets(rs: seq<Item>, k: nat, was: Block, j: nat)
    requires k <= |rs| && j <= |was|
  {
    j == |was| || HasJunk(was[..j]) || SizeOf(was[..j]) == SizeOf(rs[..k])
  }

  /** Item `j` of the old block starts past where they end. */
  predicate Beyond(rs: seq<Item>, k: nat, was: Block, j: nat)
    requires k <= |rs| && j <= |was|
  {
    j == |was| || HasJunk(was[..j]) || SizeOf(was[..j]) > SizeOf(rs[..k])
  }

  /** A torn write as `TornBlock` has it, where old records are read only from where they lay. */
  ghost predicate TornOver(rs: seq<Item>, k: nat, was: Block, c: Block) {
    && k <= |rs| && k <= |c| && c[..k] == rs[..k]
    && ((k == 0 && c == was)
        || (k > 0 && exists j :: 0 <= j <= |was| && Meets(rs, k, was, j) && c[k..] == was[j..])
        || (exists j :: 0 <= j <= |was| && Beyond(rs, k, was, j) && c[k..] == [Junk] + was[j..]))
  }

  // Groups of a run of records.

  /** The length of the first group, 0 when none closes. */
  function FirstLen(rs: seq<Item>): (n: nat)
    ensures n <= |rs|
  {
    if rs == [] || rs[0].Junk? then 0
    else if !rs[0].more then 1
    else var n := FirstLen(rs[1..]); if n == 0 then 0 else n + 1
  }

  /** The groups a run of records reads as. */
  function Parse(rs: seq<Item>): seq<Group>
    decreases |rs|
  {
    var n := FirstLen(rs);
    if n == 0 then [] else [rs[..n]] + Parse(rs[n..])
  }

  /** The group that is open after `front`, closed by what follows. */
  function Bridge(front: seq<Item>, tail: seq<Item>): Group {
    front[CompleteLen(front)..] + tail[..FirstLen(tail)]
  }

  /** `part` is made of whole groups of `ws`. */
  ghost predicate Whole(part: seq<Item>, ws: seq<Group>) {
    exists hs: seq<Group> :: WholeAs(part, ws, hs)
  }

  ghost predicate WholeAs(part: seq<Item>, ws: seq<Group>, hs: seq<Group>) {
    Flatten(hs) == part && forall h :: h in hs ==> h in ws
  }

  /** After `k` records of the retry the failed write's record `j` can follow, and the group that straddles the
      two is neither write's. */
  predicate MixesAt(fs: seq<Group>, gs: seq<Group>, k: nat, j: nat) {
    var f, g := Flatten(fs), Flatten(gs);
    && 0 < k <= |g| && j < |f| && SizeOf(g[..k]) == SizeOf(f[..j])
    && g[k - 1].Rec? && f[j].Rec? && g[k - 1].seqno < f[j].seqno
    && Bridge(g[..k], f[j..]) !in fs && Bridge(g[..k], f[j..]) !in gs
  }

  /** What a caller can check of the failed write and its retry. */
  predicate Mixable(fs: seq<Group>, gs: seq<Group>) {
    exists k, j :: 0 <= k <= |Flatten(gs)| && 0 <= j < |Flatten(fs)| && MixesAt(fs, gs, k, j)
  }

  lemma {:induction false} FirstOfGroup(g: Group, rs: seq<Item>)
    requires IsGroup(g)
    ensures FirstLen(g + rs) == |g|
    decreases |g|
  {
    assert (g + rs)[0] == g[0] && (g + rs)[1..] == g[1..] + rs;
    if |g| > 1 {
      assert IsGroup(g[1..]) by {
        assert forall i :: 0 <= i < |g| - 1 ==> g[1..][i] == g[i + 1];
      }
      FirstOfGroup(g[1..], rs);
    }
  }

  lemma ParseGroup(g: Group, rs: seq<Item>)
    requires IsGroup(g)
    ensures Parse(g + rs) == [g] + Parse(rs)
  {
    FirstOfGroup(g, rs);
    assert (g + rs)[..|g|] == g && (g + rs)[|g|..] == rs;
  }

  /** Records read as the groups they were written in. */
  lemma {:induction false} ParseFlatten(hs: seq<Group>, rs: seq<Item>)
    requires AllGroups(hs)
    ensures Parse(Flatten(hs) + rs) == hs + Parse(rs)
    decreases |hs|
  {
    hide Parse, IsGroup;
    if hs == [] {
      assert Flatten(hs) + rs == rs && hs + Parse(rs) == Parse(rs);
    } else {
      var init, last := hs[..|hs| - 1], hs[|hs| - 1];
      assert AllGroups(init) && IsGroup(last);
      ParseFlatten(init, last + rs);
      ParseGroup(last, rs);
      assert Flatten(hs) + rs == Flatten(init) + (last + rs);
      assert hs == init + [last];
    }
  }

  /** The closing records of `a + b` are those of `b`, or else those of `a`. */
  lemma {:induction false} CompleteConcat(a: seq<Item>, b: seq<Item>)
    ensures CompleteLen(a + b) == if CompleteLen(b) > 0 then |a| + CompleteLen(b) else CompleteLen(a)
    decreases |b|
  {
    if b == [] {
      assert a + b == a;
    } else {
      assert (a + b)[..|a + b| - 1] == a + b[..|b| - 1];
      CompleteConcat(a, b[..|b| - 1]);
    }
  }

  lemma {:induction false} FirstCloses(rs: seq<Item>)
    requires forall i :: 0 <= i < |rs| ==> rs[i].Rec?
    ensures var n := FirstLen(rs); n > 0 ==> !rs[n - 1].more && forall i :: 0 <= i < n - 1 ==> rs[i].more
    ensures FirstLen(rs) == 0 ==> forall i :: 0 <= i < |rs| ==> rs[i].more
  {
    if rs != [] && rs[0].more {
      FirstCloses(rs[1..]);
      assert forall i :: 0 < i < |rs| ==> rs[i] == rs[1..][i - 1];
    }
  }

  /** The straddling group is a group. */
  lemma BridgeIsGroup(front: seq<Item>, tail: seq<Item>)
    requires forall i :: 0 <= i < |front| ==> front[i].Rec?
    requires (forall i :: 0 <= i < |tail| ==> tail[i].Rec?) && FirstLen(tail) > 0
    ensures IsGroup(Bridge(front, tail))
  {
    hide CompleteLen, FirstLen, IsGroup;
    FirstCloses(tail);
    AfterComplete(front);
    var n, m := CompleteLen(front), FirstLen(tail);
    assert forall i :: 0 <= i < |front| - n ==> front[n..][i] == front[n + i];
    assert forall i :: 0 <= i < m ==> tail[..m][i] == tail[i];
    JoinGroup(front[n..], tail[..m]);
  }

  lemma JoinGroup(a: seq<Item>, b: seq<Item>)
    requires b != [] && forall i :: 0 <= i < |a| ==> a[i].Rec? && a[i].more
    requires forall i :: 0 <= i < |b| ==> b[i].Rec? && (b[i].more <==> i < |b| - 1)
    ensures IsGroup(a + b)
  {}

  /** The first records of a write up to a closing one are its first groups. */
  lemma ClosingPrefix(fs: seq<Group>, p: nat) returns (y: nat)
    requires AllGroups(fs) && p <= |Flatten(fs)| && (p > 0 ==> Flatten(fs)[p - 1].Rec? && !Flatten(fs)[p - 1].more)
    ensures y <= |fs| && Flatten(fs[..y]) == Flatten(fs)[..p]
  {
    y := WholeGroups(fs, p);
    assert Flatten(fs)[..p][..p] == Flatten(fs)[..p];
    if p > 0 { assert Flatten(fs)[..p][p - 1] == Flatten(fs)[p - 1]; }
  }

  lemma {:induction false} FlattenLess(fs: seq<Group>, y: nat, z: nat)
    requires AllGroups(fs) && y <= |fs| && z <= |fs| && |Flatten(fs[..y])| <= |Flatten(fs[..z])|
    ensures y <= z
  {
    if z < y {
      assert fs[..y] == fs[..z] + fs[z..y];
      FlattenConcat(fs[..z], fs[z..y]);
      assert AllGroups(fs[z..y]);
      FlattenNonempty(fs[z..y]);
    }
  }

  /** The records between two group ends are groups. */
  lemma GroupsBetween(fs: seq<Group>, p: nat, q: nat) returns (hs: seq<Group>)
    requires AllGroups(fs) && p <= q <= |Flatten(fs)|
    requires p > 0 ==> Flatten(fs)[p - 1].Rec? && !Flatten(fs)[p - 1].more
    requires q > 0 ==> Flatten(fs)[q - 1].Rec? && !Flatten(fs)[q - 1].more
    ensures WholeAs(Flatten(fs)[p..q], fs, hs)
  {
    var y := ClosingPrefix(fs, p);
    var z := ClosingPrefix(fs, q);
    FlattenLess(fs, y, z);
    hs := fs[y..z];
    assert fs[..z] == fs[..y] + hs;
    FlattenConcat(fs[..y], hs);
    assert Flatten(fs)[..q][p..] == Flatten(fs)[p..q];
  }

  ghost predicate AllRecords(rs: seq<Item>) {
    forall i :: 0 <= i < |rs| ==> rs[i].Rec?
  }

  /** A splice reads as the retry's first groups, the straddling group, and groups of the failed write. */
  lemma SpliceReads(fs: seq<Group>, gs: seq<Group>, k: nat, j: nat, q: nat) returns (xs: seq<Group>, ys: seq<Group>)
    requires AllGroups(fs) && AllGroups(gs) && k <= |Flatten(gs)| && j < q <= |Flatten(fs)|
    requires AllRecords(Flatten(fs)) && AllRecords(Flatten(gs)) && !Flatten(fs)[q - 1].more
    ensures var b := Bridge(Flatten(gs)[..k], Flatten(fs)[j..]);
            IsGroup(b) && Flatten(gs)[..k] + Flatten(fs)[j..q] == Flatten(xs) + (b + Flatten(ys))
    ensures (forall h :: h in xs ==> h in gs) && forall h :: h in ys ==> h in fs
  {
    hide Flatten;
    var f, g := Flatten(fs), Flatten(gs);
    var front, tail := g[..k], f[j..];
    var n, p := CompleteLen(front), FirstLen(tail);
    FirstWithin(f, j, q);
    BridgeIsGroup(front, tail);
    CompleteClosing(front);
    var x := ClosingPrefix(gs, n);
    FirstCloses(tail);
    ys := GroupsBetween(fs, j + p, q);
    xs := gs[..x];
    SpliceParts(f, g, k, j, q);
  }

  lemma SpliceParts(f: seq<Item>, g: seq<Item>, k: nat, j: nat, q: nat)
    requires k <= |g| && j < q <= |f| && FirstLen(f[j..]) <= q - j
    ensures g[..k] + f[j..q] == g[..CompleteLen(g[..k])] + (Bridge(g[..k], f[j..]) + f[j + FirstLen(f[j..])..q])
  {
    var n, p := CompleteLen(g[..k]), FirstLen(f[j..]);
    hide CompleteLen, FirstLen;
    assert g[..k] == g[..n] + g[..k][n..];
    assert f[j..q] == f[j..][..p] + f[j + p..q];
    Reassociate(g[..n], g[..k][n..], f[j..][..p], f[j + p..q]);
  }

  lemma Reassociate(a: seq<Item>, b: seq<Item>, c: seq<Item>, d: seq<Item>)
    ensures a + b + (c + d) == a + (b + c + d)
  {}

  lemma SpliceGroups(fs: seq<Group>, gs: seq<Group>, k: nat, j: nat, q: nat)
    requires AllGroups(fs) && AllGroups(gs) && k <= |Flatten(gs)| && j < q <= |Flatten(fs)|
    requires AllRecords(Flatten(fs)) && AllRecords(Flatten(gs)) && !Flatten(fs)[q - 1].more
    ensures var b := Bridge(Flatten(gs)[..k], Flatten(fs)[j..]);
            Whole(Flatten(gs)[..k] + Flatten(fs)[j..q], fs + gs) <==> b in fs || b in gs
  {
    hide Flatten, Bridge;
    var b := Bridge(Flatten(gs)[..k], Flatten(fs)[j..]);
    var part := Flatten(gs)[..k] + Flatten(fs)[j..q];
    var xs, ys := SpliceReads(fs, gs, k, j, q);
    var hs := xs + ([b] + ys);
    FlattenOne(b);
    FlattenConcat([b], ys);
    FlattenConcat(xs, [b] + ys);
    if b in fs || b in gs {
      assert WholeAs(part, fs + gs, hs);
    }
    if Whole(part, fs + gs) {
      var ws: seq<Group> :| WholeAs(part, fs + gs, ws);
      OneReading(ws, hs, fs + gs);
      assert hs[|xs|] == b && b in ws && b in fs + gs;
    }
  }

  /** Records read as groups in one way only. */
  lemma OneReading(a: seq<Group>, b: seq<Group>, ws: seq<Group>)
    requires Flatten(a) == Flatten(b) && AllGroups(ws) && AllGroups(b) && forall h :: h in a ==> h in ws
    ensures a == b
  {
    ParseFlatten(a, []);
    ParseFlatten(b, []);
    assert Flatten(a) + [] == Flatten(a) && a + Parse([]) == a && b + Parse([]) == b;
  }

  /** A closing record at or past `j` bounds the group that `j` lies in. */
  lemma FirstWithin(f: seq<Item>, j: nat, q: nat)
    requires j < q <= |f| && (forall i :: 0 <= i < |f| ==> f[i].Rec?) && !f[q - 1].more
    ensures 0 < FirstLen(f[j..]) <= q - j
  {
    FirstCloses(f[j..]);
    assert f[j..][q - 1 - j] == f[q - 1];
  }

  // What recovery makes of the torn retry.

  /** Every recovery from `from` replays `log` and then whole groups of `ws`. */
  ghost predicate RecoversWhole(blocks: seq<Block>, from: nat, floor: nat, log: seq<Group>, ws: seq<Group>) {
    forall stop :: from <= stop <= |blocks| && StopsAt(blocks, from, stop, floor) ==>
      exists hs: seq<Group> :: ReplaysAs(WalkTo(blocks, from, stop, floor).value.replayed, log, ws, hs)
  }

  ghost predicate ReplaysAs(replayed: seq<Item>, log: seq<Group>, ws: seq<Group>, hs: seq<Group>) {
    replayed == Flatten(log + hs) && forall h :: h in hs ==> h in ws
  }

  ghost predicate StopsAt(blocks: seq<Block>, from: nat, stop: nat, floor: nat)
    requires from <= stop <= |blocks|
  {
    && WalkTo(blocks, from, stop, floor).Some?
    && (stop < |blocks| ==> StepBlock(WalkTo(blocks, from, stop, floor).value, blocks[stop], floor) == None)
  }

  /** The rewritten block's complete part is new: newer than the log. */
  ghost predicate NewPart(c: Block, cur: nat) {
    forall i :: 0 <= i < |CompletePart(c)| ==> CompletePart(c)[i].Rec? && CompletePart(c)[i].seqno > cur
  }

  lemma StepNew(w: Walk, c: Block, floor: nat, cur: nat)
    requires floor <= cur && NewPart(c, cur) && (w.newerThan.Some? ==> w.newerThan.value <= cur)
    ensures CompletePart(c) == [] ==> StepBlock(w, c, floor) == None
    ensures CompletePart(c) != [] ==>
              StepBlock(w, c, floor).Some? && StepBlock(w, c, floor).value.replayed == w.replayed + CompletePart(c)
  {
    AboveAll(CompletePart(c), floor);
    if CompletePart(c) != [] {
      assert c[0] == CompletePart(c)[0];
    }
  }

  /** With block `next` rewritten, recovery replays the log and what it reads there. */
  lemma WalkOver(blocks: seq<Block>, from: nat, next: nat, floor: nat, log: seq<Group>, cur: nat, c: Block, stop: nat)
    requires Holds(blocks, from, next, floor, log) && next < |blocks| && Top(log, floor) <= cur
    requires Closed(c, floor) || NewPart(c, cur)
    requires from <= stop <= |blocks| && StopsAt(blocks[next := c], from, stop, floor)
    ensures WalkTo(blocks[next := c], from, stop, floor).value.replayed
            == Flatten(log) + if Closed(c, floor) then [] else CompletePart(c)
  {
    hide StepBlock, CompletePart, Flatten, MaxSeq, Increasing;
    var after := blocks[next := c];
    assert after[..next] == blocks[..next];
    WalkFrame(blocks, after, from, next, floor);
    var w := WalkTo(after, from, next, floor).value;
    assert Reached(Some(w), floor, log);
    if !Closed(c, floor) { StepNew(w, c, floor, cur); }
    if stop < next {
      WalkThrough(after, from, stop + 1, next, floor);
    } else if stop > next {
      WalkThrough(after, from, next + 1, stop, floor);
      assert WalkTo(after, from, next + 1, floor) == StepBlock(w, c, floor);
      if Closed(c, floor) { StaleStep(w, c, floor); }
      StaleOn(after, from, next + 1, stop, floor);
    }
  }

  lemma {:induction false} StaleOn(blocks: seq<Block>, from: nat, p: nat, q: nat, floor: nat)
    requires from <= p <= q <= |blocks| && AllClosed(blocks, p, floor) && WalkTo(blocks, from, q, floor).Some?
    ensures WalkTo(blocks, from, p, floor).Some?
    ensures WalkTo(blocks, from, q, floor).value.replayed == WalkTo(blocks, from, p, floor).value.replayed
    decreases q
  {
    if p < q {
      StaleOn(blocks, from, p, q - 1, floor);
      StaleStep(WalkTo(blocks, from, q - 1, floor).value, blocks[q - 1], floor);
    }
  }

  /** Recovery of the rewritten block is whole exactly when what it reads there is. */
  lemma WholeIfPart(blocks: seq<Block>, from: nat, next: nat, floor: nat, log: seq<Group>, cur: nat, c: Block,
                    ws: seq<Group>)
    requires Holds(blocks, from, next, floor, log) && next < |blocks| && Top(log, floor) <= cur
    requires Closed(c, floor) || (NewPart(c, cur) && Whole(CompletePart(c), ws))
    ensures RecoversWhole(blocks[next := c], from, floor, log, ws)
  {
    var after := blocks[next := c];
    forall stop | from <= stop <= |after| && StopsAt(after, from, stop, floor)
      ensures exists hs: seq<Group> :: ReplaysAs(WalkTo(after, from, stop, floor).value.replayed, log, ws, hs)
    {
      WalkOver(blocks, from, next, floor, log, cur, c, stop);
      if Closed(c, floor) {
        assert log + [] == log;
        assert ReplaysAs(WalkTo(after, from, stop, floor).value.replayed, log, ws, []);
      } else {
        var hs: seq<Group> :| WholeAs(CompletePart(c), ws, hs);
        FlattenConcat(log, hs);
        assert ReplaysAs(WalkTo(after, from, stop, floor).value.replayed, log, ws, hs);
      }
    }
  }

  // Every tear of the retry.

  lemma IncreasingRecords(rs: seq<Item>, low: int)
    requires Increasing(rs, low)
    ensures AllRecords(rs)
  {}

  /** What pass 1 reads of a block that starts with `k` records of the retry. */
  lemma FrontRun(g: seq<Item>, k: nat, c: Block, cur: nat) returns (t: nat, n: nat)
    requires Increasing(g, cur) && 0 < k <= |g| && k <= |c| && c[..k] == g[..k]
    ensures n <= t <= |c| - k && t == RunLen(c[k..], g[k - 1].seqno) && n == CompleteLen(c[k..][..t])
    ensures Increasing(c[k..][..n], g[k - 1].seqno)
    ensures n == 0 ==> CompletePart(c) == g[..CompleteLen(g[..k])]
    ensures n > 0 ==> CompletePart(c) == g[..k] + c[k..][..n] && c[k..][n - 1].Rec? && !c[k..][n - 1].more
  {
    hide CompleteLen, Increasing;
    var front, tail := g[..k], c[k..];
    assert c == front + tail && front[k - 1] == g[k - 1];
    FrontIncreasing(g, k, cur);
    RunThrough(front, tail, -1);
    t := RunLen(tail, g[k - 1].seqno);
    RunIncreasing(tail, g[k - 1].seqno);
    n := CompleteLen(tail[..t]);
    hide RunLen;
    assert c[..k + t] == front + tail[..t];
    CompleteConcat(front, tail[..t]);
    CompleteClosing(tail[..t]);
    RunPrefix(tail, t, n, g[k - 1].seqno);
    if n == 0 {
      assert c[..CompleteLen(front)] == g[..CompleteLen(front)];
    } else {
      assert c[..k + n] == front + tail[..n];
    }
  }

  lemma FrontIncreasing(g: seq<Item>, k: nat, cur: nat)
    requires Increasing(g, cur) && k <= |g|
    ensures Increasing(g[..k], -1) && (k > 0 ==> g[k - 1].Rec?)
  {
    assert forall i :: 0 <= i < k ==> g[..k][i] == g[i];
  }

  lemma RunPrefix(tail: seq<Item>, t: nat, n: nat, low: int)
    requires n <= t <= |tail| && Increasing(tail[..t], low)
    ensures Increasing(tail[..n], low) && (n > 0 ==> tail[n - 1] == tail[..t][n - 1])
  {
    assert forall i :: 0 <= i < n ==> tail[..n][i] == tail[..t][i];
  }

  /** Records that go on increasing, to a closing one, are all read. */
  lemma FrontAll(g: seq<Item>, k: nat, c: Block, cur: nat)
    requires Increasing(g, cur) && 0 < k <= |g| && k < |c| && c[..k] == g[..k]
    requires Increasing(c[k..], g[k - 1].seqno) && !c[|c| - 1].more
    ensures CompletePart(c) == c
  {
    hide CompletePart;
    var tail := c[k..];
    var t, n := FrontRun(g, k, c, cur);
    RunThrough(tail, [], g[k - 1].seqno);
    assert tail + [] == tail && tail[..t] == tail && tail[|tail| - 1] == c[|c| - 1];
    assert c == g[..k] + tail;
  }

  /** The block recovers as whole groups: nothing live in it, or new whole groups. */
  ghost predicate Fine(c: Block, floor: nat, cur: nat, ws: seq<Group>) {
    Closed(c, floor) || (NewPart(c, cur) && Whole(CompletePart(c), ws))
  }

  /** A number of a write's first groups. */
  lemma PrefixFine(gs: seq<Group>, k: nat, c: Block, floor: nat, cur: nat, ws: seq<Group>)
    requires AllGroups(gs) && Increasing(Flatten(gs), cur) && k <= |Flatten(gs)|
    requires CompletePart(c) == Flatten(gs)[..CompleteLen(Flatten(gs)[..k])] && forall g :: g in gs ==> g in ws
    ensures Fine(c, floor, cur, ws)
  {
    var x := WholeGroups(gs, k);
    assert WholeAs(CompletePart(c), ws, gs[..x]);
  }

  lemma JunkFine(c: Block, floor: nat, cur: nat, ws: seq<Group>)
    requires c != [] && c[0].Junk?
    ensures Fine(c, floor, cur, ws)
  {
    assert c[..0] == [] && Flatten([]) == [];
    assert WholeAs([], ws, []);
  }

  /** The two writes of a retry, both past the log. */
  ghost predicate TwoWrites(fs: seq<Group>, gs: seq<Group>, cur: nat) {
    AllGroups(fs) && AllGroups(gs) && Increasing(Flatten(fs), cur) && Increasing(Flatten(gs), cur)
  }

  /** The failed write tore after `m` records, its retry after `k`. */
  ghost predicate TornTwice(fs: seq<Group>, gs: seq<Group>, was: Block, m: nat, d: Block, k: nat, c: Block) {
    TornBlock(Flatten(fs), m, was, d) && TornOver(Flatten(gs), k, d, c)
  }

  /** Nothing of the retry landed. */
  lemma FailedFine(fs: seq<Group>, was: Block, m: nat, d: Block, floor: nat, cur: nat, ws: seq<Group>)
    requires AllGroups(fs) && Increasing(Flatten(fs), cur) && floor <= cur && Closed(was, floor)
    requires TornBlock(Flatten(fs), m, was, d) && forall g :: g in fs ==> g in ws
    ensures Fine(d, floor, cur, ws)
  {
    hide Flatten, CompletePart;
    TornTail(Flatten(fs), m, was, d, floor);
    if m == 0 {
      assert d[0..] == d;
    } else {
      TornComplete(Flatten(fs), m, d, floor, cur);
      PrefixFine(fs, m, d, floor, cur, ws);
    }
  }

  /** Records of the retry in front of what the failed write left from item `j` on. */
  lemma SplicedFine(fs: seq<Group>, gs: seq<Group>, was: Block, m: nat, d: Block, k: nat, j: nat, c: Block, floor: nat,
                    cur: nat)
    requires TwoWrites(fs, gs, cur) && floor <= cur && Closed(was, floor) && TornBlock(Flatten(fs), m, was, d)
    requires 0 < k <= |Flatten(gs)| && k <= |c| && c[..k] == Flatten(gs)[..k]
    requires j <= |d| && Meets(Flatten(gs), k, d, j) && c[k..] == d[j..]
    requires !Mixable(fs, gs)
    ensures Fine(c, floor, cur, fs + gs)
  {
    hide Flatten, CompletePart, CompleteLen, RunLen, Bridge, SizeOf, Whole, Mixable;
    var f, g := Flatten(fs), Flatten(gs);
    TornTail(f, m, was, d, floor);
    var t, n := FrontRun(g, k, c, cur);
    if n == 0 {
      PrefixFine(gs, k, c, floor, cur, fs + gs);
    } else {
      var q := j + n;
      assert d[j..][n - 1] == d[q - 1];
      LiveWithin(d, m, q, floor);
      Within(f, m, d, j, q);
      assert d[j..][..n] == f[j..q];
      assert d[j..][..n][0] == f[j];
      NoMix(fs, gs, k, j);
      IncreasingRecords(f, cur);
      IncreasingRecords(g, cur);
      SpliceGroups(fs, gs, k, j, q);
      assert f[q - 1] == d[q - 1];
      NewSplice(g, k, f, j, q, c, cur);
    }
  }

  lemma NewSplice(g: seq<Item>, k: nat, f: seq<Item>, j: nat, q: nat, c: Block, cur: nat)
    requires Increasing(g, cur) && Increasing(f, cur) && k <= |g| && j <= q <= |f|
             && CompletePart(c) == g[..k] + f[j..q]
    ensures NewPart(c, cur)
  {}

  /** A live closing record is the failed write's. */
  lemma LiveWithin(d: Block, m: nat, q: nat, floor: nat)
    requires m <= |d| && 0 < q <= |d| && Closed(d[m..], floor) && d[q - 1].Rec? && !d[q - 1].more
             && d[q - 1].seqno > floor
    ensures q <= m
  {}

  lemma Within(f: seq<Item>, m: nat, d: Block, j: nat, q: nat)
    requires m <= |f| && m <= |d| && d[..m] == f[..m] && j < q <= m
    ensures d[j..q] == f[j..q] && d[j..][..q - j] == f[j..q] && d[..j] == f[..j] && d[q - 1] == f[q - 1]
  {
    forall i | 0 <= i < m ensures d[i] == f[i] { assert d[..m][i] == f[..m][i]; }
  }

  lemma NoMix(fs: seq<Group>, gs: seq<Group>, k: nat, j: nat)
    requires !Mixable(fs, gs) && 0 < k <= |Flatten(gs)| && j < |Flatten(fs)|
    requires SizeOf(Flatten(gs)[..k]) == SizeOf(Flatten(fs)[..j])
    requires Flatten(gs)[k - 1].Rec? && Flatten(fs)[j].Rec? && Flatten(gs)[k - 1].seqno < Flatten(fs)[j].seqno
    ensures var b := Bridge(Flatten(gs)[..k], Flatten(fs)[j..]); b in fs || b in gs
  {
    assert !MixesAt(fs, gs, k, j);
  }

  /** If the two writes do not mix, every tear of the retry recovers whole groups. */
  lemma RetryFine(fs: seq<Group>, gs: seq<Group>, was: Block, m: nat, d: Block, k: nat, c: Block, floor: nat, cur: nat)
    requires TwoWrites(fs, gs, cur) && floor <= cur && Closed(was, floor) && TornTwice(fs, gs, was, m, d, k, c)
             && !Mixable(fs, gs)
    ensures Fine(c, floor, cur, fs + gs)
  {
    hide Flatten, CompletePart, Mixable, Meets, Fine;
    var g := Flatten(gs);
    if k == 0 && c == d {
      FailedFine(fs, was, m, d, floor, cur, fs + gs);
    } else if j :| 0 <= j <= |d| && k > 0 && Meets(g, k, d, j) && c[k..] == d[j..] {
      SplicedFine(fs, gs, was, m, d, k, j, c, floor, cur);
    } else {
      var i :| 0 <= i <= |d| && c[k..] == [Junk] + d[i..];
      assert c[k] == c[k..][0];
      if k == 0 {
        JunkFine(c, floor, cur, fs + gs);
      } else {
        var t, n := FrontRun(g, k, c, cur);
        PrefixFine(gs, k, c, floor, cur, fs + gs);
      }
    }
  }

  /** If they mix, one tear does not: the failed write landed whole, the retry up to the join. */
  lemma MixTears(fs: seq<Group>, gs: seq<Group>, was: Block, floor: nat, cur: nat, k: nat, j: nat)
    requires TwoWrites(fs, gs, cur) && floor <= cur && MixesAt(fs, gs, k, j)
    ensures var c := Flatten(gs)[..k] + Flatten(fs)[j..];
            && TornTwice(fs, gs, was, |Flatten(fs)|, Flatten(fs), k, c)
            && !Closed(c, floor) && NewPart(c, cur) && !Whole(CompletePart(c), fs + gs)
  {
    hide Flatten, CompletePart, Whole, Bridge, SizeOf, NewPart, Closed, Increasing, TornBlock, TornOver;
    LastCloses(fs);
    SpliceTears(Flatten(fs), Flatten(gs), was, k, j);
    SpliceRuns(Flatten(fs), Flatten(gs), k, j, cur, floor);
    SpliceNew(fs, gs, k, j, cur);
  }

  lemma SpliceNew(fs: seq<Group>, gs: seq<Group>, k: nat, j: nat, cur: nat)
    requires TwoWrites(fs, gs, cur) && k <= |Flatten(gs)| && j < |Flatten(fs)|
    requires CompletePart(Flatten(gs)[..k] + Flatten(fs)[j..]) == Flatten(gs)[..k] + Flatten(fs)[j..]
    ensures NewPart(Flatten(gs)[..k] + Flatten(fs)[j..], cur)
    ensures var b := Bridge(Flatten(gs)[..k], Flatten(fs)[j..]);
            Whole(Flatten(gs)[..k] + Flatten(fs)[j..], fs + gs) <==> b in fs || b in gs
  {
    var f, g := Flatten(fs), Flatten(gs);
    LastCloses(fs);
    IncreasingRecords(f, cur);
    IncreasingRecords(g, cur);
    hide Flatten, CompletePart, Whole, Bridge, NewPart, Increasing;
    SpliceGroups(fs, gs, k, j, |f|);
    assert f[j..|f|] == f[j..];
    NewSplice(g, k, f, j, |f|, g[..k] + f[j..], cur);
  }

  lemma SpliceTears(f: seq<Item>, g: seq<Item>, was: Block, k: nat, j: nat)
    requires 0 < k <= |g| && j < |f| && SizeOf(g[..k]) == SizeOf(f[..j])
    ensures TornBlock(f, |f|, was, f) && TornOver(g, k, f, g[..k] + f[j..])
  {
    hide SizeOf;
    assert f[|f|..] == was[|was|..];
    assert (g[..k] + f[j..])[..k] == g[..k] && (g[..k] + f[j..])[k..] == f[j..];
    assert Meets(g, k, f, j);
  }

  lemma SpliceRuns(f: seq<Item>, g: seq<Item>, k: nat, j: nat, cur: nat, floor: nat)
    requires Increasing(f, cur) && Increasing(g, cur) && floor <= cur && 0 < k <= |g| && j < |f|
    requires g[k - 1].seqno < f[j].seqno && !f[|f| - 1].more
    ensures CompletePart(g[..k] + f[j..]) == g[..k] + f[j..] && !Closed(g[..k] + f[j..], floor)
  {
    hide CompletePart;
    var c := g[..k] + f[j..];
    assert c[..k] == g[..k] && c[k..] == f[j..] && c[|c| - 1] == f[|f| - 1];
    assert Increasing(f[j..], g[k - 1].seqno);
    FrontAll(g, k, c, cur);
  }

  lemma LastCloses(fs: seq<Group>)
    requires AllGroups(fs) && Flatten(fs) != []
    ensures var f := Flatten(fs); f[|f| - 1].Rec? && !f[|f| - 1].more
  {
    assert IsGroup(fs[|fs| - 1]);
  }

  lemma Mix(fs: seq<Group>, gs: seq<Group>) returns (k: nat, j: nat)
    requires Mixable(fs, gs)
    ensures MixesAt(fs, gs, k, j)
  {
    hide MixesAt;
    k, j :| 0 <= k <= |Flatten(gs)| && 0 <= j < |Flatten(fs)| && MixesAt(fs, gs, k, j);
  }

  /** Recovery ends somewhere. */
  lemma StopExists(blocks: seq<Block>, from: nat, p: nat, floor: nat) returns (stop: nat)
    requires from <= p <= |blocks| && WalkTo(blocks, from, p, floor).Some?
    ensures from <= stop <= |blocks| && StopsAt(blocks, from, stop, floor)
    decreases |blocks| - p
  {
    hide StepBlock;
    stop := p;
    if p < |blocks| && StepBlock(WalkTo(blocks, from, p, floor).value, blocks[p], floor).Some? {
      stop := StopExists(blocks, from, p + 1, floor);
    }
  }

  /** Some tear of the retry makes recovery replay part of a group exactly when the two writes mix. */
  lemma RetryExactly(blocks: seq<Block>, from: nat, next: nat, floor: nat, log: seq<Group>, cur: nat, fs: seq<Group>,
                     gs: seq<Group>)
    requires Holds(blocks, from, next, floor, log) && next < |blocks| && Top(log, floor) <= cur
             && TwoWrites(fs, gs, cur)
    ensures Mixable(fs, gs) <==>
            exists m, d, k, c ::
              TornTwice(fs, gs, blocks[next], m, d, k, c)
                  && !RecoversWhole(blocks[next := c], from, floor, log, fs + gs)
  {
    hide Mixable, TornTwice, RecoversWhole, Closed, Increasing, WalkTo, MaxSeq;
    assert floor <= cur;
    if Mixable(fs, gs) {
      var k, j := Mix(fs, gs);
      MixTears(fs, gs, blocks[next], floor, cur, k, j);
      NotWhole(blocks, from, next, floor, log, cur, Flatten(gs)[..k] + Flatten(fs)[j..], fs + gs);
    } else {
      forall m, d, k, c | TornTwice(fs, gs, blocks[next], m, d, k, c)
        ensures RecoversWhole(blocks[next := c], from, floor, log, fs + gs)
      {
        RetryFine(fs, gs, blocks[next], m, d, k, c, floor, cur);
        WholeIfPart(blocks, from, next, floor, log, cur, c, fs + gs);
      }
    }
  }

  lemma NotWhole(blocks: seq<Block>, from: nat, next: nat, floor: nat, log: seq<Group>, cur: nat, c: Block,
                 ws: seq<Group>)
    requires Holds(blocks, from, next, floor, log) && next < |blocks| && Top(log, floor) <= cur
    requires !Closed(c, floor) && NewPart(c, cur) && !Whole(CompletePart(c), ws)
    ensures !RecoversWhole(blocks[next := c], from, floor, log, ws)
  {
    if RecoversWhole(blocks[next := c], from, floor, log, ws) {
      PartWhole(blocks, from, next, floor, log, cur, c, ws);
    }
  }

  lemma PartWhole(blocks: seq<Block>, from: nat, next: nat, floor: nat, log: seq<Group>, cur: nat, c: Block,
                  ws: seq<Group>)
    requires Holds(blocks, from, next, floor, log) && next < |blocks| && Top(log, floor) <= cur
    requires !Closed(c, floor) && NewPart(c, cur) && RecoversWhole(blocks[next := c], from, floor, log, ws)
    ensures Whole(CompletePart(c), ws)
  {
    hide Flatten, CompletePart, MaxSeq, Increasing, Closed;
    var after := blocks[next := c];
    assert after[..next] == blocks[..next];
    WalkFrame(blocks, after, from, next, floor);
    var stop := StopExists(after, from, next, floor);
    WalkOver(blocks, from, next, floor, log, cur, c, stop);
    var hs: seq<Group> :| ReplaysAs(WalkTo(after, from, stop, floor).value.replayed, log, ws, hs);
    FlattenConcat(log, hs);
    Cancel(Flatten(log), CompletePart(c), Flatten(hs));
    assert WholeAs(CompletePart(c), ws, hs);
  }

  lemma Cancel(a: seq<Item>, b: seq<Item>, c: seq<Item>)
    requires a + b == a + c
    ensures b == c
  {
    assert (a + b)[|a|..] == b && (a + c)[|a|..] == c;
  }

  // Retries that are safe, and retries that are not.

  lemma {:induction false} SizeGrows(rs: seq<Item>, j: nat, k: nat)
    requires AllRecords(rs) && j < k <= |rs|
    ensures SizeOf(rs[..j]) < SizeOf(rs[..k])
    decreases k
  {
    assert rs[..k][..k - 1] == rs[..k - 1] && rs[..k][k - 1] == rs[k - 1];
    if j < k - 1 { SizeGrows(rs, j, k - 1); }
  }

  /** A retry that starts at or past the failed write's last sequence. */
  lemma RetryPast(fs: seq<Group>, gs: seq<Group>, cur: nat)
    requires TwoWrites(fs, gs, cur) && Flatten(fs) != [] && Flatten(gs) != []
    requires Flatten(gs)[0].seqno >= Flatten(fs)[|Flatten(fs)| - 1].seqno
    ensures !Mixable(fs, gs)
  {
    hide Flatten, SizeOf, Bridge;
    var f, g := Flatten(fs), Flatten(gs);
    forall k, j | 0 <= k <= |g| && 0 <= j < |f| ensures !MixesAt(fs, gs, k, j) {
      assert k > 0 ==> g[0].seqno <= g[k - 1].seqno;
      assert f[j].seqno <= f[|f| - 1].seqno;
    }
  }

  /** The same write again, as a drainer makes it. */
  lemma RetrySame(fs: seq<Group>, cur: nat)
    requires AllGroups(fs) && Increasing(Flatten(fs), cur)
    ensures !Mixable(fs, fs)
  {
    hide Flatten, SizeOf, Bridge;
    var f := Flatten(fs);
    IncreasingRecords(f, cur);
    forall k, j | 0 <= k <= |f| && 0 <= j < |f| ensures !MixesAt(fs, fs, k, j) {
      if MixesAt(fs, fs, k, j) {
        SameOffset(f, k, j);
        BridgeOwn(fs, k);
      }
    }
  }

  lemma SameOffset(rs: seq<Item>, k: nat, j: nat)
    requires AllRecords(rs) && k <= |rs| && j <= |rs| && SizeOf(rs[..k]) == SizeOf(rs[..j])
    ensures k == j
  {
    if j < k { SizeGrows(rs, j, k); }
    if k < j { SizeGrows(rs, k, j); }
  }

  /** A write cut in two and joined again has only its own groups. */
  lemma BridgeOwn(fs: seq<Group>, k: nat)
    requires AllGroups(fs) && AllRecords(Flatten(fs)) && k < |Flatten(fs)|
    ensures Bridge(Flatten(fs)[..k], Flatten(fs)[k..]) in fs
  {
    var f := Flatten(fs);
    LastCloses(fs);
    hide Flatten, Bridge;
    SpliceGroups(fs, fs, k, k, |f|);
    assert f[..k] + f[k..|f|] == f;
    assert WholeAs(f, fs + fs, fs);
  }

  /** A failed write of one record. */
  lemma RetryOne(fs: seq<Group>, gs: seq<Group>, cur: nat)
    requires TwoWrites(fs, gs, cur) && |Flatten(fs)| == 1
    ensures !Mixable(fs, gs)
  {
    hide Flatten, Bridge;
    var f, g := Flatten(fs), Flatten(gs);
    IncreasingRecords(g, cur);
    forall k, j | 0 <= k <= |g| && 0 <= j < |f| ensures !MixesAt(fs, gs, k, j) {
      if k > 0 { SizeGrows(g, 0, k); }
    }
  }

  /** A put over a failed batch: with the batch's first sequence again, and as many bytes as its first record. */
  lemma RetryReused(f: Group, op: Mutation, cur: nat)
    requires IsGroup(f) && |f| >= 2 && Increasing(f, cur) && LenOf(op) == LenOf(f[0].op)
    ensures Mixable([f], [[Rec(f[0].seqno, false, op)]])
  {
    var g := [Rec(f[0].seqno, false, op)];
    FlattenOne(f);
    FlattenOne(g);
    FirstOfRest(f);
    SizeOfOne(f[0]);
    SizeOfOne(g[0]);
    assert f[..1] == [f[0]] && g[..1] == [g[0]] && CompleteLen([g[0]]) == 1;
    hide Flatten, SizeOf, CompleteLen, FirstLen, IsGroup;
    assert Bridge([g[0]], f[1..]) == f[1..];
    assert f[1..][0] != g[0] && MixesAt([f], [g], 1, 1);
  }

  lemma SizeOfOne(r: Item)
    requires r.Rec?
    ensures SizeOf([r]) == LenOf(r.op) + 6
  {
    assert [r][..0] == [];
  }

  lemma FirstOfRest(f: Group)
    requires IsGroup(f) && |f| >= 2
    ensures FirstLen(f[1..]) == |f| - 1
  {
    assert IsGroup(f[1..]) by { assert forall i :: 0 <= i < |f| - 1 ==> f[1..][i] == f[i + 1]; }
    FirstOfGroup(f[1..], []);
    assert f[1..] + [] == f[1..];
  }

  // The writer between a failed write and its retry.

  /** The next block holds a torn write of `fs` over `under`; the writer has taken its records back, with their
      sequences. */
  ghost predicate Failing(w: WalWriter, under: Block, fs: seq<Group>, m: nat)
    reads w
  {
    && |w.blocks| == w.end && w.nextBlock < w.end && w.inflight == []
    && Holds(w.blocks[w.nextBlock := under], w.head, w.nextBlock, w.floor, w.log) && Top(w.log, w.floor) <= w.nextSeq
    && AllGroups(fs) && Increasing(Flatten(fs), w.nextSeq) && TornBlock(Flatten(fs), m, under, w.blocks[w.nextBlock])
  }

  lemma UnderClosed(blocks: seq<Block>, from: nat, next: nat, floor: nat, log: seq<Group>, under: Block)
    requires next < |blocks| && Holds(blocks[next := under], from, next, floor, log)
    ensures Closed(under, floor)
  {
    assert blocks[next := under][next] == under;
  }

  /** The device reports an error for the write of `fs`, however much of it landed. */
  method FailWrite(w: WalWriter, fs: seq<Group>, m: nat, d: Block)
    requires w.Running() && w.nextBlock < w.end && AllGroups(fs) && Increasing(Flatten(fs), w.nextSeq)
    requires TornBlock(Flatten(fs), m, w.blocks[w.nextBlock], d)
    modifies w`blocks
    ensures Failing(w, old(w.blocks[w.nextBlock]), fs, m) && w.blocks == old(w.blocks)[w.nextBlock := d]
  {
    hide Holds, Increasing, TornBlock;
    ghost var under := w.blocks[w.nextBlock];
    w.blocks := w.blocks[w.nextBlock := d];
    assert w.blocks[w.nextBlock := under] == old(w.blocks);
  }

  /** A recovery at once finds the log and whole groups of the failed write. */
  method FailThenCrash(w: WalWriter, ghost under: Block, ghost fs: seq<Group>, ghost m: nat)
    requires Failing(w, under, fs, m)
    modifies w`inflight
    ensures w.Down() && w.inflight == fs
  {
    hide Holds, Increasing, TornBlock;
    ghost var before := w.blocks[w.nextBlock := under];
    ghost var j := AfterWrite(before, w.head, w.nextBlock, w.floor, w.log, w.nextSeq, fs, m, w.blocks[w.nextBlock]);
    assert before[w.nextBlock := w.blocks[w.nextBlock]] == w.blocks;
    w.inflight := fs;
    assert Interrupted(w.blocks, w.head, w.nextBlock, w.floor, w.log, w.inflight, j);
  }

  /** A retry that succeeds is a commit: nothing of the failed write is left. */
  method Retry(w: WalWriter, ghost under: Block, ghost fs: seq<Group>, ghost m: nat, gs: seq<Group>)
    requires Failing(w, under, fs, m) && AllGroups(gs) && gs != [] && Increasing(Flatten(gs), w.nextSeq)
    modifies w
    ensures w.Running() && w.log == old(w.log) + gs && w.head == old(w.head) && w.floor == old(w.floor)
  {
    hide Holds, Increasing, TornBlock, MaxSeq;
    ghost var before := w.blocks[w.nextBlock := under];
    AfterCommit(before, w.head, w.nextBlock, w.floor, w.log, w.nextSeq, gs);
    assert before[w.nextBlock := Flatten(gs)] == w.blocks[w.nextBlock := Flatten(gs)];
    w.blocks := w.blocks[w.nextBlock := Flatten(gs)];
    w.nextBlock := w.nextBlock + 1;
    w.nextSeq := MaxSeq(Flatten(gs), w.nextSeq);
    w.log := w.log + gs;
  }

  /** A crash in the retry of a write it does not mix with: every recovery replays the log, then whole groups. */
  method CrashInRetry(w: WalWriter, ghost under: Block, fs: seq<Group>, ghost m: nat, gs: seq<Group>, k: nat, c: Block)
    requires Failing(w, under, fs, m) && AllGroups(gs) && Increasing(Flatten(gs), w.nextSeq)
    requires TornOver(Flatten(gs), k, w.blocks[w.nextBlock], c) && !Mixable(fs, gs)
    modifies w`blocks
    ensures w.blocks == old(w.blocks)[w.nextBlock := c] && RecoversWhole(w.blocks, w.head, w.floor, w.log, fs + gs)
  {
    ghost var before := w.blocks[w.nextBlock := under];
    hide Holds, Increasing, TornBlock, TornOver, Mixable, RecoversWhole, Closed, NewPart, Whole, Flatten, CompletePart;
    UnderClosed(w.blocks, w.head, w.nextBlock, w.floor, w.log, under);
    RetryFine(fs, gs, under, m, w.blocks[w.nextBlock], k, c, w.floor, w.nextSeq);
    WholeIfPart(before, w.head, w.nextBlock, w.floor, w.log, w.nextSeq, c, fs + gs);
    assert before[w.nextBlock := c] == w.blocks[w.nextBlock := c];
    w.blocks := w.blocks[w.nextBlock := c];
  }

  /** That recovery. */
  method RecoverRetry(w: WalWriter, from: nat, flushed: nat, ghost ws: seq<Group>) returns (replayed: seq<Item>)
    requires from == w.head <= |w.blocks| && flushed == w.floor
    requires RecoversWhole(w.blocks, w.head, w.floor, w.log, ws)
    ensures exists hs: seq<Group> :: ReplaysAs(replayed, w.log, ws, hs)
  {
    hide WalkTo, StepBlock, Flatten;
    var maxSeq, stop;
    ghost var v;
    replayed, maxSeq, stop, v := RecoverBlocks(w.blocks, from, flushed);
    assert StopsAt(w.blocks, from, stop, flushed);
  }

  /** After a failed write of one record the retry is as good as a first write, torn or not: what recovery may find
      is one of the two, and it leaves a log that all later writes can build on. */
  method CrashInRetryOfOne(w: WalWriter, ghost under: Block, fs: seq<Group>, ghost m: nat, gs: seq<Group>, k: nat,
                           c: Block)
    requires Failing(w, under, fs, m) && AllGroups(gs) && Increasing(Flatten(gs), w.nextSeq) && |Flatten(fs)| == 1
    requires TornOver(Flatten(gs), k, w.blocks[w.nextBlock], c)
    modifies w`blocks, w`inflight
    ensures w.Down() && (w.inflight == fs || w.inflight == gs) && w.blocks == old(w.blocks)[w.nextBlock := c]
  {
    hide Holds, Increasing, TornBlock, TornOver, Flatten, Interrupted;
    var next := w.nextBlock;
    ghost var before := w.blocks[next := under];
    assert before[next := c] == w.blocks[next := c];
    ghost var found,
        j := OneInterrupted(before, w.head, next, w.floor, w.log, w.nextSeq, fs, m, w.blocks[next], gs, k, c);
    w.blocks := w.blocks[w.nextBlock := c];
    w.inflight := found;
    assert Interrupted(w.blocks, w.head, w.nextBlock, w.floor, w.log, w.inflight, j);
  }

  /** Whatever the tears, recovery can reach the log and whole groups of one of the two writes. */
  lemma OneInterrupted(blocks: seq<Block>, from: nat, next: nat, floor: nat, log: seq<Group>, cur: nat,
                       fs: seq<Group>, m: nat, d: Block, gs: seq<Group>, k: nat, c: Block)
    returns (found: seq<Group>, j: nat)
    requires Holds(blocks, from, next, floor, log) && next < |blocks| && Top(log, floor) <= cur
    requires TwoWrites(fs, gs, cur) && |Flatten(fs)| == 1 && TornTwice(fs, gs, blocks[next], m, d, k, c)
    ensures (found == fs || found == gs) && Interrupted(blocks[next := c], from, next, floor, log, found, j)
  {
    hide Increasing, TornBlock, TornOver, Closed, WalkTo, MaxSeq, Flatten;
    if k == 0 && c == d {
      found := fs;
      j := AfterWrite(blocks, from, next, floor, log, cur, fs, m, c);
      return;
    }
    found := gs;
    assert blocks[next := blocks[next]] == blocks;
    UnderClosed(blocks, from, next, floor, log, blocks[next]);
    var rest := OneUnder(Flatten(fs), m, blocks[next], d, Flatten(gs), k, c, floor, cur);
    ClosedMonotone(rest, floor, Top(log, floor));
    StillHolds(blocks, from, next, floor, log, rest);
    j := AfterWrite(blocks[next := rest], from, next, floor, log, cur, gs, k, c);
    assert blocks[next := rest][next := c] == blocks[next := c];
  }

  /** Once a record of the retry landed, or part of one, the failed record is gone. */
  lemma OneUnder(f: seq<Item>, m: nat, under: Block, d: Block, g: seq<Item>, k: nat, c: Block, floor: nat, cur: nat)
    returns (rest: Block)
    requires |f| == 1 && Increasing(f, cur) && Increasing(g, cur) && TornBlock(f, m, under, d) && Closed(under, floor)
    requires TornOver(g, k, d, c) && !(k == 0 && c == d)
    ensures Closed(rest, floor) && TornBlock(g, k, rest, c)
  {
    TornTail(f, m, under, d, floor);
    rest := d[m..];
    assert f[0].Rec? && AllRecords(g);
    hide Increasing, Closed, TornBlock, SizeOf, HasJunk;
    if j :| 0 <= j <= |d| && k > 0 && Meets(g, k, d, j) && c[k..] == d[j..] {
      SizeGrows(g, 0, k);
      PastOne(f, m, d, j);
      TornFrom(g, k, d, m, j, c);
    } else {
      var i :| 0 <= i <= |d| && Beyond(g, k, d, i) && c[k..] == [Junk] + d[i..];
      PastOne(f, m, d, i);
      TornFrom(g, k, d, m, i, c);
    }
  }

  /** A tear that leaves only what lies from item `m` on is a tear over that. */
  lemma TornFrom(g: seq<Item>, k: nat, d: Block, m: nat, j: nat, c: Block)
    requires m <= j <= |d| && k <= |g| && k <= |c| && c[..k] == g[..k]
    requires (k > 0 && c[k..] == d[j..]) || c[k..] == [Junk] + d[j..]
    ensures TornBlock(g, k, d[m..], c)
  {
    assert d[j..] == d[m..][j - m..];
  }

  lemma PastOne(f: seq<Item>, m: nat, d: Block, j: nat)
    requires |f| == 1 && f[0].Rec? && m <= 1 && m <= |d| && d[..m] == f[..m] && j <= |d|
    requires j == |d| || HasJunk(d[..j]) || SizeOf(d[..j]) > 0
    ensures j >= m
  {
    if j == 0 { assert d[..j] == []; }
  }
}
