/** Writes after a torn retry of a failed write, once a recovery lies between: when they are safe (src/db/mod.rs,
    src/wal.rs). */
module WalLater {
  import opened Keys
  import opened PayloadCodec
  import opened WalLog
  import opened WalRecord
  import opened Wal
  import opened WalRetry

  /** A crash in the retry `gs` of the failed write `fs`, both torn somehow, and the recovery from it. */
  datatype Crash = Crash(m: nat, d: Block, k: nat, c: Block, stop: nat, hs: seq<Group>)

  /** A later write, torn in its turn over the block where that recovery resumed. */
  datatype Later = Later(ws: seq<Group>, k: nat, c: Block)

  /** The log the crash is in: `Holds` of it, and where the failed write went. */
  datatype Site = Site(blocks: seq<Block>, from: nat, next: nat, floor: nat, log: seq<Group>) {
    ghost predicate Valid() {
      Holds(blocks, from, next, floor, log) && next < |blocks|
    }
  }

  /** The crash can happen, and its recovery stops at block `x.stop` having replayed the log and `x.hs`. */
  ghost predicate Crashes(s: Site, fs: seq<Group>, gs: seq<Group>, x: Crash) {
    && s.from <= x.stop < |s.blocks| && s.next < |s.blocks|
    && TornTwice(fs, gs, s.blocks[s.next], x.m, x.d, x.k, x.c)
    && StopsAt(s.blocks[s.next := x.c], s.from, x.stop, s.floor)
    && ReplaysAs(WalkTo(s.blocks[s.next := x.c], s.from, x.stop, s.floor).value.replayed, s.log, fs + gs, x.hs)
  }

  /** The later write, whose sequences follow what that recovery found, can tear like this. */
  ghost predicate WritesLater(s: Site, x: Crash, y: Later)
    requires s.next < |s.blocks| && x.stop < |s.blocks|
  {
    && AllGroups(y.ws) && Increasing(Flatten(y.ws), Top(s.log + x.hs, s.floor))
    && TornOver(Flatten(y.ws), y.k, s.blocks[s.next := x.c][x.stop], y.c)
  }

  /** The recovery after it replays something other than whole groups. */
  ghost predicate Mixed(s: Site, fs: seq<Group>, gs: seq<Group>, x: Crash, y: Later) {
    && Crashes(s, fs, gs, x) && WritesLater(s, x, y)
    && !RecoversWhole(s.blocks[s.next := x.c][x.stop := y.c], s.from, s.floor, s.log + x.hs, fs + gs + y.ws)
  }

  // One record.

  lemma SameTop(a: seq<Group>, b: seq<Group>, floor: nat)
    requires Flatten(a) == Flatten(b)
    ensures Top(a, floor) == Top(b, floor)
  {}

  lemma OverTears(rs: seq<Item>, k: nat, was: Block, c: Block)
    requires TornOver(rs, k, was, c)
    ensures TornBlock(rs, k, was, c)
  {}

  /** A log that holds recovers as what it holds. */
  lemma HoldsWhole(blocks: seq<Block>, from: nat, next: nat, floor: nat, log: seq<Group>, ws: seq<Group>, j: nat,
                   other: seq<Group>, all: seq<Group>)
    requires j <= |ws| && Holds(blocks, from, next, floor, log + ws[..j]) && Flatten(log) == Flatten(other)
    requires forall w :: w in ws ==> w in all
    ensures RecoversWhole(blocks, from, floor, other, all)
  {
    hide Flatten, Holds, WalkTo, StepBlock;
    FlattenConcat(log, ws[..j]);
    FlattenConcat(other, ws[..j]);
    forall stop | from <= stop <= |blocks| && StopsAt(blocks, from, stop, floor)
      ensures exists hs: seq<Group> :: ReplaysAs(WalkTo(blocks, from, stop, floor).value.replayed, other, all, hs)
    {
      HoldsReplays(blocks, from, next, floor, log + ws[..j], stop);
      assert ReplaysAs(WalkTo(blocks, from, stop, floor).value.replayed, other, all, ws[..j]);
    }
  }

  lemma HoldsReplays(blocks: seq<Block>, from: nat, next: nat, floor: nat, log: seq<Group>, stop: nat)
    requires Holds(blocks, from, next, floor, log) && from <= stop <= |blocks| && StopsAt(blocks, from, stop, floor)
    ensures WalkTo(blocks, from, stop, floor).value.replayed == Flatten(log)
  {
    hide StepBlock, Closed, MaxSeq, Increasing, Flatten;
    NotBefore(blocks, from, next, stop, floor, log);
    HoldsOn(blocks, from, next, stop, floor, log);
  }

  /** After a failed write of one record no later write mixes. */
  lemma OneIsSafe(s: Site, cur: nat, fs: seq<Group>, gs: seq<Group>, x: Crash, y: Later)
    requires s.Valid() && Top(s.log, s.floor) <= cur && TwoWrites(fs, gs, cur) && |Flatten(fs)| == 1
    requires Crashes(s, fs, gs, x) && WritesLater(s, x, y)
    ensures RecoversWhole(s.blocks[s.next := x.c][x.stop := y.c], s.from, s.floor, s.log + x.hs, fs + gs + y.ws)
  {
    hide Holds, Increasing, TornBlock, TornOver, WalkTo, StepBlock, Flatten, MaxSeq;
    var after := s.blocks[s.next := x.c];
    var found, j := OneInterrupted(s.blocks, s.from, s.next, s.floor, s.log, cur, fs, x.m, x.d, gs, x.k, x.c);
    var w := WalkTo(after, s.from, x.stop, s.floor).value;
    AfterRecovery(after, s.from, s.next, s.floor, s.log, found, j, x.stop, w);
    var log := s.log + found[..j];
    SameTop(log, s.log + x.hs, s.floor);
    OverTears(Flatten(y.ws), y.k, after[x.stop], y.c);
    var i := AfterWrite(after, s.from, x.stop, s.floor, log, Top(log, s.floor), y.ws, y.k, y.c);
    HoldsWhole(after[x.stop := y.c], s.from, if i == 0 then x.stop else x.stop + 1, s.floor, log, y.ws, i,
               s.log + x.hs, fs + gs + y.ws);
  }

  // More than one.

  /** A mutation of the given length that is neither of two others. */
  lemma FreshOp(len: nat, a: Mutation, b: Mutation) returns (op: Mutation)
    requires len >= 17
    ensures LenOf(op) == len && op != a && op != b
  {
    var key := seq(len - 17, i => 0 as Byte);
    op := Delete(key);
    if op == a || op == b {
      op := Put(key, []);
      if op == a || op == b {
        op := RangeDelete(key, []);
      }
    }
  }

  lemma {:induction false} SizeAtLeast(rs: seq<Item>)
    requires AllRecords(rs) && rs != []
    ensures SizeOf(rs) >= 23
  {
    if |rs| > 1 { SizeAtLeast(rs[..|rs| - 1]); }
  }

  lemma {:induction false} InFlatten(gs: seq<Group>, g: Group, r: Item)
    requires g in gs && r in g
    ensures r in Flatten(gs)
    decreases |gs|
  {
    var init, last := gs[..|gs| - 1], gs[|gs| - 1];
    if g != last {
      assert gs == init + [last] && g in init;
      InFlatten(init, g, r);
    }
  }

  /** A record that takes the failed write's first sequence, is not one of the two writes', and ends where the failed
      write's last record starts. */
  lemma Stranger(f: seq<Item>, g: seq<Item>, cur: nat) returns (r: Item)
    requires Increasing(f, cur) && Increasing(g, cur) && |f| >= 2
    ensures r.Rec? && r.more && r.seqno == f[0].seqno && r !in f && r !in g
    ensures LenOf(r.op) + 6 == SizeOf(f[..|f| - 1])
  {
    assert AllRecords(f[..|f| - 1]);
    SizeAtLeast(f[..|f| - 1]);
    hide SizeOf, LenOf;
    var s := f[0].seqno;
    var other := f[0].op;
    if i :| 0 <= i < |g| && g[i].seqno == s { other := g[i].op; }
    var op := FreshOp(SizeOf(f[..|f| - 1]) - 6, f[0].op, other);
    r := Rec(s, true, op);
  }

  /** The retry tears in its first record, and of the failed write its last record is left; recovery finds nothing. A
      later write's first record ends where that one starts, and tears there. */
  lemma LaterTears(f: seq<Item>, gs: seq<Group>, was: Block, w: Group)
    requires |f| >= 2 && AllRecords(f) && |w| == 2
    ensures var c := [Junk, f[|f| - 1]];
            && TornBlock(f, |f|, was, f) && TornOver(Flatten(gs), 0, f, c) && TornOver(w, 1, c, [w[0], f[|f| - 1]])
  {
    var j := |f| - 1;
    SizeAtLeast(f[..j]);
    hide Flatten, SizeOf;
    var c := [Junk] + f[j..];
    assert f[j..] == [f[j]] && c == [Junk, f[j]];
    assert f[|f|..] == was[|was|..] && f[..|f|] == f;
    assert Flatten(gs)[..0] == [];
    NoSize();
    assert Beyond(Flatten(gs), 0, f, j);
    assert c[0..] == [Junk] + f[j..] && c[..0] == Flatten(gs)[..0];
    assert c[..1][0] == Junk && Meets(w, 1, c, 1);
    assert [w[0], f[j]][1..] == c[1..] && [w[0], f[j]][..1] == w[..1];
  }

  lemma NoSize()
    ensures SizeOf([]) == 0
  {}

  /** The group that recovery then reads is nobody's. */
  lemma LaterPart(fs: seq<Group>, gs: seq<Group>, w: Group, last: Item, floor: nat, cur: nat)
    requires AllGroups(fs) && AllGroups(gs) && IsGroup(w) && |w| == 2 && Increasing(w, cur) && floor <= cur
    requires last.Rec? && !last.more && w[0].seqno < last.seqno < w[1].seqno
    requires w[0] !in Flatten(fs) && w[0] !in Flatten(gs)
    ensures var c := [w[0], last]; !Closed(c, floor) && NewPart(c, cur) && !Whole(CompletePart(c), fs + gs + [w])
  {
    var c := [w[0], last];
    assert c[..1] == w[..1] && c[1..] == [last];
    FrontAll(w, 1, c, cur);
    hide Flatten, CompletePart;
    if Whole(c, fs + gs + [w]) {
      Named(fs + gs + [w], c);
      if c in fs { InFlatten(fs, c, w[0]); }
      if c in gs { InFlatten(gs, c, w[0]); }
    }
    assert c[1] == last;
  }

  lemma Named(ws: seq<Group>, g: Group)
    requires AllGroups(ws) && IsGroup(g) && Whole(g, ws)
    ensures g in ws
  {
    hide Flatten, IsGroup;
    FlattenOne(g);
    var hs: seq<Group> :| WholeAs(g, ws, hs);
    OneReading(hs, [g], ws);
    assert hs[0] == g;
  }

  /** Nothing of the block can be read: recovery stops before it. */
  lemma StopsBefore(s: Site, c: Block, cur: nat)
    requires s.Valid() && Top(s.log, s.floor) <= cur && c != [] && c[0].Junk?
    ensures StopsAt(s.blocks[s.next := c], s.from, s.next, s.floor)
    ensures WalkTo(s.blocks[s.next := c], s.from, s.next, s.floor).value.replayed == Flatten(s.log + [])
  {
    var after := s.blocks[s.next := c];
    assert s.log + [] == s.log;
    assert after[..s.next] == s.blocks[..s.next];
    WalkFrame(s.blocks, after, s.from, s.next, s.floor);
    assert CompletePart(c) == [];
    hide CompletePart, MaxSeq, Closed, Flatten, Increasing, WalkTo;
    StepNew(WalkTo(after, s.from, s.next, s.floor).value, c, s.floor, cur);
  }

  /** What a failed write of several records leaves behind a torn retry is not counted by recovery. Whatever the
      retry, a later write can take its sequences and tear so that its open group is closed by the failed write's
      last record. */
  lemma LaterMixes(s: Site, cur: nat, fs: seq<Group>, gs: seq<Group>) returns (x: Crash, y: Later)
    requires s.Valid() && Top(s.log, s.floor) <= cur && TwoWrites(fs, gs, cur) && |Flatten(fs)| >= 2
    ensures Mixed(s, fs, gs, x, y)
    ensures |y.ws| == 1 && y.ws[0] != [] && y.ws[0][0].Rec?
    ensures LenOf(y.ws[0][0].op) + 6 == SizeOf(Flatten(fs)[..|Flatten(fs)| - 1])
  {
    hide Increasing, SizeOf, LenOf, Site.Valid, Mixed, Top;
    var f := Flatten(fs);
    var w := LaterGroup(fs, gs, cur);
    x := Crash(|f|, f, 0, [Junk, f[|f| - 1]], s.next, []);
    y := Later([w], 1, [w[0], f[|f| - 1]]);
    LaterIs(s, cur, fs, gs, w, x, y);
  }

  /** Two records that take up the failed write's sequences, neither of them one of the two writes'. */
  lemma LaterGroup(fs: seq<Group>, gs: seq<Group>, cur: nat) returns (w: Group)
    requires TwoWrites(fs, gs, cur) && |Flatten(fs)| >= 2
    ensures var f := Flatten(fs); var last := f[|f| - 1];
            && IsGroup(w) && |w| == 2 && Increasing(w, cur) && last.Rec? && !last.more
            && w[0].seqno < last.seqno < w[1].seqno && w[0] !in f && w[0] !in Flatten(gs)
            && LenOf(w[0].op) + 6 == SizeOf(f[..|f| - 1])
  {
    var f := Flatten(fs);
    LastCloses(fs);
    hide Flatten, SizeOf, LenOf;
    var r := Stranger(f, Flatten(gs), cur);
    w := [r, Rec(f[|f| - 1].seqno + 1, false, r.op)];
  }

  lemma LaterIs(s: Site, cur: nat, fs: seq<Group>, gs: seq<Group>, w: Group, x: Crash, y: Later)
    requires s.Valid() && Top(s.log, s.floor) <= cur && TwoWrites(fs, gs, cur) && |Flatten(fs)| >= 2
    requires var f := Flatten(fs); var last := f[|f| - 1];
             && IsGroup(w) && |w| == 2 && Increasing(w, cur) && last.Rec? && !last.more
             && w[0].seqno < last.seqno < w[1].seqno && w[0] !in f && w[0] !in Flatten(gs)
             && x == Crash(|f|, f, 0, [Junk, last], s.next, []) && y == Later([w], 1, [w[0], last])
    ensures Mixed(s, fs, gs, x, y)
  {
    var f := Flatten(fs);
    IncreasingRecords(f, cur);
    HoldsNext(s);
    hide Flatten, TornBlock, TornOver, Increasing, IsGroup, AllRecords, Top, RecoversWhole, Site.Valid;
    LaterTears(f, gs, s.blocks[s.next], w);
    LaterCrashes(s, cur, fs, gs, x);
    LaterWrites(s, cur, w, x, y);
    LaterUnwhole(s, cur, fs, gs, w, f[|f| - 1]);
    assert s.blocks[s.next := x.c][s.next := y.c] == s.blocks[s.next := y.c] && s.log + x.hs == s.log;
  }

  lemma LaterCrashes(s: Site, cur: nat, fs: seq<Group>, gs: seq<Group>, x: Crash)
    requires s.Valid() && s.from <= s.next && Top(s.log, s.floor) <= cur && x.c != [] && x.c[0].Junk?
             && x.stop == s.next
    requires x.hs == [] && TornBlock(Flatten(fs), x.m, s.blocks[s.next], x.d) && TornOver(Flatten(gs), x.k, x.d, x.c)
    ensures Crashes(s, fs, gs, x)
  {
    hide Flatten, TornBlock, TornOver, Top, WalkTo, StopsAt;
    StopsBefore(s, x.c, cur);
  }

  lemma LaterWrites(s: Site, cur: nat, w: Group, x: Crash, y: Later)
    requires s.next < |s.blocks| && x.stop == s.next && x.hs == [] && Top(s.log, s.floor) <= cur
    requires IsGroup(w) && Increasing(w, cur) && y.ws == [w] && TornOver(w, y.k, x.c, y.c)
    ensures WritesLater(s, x, y)
  {
    FlattenOne(w);
    hide Flatten, TornOver, Top;
    assert s.log + x.hs == s.log;
    LaterRises(w, cur, Top(s.log, s.floor));
  }

  lemma LaterUnwhole(s: Site, cur: nat, fs: seq<Group>, gs: seq<Group>, w: Group, last: Item)
    requires s.Valid() && Top(s.log, s.floor) <= cur && AllGroups(fs) && AllGroups(gs)
    requires IsGroup(w) && |w| == 2 && Increasing(w, cur) && last.Rec? && !last.more
    requires w[0].seqno < last.seqno < w[1].seqno && w[0] !in Flatten(fs) && w[0] !in Flatten(gs)
    ensures !RecoversWhole(s.blocks[s.next := [w[0], last]], s.from, s.floor, s.log, fs + gs + [w])
  {
    hide Flatten, Closed, CompletePart, Increasing, NewPart, Whole, RecoversWhole;
    TopAbove(s.log, s.floor);
    LaterPart(fs, gs, w, last, s.floor, cur);
    NotWhole(s.blocks, s.from, s.next, s.floor, s.log, cur, [w[0], last], fs + gs + [w]);
  }

  lemma TopAbove(log: seq<Group>, floor: nat)
    ensures floor <= Top(log, floor)
  {}

  lemma HoldsNext(s: Site)
    requires s.Valid()
    ensures s.from <= s.next
  {}

  lemma LaterRises(w: Group, cur: nat, low: nat)
    requires Increasing(w, cur) && low <= cur
    ensures Increasing(w, low)
  {}

  /** Some write after a torn retry and the recovery from it mixes, whatever the retry, exactly when the failed write
      has more than one record. */
  lemma LaterExactly(s: Site, cur: nat, fs: seq<Group>, gs: seq<Group>)
    requires s.Valid() && Top(s.log, s.floor) <= cur && TwoWrites(fs, gs, cur) && Flatten(fs) != []
    ensures |Flatten(fs)| > 1 <==> exists x, y :: Mixed(s, fs, gs, x, y)
  {
    hide Flatten, Site.Valid, TwoWrites, Top, RecoversWhole, Crashes, WritesLater;
    if |Flatten(fs)| > 1 {
      var x, y := LaterMixes(s, cur, fs, gs);
    } else {
      forall x, y ensures !Mixed(s, fs, gs, x, y) {
        if Mixed(s, fs, gs, x, y) { OneIsSafe(s, cur, fs, gs, x, y); }
      }
    }
  }
}
