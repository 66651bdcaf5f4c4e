/** The write-ahead log's blocks at record granularity, and what recovery reads from them (src/wal.rs). */
module WalLog {
  import opened Keys
  import opened PayloadCodec

  /** An intact record, or bytes that are none. A block is its items; what follows them is zero padding. */
  datatype Item = Rec(seqno: nat, more: bool, op: Mutation) | Junk

  type Block = seq<Item>

  /** The records of one atomic write: all but the last announce more to come. */
  type Group = seq<Item>

  ghost predicate IsGroup(g: Group) {
    g != [] && forall i :: 0 <= i < |g| ==> g[i].Rec? && (g[i].more <==> i < |g| - 1)
  }

  ghost predicate AllGroups(gs: seq<Group>) {
    forall g :: g in gs ==> IsGroup(g)
  }

  function Flatten(gs: seq<Group>): seq<Item> {
    if gs == [] then [] else Flatten(gs[..|gs| - 1]) + gs[|gs| - 1]
  }

  lemma FlattenOne(g: Group)
    ensures Flatten([g]) == g
  {
    assert [g][..0] == [];
  }

  /** Records in strictly increasing sequence, all above `low`. */
  ghost predicate Increasing(rs: seq<Item>, low: int) {
    && (forall i :: 0 <= i < |rs| ==> rs[i].Rec? && rs[i].seqno > low)
    && (forall i, j :: 0 <= i < j < |rs| && rs[i].Rec? && rs[j].Rec? ==> rs[i].seqno < rs[j].seqno)
  }

  /** Pass 1 of recovery: how many items read as records in increasing sequence, from sequence `last` on. */
  function RunLen(c: Block, last: int): (r: nat)
    ensures r <= |c|
  {
    if c == [] || c[0].Junk? || c[0].seqno <= last then 0 else 1 + RunLen(c[1..], c[0].seqno)
  }

  /** Where the last complete group ends. */
  function CompleteLen(rs: seq<Item>): (n: nat)
    ensures n <= |rs|
  {
    if rs == [] then 0
    else if rs[|rs| - 1].Rec? && !rs[|rs| - 1].more then |rs|
    else CompleteLen(rs[..|rs| - 1])
  }

  /** The records of a block that recovery replays or skips: its complete groups. */
  function CompletePart(c: Block): seq<Item> {
    c[..CompleteLen(c[..RunLen(c, -1)])]
  }

  function Torn(c: Block): bool {
    var r := RunLen(c, -1);
    r < |c| || CompleteLen(c[..r]) < r
  }

  /** Records above the floor. */
  function Above(rs: seq<Item>, floor: nat): seq<Item> {
    if rs == [] then []
    else Above(rs[..|rs| - 1], floor) + if rs[|rs| - 1].Rec? && rs[|rs| - 1].seqno > floor then [rs[|rs| - 1]] else []
  }

  function MaxSeq(rs: seq<Item>, low: nat): (m: nat)
    ensures m >= low
  {
    if rs == [] then low
    else
      var m := MaxSeq(rs[..|rs| - 1], low);
      if rs[|rs| - 1].Rec? && rs[|rs| - 1].seqno > m then rs[|rs| - 1].seqno else m
  }

  /** Recovery between blocks: what it replayed, the highest sequence it read, and the newest one of a torn
      block just passed. */
  datatype Walk = Walk(replayed: seq<Item>, maxSeq: nat, newerThan: Option<nat>)

  /** Recovery reads one block: nothing when the log ends before it. */
  function StepBlock(w: Walk, c: Block, floor: nat): Option<Walk> {
    var part := CompletePart(c);
    var live := Above(part, floor);
    if w.newerThan.Some? && (RunLen(c, -1) == 0 || c[0].seqno <= w.newerThan.value) then None
    else if part == [] then None
    else if live == [] && !Torn(c) then None
    else
      var m := MaxSeq(part, w.maxSeq);
      Some(Walk(w.replayed + live, m, if Torn(c) then Some(m) else None))
  }

  /** Recovery from block `from`, up to block `upto` if it gets there. */
  function WalkTo(blocks: seq<Block>, from: nat, upto: nat, floor: nat): Option<Walk>
    requires from <= upto <= |blocks|
    decreases upto
  {
    if from == upto then Some(Walk([], 0, None))
    else
      var w := WalkTo(blocks, from, upto - 1, floor);
      if w.None? then None else StepBlock(w.value, blocks[upto - 1], floor)
  }

  // Runs.

  lemma {:induction false} RunIncreasing(c: Block, last: int)
    requires last >= -1
    ensures Increasing(c[..RunLen(c, last)], last)
    decreases |c|
  {
    if RunLen(c, last) > 0 {
      RunIncreasing(c[1..], c[0].seqno);
      var r, t := RunLen(c, last), c[1..];
      assert c[..r] == [c[0]] + t[..r - 1];
    }
  }

  /** Increasing records in front of anything are read as a run. */
  lemma {:induction false} RunThrough(rs: seq<Item>, tail: Block, last: int)
    requires Increasing(rs, last) && last >= -1
    ensures RunLen(rs + tail, last) == |rs| + RunLen(tail, if rs == [] then last else rs[|rs| - 1].seqno)
    decreases |rs|
  {
    if rs == [] {
      assert rs + tail == tail;
    } else {
      var t := rs[1..];
      assert (rs + tail)[0] == rs[0] && (rs + tail)[1..] == t + tail;
      assert Increasing(t, rs[0].seqno) by {
        assert forall i :: 0 <= i < |t| ==> t[i] == rs[i + 1];
      }
      RunThrough(t, tail, rs[0].seqno);
    }
  }

  /** Every closing record is at or below `floor`. */
  ghost predicate Closed(c: seq<Item>, floor: nat) {
    forall i :: 0 <= i < |c| && c[i].Rec? && !c[i].more ==> c[i].seqno <= floor
  }

  lemma {:induction false} NoClosing(rs: seq<Item>, more: seq<Item>)
    requires forall i :: 0 <= i < |more| ==> more[i].Junk? || more[i].more
    ensures CompleteLen(rs + more) == CompleteLen(rs)
    decreases |more|
  {
    if more == [] {
      assert rs + more == rs;
    } else {
      var m := more[..|more| - 1];
      assert (rs + more)[..|rs + more| - 1] == rs + m;
      NoClosing(rs, m);
    }
  }

  lemma {:induction false} CompleteClosing(rs: seq<Item>)
    ensures var n := CompleteLen(rs); n > 0 ==> rs[n - 1].Rec? && !rs[n - 1].more
    decreases |rs|
  {
    if rs != [] && !(rs[|rs| - 1].Rec? && !rs[|rs| - 1].more) {
      CompleteClosing(rs[..|rs| - 1]);
    }
  }

  lemma AboveLast(init: seq<Item>, last: Item, floor: nat)
    ensures Above(init + [last], floor) == Above(init, floor) + if last.Rec? && last.seqno > floor then [last] else []
  {
    assert (init + [last])[..|init|] == init;
  }

  lemma {:induction false} AboveAll(rs: seq<Item>, floor: nat)
    ensures (forall i :: 0 <= i < |rs| ==> rs[i].Rec? && rs[i].seqno > floor) ==> Above(rs, floor) == rs
    ensures (forall i :: 0 <= i < |rs| ==> rs[i].Rec? && rs[i].seqno <= floor) ==> Above(rs, floor) == []
    decreases |rs|
  {
    if rs != [] {
      var init, last := rs[..|rs| - 1], rs[|rs| - 1];
      AboveAll(init, floor);
      assert rs == init + [last] && forall i :: 0 <= i < |init| ==> init[i] == rs[i];
      hide Above;
      AboveLast(init, last, floor);
    }
  }

  lemma {:induction false} MaxSeqBound(rs: seq<Item>, low: nat, high: nat)
    requires low <= high && forall i :: 0 <= i < |rs| && rs[i].Rec? ==> rs[i].seqno <= high
    ensures MaxSeq(rs, low) <= high
    decreases |rs|
  {
    if rs != [] { MaxSeqBound(rs[..|rs| - 1], low, high); }
  }

  lemma {:induction false} MaxSeqCovers(rs: seq<Item>, low: nat, i: nat)
    requires i < |rs| && rs[i].Rec?
    ensures MaxSeq(rs, low) >= rs[i].seqno
    decreases |rs|
  {
    if i < |rs| - 1 { MaxSeqCovers(rs[..|rs| - 1], low, i); }
  }

  /** Without live closing records a block's complete groups are all at or below the floor. */
  lemma StalePart(c: Block, floor: nat)
    requires Closed(c, floor)
    ensures var part := CompletePart(c); forall i :: 0 <= i < |part| ==> part[i].Rec? && part[i].seqno <= floor
  {
    var run := c[..RunLen(c, -1)];
    var n := CompleteLen(run);
    RunIncreasing(c, -1);
    CompleteClosing(run);
    forall i | 0 <= i < n ensures c[..n][i].Rec? && c[..n][i].seqno <= floor {
      assert c[n - 1] == run[n - 1] && c[n - 1].seqno <= floor;
      assert c[..n][i] == run[i];
    }
  }

  /** Such a block adds nothing, wherever recovery stops. */
  lemma StaleStep(w: Walk, c: Block, floor: nat)
    requires Closed(c, floor) && StepBlock(w, c, floor).Some?
    ensures var n := StepBlock(w, c, floor).value;
            n.replayed == w.replayed && n.maxSeq <= (if w.maxSeq > floor then w.maxSeq else floor)
            && (n.newerThan.Some? ==> n.newerThan.value == n.maxSeq)
  {
    StalePart(c, floor);
    AboveAll(CompletePart(c), floor);
    MaxSeqBound(CompletePart(c), w.maxSeq, if w.maxSeq > floor then w.maxSeq else floor);
  }

  /** A write of `rs` over `was` that tore after `k` records: what follows them is what the block held from
      some item on, perhaps behind one record that is neither. */
  ghost predicate TornBlock(rs: seq<Item>, k: nat, was: Block, c: Block) {
    && k <= |rs| && k <= |c| && c[..k] == rs[..k]
    && ((k == 0 && c == was)
        || (k > 0 && exists j :: 0 <= j <= |was| && c[k..] == was[j..])
        || (exists j :: 0 <= j <= |was| && c[k..] == [Junk] + was[j..]))
  }

  lemma ClosedSuffix(was: Block, j: nat, floor: nat)
    requires Closed(was, floor) && j <= |was|
    ensures Closed(was[j..], floor) && Closed([Junk] + was[j..], floor)
  {
    forall i | 0 <= i < |was[j..]| && was[j..][i].Rec? && !was[j..][i].more ensures was[j..][i].seqno <= floor {
      assert was[j..][i] == was[j + i];
    }
  }

  lemma ClosedConcat(a: Block, b: Block, floor: nat)
    requires Closed(a, floor) && Closed(b, floor)
    ensures Closed(a + b, floor)
  {}

  /** What follows the torn write has no closing record of its own. */
  lemma TornTail(rs: seq<Item>, k: nat, was: Block, c: Block, floor: nat)
    requires TornBlock(rs, k, was, c) && Closed(was, floor)
    ensures Closed(c[k..], floor)
  {
    forall j | 0 <= j <= |was| ensures Closed(was[j..], floor) && Closed([Junk] + was[j..], floor) {
      ClosedSuffix(was, j, floor);
    }
    assert k == 0 && c == was ==> c[k..] == was;
  }

  /** The complete part of a cut-off write is a number of its groups. */
  lemma {:induction false} WholeGroups(gs: seq<Group>, k: nat) returns (j: nat)
    requires AllGroups(gs) && k <= |Flatten(gs)|
    ensures j <= |gs| && Flatten(gs)[..CompleteLen(Flatten(gs)[..k])] == Flatten(gs[..j])
    ensures k == |Flatten(gs)| ==> j == |gs|
    decreases |gs|, k
  {
    j := |gs|;
    if gs != [] {
      var init, last := gs[..|gs| - 1], gs[|gs| - 1];
      var f := Flatten(init);
      var all := f + last;
      assert IsGroup(last);
      if k == |all| {
        assert all[..k] == all && gs[..j] == gs;
      } else {
        if k <= |f| {
          j := WholeGroups(init, k);
          assert all[..k] == f[..k];
        } else {
          j := WholeGroups(init, |f|);
          var cut := last[..k - |f|];
          assert all[..k] == f + cut;
          NoClosing(f, cut);
          assert f[..|f|] == f;
        }
        var n := CompleteLen(all[..k]);
        assert all[..n] == f[..n];
        assert init[..j] == gs[..j];
      }
    }
  }

  lemma FlattenNonempty(gs: seq<Group>)
    requires AllGroups(gs) && gs != []
    ensures Flatten(gs) != []
  {
    assert IsGroup(gs[|gs| - 1]);
  }

  lemma {:induction false} NoneClosing(rs: seq<Item>)
    requires CompleteLen(rs) == 0
    ensures forall i :: 0 <= i < |rs| ==> rs[i].Junk? || rs[i].more
    decreases |rs|
  {
    if rs != [] { NoneClosing(rs[..|rs| - 1]); }
  }

  /** No record behind a torn write can close one of its groups. */
  lemma TornComplete(rs: seq<Item>, k: nat, c: Block, floor: nat, cur: nat)
    requires Increasing(rs, cur) && floor <= cur && 0 < k <= |rs| && k <= |c| && c[..k] == rs[..k]
             && Closed(c[k..], floor)
    ensures CompletePart(c) == rs[..CompleteLen(rs[..k])]
  {
    var front, tail := rs[..k], c[k..];
    var last := front[k - 1].seqno;
    RunThrough(front, tail, -1);
    assert c == front + tail;
    var t := RunLen(tail, last);
    RunIncreasing(tail, last);
    assert c[..k + t] == front + tail[..t];
    forall i | 0 <= i < t ensures tail[..t][i].Junk? || tail[..t][i].more {
      assert tail[..t][i] == tail[i];
    }
    NoClosing(front, tail[..t]);
    var n := CompleteLen(front);
    assert c[..n] == rs[..n];
  }

  /** Recovery reads a torn write of `gs`: it replays a number of whole groups, none when it stops there. */
  lemma TornStep(w: Walk, gs: seq<Group>, k: nat, was: Block, c: Block, floor: nat, cur: nat) returns (j: nat)
    requires AllGroups(gs) && Increasing(Flatten(gs), cur) && floor <= cur
    requires w.newerThan.Some? ==> w.newerThan.value <= cur
    requires Closed(was, floor) && TornBlock(Flatten(gs), k, was, c)
    ensures j <= |gs| && (k == |Flatten(gs)| ==> j == |gs|)
    ensures j == 0 ==> Closed(c, floor)
    ensures j > 0 ==>
              StepBlock(w, c, floor).Some? && StepBlock(w, c, floor).value.replayed == w.replayed + Flatten(gs[..j])
                      && CompletePart(c) == Flatten(gs[..j])
  {
    var rs := Flatten(gs);
    j := WholeGroups(gs, k);
    TornTail(rs, k, was, c, floor);
    if j > 0 {
      assert AllGroups(gs[..j]);
      FlattenNonempty(gs[..j]);
      TornComplete(rs, k, c, floor, cur);
      TornReplays(w, rs, k, c, floor, cur);
    } else {
      TornStops(rs, k, c, floor);
    }
  }

  lemma TornStops(rs: seq<Item>, k: nat, c: Block, floor: nat)
    requires k <= |rs| && k <= |c| && c[..k] == rs[..k] && Closed(c[k..], floor) && CompleteLen(rs[..k]) == 0
    ensures Closed(c, floor)
  {
    NoneClosing(rs[..k]);
    ClosedConcat(rs[..k], c[k..], floor);
    assert c == rs[..k] + c[k..];
  }

  lemma TornReplays(w: Walk, rs: seq<Item>, k: nat, c: Block, floor: nat, cur: nat)
    requires Increasing(rs, cur) && floor <= cur && 0 < k <= |rs| && k <= |c| && c[..k] == rs[..k]
    requires CompletePart(c) == rs[..CompleteLen(rs[..k])] && CompletePart(c) != []
    requires w.newerThan.Some? ==> w.newerThan.value <= cur
    ensures StepBlock(w, c, floor).Some? && StepBlock(w, c, floor).value.replayed == w.replayed + CompletePart(c)
  {
    assert c[0] == rs[..k][0] == rs[0];
    RunThrough(rs[..k], c[k..], -1);
    assert c == rs[..k] + c[k..];
    AboveAll(CompletePart(c), floor);
  }
}
