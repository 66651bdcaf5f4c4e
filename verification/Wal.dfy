/** The write-ahead log over commits, torn writes, crashes, recoveries and flushes (src/wal.rs). */
module Wal {
  import opened Keys
  import opened WalLog

  /** The newest sequence the log or the flush floor accounts for. */
  function Top(log: seq<Group>, floor: nat): nat {
    MaxSeq(Flatten(log), floor)
  }

  /** Every closing record of every block is at or below `top`. */
  ghost predicate AllClosed(blocks: seq<Block>, from: nat, top: nat) {
    forall i :: from <= i < |blocks| ==> Closed(blocks[i], top)
  }

  /** The live log is `log`: recovery from `from` reaches block `next` having replayed exactly its records,
      and no block from `next` on holds anything it could replay. */
  ghost predicate Holds(blocks: seq<Block>, from: nat, next: nat, floor: nat, log: seq<Group>) {
    && from <= next <= |blocks|
    && AllGroups(log) && Increasing(Flatten(log), floor)
    && AllClosed(blocks, next, floor) && AllClosed(blocks, 0, Top(log, floor))
    && Reached(WalkTo(blocks, from, next, floor), floor, log)
  }

  ghost predicate Reached(w: Option<Walk>, floor: nat, log: seq<Group>) {
    && w.Some? && w.value.replayed == Flatten(log) && w.value.maxSeq <= Top(log, floor)
    && (w.value.newerThan.Some? ==> w.value.newerThan.value <= Top(log, floor))
  }

  lemma {:induction false} WalkFrame(blocks: seq<Block>, others: seq<Block>, from: nat, upto: nat, floor: nat)
    requires from <= upto <= |blocks| && upto <= |others| && blocks[..upto] == others[..upto]
    ensures WalkTo(blocks, from, upto, floor) == WalkTo(others, from, upto, floor)
    decreases upto
  {
    if from < upto {
      assert blocks[..upto - 1] == blocks[..upto][..upto - 1] && others[..upto - 1] == others[..upto][..upto - 1];
      WalkFrame(blocks, others, from, upto - 1, floor);
      assert blocks[upto - 1] == blocks[..upto][upto - 1] && others[upto - 1] == others[..upto][upto - 1];
    }
  }

  /** Recovery that got to `q` passed `p` on its way. */
  lemma {:induction false} WalkThrough(blocks: seq<Block>, from: nat, p: nat, q: nat, floor: nat)
    requires from <= p <= q <= |blocks| && WalkTo(blocks, from, q, floor).Some?
    ensures WalkTo(blocks, from, p, floor).Some?
    decreases q
  {
    if p < q { WalkThrough(blocks, from, p, q - 1, floor); }
  }

  /** Recovery that goes on past the live log replays nothing more. */
  lemma {:induction false} HoldsOn(blocks: seq<Block>, from: nat, next: nat, q: nat, floor: nat, log: seq<Group>)
    requires Holds(blocks, from, next, floor, log) && next <= q <= |blocks| && WalkTo(blocks, from, q, floor).Some?
    ensures Holds(blocks, from, q, floor, log)
    decreases q
  {
    hide StepBlock, MaxSeq, Closed, Increasing, Flatten;
    if next < q {
      HoldsOn(blocks, from, next, q - 1, floor, log);
      StaleStep(WalkTo(blocks, from, q - 1, floor).value, blocks[q - 1], floor);
    }
  }

  lemma {:induction false} FlattenConcat(a: seq<Group>, b: seq<Group>)
    ensures Flatten(a + b) == Flatten(a) + Flatten(b)
    decreases |b|
  {
    if b == [] {
      assert a + b == a;
    } else {
      var c := b[..|b| - 1];
      FlattenConcat(a, c);
      assert (a + b)[..|a + b| - 1] == a + c;
    }
  }

  lemma IncreasingConcat(a: seq<Item>, b: seq<Item>, low: int, mid: int)
    requires Increasing(a, low) && Increasing(b, mid) && low <= mid && forall i :: 0 <= i < |a| ==> a[i].seqno <= mid
    ensures Increasing(a + b, low)
  {}

  lemma {:induction false} MaxSeqConcat(a: seq<Item>, b: seq<Item>, low: nat)
    ensures MaxSeq(a + b, low) == MaxSeq(b, MaxSeq(a, low))
    decreases |b|
  {
    if b == [] {
      assert a + b == a;
    } else {
      assert (a + b)[..|a + b| - 1] == a + b[..|b| - 1];
      MaxSeqConcat(a, b[..|b| - 1], low);
    }
  }

  lemma {:induction false} MaxSeqMonotone(rs: seq<Item>, low: nat, high: nat)
    requires low <= high
    ensures MaxSeq(rs, low) <= MaxSeq(rs, high)
    decreases |rs|
  {
    if rs != [] { MaxSeqMonotone(rs[..|rs| - 1], low, high); }
  }

  lemma ClosedMonotone(c: Block, low: nat, high: nat)
    requires Closed(c, low) && low <= high
    ensures Closed(c, high)
  {}

  /** The first groups of a write are a write. */
  lemma FirstGroups(gs: seq<Group>, j: nat, low: int)
    requires AllGroups(gs) && Increasing(Flatten(gs), low) && j <= |gs|
    ensures AllGroups(gs[..j]) && Increasing(Flatten(gs[..j]), low)
  {
    hide Flatten;
    FlattenConcat(gs[..j], gs[j..]);
    assert gs == gs[..j] + gs[j..];
    var a := Flatten(gs[..j]);
    assert forall i :: 0 <= i < |a| ==> a[i] == Flatten(gs)[i];
  }

  /** More groups in the log: sequences stay in order, and the top rises to theirs. */
  lemma LogGrows(log: seq<Group>, gs: seq<Group>, floor: nat, cur: nat)
    requires AllGroups(log) && Increasing(Flatten(log), floor) && Top(log, floor) <= cur
    requires AllGroups(gs) && Increasing(Flatten(gs), cur)
    ensures AllGroups(log + gs) && Flatten(log + gs) == Flatten(log) + Flatten(gs)
            && Increasing(Flatten(log + gs), floor)
    ensures Top(log + gs, floor) == MaxSeq(Flatten(gs), Top(log, floor))
  {
    FlattenConcat(log, gs);
    var a := Flatten(log);
    forall i | 0 <= i < |a| ensures a[i].seqno <= cur { MaxSeqCovers(a, floor, i); }
    IncreasingConcat(a, Flatten(gs), floor, cur);
    MaxSeqConcat(a, Flatten(gs), floor);
  }

  /** A write of `gs` at the end of the log, whole or torn after `k` records: a number of its groups, all if it
      is whole, have joined the log. */
  lemma AfterWrite(blocks: seq<Block>, from: nat, next: nat, floor: nat, log: seq<Group>, cur: nat,
                   gs: seq<Group>, k: nat, c: Block) returns (j: nat)
    requires Holds(blocks, from, next, floor, log) && next < |blocks| && Top(log, floor) <= cur
    requires AllGroups(gs) && Increasing(Flatten(gs), cur) && TornBlock(Flatten(gs), k, blocks[next], c)
    ensures j <= |gs| && (k == |Flatten(gs)| ==> j == |gs|)
    ensures Holds(blocks[next := c], from, if j == 0 then next else next + 1, floor, log + gs[..j])
  {
    var after := blocks[next := c];
    assert after[..next] == blocks[..next];
    WalkFrame(blocks, after, from, next, floor);
    var w := WalkTo(blocks, from, next, floor).value;
    j := TornStep(w, gs, k, blocks[next], c, floor, cur);
    if j == 0 {
      assert log + gs[..j] == log;
      ClosedMonotone(c, floor, Top(log, floor));
      StillHolds(blocks, from, next, floor, log, c);
    } else {
      FirstGroups(gs, j, cur);
      LogGrows(log, gs[..j], floor, cur);
      WriteJoins(blocks, from, next, floor, log, cur, gs, k, j, c);
    }
  }

  lemma StillHolds(blocks: seq<Block>, from: nat, next: nat, floor: nat, log: seq<Group>, c: Block)
    requires Holds(blocks, from, next, floor, log) && next < |blocks| && Closed(c, floor) && Closed(c, Top(log, floor))
    ensures Holds(blocks[next := c], from, next, floor, log)
  {
    var after := blocks[next := c];
    assert after[..next] == blocks[..next];
    WalkFrame(blocks, after, from, next, floor);
  }

  lemma WriteJoins(blocks: seq<Block>, from: nat, next: nat, floor: nat, log: seq<Group>, cur: nat,
                   gs: seq<Group>, k: nat, j: nat, c: Block)
    requires Holds(blocks, from, next, floor, log) && next < |blocks| && Top(log, floor) <= cur
    requires AllGroups(gs) && Increasing(Flatten(gs), cur) && TornBlock(Flatten(gs), k, blocks[next], c)
    requires 0 < j <= |gs| && CompletePart(c) == Flatten(gs[..j])
    requires StepBlock(WalkTo(blocks, from, next, floor).value, c, floor).Some?
    requires StepBlock(WalkTo(blocks, from, next, floor).value, c, floor).value.replayed == Flatten(log)
             + Flatten(gs[..j])
    requires AllGroups(log + gs[..j]) && Flatten(log + gs[..j]) == Flatten(log) + Flatten(gs[..j])
    requires Increasing(Flatten(log + gs[..j]), floor)
    requires Top(log + gs[..j], floor) == MaxSeq(Flatten(gs[..j]), Top(log, floor))
    ensures Holds(blocks[next := c], from, next + 1, floor, log + gs[..j])
  {
    var after := blocks[next := c];
    assert after[..next] == blocks[..next];
    WalkFrame(blocks, after, from, next, floor);
    var w := WalkTo(blocks, from, next, floor).value;
    var top := Top(log + gs[..j], floor);
    MaxSeqMonotone(CompletePart(c), w.maxSeq, Top(log, floor));
    MaxSeqMonotone(CompletePart(c), 0, Top(log, floor));
    assert WalkTo(after, from, next + 1, floor) == StepBlock(w, c, floor);
    assert Reached(WalkTo(after, from, next + 1, floor), floor, log + gs[..j]);
    WrittenClosed(gs, k, j, blocks[next], c, floor, cur, top);
    forall i | 0 <= i < |after| ensures Closed(after[i], top) {
      if i != next { ClosedMonotone(blocks[i], Top(log, floor), top); }
    }
  }

  /** Every closing record of a torn write is accounted for. */
  lemma WrittenClosed(gs: seq<Group>, k: nat, j: nat, was: Block, c: Block, floor: nat, cur: nat, top: nat)
    requires AllGroups(gs) && Increasing(Flatten(gs), cur) && TornBlock(Flatten(gs), k, was, c) && Closed(was, floor)
    requires floor <= cur && 0 < j <= |gs| && CompletePart(c) == Flatten(gs[..j])
    requires floor <= top && top >= MaxSeq(Flatten(gs[..j]), 0)
    ensures Closed(c, top)
  {
    hide CompleteLen, CompletePart, MaxSeq, Flatten, Increasing, Closed;
    var rs := Flatten(gs);
    TornTail(rs, k, was, c, floor);
    ClosedMonotone(c[k..], floor, top);
    hide TornBlock;
    if k == 0 {
      assert c[k..] == c;
    } else {
      TornComplete(rs, k, c, floor, cur);
      FrontThenTail(rs, k, c, top);
    }
  }

  lemma FrontThenTail(rs: seq<Item>, k: nat, c: Block, top: nat)
    requires k <= |rs| && k <= |c| && c[..k] == rs[..k] && Closed(c[k..], top)
    requires MaxSeq(rs[..CompleteLen(rs[..k])], 0) <= top
    ensures Closed(c, top)
  {
    hide CompleteLen, MaxSeq, Closed;
    assert rs[..k][..CompleteLen(rs[..k])] == rs[..CompleteLen(rs[..k])];
    FrontClosed(rs[..k], top);
    ClosedConcat(rs[..k], c[k..], top);
    assert c == rs[..k] + c[k..];
  }

  lemma FrontClosed(front: seq<Item>, top: nat)
    requires MaxSeq(front[..CompleteLen(front)], 0) <= top
    ensures Closed(front, top)
  {
    var part := front[..CompleteLen(front)];
    AfterComplete(front);
    forall i | 0 <= i < |front| && front[i].Rec? && !front[i].more ensures front[i].seqno <= top {
      assert part[i] == front[i];
      MaxSeqCovers(part, 0, i);
    }
  }

  /** No closing record follows the last complete group. */
  lemma {:induction false} AfterComplete(rs: seq<Item>)
    ensures forall i :: CompleteLen(rs) <= i < |rs| ==> rs[i].Junk? || rs[i].more
    decreases |rs|
  {
    if rs != [] && CompleteLen(rs) < |rs| { AfterComplete(rs[..|rs| - 1]); }
  }

  /** A flush raises the floor past everything and empties the live log, wherever it restarts. */
  lemma AfterFlush(blocks: seq<Block>, from: nat, next: nat, floor: nat, log: seq<Group>, seqno: nat, head: nat)
    requires Holds(blocks, from, next, floor, log) && seqno >= Top(log, floor) && head <= |blocks|
    ensures Holds(blocks, head, head, seqno, [])
  {
    forall i | 0 <= i < |blocks| ensures Closed(blocks[i], seqno) { ClosedMonotone(blocks[i], Top(log, floor), seqno); }
  }

  lemma {:induction false} AboveNone(rs: seq<Item>, floor: nat)
    requires Above(rs, floor) == []
    ensures forall i :: 0 <= i < |rs| && rs[i].Rec? ==> rs[i].seqno <= floor
    decreases |rs|
  {
    if rs != [] { AboveNone(rs[..|rs| - 1], floor); }
  }

  /** Pass 1: where the block's last complete group ends, and whether the block is torn. */
  method ScanBlock(c: Block) returns (complete: nat, torn: bool, first: Option<nat>)
    ensures complete == |CompletePart(c)| && torn == Torn(c)
    ensures first == if RunLen(c, -1) == 0 then None else Some(c[0].seqno)
  {
    var off, last: int := 0, -1;
    complete, torn, first := 0, false, None;
    while off < |c|
      invariant 0 <= off <= |c| && last >= -1
      invariant RunLen(c, -1) == off + RunLen(c[off..], last)
      invariant complete == CompleteLen(c[..off])
      invariant first == if off == 0 then None else if c[0].Rec? then Some(c[0].seqno) else None
      invariant off > 0 ==> c[0].Rec?
    {
      if c[off].Junk? || c[off].seqno <= last {
        torn := true;
        break;
      }
      if first.None? { first := Some(c[off].seqno); }
      assert c[off..][1..] == c[off + 1..] && c[..off + 1][..off] == c[..off];
      last := c[off].seqno;
      if !c[off].more { complete := off + 1; }
      off := off + 1;
    }
    torn := torn || complete < off;
  }

  /** Pass 2: replays the complete groups' records above the floor. */
  method Replay(part: seq<Item>, floor: nat, seen: nat) returns (live: seq<Item>, maxSeq: nat)
    requires forall i :: 0 <= i < |part| ==> part[i].Rec?
    ensures live == Above(part, floor) && maxSeq == MaxSeq(part, seen)
  {
    live, maxSeq := [], seen;
    for i := 0 to |part|
      invariant live == Above(part[..i], floor) && maxSeq == MaxSeq(part[..i], seen)
    {
      assert part[..i + 1][..i] == part[..i];
      if part[i].seqno > maxSeq { maxSeq := part[i].seqno; }
      if part[i].seqno > floor { live := live + [part[i]]; }
    }
    assert part[..|part|] == part;
  }

  /** `recover_from`: the walk over the log's blocks. */
  method RecoverBlocks(blocks: seq<Block>, from: nat, floor: nat)
    returns (replayed: seq<Item>, maxSeq: nat, stop: nat, ghost w: Walk)
    requires from <= |blocks|
    ensures from <= stop <= |blocks| && WalkTo(blocks, from, stop, floor) == Some(w)
    ensures stop < |blocks| ==> StepBlock(w, blocks[stop], floor) == None
    ensures replayed == w.replayed && w.maxSeq <= maxSeq <= (if w.maxSeq > floor then w.maxSeq else floor)
  {
    replayed, maxSeq, stop := [], 0, from;
    var newerThan: Option<nat> := None;
    w := Walk([], 0, None);
    while stop < |blocks|
      invariant from <= stop <= |blocks|
      invariant WalkTo(blocks, from, stop, floor) == Some(w) && w == Walk(replayed, maxSeq, newerThan)
    {
      var c := blocks[stop];
      var complete, torn, first := ScanBlock(c);
      if newerThan.Some? && (first.None? || first.value <= newerThan.value) {
        return;
      }
      if complete == 0 {
        return;
      }
      PartRecords(c);
      assert c[..complete] == CompletePart(c);
      var live, m := Replay(c[..complete], floor, maxSeq);
      if live == [] && !torn {
        AboveNone(c[..complete], floor);
        MaxSeqBound(c[..complete], maxSeq, if maxSeq > floor then maxSeq else floor);
        maxSeq := m;
        return;
      }
      replayed, maxSeq, stop := replayed + live, m, stop + 1;
      newerThan := if torn then Some(maxSeq) else None;
      w := Walk(replayed, maxSeq, newerThan);
    }
  }

  lemma PartRecords(c: Block)
    ensures forall i :: 0 <= i < |CompletePart(c)| ==> CompletePart(c)[i].Rec?
  {
    RunIncreasing(c, -1);
    var run := c[..RunLen(c, -1)];
    assert forall i :: 0 <= i < |CompletePart(c)| ==> CompletePart(c)[i] == run[i];
  }

  /** The log region, the writer's position, and the manifest's record of what is flushed. */
  class WalWriter {
    const end: nat
    var blocks: seq<Block>
    var nextBlock: nat
    /** The database's sequence counter. */
    var nextSeq: nat
    ghost var head: nat
    ghost var floor: nat
    /** The groups acknowledged, or found by a recovery, since the last flush. */
    ghost var log: seq<Group>
    /** The write a crash interrupted. */
    ghost var inflight: seq<Group>

    ghost predicate Running()
      reads this
    {
      && |blocks| == end && Holds(blocks, head, nextBlock, floor, log)
      && Top(log, floor) <= nextSeq && inflight == []
    }

    /** After a crash: of the block being written, a number of whole groups can be replayed. */
    ghost predicate Down()
      reads this
    {
      |blocks| == end && exists j: nat :: Interrupted(blocks, head, nextBlock, floor, log, inflight, j)
    }

    constructor (end: nat)
      ensures Running() && this.end == end && head == nextBlock == floor == 0 && log == []
    {
      this.end := end;
      blocks, nextBlock, nextSeq := seq(end, _ => []), 0, 0;
      head, floor, log, inflight := 0, 0, [], [];
    }

    /** Stages and commits whole groups in the next block; refused when the region is full. */
    method Commit(gs: seq<Group>) returns (ok: bool)
      requires Running() && AllGroups(gs) && gs != [] && Increasing(Flatten(gs), nextSeq)
      modifies this
      ensures Running() && head == old(head) && floor == old(floor)
      ensures ok <==> old(nextBlock) < end
      ensures log == if ok then old(log) + gs else old(log)
      ensures nextSeq == if ok then MaxSeq(Flatten(gs), old(nextSeq)) else old(nextSeq)
      ensures nextBlock == old(nextBlock) + if ok then 1 else 0
    {
      hide WalkTo, MaxSeq, Closed, Increasing;
      if nextBlock >= end {
        return false;
      }
      AfterCommit(blocks, head, nextBlock, floor, log, nextSeq, gs);
      blocks := blocks[nextBlock := Flatten(gs)];
      nextBlock := nextBlock + 1;
      nextSeq := MaxSeq(Flatten(gs), nextSeq);
      log := log + gs;
      return true;
    }

    /** A crash while the next block is being written. */
    method CrashInWrite(gs: seq<Group>, k: nat, c: Block)
      requires Running() && nextBlock < end && AllGroups(gs) && Increasing(Flatten(gs), nextSeq)
      requires TornBlock(Flatten(gs), k, blocks[nextBlock], c)
      modifies this`blocks, this`inflight
      ensures Down() && inflight == gs && blocks == old(blocks)[nextBlock := c]
    {
      hide WalkTo, MaxSeq, Closed, Increasing;
      ghost var j := AfterWrite(blocks, head, nextBlock, floor, log, nextSeq, gs, k, c);
      blocks := blocks[nextBlock := c];
      inflight := gs;
      assert Interrupted(blocks, head, nextBlock, floor, log, inflight, j);
    }

    /** A crash at any other time. */
    method Crash()
      requires Running()
      ensures Down()
    {
      assert log + inflight[..0] == log;
      assert Interrupted(blocks, head, nextBlock, floor, log, inflight, 0);
    }

    /** Recovery replays the log, and of an interrupted write a number of whole groups; the writer
        goes on where the next recovery will look. `seqHigh` is the manifest's high-water mark. */
    method Recover(from: nat, flushed: nat, seqHigh: nat) returns (replayed: seq<Item>)
      requires Down() && from == head && flushed == floor && seqHigh >= floor
      modifies this
      ensures Running() && head == old(head) && floor == old(floor) && blocks == old(blocks)
      ensures exists j :: 0 <= j <= |old(inflight)| && log == old(log) + old(inflight)[..j]
      ensures replayed == Flatten(log) && Increasing(replayed, floor)
      ensures nextSeq == if Top(log, floor) > seqHigh then Top(log, floor) else seqHigh
    {
      hide WalkTo, MaxSeq, Closed;
      ghost var j: nat :| Interrupted(blocks, head, nextBlock, floor, log, inflight, j);
      var maxSeq, stop;
      ghost var w;
      replayed, maxSeq, stop, w := RecoverBlocks(blocks, from, flushed);
      AfterRecovery(blocks, from, nextBlock, floor, log, inflight, j, stop, w);
      log := log + inflight[..j];
      inflight := [];
      nextBlock := stop;
      nextSeq := if maxSeq > seqHigh then maxSeq else seqHigh;
    }

    /** The memtable's mutations are in a committed table: the log restarts empty, at the region's start when it is
        full. */
    method Flushed()
      requires Running()
      modifies this`nextBlock, this`head, this`floor, this`log
      ensures Running() && log == [] && floor == nextSeq
      ensures head == nextBlock == if old(nextBlock) >= end then 0 else old(nextBlock)
    {
      hide Closed;
      ghost var restart := if nextBlock >= end then 0 else nextBlock;
      AfterFlush(blocks, head, nextBlock, floor, log, nextSeq, restart);
      if nextBlock >= end { nextBlock := 0; }
      head, floor, log := restart, nextSeq, [];
    }
  }

  /** Recovery never stops before the end of the live log. */
  lemma NotBefore(blocks: seq<Block>, from: nat, next: nat, stop: nat, floor: nat, log: seq<Group>)
    requires Holds(blocks, from, next, floor, log) && from <= stop <= |blocks|
    requires WalkTo(blocks, from, stop, floor).Some?
    requires stop < |blocks| ==> StepBlock(WalkTo(blocks, from, stop, floor).value, blocks[stop], floor) == None
    ensures stop >= next
  {
    hide StepBlock, Closed, MaxSeq;
    if stop < next { WalkThrough(blocks, from, stop + 1, next, floor); }
  }

  /** The walk's highest sequence covers what it replayed. */
  lemma {:induction false} WalkMax(blocks: seq<Block>, from: nat, upto: nat, floor: nat)
    requires from <= upto <= |blocks| && WalkTo(blocks, from, upto, floor).Some?
    ensures var w := WalkTo(blocks, from, upto, floor).value;
            forall i :: 0 <= i < |w.replayed| && w.replayed[i].Rec? ==> w.replayed[i].seqno <= w.maxSeq
    decreases upto
  {
    if from < upto {
      WalkMax(blocks, from, upto - 1, floor);
      var w, part := WalkTo(blocks, from, upto - 1, floor).value, CompletePart(blocks[upto - 1]);
      AboveMax(part, floor, w.maxSeq);
    }
  }

  lemma {:induction false} AboveMax(rs: seq<Item>, floor: nat, low: nat)
    ensures forall i :: 0 <= i < |Above(rs, floor)| ==>
              Above(rs, floor)[i].Rec? && Above(rs, floor)[i].seqno <= MaxSeq(rs, low)
    decreases |rs|
  {
    if rs != [] { AboveMax(rs[..|rs| - 1], floor, low); }
  }

  /** Recovery ends with the log it replayed in place. */
  lemma AfterRecovery(blocks: seq<Block>, from: nat, next: nat, floor: nat, log: seq<Group>, inflight: seq<Group>,
                      j: nat,
                      stop: nat, w: Walk)
    requires Interrupted(blocks, from, next, floor, log, inflight, j)
    requires from <= stop <= |blocks| && WalkTo(blocks, from, stop, floor) == Some(w)
    requires stop < |blocks| ==> StepBlock(w, blocks[stop], floor) == None
    ensures Holds(blocks, from, stop, floor, log + inflight[..j]) && w.replayed == Flatten(log + inflight[..j])
    ensures Top(log + inflight[..j], floor) <= if w.maxSeq > floor then w.maxSeq else floor
  {
    var at := if j == 0 then next else next + 1;
    NotBefore(blocks, from, at, stop, floor, log + inflight[..j]);
    HoldsOn(blocks, from, at, stop, floor, log + inflight[..j]);
    WalkMax(blocks, from, stop, floor);
    MaxSeqBound(w.replayed, floor, if w.maxSeq > floor then w.maxSeq else floor);
  }

  /** The interrupted write left `j` whole groups that recovery reaches. */
  ghost predicate Interrupted(blocks: seq<Block>, from: nat, next: nat, floor: nat, log: seq<Group>,
                              inflight: seq<Group>, j: nat) {
    j <= |inflight| && Holds(blocks, from, if j == 0 then next else next + 1, floor, log + inflight[..j])
  }

  lemma AfterCommit(blocks: seq<Block>, from: nat, next: nat, floor: nat, log: seq<Group>, cur: nat, gs: seq<Group>)
    requires Holds(blocks, from, next, floor, log) && next < |blocks| && Top(log, floor) <= cur
    requires AllGroups(gs) && gs != [] && Increasing(Flatten(gs), cur)
    ensures Holds(blocks[next := Flatten(gs)], from, next + 1, floor, log + gs)
    ensures Top(log + gs, floor) <= MaxSeq(Flatten(gs), cur)
  {
    var c, was := Flatten(gs), blocks[next];
    FlattenNonempty(gs);
    assert c[|c|..] == was[|was|..];
    assert TornBlock(c, |c|, was, c);
    var j := AfterWrite(blocks, from, next, floor, log, cur, gs, |c|, c);
    assert gs[..j] == gs;
    LogGrows(log, gs, floor, cur);
    MaxSeqMonotone(c, Top(log, floor), cur);
  }
}
