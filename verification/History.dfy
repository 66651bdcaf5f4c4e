/** What reading means: the operations of one node replayed in the order of their sequences (src/model.rs, README.md).
    The visibility rule that picks the newest version and asks for a newer covering tombstone gives the same answer. */
module History {
  import opened Keys
  import opened Tombstones
  import opened Visibility

  /** One operation: a put or a delete of a key, or a delete of a range. */
  datatype Op = Write(entry: Entry) | Erase(rdel: Rdel)

  function SeqOf(op: Op): nat {
    match op
    case Write(e) => e.seqno
    case Erase(r) => r.seqno
  }

  /** Every operation has its own sequence, and they are in that order. */
  ghost predicate InOrder(history: seq<Op>) {
    forall i, j :: 0 <= i < j < |history| ==> SeqOf(history[i]) < SeqOf(history[j])
  }

  /** What key `k` holds after one more operation. */
  function After(held: Option<Entry>, op: Op, k: Rank): Option<Entry> {
    match op
    case Write(e) => if e.key != k then held else if e.tombstone then None else Some(e)
    case Erase(r) => if r.start <= k && k < r.end then None else held
  }

  /** What key `k` holds after the operations up to sequence `view`. */
  function Replay(history: seq<Op>, k: Rank, view: nat): Option<Entry>
    decreases |history|
  {
    if history == [] then None
    else
      var before := Replay(history[..|history| - 1], k, view);
      var last := history[|history| - 1];
      if SeqOf(last) <= view then After(before, last, k) else before
  }

  /** A value is there until its expiry, if it has one. */
  predicate Gives(held: Option<Entry>, now: nat, v: Value) {
    held.Some? && held.value.value == v && (held.value.expireAt == 0 || now < held.value.expireAt)
  }

  function Writes(history: seq<Op>): set<Entry> {
    set op | op in history && op.Write? :: op.entry
  }

  function Erasures(history: seq<Op>): seq<Rdel> {
    if history == [] then []
    else Erasures(history[..|history| - 1])
         + if history[|history| - 1].Erase? then [history[|history| - 1].rdel] else []
  }

  lemma {:induction false} ErasureThere(history: seq<Op>, r: Rdel)
    ensures r in Erasures(history) <==> Erase(r) in history
  {
    if history != [] {
      var init, last := history[..|history| - 1], history[|history| - 1];
      ErasureThere(init, r);
      assert history == init + [last];
    }
  }

  lemma InOrderInit(history: seq<Op>)
    requires InOrder(history) && history != []
    ensures var init := history[..|history| - 1];
            InOrder(init) && forall op :: op in init ==> SeqOf(op) < SeqOf(history[|history| - 1])
  {
    var init := history[..|history| - 1];
    forall op | op in init ensures SeqOf(op) < SeqOf(history[|history| - 1]) {
      var i :| 0 <= i < |init| && init[i] == op;
      assert history[i] == op;
    }
  }

  /** What the key holds was written at or below the view, and nothing since then and up to the view touched the key. */
  ghost predicate HeldBy(history: seq<Op>, k: Rank, view: nat, e: Entry) {
    && Write(e) in history && e.key == k && e.seqno <= view && !e.tombstone
    && forall op :: op in history && e.seqno < SeqOf(op) <= view ==> !Touches(op, k)
  }

  predicate Touches(op: Op, k: Rank) {
    match op
    case Write(e) => e.key == k
    case Erase(r) => Covers(r, k)
  }

  lemma {:induction false} ReplayExactly(history: seq<Op>, k: Rank, view: nat, e: Entry)
    requires InOrder(history)
    ensures Replay(history, k, view) == Some(e) <==> HeldBy(history, k, view, e)
    decreases |history|
  {
    if history != [] {
      var init, last := history[..|history| - 1], history[|history| - 1];
      InOrderInit(history);
      ReplayExactly(init, k, view, e);
      assert history == init + [last];
      LastTouches(init, last, k, view, e);
    }
  }

  lemma LastTouches(init: seq<Op>, last: Op, k: Rank, view: nat, e: Entry)
    requires forall op :: op in init ==> SeqOf(op) < SeqOf(last)
    ensures HeldBy(init + [last], k, view, e) <==>
            if SeqOf(last) <= view && Touches(last, k) then last == Write(e) && !e.tombstone
            else HeldBy(init, k, view, e)
  {
    var all := init + [last];
    assert last in all;
    if HeldBy(all, k, view, e) && Write(e) in init { assert e.seqno < SeqOf(last); }
    forall op | op in init ensures op in all {}
  }

  /** The visibility rule is replay: a read at a view gives what replaying the operations up to it leaves, unless that
      has expired. */
  lemma SeesIsReplay(history: seq<Op>, k: Rank, view: nat, now: nat, v: Value)
    requires InOrder(history)
    ensures Sees(Writes(history), Erasures(history), k, view, now, v) <==> Gives(Replay(history, k, view), now, v)
  {
    var points, rdels := Writes(history), Erasures(history);
    if Gives(Replay(history, k, view), now, v) {
      var e := Replay(history, k, view).value;
      ReplayExactly(history, k, view, e);
      HeldIsSeen(history, k, view, e);
      assert SeesAs(points, rdels, k, view, now, v, e);
    }
    if Sees(points, rdels, k, view, now, v) {
      var e :| SeesAs(points, rdels, k, view, now, v, e);
      SeenIsHeld(history, k, view, e);
      ReplayExactly(history, k, view, e);
    }
  }

  lemma HeldIsSeen(history: seq<Op>, k: Rank, view: nat, e: Entry)
    requires HeldBy(history, k, view, e)
    ensures Newest(Writes(history), k, view, e) && Unhidden(Erasures(history), k, view, e)
  {
    forall f | f in Writes(history) && VersionAt(f, k, view) ensures f.seqno <= e.seqno {
      assert Write(f) in history && Touches(Write(f), k) && SeqOf(Write(f)) == f.seqno;
    }
    var c := CoverSeq(Erasures(history), k, view);
    if c > 0 {
      var r :| r in Erasures(history) && VisibleCover(r, k, view) && r.seqno == c;
      ErasureThere(history, r);
      assert Touches(Erase(r), k) && SeqOf(Erase(r)) == c;
    }
  }

  lemma SeenIsHeld(history: seq<Op>, k: Rank, view: nat, e: Entry)
    requires InOrder(history) && !e.tombstone
    requires Newest(Writes(history), k, view, e) && Unhidden(Erasures(history), k, view, e)
    ensures HeldBy(history, k, view, e)
  {
    forall op | op in history && e.seqno < SeqOf(op) <= view ensures !Touches(op, k) {
      match op
      case Write(f) => assert f in Writes(history);
      case Erase(r) => ErasureThere(history, r);
    }
  }
}
