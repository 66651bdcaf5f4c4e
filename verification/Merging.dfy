/** The key merge of a compaction job (`Compaction::merge_step` of src/compact.rs). */
module Merging {
  import opened Keys
  import opened Tombstones
  import opened Coverage
  import opened Visibility
  import opened Retention

  /** Table order: keys ascending, each key's versions newest first. */
  predicate Before(a: Entry, b: Entry) {
    a.key < b.key || (a.key == b.key && a.seqno > b.seqno)
  }

  ghost predicate Ordered(es: seq<Entry>) {
    forall i, j :: 0 <= i < j < |es| ==> Before(es[i], es[j])
  }

  /** Every cursor reads in table order, and no version is in two of them. */
  ghost predicate ValidCursors(cursors: seq<seq<Entry>>) {
    && (forall i :: 0 <= i < |cursors| ==> Ordered(cursors[i]))
    && (forall i, j, x, y :: 0 <= i < j < |cursors| && x in cursors[i] && y in cursors[j] ==>
          x.key != y.key || x.seqno != y.seqno)
  }

  ghost function Todo(cursors: seq<seq<Entry>>): set<Entry> {
    set i, e | 0 <= i < |cursors| && e in cursors[i] :: e
  }

  /** `h` comes before everything else still to be read. */
  ghost predicate First(cursors: seq<seq<Entry>>, h: Entry) {
    forall t :: t in Todo(cursors) ==> t == h || Before(h, t)
  }

  lemma Advance(cursors: seq<seq<Entry>>, c: nat)
    requires ValidCursors(cursors) && c < |cursors| && cursors[c] != []
    ensures ValidCursors(cursors[c := cursors[c][1..]])
    ensures Todo(cursors[c := cursors[c][1..]]) == Todo(cursors) - {cursors[c][0]}
    ensures cursors[c][0] in Todo(cursors)
  {
    var next := cursors[c := cursors[c][1..]];
    var h := cursors[c][0];
    TailOrdered(cursors[c]);
    assert forall i, x :: 0 <= i < |next| && x in next[i] ==> x in cursors[i];
    assert ValidCursors(next);
    forall x ensures x in Todo(next) <==> x in Todo(cursors) && x != h {
      AdvanceTodo(cursors, c, x);
    }
  }

  lemma OrderedConcat(a: seq<Entry>, b: seq<Entry>)
    requires Ordered(a) && Ordered(b) && forall x, y :: x in a && y in b ==> Before(x, y)
    ensures Ordered(a + b)
  {
    var s := a + b;
    forall i, j | 0 <= i < j < |s| ensures Before(s[i], s[j]) {
      if i < |a| <= j { assert s[i] in a && s[j] in b; }
    }
  }

  lemma TailOrdered(es: seq<Entry>)
    requires Ordered(es) && es != []
    ensures Ordered(es[1..]) && es[0] !in es[1..] && forall e :: e in es <==> e == es[0] || e in es[1..]
  {
    assert es == [es[0]] + es[1..];
    forall a, b | 0 <= a < b < |es[1..]| ensures Before(es[1..][a], es[1..][b]) {
      assert Before(es[a + 1], es[b + 1]);
    }
    forall a | 0 <= a < |es[1..]| ensures es[1..][a] != es[0] {
      assert Before(es[0], es[a + 1]);
    }
  }

  lemma AdvanceTodo(cursors: seq<seq<Entry>>, c: nat, x: Entry)
    requires ValidCursors(cursors) && c < |cursors| && cursors[c] != []
    ensures x in Todo(cursors[c := cursors[c][1..]]) <==> x in Todo(cursors) && x != cursors[c][0]
  {
    var next := cursors[c := cursors[c][1..]];
    var h := cursors[c][0];
    TailOrdered(cursors[c]);
    assert h in cursors[c];
    if x in Todo(next) {
      var i :| 0 <= i < |next| && x in next[i];
      assert x in cursors[i];
    }
    if x in Todo(cursors) && x != h {
      var i :| 0 <= i < |cursors| && x in cursors[i];
      assert x in next[i];
    }
  }

  /** `min_key_cursor`: the live cursor on the least key, the first on ties; `|cursors|` when none is live. */
  method MinKeyCursor(cursors: seq<seq<Entry>>) returns (best: nat)
    ensures best <= |cursors|
    ensures best == |cursors| ==> Todo(cursors) == {}
    ensures best < |cursors| ==> cursors[best] != []
    ensures best < |cursors| ==>
              forall i :: 0 <= i < |cursors| && cursors[i] != [] ==> cursors[best][0].key <= cursors[i][0].key
  {
    best := |cursors|;
    for c := 0 to |cursors|
      invariant best == |cursors| || best < c
      invariant best == |cursors| ==> forall i :: 0 <= i < c ==> cursors[i] == []
      invariant best < |cursors| ==> cursors[best] != []
      invariant best < |cursors| ==>
                  forall i :: 0 <= i < c && cursors[i] != [] ==> cursors[best][0].key <= cursors[i][0].key
    {
      if cursors[c] != [] && (best == |cursors| || cursors[c][0].key < cursors[best][0].key) {
        best := c;
      }
    }
  }

  /** `head_cursor`: the newest version among the cursors tied on `best`'s key. */
  method HeadCursor(cursors: seq<seq<Entry>>, best: nat) returns (head: nat)
    requires ValidCursors(cursors) && best < |cursors| && cursors[best] != []
    requires forall i :: 0 <= i < |cursors| && cursors[i] != [] ==> cursors[best][0].key <= cursors[i][0].key
    ensures head < |cursors| && cursors[head] != [] && cursors[head][0].key == cursors[best][0].key
    ensures First(cursors, cursors[head][0])
  {
    head := best;
    for c := 0 to |cursors|
      invariant head < |cursors| && cursors[head] != [] && cursors[head][0].key == cursors[best][0].key
      invariant cursors[head][0].seqno >= cursors[best][0].seqno
      invariant forall i :: 0 <= i < c && cursors[i] != [] && cursors[i][0].key == cursors[best][0].key ==>
                  cursors[i][0].seqno <= cursors[head][0].seqno
    {
      if cursors[c] != [] && c != best && cursors[c][0].key == cursors[best][0].key
          && cursors[c][0].seqno > cursors[head][0].seqno {
        head := c;
      }
    }
    HeadIsFirst(cursors, head);
  }

  /** The version the merge reads next, if any cursor is live. */
  method PickHead(cursors: seq<seq<Entry>>) returns (live: bool, head: nat)
    requires ValidCursors(cursors)
    ensures !live ==> Todo(cursors) == {}
    ensures live ==>
              head < |cursors| && cursors[head] != [] && cursors[head][0] in Todo(cursors)
                  && First(cursors, cursors[head][0])
  {
    var best := MinKeyCursor(cursors);
    live, head := best < |cursors|, 0;
    if live {
      head := HeadCursor(cursors, best);
      Advance(cursors, head);
    }
  }

  lemma HeadIsFirst(cursors: seq<seq<Entry>>, head: nat)
    requires ValidCursors(cursors) && head < |cursors| && cursors[head] != []
    requires forall i :: 0 <= i < |cursors| && cursors[i] != [] ==>
               cursors[head][0].key < cursors[i][0].key
               || (cursors[head][0].key == cursors[i][0].key && cursors[head][0].seqno >= cursors[i][0].seqno)
    ensures First(cursors, cursors[head][0])
  {
    var h := cursors[head][0];
    assert h in cursors[head];
    forall t | t in Todo(cursors) ensures t == h || Before(h, t) {
      var i :| 0 <= i < |cursors| && t in cursors[i];
      var a :| 0 <= a < |cursors[i]| && cursors[i][a] == t;
      if a > 0 { assert Before(cursors[i][0], cursors[i][a]); }
    }
  }

  /** The merge's account at some point of a job: `todo` is still to be read, `covers` holds the cover of
      every key begun, `drops` the keys dropped whole, `emitted` what was pushed into outputs. */
  ghost predicate Account(job: Job, inputs: set<Entry>, todo: set<Entry>, covers: map<Rank, nat>, drops: set<Rank>,
                          emitted: set<Entry>) {
    && todo <= inputs
    && (forall d, t :: d in inputs - todo && t in todo ==> Before(d, t))
    && (forall d :: d in inputs - todo ==> d.key in covers)
    && (forall d :: d in inputs - todo && Settled(job, inputs, covers, drops, d) ==> Emit(job, d) in emitted)
    && (forall f :: f in emitted ==>
          exists d :: d in inputs - todo && Settled(job, inputs, covers, drops, d) && f == Emit(job, d))
    && (forall k :: k in drops ==> k in covers)
    && (forall k :: k in covers ==> (k in drops <==> Droppable(job, inputs, k)))
  }

  /** The key's newest version lets it be dropped. */
  ghost predicate Droppable(job: Job, inputs: set<Entry>, k: Rank) {
    exists e :: Newest(inputs, k, MAX_SEQ, e) && MayDropKey(job, e)
  }

  /** The retention rule says `d` stays. */
  ghost predicate Settled(job: Job, inputs: set<Entry>, covers: map<Rank, nat>, drops: set<Rank>, d: Entry) {
    d.key in covers && Kept(job, inputs, covers[d.key], d.key in drops, d)
  }

  /** The covers are sound, and exact away from the inexact ranges. */
  ghost predicate CoversSound(job: Job, stream: seq<Rdel>, inexact: seq<Range>, covers: map<Rank, nat>) {
    forall k :: k in covers ==>
      covers[k] <= SettledCover(job, stream, k) && (!InRanges(inexact, k) ==> covers[k] == SettledCover(job, stream, k))
  }

  /** Threshold `i` is served once a version at or below it that the cover does not hide was read. */
  ghost predicate ServedSoFar(job: Job, inputs: set<Entry>, todo: set<Entry>, served: seq<bool>, key: Rank,
                              cover: nat) {
    && |served| == 1 + |job.snapshots|
    && forall i :: 0 <= i < |served| ==> (served[i] <==> exists d :: ServedBy(job, inputs - todo, key, cover, i, d))
  }

  ghost predicate ServedBy(job: Job, read: set<Entry>, key: Rank, cover: nat, i: nat, d: Entry)
    requires i <= |job.snapshots|
  {
    d in read && d.key == key && cover <= d.seqno <= Threshold(job, i)
  }

  predicate Unserved(job: Job, served: seq<bool>, seqno: nat)
    requires |served| == 1 + |job.snapshots|
  {
    exists i :: 0 <= i < |served| && !served[i] && seqno <= Threshold(job, i)
  }

  /** The streaming decision is the retention rule. */
  lemma UnservedIsServing(job: Job, inputs: set<Entry>, todo: set<Entry>, served: seq<bool>, cover: nat, h: Entry)
    requires h in todo && todo <= inputs && h.seqno >= cover
    requires forall d :: d in inputs - todo ==> Before(d, h)
    requires forall t :: t in todo ==> t == h || Before(h, t)
    requires ServedSoFar(job, inputs, todo, served, h.key, cover)
    ensures Unserved(job, served, h.seqno) <==> Serves(job, inputs, h)
  {
    forall i | 0 <= i < |served| && h.seqno <= Threshold(job, i)
      ensures !served[i] <==> forall f :: f in inputs && VersionAt(f, h.key, Threshold(job, i)) ==> f.seqno <= h.seqno
    {
      if served[i] {
        var d :| ServedBy(job, inputs - todo, h.key, cover, i, d);
        assert Before(d, h) && VersionAt(d, h.key, Threshold(job, i));
      } else {
        forall f | f in inputs && VersionAt(f, h.key, Threshold(job, i)) ensures f.seqno <= h.seqno {
          if f !in todo {
            assert !ServedBy(job, inputs - todo, h.key, cover, i, f);
          }
        }
      }
    }
    if Unserved(job, served, h.seqno) {
      var i :| 0 <= i < |served| && !served[i] && h.seqno <= Threshold(job, i);
    }
  }

  /** Reading the first version and treating it as the rule says keeps the account. */
  lemma AccountStep(job: Job, inputs: set<Entry>, todo: set<Entry>, covers: map<Rank, nat>, drops: set<Rank>,
                    emitted: set<Entry>, h: Entry, after: set<Entry>)
    requires Account(job, inputs, todo, covers, drops, emitted)
    requires h in todo && h.key in covers
    requires forall t :: t in todo ==> t == h || Before(h, t)
    requires after == if Settled(job, inputs, covers, drops, h) then emitted + {Emit(job, h)} else emitted
    ensures Account(job, inputs, todo - {h}, covers, drops, after)
  {
    var left := todo - {h};
    assert forall d :: d in inputs - left ==> d == h || d in inputs - todo;
    forall f | f in after
      ensures exists d :: d in inputs - left && Settled(job, inputs, covers, drops, d) && f == Emit(job, d)
    {
      if f in emitted {
        var d :| d in inputs - todo && Settled(job, inputs, covers, drops, d) && f == Emit(job, d);
        assert d in inputs - left;
      } else {
        assert h in inputs - left;
      }
    }
  }

  /** Beginning a key that nothing was read of keeps the account. */
  lemma AccountBegin(job: Job, inputs: set<Entry>, todo: set<Entry>, covers: map<Rank, nat>, drops: set<Rank>,
                     emitted: set<Entry>, k: Rank, cover: nat, drop: bool)
    requires Account(job, inputs, todo, covers, drops, emitted)
    requires k !in covers
    requires drop <==> Droppable(job, inputs, k)
    ensures Account(job, inputs, todo, covers[k := cover], if drop then drops + {k} else drops, emitted)
  {
    var covers' := covers[k := cover];
    var drops' := if drop then drops + {k} else drops;
    forall d | d in inputs - todo
      ensures Settled(job, inputs, covers', drops', d) == Settled(job, inputs, covers, drops, d)
    {
      assert d.key in covers;
    }
    forall f | f in emitted
      ensures exists d :: d in inputs - todo && Settled(job, inputs, covers', drops', d) && f == Emit(job, d)
    {
      var d :| d in inputs - todo && Settled(job, inputs, covers, drops, d) && f == Emit(job, d);
    }
  }

  datatype KeyState = Idle | Merging | Dropping

  datatype Outcome = More | Split | Exhausted

  /** The fields of the merge that change from version to version. */
  datatype Work = Work(cursors: seq<seq<Entry>>, key: Rank, state: KeyState, served: seq<bool>, keyCover: nat,
                       out: seq<Entry>)

  /** What the proof remembers: the account, the sealed versions, the last key given to the coverage stream. */
  datatype Books = Books(covers: map<Rank, nat>, drops: set<Rank>, sealed: set<Entry>, previous: Rank)

  ghost predicate Consistent(job: Job, inputs: set<Entry>, w: Work, b: Books) {
    && ValidCursors(w.cursors)
    && Account(job, inputs, Todo(w.cursors), b.covers, b.drops, b.sealed + Points(w.out))
    && KeysInOrder(Todo(w.cursors), w.key, w.state, b.covers, b.previous)
    && KeyBooked(job, inputs, w, b)
    && OutInOrder(Todo(w.cursors), w.out, b.sealed)
  }

  /** Every key begun lies below what is still to be read, but for the current key's own versions. */
  ghost predicate KeysInOrder(todo: set<Entry>, key: Rank, state: KeyState, covers: map<Rank, nat>, previous: Rank) {
    && (forall t :: t in todo ==> previous <= t.key)
    && (forall k, t :: k in covers && t in todo ==> k < t.key || (!state.Idle? && k == key && k == t.key))
  }

  ghost predicate KeyBooked(job: Job, inputs: set<Entry>, w: Work, b: Books) {
    !w.state.Idle? ==>
      && w.key in b.covers && b.covers[w.key] == w.keyCover
      && (w.state.Dropping? <==> w.key in b.drops)
      && |w.served| == 1 + |job.snapshots|
      && (w.state.Merging? ==> ServedSoFar(job, inputs, Todo(w.cursors), w.served, w.key, w.keyCover))
  }

  /** The output being written is in table order, past the sealed ones and before what is still to be read. */
  ghost predicate OutInOrder(todo: set<Entry>, out: seq<Entry>, sealed: set<Entry>) {
    && Ordered(out)
    && (forall f, t :: f in out && t in todo ==> Before(f, t))
    && (forall f, t :: f in sealed && t in todo ==> f.key < t.key)
    && (forall f, g :: f in sealed && g in out ==> f.key < g.key)
  }

  /** Beginning the head's key keeps the books, whatever its cover turns out to be. */
  lemma BeginConsistent(job: Job, inputs: set<Entry>, w: Work, b: Books, h: Entry, served: seq<bool>)
    requires Consistent(job, inputs, w, b) && InRangeSeqs(inputs)
    requires h in Todo(w.cursors) && First(w.cursors, h) && (w.state.Idle? || w.key != h.key)
    requires |served| == 1 + |job.snapshots| && forall i :: 0 <= i < |served| ==> !served[i]
    ensures h.key !in b.covers && b.previous <= h.key
    ensures forall cover: nat :: Consistent(job, inputs, Begun(job, w, h, served, cover), BegunBooks(job, b, h, cover))
  {
    var todo := Todo(w.cursors);
    var drop := MayDropKey(job, h);
    forall f | f in inputs && VersionAt(f, h.key, MAX_SEQ) ensures f == h || f.seqno < h.seqno {
      assert f !in todo ==> f.key in b.covers;
    }
    assert Newest(inputs, h.key, MAX_SEQ, h);
    assert drop <==> Droppable(job, inputs, h.key);
    forall cover: nat ensures Consistent(job, inputs, Begun(job, w, h, served, cover), BegunBooks(job, b, h, cover)) {
      AccountBegin(job, inputs, todo, b.covers, b.drops, b.sealed + Points(w.out), h.key, cover, drop);
      forall i, d | 0 <= i < |served| ensures !ServedBy(job, inputs - todo, h.key, cover, i, d) {
        assert d in inputs - todo ==> d.key in b.covers;
      }
    }
  }

  function Begun(job: Job, w: Work, h: Entry, served: seq<bool>, cover: nat): Work {
    w.(key := h.key, state := if MayDropKey(job, h) then Dropping else Merging, served := served, keyCover := cover)
  }

  function BegunBooks(job: Job, b: Books, h: Entry, cover: nat): Books {
    b.(covers := b.covers[h.key := cover],
       drops := if MayDropKey(job, h) then b.drops + {h.key} else b.drops,
       previous := h.key)
  }

  /** The state after the head version was taken: pushed when `emit`, and read past. */
  function Taken(job: Job, w: Work, head: nat, emit: bool, served: seq<bool>): Work
    requires head < |w.cursors| && w.cursors[head] != []
  {
    w.(cursors := w.cursors[head := w.cursors[head][1..]],
       served := if emit then served else w.served,
       out := if emit then w.out + [Emit(job, w.cursors[head][0])] else w.out)
  }

  lemma TakeConsistent(job: Job, inputs: set<Entry>, w: Work, b: Books, head: nat, emit: bool, served: seq<bool>)
    requires Consistent(job, inputs, w, b)
    requires head < |w.cursors| && w.cursors[head] != [] && First(w.cursors, w.cursors[head][0])
    requires !w.state.Idle? && w.key == w.cursors[head][0].key
    requires |served| == |w.served| == 1 + |job.snapshots|
    requires emit <==> w.state.Merging? && w.cursors[head][0].seqno >= w.keyCover
                       && Unserved(job, w.served, w.cursors[head][0].seqno)
    requires forall i :: 0 <= i < |served| ==>
               (served[i] <==> w.served[i] || w.cursors[head][0].seqno <= Threshold(job, i))
    ensures Consistent(job, inputs, Taken(job, w, head, emit, served), b)
  {
    var h := w.cursors[head][0];
    var todo := Todo(w.cursors);
    var t := Taken(job, w, head, emit, served);
    Advance(w.cursors, head);
    if w.state.Merging? && h.seqno >= w.keyCover {
      UnservedIsServing(job, inputs, todo, w.served, w.keyCover, h);
    }
    assert emit <==> Settled(job, inputs, b.covers, b.drops, h);
    assert b.sealed + Points(t.out)
           == if emit then b.sealed + Points(w.out) + {Emit(job, h)} else b.sealed + Points(w.out);
    AccountStep(job, inputs, todo, b.covers, b.drops, b.sealed + Points(w.out), h, b.sealed + Points(t.out));
    if w.state.Merging? {
      ServedStep(job, inputs, todo, w.served, w.keyCover, h, t.served);
    }
    OutStep(job, todo, w.out, b.sealed, h, emit);
  }

  lemma OutStep(job: Job, todo: set<Entry>, out: seq<Entry>, sealed: set<Entry>, h: Entry, emit: bool)
    requires OutInOrder(todo, out, sealed) && h in todo
    requires forall t :: t in todo ==> t == h || Before(h, t)
    ensures OutInOrder(todo - {h}, if emit then out + [Emit(job, h)] else out, sealed)
  {
    if emit {
      var next := out + [Emit(job, h)];
      forall i, j | 0 <= i < j < |next| ensures Before(next[i], next[j]) {
        if j == |out| { assert next[i] in out; }
      }
    }
  }

  /** Whether some unserved threshold covers `seqno`. */
  method Wanted(job: Job, served: seq<bool>, seqno: nat) returns (emit: bool)
    requires |served| == 1 + |job.snapshots|
    ensures emit <==> Unserved(job, served, seqno)
  {
    emit := false;
    var i := 0;
    while i < 1 + |job.snapshots|
      invariant 0 <= i <= 1 + |job.snapshots|
      invariant forall j :: 0 <= j < i ==> served[j] || seqno > Threshold(job, j)
    {
      if !served[i] && seqno <= Threshold(job, i) {
        return true;
      }
      i := i + 1;
    }
  }

  /** Marks every threshold the emitted version satisfies. */
  method Serve(job: Job, served: seq<bool>, seqno: nat) returns (next: seq<bool>)
    requires |served| == 1 + |job.snapshots|
    ensures |next| == |served|
    ensures forall i :: 0 <= i < |next| ==> (next[i] <==> served[i] || seqno <= Threshold(job, i))
  {
    next := served;
    var i := 0;
    while i < 1 + |job.snapshots|
      invariant 0 <= i <= 1 + |job.snapshots| == |next|
      invariant forall j :: 0 <= j < |next| ==> (next[j] <==> served[j] || (j < i && seqno <= Threshold(job, j)))
    {
      if seqno <= Threshold(job, i) {
        next := next[i := true];
      }
      i := i + 1;
    }
  }

  /** Emits or skips the head version of the current key, and reads past it. */
  method TakeHead(job: Job, w: Work, head: nat, ghost inputs: set<Entry>, ghost b: Books) returns (r: Work, emit: bool)
    requires Consistent(job, inputs, w, b) && head < |w.cursors| && w.cursors[head] != []
    requires First(w.cursors, w.cursors[head][0]) && !w.state.Idle? && w.key == w.cursors[head][0].key
    ensures Consistent(job, inputs, r, b) && Todo(r.cursors) < Todo(w.cursors)
    ensures emit ==> r.out != []
  {
    var h := w.cursors[head][0];
    emit := false;
    if !w.state.Dropping? && h.seqno >= w.keyCover {
      emit := Wanted(job, w.served, h.seqno);
    }
    var next := Serve(job, w.served, h.seqno);
    TakeConsistent(job, inputs, w, b, head, emit, next);
    Advance(w.cursors, head);
    r := w.(cursors := w.cursors[head := w.cursors[head][1..]]);
    if emit {
      r := r.(out := r.out + [Emit(job, h)], served := next);
    }
    assert r == Taken(job, w, head, emit, next);
  }

  class Merge {
    const job: Job
    const coverage: CoverStream
    var w: Work
    ghost const inputs: set<Entry>
    ghost var books: Books

    ghost predicate Valid()
      reads this, coverage, coverage.merger
    {
      && Streaming()
      && job.WellFormed() && InRangeSeqs(inputs) && Consistent(job, inputs, w, books)
    }

    /** The coverage stream stands at the last key begun, and the covers taken from it are right. */
    ghost predicate Streaming()
      reads this, coverage, coverage.merger
    {
      && coverage.Valid() && coverage.oldest == job.oldest
      && coverage.TrackedAt(books.previous)
      && CoversSound(job, coverage.stream, coverage.inexact, books.covers)
      && (Few(coverage.stream, job.oldest) ==> coverage.inexact == [])
    }

    constructor (job: Job, coverage: CoverStream, cursors: seq<seq<Entry>>, ghost lowest: Rank)
      requires job.WellFormed() && ValidCursors(cursors) && InRangeSeqs(Todo(cursors))
      requires coverage.Valid() && coverage.oldest == job.oldest && coverage.TrackedAt(lowest) && coverage.inexact == []
      requires forall t :: t in Todo(cursors) ==> lowest <= t.key
      ensures Valid() && this.job == job && this.coverage == coverage && w.cursors == cursors
      ensures inputs == Todo(cursors) && w.out == [] && books == Books(map[], {}, {}, lowest) && w.state.Idle?
    {
      this.job, this.coverage := job, coverage;
      w := Work(cursors, 0.0, Idle, [], 0, []);
      inputs, books := Todo(cursors), Books(map[], {}, {}, lowest);
    }

    /** Moves the coverage stream to `k` and books its cover. */
    method BookCover(k: Rank, ghost drop: bool) returns (cover: nat)
      requires Streaming() && books.previous <= k && k !in books.covers
      modifies this`books, coverage, coverage.merger
      ensures Streaming()
      ensures books == old(books).(covers := old(books).covers[k := cover],
                                  drops := if drop then old(books).drops + {k} else old(books).drops, previous := k)
      ensures Widened(old(coverage.inexact), coverage.inexact)
    {
      cover := coverage.CoverKey(k, books.previous);
      CoversBegin(job, coverage.stream, old(coverage.inexact), coverage.inexact, books.covers, k, cover);
      books := books.(covers := books.covers[k := cover],
                      drops := if drop then books.drops + {k} else books.drops,
                      previous := k);
    }

    /** Starts the key of the head version: fresh thresholds, the drop decision, and the key's cover. */
    method BeginKey(h: Entry)
      requires Valid() && h in Todo(w.cursors) && First(w.cursors, h)
      requires w.state.Idle? || w.key != h.key
      modifies this`w, this`books, coverage, coverage.merger
      ensures Valid() && w.key == h.key && !w.state.Idle? && w.cursors == old(w).cursors
      ensures Widened(old(coverage.inexact), coverage.inexact)
      ensures Later(old(books), books)
    {
      var unserved := seq(1 + |job.snapshots|, _ => false);
      var drop := MayDropKey(job, h);
      BeginConsistent(job, inputs, w, books, h, unserved);
      var cover := BookCover(h.key, drop);
      assert books == BegunBooks(job, old(books), h, cover);
      w := Begun(job, w, h, unserved, cover);
    }

    /** One turn of the merge loop: the next version, unless every input is read or the output ends here.
        Whether a push seals a block, and whether a nonempty output is full at a key boundary, is up
        to the table writer: any answer is allowed. */
    method Turn() returns (outcome: Option<Outcome>)
      requires Valid()
      modifies this`w, this`books, coverage, coverage.merger
      ensures Valid() && Widened(old(coverage.inexact), coverage.inexact) && Later(old(books), books)
      ensures outcome == Some(Exhausted) ==> Todo(w.cursors) == {} && w.state.Idle?
      ensures outcome == Some(Split) ==> w.state.Idle? && w.out != [] && Todo(w.cursors) != {}
      ensures if outcome == None || outcome == Some(More) then Todo(w.cursors) < old(Todo(w.cursors))
              else w.cursors == old(w).cursors && w.out == old(w).out
    {
      var live, head := PickHead(w.cursors);
      if !live {
        IdleBetweenKeys(job, inputs, w, books);
        w := w.(state := Idle);
        return Some(Exhausted);
      }
      var h := w.cursors[head][0];
      if w.state.Idle? || w.key != h.key {
        var full: bool := *;
        if w.out != [] && full {
          LeftTheKey(job, inputs, w, books, h);
          w := w.(state := Idle);
          return Some(Split);
        }
        BeginKey(h);
      }
      var pushed := Take(head);
      var blockSealed: bool := *;
      return if pushed && blockSealed then Some(More) else None;
    }

    method Take(head: nat) returns (pushed: bool)
      requires Valid() && head < |w.cursors| && w.cursors[head] != []
      requires First(w.cursors, w.cursors[head][0]) && !w.state.Idle? && w.key == w.cursors[head][0].key
      modifies this`w
      ensures Valid() && Todo(w.cursors) < old(Todo(w.cursors))
    {
      var next;
      next, pushed := TakeHead(job, w, head, inputs, books);
      w := next;
    }

    /** The output is closed; the next one starts empty. */
    method CloseOutput() returns (entries: seq<Entry>)
      requires Valid() && w.state.Idle?
      modifies this`w, this`books
      ensures Valid() && w == old(w).(out := []) && entries == old(w).out
      ensures books == old(books).(sealed := old(books).sealed + Points(entries))
    {
      entries := w.out;
      SealConsistent(job, inputs, w, books);
      w := w.(out := []);
      books := books.(sealed := books.sealed + Points(entries));
    }

    /** `merge_step`: one bounded quantum of the merge. */
    method MergeStep() returns (outcome: Outcome)
      requires Valid()
      modifies this`w, this`books, coverage, coverage.merger
      ensures Valid() && Widened(old(coverage.inexact), coverage.inexact) && Later(old(books), books)
      ensures outcome.Exhausted? ==> Todo(w.cursors) == {} && w.state.Idle?
      ensures outcome.Split? ==> w.state.Idle? && w.out != [] && Todo(w.cursors) != {}
      ensures outcome.More? ==> Todo(w.cursors) < old(Todo(w.cursors))
      ensures Todo(w.cursors) < old(Todo(w.cursors)) || (Todo(w.cursors) == old(Todo(w.cursors)) && w.out == old(w).out)
    {
      while true
        invariant Valid() && Widened(old(coverage.inexact), coverage.inexact) && Later(old(books), books)
        invariant Todo(w.cursors) < old(Todo(w.cursors)) || w == old(w)
        decreases Todo(w.cursors)
      {
        var r := Turn();
        if r.Some? {
          return r.value;
        }
      }
    }
  }

  /** Between keys the output can be sealed: its versions join the sealed ones. */
  lemma SealConsistent(job: Job, inputs: set<Entry>, w: Work, b: Books)
    requires Consistent(job, inputs, w, b) && w.state.Idle?
    ensures Consistent(job, inputs, w.(out := []), b.(sealed := b.sealed + Points(w.out)))
    ensures forall f :: f in w.out ==> f.key in b.covers && exists d :: d in inputs && d.key == f.key
    ensures forall d :: d in inputs - Todo(w.cursors) ==> d.key in b.covers
    ensures forall d, t :: d in inputs - Todo(w.cursors) && t in Todo(w.cursors) ==> d.key < t.key
  {
    var todo := Todo(w.cursors);
    forall f | f in w.out ensures f.key in b.covers && exists d :: d in inputs && d.key == f.key {
      assert f in b.sealed + Points(w.out);
      var d :| d in inputs - todo && Settled(job, inputs, b.covers, b.drops, d) && f == Emit(job, d);
    }
    assert b.sealed + Points(w.out) + Points([]) == b.sealed + Points(w.out);
    forall d, t | d in inputs - todo && t in todo ensures d.key < t.key {
      assert d.key in b.covers;
    }
  }

  lemma CoversBegin(job: Job, stream: seq<Rdel>, was: seq<Range>, now: seq<Range>, covers: map<Rank, nat>, k: Rank,
                    cover: nat)
    requires CoversSound(job, stream, was, covers) && Widened(was, now) && k !in covers
    requires cover <= SettledCover(job, stream, k)
    requires !InRanges(now, k) ==> cover == SettledCover(job, stream, k)
    ensures CoversSound(job, stream, now, covers[k := cover])
  {}

  /** The account of a later point of the same job. */
  ghost predicate Later(a: Books, b: Books) {
    && (forall k :: k in a.covers ==> k in b.covers && b.covers[k] == a.covers[k])
    && a.drops <= b.drops && a.sealed == b.sealed
    && (forall k :: k in a.covers ==> (k in b.drops <==> k in a.drops))
  }

  lemma IdleBetweenKeys(job: Job, inputs: set<Entry>, w: Work, b: Books)
    requires Consistent(job, inputs, w, b)
    requires w.state.Idle? || forall t :: t in Todo(w.cursors) ==> t.key != w.key
    ensures Consistent(job, inputs, w.(state := Idle), b)
  {}

  lemma LeftTheKey(job: Job, inputs: set<Entry>, w: Work, b: Books, h: Entry)
    requires Consistent(job, inputs, w, b) && h in Todo(w.cursors) && First(w.cursors, h)
    requires w.state.Idle? || w.key != h.key
    ensures Consistent(job, inputs, w.(state := Idle), b)
  {
    if !w.state.Idle? {
      assert w.key in b.covers;
      assert w.key < h.key;
    }
    IdleBetweenKeys(job, inputs, w, b);
  }

  lemma ServedStep(job: Job, inputs: set<Entry>, todo: set<Entry>, served: seq<bool>, cover: nat, h: Entry,
                   next: seq<bool>)
    requires ServedSoFar(job, inputs, todo, served, h.key, cover) && h in todo && todo <= inputs
    requires |next| == |served|
    requires forall i :: 0 <= i < |next| ==> (next[i] <==> served[i] || cover <= h.seqno <= Threshold(job, i))
    ensures ServedSoFar(job, inputs, todo - {h}, next, h.key, cover)
  {
    var before, after := inputs - todo, inputs - (todo - {h});
    assert after == before + {h};
    forall i | 0 <= i < |next| ensures next[i] <==> exists d :: ServedBy(job, after, h.key, cover, i, d) {
      if served[i] {
        var d :| ServedBy(job, before, h.key, cover, i, d);
        assert ServedBy(job, after, h.key, cover, i, d);
      }
      if cover <= h.seqno <= Threshold(job, i) {
        assert ServedBy(job, after, h.key, cover, i, h);
      }
      if d :| ServedBy(job, after, h.key, cover, i, d) && d != h {
        assert ServedBy(job, before, h.key, cover, i, d);
      }
    }
  }
}
