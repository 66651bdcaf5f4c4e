/** The ring never gets stuck (src/ring.rs): from every state of every run the drainer alone can reach the head, and
    a writer that finds room can publish. */
module RingProgress {
  import opened Admission
  import opened Ring
  import opened RingRuns
  import opened RingSteps

  lemma {:induction false} RunConcat(s: State, a: seq<Event>, m: State, b: seq<Event>, u: State)
    requires Run(s, a, m) && Run(m, b, u)
    ensures Run(s, a + b, u)
    decreases |a|
  {
    if a == [] {
      assert a + b == b;
    } else {
      RunConcat(Apply(s, a[0]), a[1..], m, b, u);
      assert (a + b)[1..] == a[1..] + b;
    }
  }

  lemma RunOne(s: State, e: Event)
    requires Timely(s) && Enabled(s, e)
    ensures Run(s, [e], Apply(s, e))
  {
    assert [e][1..] == [];
  }

  /** A run's next step. */
  lemma RunNext(s: State, a: seq<Event>, m: State, e: Event)
    requires Run(s, a, m) && Timely(m) && Enabled(m, e)
    ensures Run(s, a + [e], Apply(m, e))
  {
    RunOne(m, e);
    RunConcat(s, a, m, [e], Apply(m, e));
  }

  /** A new ring is within its timing bounds. */
  lemma StartsTimely(s: State)
    requires Initial(s)
    ensures Inv(s) && Timely(s)
  {
    InitialInv(s);
  }

  /** `u` is `s` but for the drainer's own work: the cursor moved on, and tickets were fenced. */
  ghost predicate DrainedOn(s: State, u: State) {
    && Inv(u) && Timely(u) && u.n == s.n && u.writers == s.writers && u.ring.head == s.ring.head
    && u.ring.published == s.ring.published && s.ring.cursor <= u.ring.cursor && s.ring.dead <= u.ring.dead
  }

  /** A step of the drainer that leaves head and writers alone stays in time. */
  lemma StaysTimely(s: State, u: State)
    requires Timely(s) && u.n == s.n && u.writers == s.writers && u.ring.head == s.ring.head
             && s.ring.cursor <= u.ring.cursor
    ensures Timely(u)
  {}

  /** The cells that are left are read. */
  lemma {:induction false} ReadAll(s: State) returns (events: seq<Event>, u: State)
    requires Inv(s) && Timely(s) && s.drainer.Reading?
    ensures DrainedOn(s, u) && u.ring == s.ring && u.output == s.output
    ensures u.drainer.Reading? && |u.drainer.bytes| == 4 * CELLS && u.drainer.ticket == s.drainer.ticket
    ensures Run(s, events, u)
    decreases 4 * CELLS - |s.drainer.bytes|
  {
    assert |s.drainer.bytes| <= 4 * CELLS;
    if |s.drainer.bytes| == 4 * CELLS {
      events, u := [], s;
    } else {
      StepKeeps(s, ReadWord);
      var m := Apply(s, ReadWord);
      var more;
      more, u := ReadAll(m);
      RunOne(s, ReadWord);
      RunConcat(s, [ReadWord], m, more, u);
      events := [ReadWord] + more;
    }
  }

  /** A drainer that reads takes the payload and frees the slot. */
  lemma TakePayload(s: State) returns (events: seq<Event>, u: State)
    requires Inv(s) && Timely(s) && s.drainer.Reading?
    ensures DrainedOn(s, u) && u.drainer.Advancing? && u.ring.cursor == s.ring.cursor && u.ring.dead == s.ring.dead
    ensures u.output == s.output && u.cursor == s.cursor
    ensures Run(s, events, u)
  {
    hide Inv, Timely, Run, Apply;
    var a, b := ReadAll(s);
    ShapedIf(b);
    ReleaseExactly(b);
    StepKeeps(b, ReleaseStore);
    u := Apply(b, ReleaseStore);
    RunNext(s, a, b, ReleaseStore);
    StaysTimely(b, u);
    SameCursor(u, s);
    events := a + [ReleaseStore];
  }

  /** A resting drainer at a published ticket hands it out and moves on; a lost one it passes. */
  lemma DrainOne(s: State) returns (events: seq<Event>, u: State)
    requires Inv(s) && Timely(s) && s.drainer.Resting? && Resolved(s.ring, s.ring.cursor)
    ensures DrainedOn(s, u) && u.drainer.Resting? && u.ring.cursor == s.ring.cursor + 1
    ensures u.ring.dead == s.ring.dead
    ensures u.output == s.output + (if s.ring.cursor in s.ring.published
                                    then [Delivery(s.cursor, s.ring.published[s.ring.cursor])] else [])
    ensures Run(s, events, u)
  {
    hide Inv, Timely, Run, Apply;
    ShapedIf(s);
    PollExactly(s);
    StepKeeps(s, PollLoad);
    var a := Apply(s, PollLoad);
    RunOne(s, PollLoad);
    StaysTimely(s, a);
    SameCursor(a, s);
    if s.ring.cursor in s.ring.published {
      var more, b := TakePayload(a);
      RunConcat(s, [PollLoad], a, more, b);
      u := PassOne(s, [PollLoad] + more, b);
      events := [PollLoad] + more + [CursorStore];
    } else {
      u := PassOne(s, [PollLoad], a);
      events := [PollLoad] + [CursorStore];
    }
  }

  lemma PassOne(s: State, events: seq<Event>, m: State) returns (u: State)
    requires Inv(m) && Timely(m) && m.drainer.Advancing? && Run(s, events, m)
    ensures DrainedOn(m, u) && u.drainer.Resting? && u.ring.cursor == m.ring.cursor + 1 && u.ring.dead == m.ring.dead
    ensures u.output == m.output + (if m.ring.cursor in m.ring.published
                                    then [Delivery(m.cursor, m.ring.published[m.ring.cursor])] else [])
    ensures Run(s, events + [CursorStore], u)
  {
    hide Inv, Timely, Run, Apply;
    ShapedIf(m);
    CursorExactly(m);
    StepKeeps(m, CursorStore);
    u := Apply(m, CursorStore);
    RunNext(s, events, m, CursorStore);
    StaysTimely(m, u);
  }

  lemma ShapedIf(s: State)
    requires Inv(s)
    ensures Shaped(s)
  {}

  lemma SameCursor(s: State, u: State)
    requires Inv(s) && Inv(u) && s.ring.cursor == u.ring.cursor
    ensures s.cursor == u.cursor
  {}

  /** The drainer gives up on a ticket nobody publishes, and moves on. */
  lemma FenceOne(s: State) returns (events: seq<Event>, u: State)
    requires Inv(s) && Timely(s) && s.drainer.Resting? && Pending(s.ring, s.ring.cursor)
    ensures DrainedOn(s, u) && u.drainer.Resting? && u.ring.cursor == s.ring.cursor + 1
    ensures s.ring.cursor in u.ring.dead && u.output == s.output
    ensures Run(s, events, u)
  {
    hide Inv, Timely, Run, Apply;
    ShapedIf(s);
    FenceLoadExactly(s);
    StepKeeps(s, FenceLoad);
    var a := Apply(s, FenceLoad);
    RunOne(s, FenceLoad);
    StaysTimely(s, a);
    ShapedIf(a);
    FenceExactly(a, false);
    StepKeeps(a, FenceSwap(false));
    var b := Apply(a, FenceSwap(false));
    RunNext(s, [FenceLoad], a, FenceSwap(false));
    StaysTimely(a, b);
    u := PassOne(s, [FenceLoad] + [FenceSwap(false)], b);
    events := [FenceLoad] + [FenceSwap(false)] + [CursorStore];
  }

  /** Whatever the drainer is at, it can finish it. */
  lemma Return(s: State) returns (events: seq<Event>, u: State)
    requires Inv(s) && Timely(s)
    ensures DrainedOn(s, u) && u.drainer.Resting?
    ensures Run(s, events, u)
  {
    match s.drainer
    case Resting =>
      events, u := [], s;
    case Advancing(_, _, _) =>
      u := PassOne(s, [], s);
      events := [] + [CursorStore];
    case Fencing(_, _) =>
      StepKeeps(s, FenceSwap(true));
      u := Apply(s, FenceSwap(true));
      RunOne(s, FenceSwap(true));
      StaysTimely(s, u);
      events := [FenceSwap(true)];
    case Reading(_, _, _) =>
      var a, b := TakePayload(s);
      u := PassOne(s, a, b);
      events := a + [CursorStore];
  }

  /** A resting drainer reaches the head. */
  lemma {:induction false} DrainToHead(s: State) returns (events: seq<Event>, u: State)
    requires Inv(s) && Timely(s) && s.drainer.Resting?
    ensures DrainedOn(s, u) && u.ring.cursor == u.ring.head
    ensures Run(s, events, u)
    decreases s.ring.head - s.ring.cursor
  {
    hide Timely, Apply;
    if s.ring.cursor == s.ring.head {
      events, u := [], s;
    } else {
      var a, m;
      if Resolved(s.ring, s.ring.cursor) {
        a, m := DrainOne(s);
      } else {
        a, m := FenceOne(s);
      }
      var b;
      b, u := DrainToHead(m);
      RunConcat(s, a, m, b, u);
      events := a + b;
    }
  }

  /** No run leaves the drainer stuck: by its own steps alone it can pass every ticket claimed so far, and by then every
      one that was published has been handed out. */
  lemma NeverStuck(s: State, events: seq<Event>, m: State) returns (more: seq<Event>, u: State)
    requires Initial(s) && Run(s, events, m) && Timely(m)
    ensures Run(m, more, u) && u.writers == m.writers && u.ring.cursor == u.ring.head == m.ring.head
    ensures forall t :: t in m.ring.published ==> Record(t, m.ring.published[t]) in u.ring.drained
    ensures OutputOk(u.output, u.ring.drained)
  {
    hide Run, Timely;
    InitialInv(s);
    RunKeeps(s, events, m);
    var a, b := Return(m);
    var c;
    c, u := DrainToHead(b);
    RunConcat(m, a, b, c, u);
    more := a + c;
    RunGrows(s, events, m);
    DueExact(u.ring.published, u.ring.base, u.ring.cursor);
    RunGrows(m, more, u);
  }

  // Writing.

  /** Fewer tickets are claimed than there are slots, and no fenced ticket holds its slot back. */
  ghost predicate HasRoom(s: State) {
    s.ring.head < s.ring.cursor + s.n && forall i :: 0 <= i < |s.ring.gates| ==> !s.ring.gates[i].Fenced?
  }

  /** Then the head's slot is free. */
  lemma RoomIsFree(s: State)
    requires Inv(s) && HasRoom(s)
    ensures Holds(s.n, s.ring, Free(s.ring.head))
  {
    SlotReached(s.n, s.ring, s.ring.head);
    assert GateSound(s.n, s.ring, s.ring.head % s.n);
  }

  /** One more claim stays within the timing bounds. */
  ghost predicate TimelyNext(s: State) {
    && s.ring.head + 1 + s.n <= s.ring.cursor + HALF
    && forall w :: 0 <= w < |s.writers| && (s.writers[w].Checking? || s.writers[w].Swapping?) ==>
         s.ring.head + 1 < s.writers[w].ticket + TICKETS
  }

  /** A writer's step that leaves the ring alone stays in time. */
  lemma WriterTimely(s: State, w: nat, to: Writer, u: State)
    requires TimelyNext(s) && WriterMoved(s, w, to, s.ring, u)
    requires to.Checking? || to.Swapping? ==> to.ticket == s.ring.head
    ensures TimelyNext(u) && Timely(u)
  {}

  lemma ClaimTimely(s: State, w: nat, to: Writer, u: State)
    requires TimelyNext(s) && WriterMoved(s, w, to, s.ring.(head := s.ring.head + 1), u)
             && !to.Checking? && !to.Swapping?
    ensures Timely(u)
  {}

  /** A writer that finds room gets the head ticket. */
  lemma ClaimOne(s: State, w: nat) returns (events: seq<Event>, u: State)
    requires Inv(s) && TimelyNext(s) && HasRoom(s) && w < |s.writers| && s.writers[w].Idle?
    ensures Inv(u) && Timely(u) && u.n == s.n
    ensures u.writers == s.writers[w := Holding(s.head, s.ring.head)] && u.ring == s.ring.(head := s.ring.head + 1)
    ensures Run(s, events, u)
  {
    RoomIsFree(s);
    ShapedIf(s);
    hide Inv, Run, Apply, TimelyNext, Timely, HasRoom, WriterOk, Holds;
    WriterTimely(s, w, s.writers[w], s);
    LoadExactly(s, w);
    StepKeeps(s, LoadHead(w));
    var a := Apply(s, LoadHead(w));
    RunOne(s, LoadHead(w));
    WriterTimely(s, w, Checking(s.head, s.ring.head), a);
    ShapedIf(a);
    CheckExactly(a, w);
    StepKeeps(a, CheckGate(w));
    var b := Apply(a, CheckGate(w));
    RunNext(s, [LoadHead(w)], a, CheckGate(w));
    WriterTimely(a, w, Swapping(s.head, s.ring.head), b);
    ShapedIf(b);
    ClaimExactly(b, w, false);
    StepKeeps(b, ClaimSwap(w, false));
    u := Apply(b, ClaimSwap(w, false));
    RunNext(s, [LoadHead(w)] + [CheckGate(w)], b, ClaimSwap(w, false));
    ClaimTimely(b, w, Holding(s.head, s.ring.head), u);
    events := [LoadHead(w)] + [CheckGate(w)] + [ClaimSwap(w, false)];
  }

  /** A writer that keeps its ticket stays in time. */
  lemma OwnerTimely(s: State, w: nat, to: Writer, u: State)
    requires Timely(s) && WriterMoved(s, w, to, s.ring, u) && !to.Checking? && !to.Swapping?
    ensures Timely(u)
  {}

  /** The words of the payload that are left are stored. */
  lemma {:induction false} StoreAll(s: State, w: nat) returns (events: seq<Event>, u: State)
    requires Inv(s) && Timely(s) && w < |s.writers| && s.writers[w].Writing? && s.writers[w].i < CELLS
    ensures Inv(u) && Timely(u) && u.ring == s.ring && u.n == s.n
    ensures u.writers == s.writers[w := Publishing(s.writers[w].word, s.writers[w].ticket, s.writers[w].payload)]
    ensures Run(s, events, u)
    decreases CELLS - s.writers[w].i
  {
    assert WriterOk(s.n, s.cells, s.ring, s.writers[w]);
    ShapedIf(s);
    hide Inv, Run, Apply, Timely;
    StoreExactly(s, w, []);
    StepKeeps(s, StoreWord(w));
    var m := Apply(s, StoreWord(w));
    RunOne(s, StoreWord(w));
    OwnerTimely(s, w, m.writers[w], m);
    if s.writers[w].i + 1 == CELLS {
      events, u := [StoreWord(w)], m;
    } else {
      var more;
      more, u := StoreAll(m, w);
      RunConcat(s, [StoreWord(w)], m, more, u);
      events := [StoreWord(w)] + more;
    }
  }

  /** A writer that finds room can publish its payload under the head ticket. */
  lemma WriteOne(s: State, w: nat, p: Payload) returns (events: seq<Event>, u: State)
    requires Inv(s) && TimelyNext(s) && HasRoom(s) && w < |s.writers| && s.writers[w].Idle? && |p| == 32
    ensures u.writers == s.writers[w := RingRuns.Finished(s.head, s.ring.head, true)]
    ensures u.ring.published == s.ring.published[s.ring.head := p] && u.ring.head == s.ring.head + 1
    ensures Run(s, events, u)
  {
    hide Run, Apply, Timely, Inv;
    var t := s.ring.head;
    var a, m := ClaimOne(s, w);
    ShapedIf(m);
    StoreExactly(m, w, p);
    StepKeeps(m, Begin(w, p));
    var b := Apply(m, Begin(w, p));
    RunNext(s, a, m, Begin(w, p));
    OwnerTimely(m, w, Writing(s.head, t, p, 0), b);
    var c, d := StoreAll(b, w);
    RunConcat(s, a + [Begin(w, p)], b, c, d);
    ShapedIf(d);
    HeadUnresolved(s);
    PublishExactly(d, w, false);
    u := Apply(d, PublishSwap(w, false));
    RunNext(s, a + [Begin(w, p)] + c, d, PublishSwap(w, false));
    events := a + [Begin(w, p)] + c + [PublishSwap(w, false)];
  }

  lemma HeadUnresolved(s: State)
    requires Inv(s)
    ensures !Resolved(s.ring, s.ring.head)
  {}
}
