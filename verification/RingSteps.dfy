/** What each atomic operation of the ring does, said of the ring with unbounded tickets (src/ring.rs): the decisions
    taken on 31-bit words are the right ones, and none is left out. */
module RingSteps {
  import opened Keys
  import opened Admission
  import opened Ring
  import opened RingRuns

  /** Ticket `t` is claimed, and neither published nor lost. */
  predicate Pending(a: Admission, t: nat) {
    t < a.head && !Resolved(a, t)
  }

  /** Only writer `w` moved, and the ring is `ring`. */
  ghost predicate WriterMoved(s: State, w: nat, to: Writer, ring: Admission, u: State) {
    && w < |s.writers| && u.writers == s.writers[w := to] && u.ring == ring
    && u.n == s.n && u.drainer == s.drainer && u.host == s.host && u.output == s.output
  }

  /** Only the drainer moved, and the ring is `ring`. */
  ghost predicate DrainerMoved(s: State, to: Drainer, ring: Admission, u: State) {
    && u.drainer == to && u.ring == ring && u.n == s.n && u.writers == s.writers && u.host == s.host
    && u.refused == s.refused
  }

  // Claiming.

  /** A claim starts from the head. */
  lemma LoadExactly(s: State, w: nat)
    requires Enabled(s, LoadHead(w))
    ensures WriterMoved(s, w, Checking(s.head, s.ring.head), s.ring, Apply(s, LoadHead(w)))
  {}

  /** A claim that read the head finds its slot free exactly when the ring has room. */
  lemma CheckExactly(s: State, w: nat)
    requires Inv(s) && Timely(s) && Enabled(s, CheckGate(w)) && s.writers[w].ticket == s.ring.head
    ensures var me := s.writers[w];
            WriterMoved(s, w, if Holds(s.n, s.ring, Free(s.ring.head)) then Swapping(me.word, me.ticket) else Idle,
                        s.ring, Apply(s, CheckGate(w)))
  {
    assert WriterOk(s.n, s.cells, s.ring, s.writers[w]);
    HeadGate(s);
  }

  /** A claim wins exactly when its ticket is still the head, unless the exchange fails for no reason. */
  lemma ClaimExactly(s: State, w: nat, spurious: bool)
    requires Inv(s) && Timely(s) && Enabled(s, ClaimSwap(w, spurious))
    ensures var me := s.writers[w];
            var won := me.ticket == s.ring.head && !spurious;
            WriterMoved(s, w, if won then Holding(me.word, me.ticket) else Idle,
                        if won then s.ring.(head := s.ring.head + 1) else s.ring, Apply(s, ClaimSwap(w, spurious)))
  {
    var me := s.writers[w];
    assert WriterOk(s.n, s.cells, s.ring, me);
    if s.head == me.word { SameWord(s.ring.head, me.ticket); }
  }

  // Publishing.

  /** A holder starts with its payload's first word, stores one after the other, and goes on to publish after the
      last. */
  lemma StoreExactly(s: State, w: nat, p: Payload)
    requires Inv(s)
    ensures Enabled(s, Begin(w, p)) ==>
              WriterMoved(s, w, Writing(s.writers[w].word, s.writers[w].ticket, p, 0), s.ring, Apply(s, Begin(w, p)))
    ensures Enabled(s, StoreWord(w)) ==>
              var me := s.writers[w];
              WriterMoved(s, w, if me.i + 1 < CELLS then Writing(me.word, me.ticket, me.payload, me.i + 1)
                          else Publishing(me.word, me.ticket, me.payload), s.ring, Apply(s, StoreWord(w)))
  {}

  /** A publish wins exactly when its ticket is still pending: then the payload is published, and nothing else
      changes. */
  lemma PublishExactly(s: State, w: nat, spurious: bool)
    requires Inv(s) && Enabled(s, PublishSwap(w, spurious))
    ensures var me := s.writers[w];
            var won := Pending(s.ring, me.ticket) && !spurious;
            var u := Apply(s, PublishSwap(w, spurious));
            && u.ring.published == (if won then s.ring.published[me.ticket := me.payload] else s.ring.published)
            && u.ring.dead == s.ring.dead && u.ring.head == s.ring.head && u.ring.cursor == s.ring.cursor
            && WriterMoved(s, w, if won then RingRuns.Finished(me.word, me.ticket, true)
                           else Rereading(me.word, me.ticket, me.payload), u.ring, u)
  {
    OwnedGate(s, w);
  }

  /** An owner's slot is free for its ticket while the ticket is pending; else it is fenced. */
  lemma OwnedGate(s: State, w: nat)
    requires Inv(s) && w < |s.writers| && Owns(s.writers[w])
    ensures var me := s.writers[w];
            && me.word % s.n == me.ticket % s.n < s.n
            && (s.gates[me.word % s.n] == me.word <==> Pending(s.ring, me.ticket))
            && (s.gates[me.word % s.n] == me.word + FENCED_BIT <==> !Pending(s.ring, me.ticket))
            && (!Pending(s.ring, me.ticket) <==> me.ticket in s.ring.dead)
  {
    var me := s.writers[w];
    assert WriterOk(s.n, s.cells, s.ring, me);
    GateNear(s, me.ticket);
    assert GateSound(s.n, s.ring, me.ticket % s.n);
    FreeWord(s.n, s.ring.gates[me.ticket % s.n], me.ticket);
  }

  /** After a failed exchange a publish tries again exactly while its ticket is pending; a lost ticket is released. */
  lemma RereadExactly(s: State, w: nat)
    requires Inv(s) && Enabled(s, Reread(w))
    ensures var me := s.writers[w];
            WriterMoved(s, w, if Pending(s.ring, me.ticket) then Publishing(me.word, me.ticket, me.payload)
                        else SelfReleasing(me.word, me.ticket, me.payload), s.ring, Apply(s, Reread(w)))
  {
    OwnedGate(s, w);
  }

  /** The loser of a fence frees its slot for the next lap, unless the exchange fails for no reason, and reports the
      loss. */
  lemma SelfReleaseExactly(s: State, w: nat, spurious: bool)
    requires Inv(s) && Enabled(s, SelfRelease(w, spurious))
    ensures var me := s.writers[w];
            var u := Apply(s, SelfRelease(w, spurious));
            && WriterMoved(s, w, RingRuns.Finished(me.word, me.ticket, false), u.ring, u)
            && me.ticket in u.refused && me.ticket in s.ring.dead
            && u.ring.dead == s.ring.dead && u.ring.published == s.ring.published
            && (if spurious then u.ring == s.ring else Holds(s.n, u.ring, Free(me.ticket + s.n)))
  {
    OwnedGate(s, w);
    var me := s.writers[w];
    assert WriterOk(s.n, s.cells, s.ring, me);
    NextLap(s.n, me.ticket);
    assert s.ring.dead + {me.ticket} == s.ring.dead;
  }

  // Draining.

  /** A resting drainer starts to read exactly when the cursor's ticket is published, passes it exactly when it is lost,
      and waits exactly when it is neither. */
  lemma PollExactly(s: State)
    requires Inv(s) && Timely(s) && Enabled(s, PollLoad)
    ensures var u := Apply(s, PollLoad);
            && DrainerMoved(s, if s.ring.cursor in s.ring.published then Reading(s.cursor, s.ring.cursor, [])
                            else if s.ring.cursor in s.ring.dead then Advancing(s.cursor, s.ring.cursor, None)
                            else Resting, s.ring, u)
            && u.output == s.output
    ensures !(s.ring.cursor in s.ring.published && s.ring.cursor in s.ring.dead)
  {
    var c := s.ring.cursor;
    var k := c % s.n;
    WordSlot(s.n, c);
    SlotReached(s.n, s.ring, c);
    assert GateSound(s.n, s.ring, k);
    var g := s.ring.gates[k];
    PublishedWord(s.n, g, c);
    if c in s.ring.published {
      assert Holds(s.n, s.ring, Published(c));
    } else {
      PastExact(s.n, g, c);
      assert c < s.ring.head ==> Resolved(s.ring, c) || Holds(s.n, s.ring, Free(c));
      if c == s.ring.head && g.Fenced? { NextLap(s.n, g.ticket); }
    }
  }

  /** Once every cell is read the slot is freed for the next lap, and the payload in hand is the one published. */
  lemma ReleaseExactly(s: State)
    requires Inv(s) && Enabled(s, ReleaseStore)
    ensures var u := Apply(s, ReleaseStore);
            && s.ring.cursor in s.ring.published && s.drainer.bytes == s.ring.published[s.ring.cursor]
            && DrainerMoved(s, Advancing(s.drainer.word, s.ring.cursor, Some(s.drainer.bytes)), u.ring, u)
            && Holds(s.n, u.ring, Free(s.ring.cursor + s.n)) && u.ring.published == s.ring.published
            && u.ring.dead == s.ring.dead && u.ring.cursor == s.ring.cursor && u.ring.head == s.ring.head
            && u.output == s.output
  {
    NextLap(s.n, s.ring.cursor);
  }

  /** The cursor moves past its ticket, and what was read is handed out. */
  lemma CursorExactly(s: State)
    requires Inv(s) && Enabled(s, CursorStore)
    ensures var u := Apply(s, CursorStore);
            && DrainerMoved(s, Resting, u.ring, u) && u.ring.cursor == s.ring.cursor + 1
            && u.ring.head == s.ring.head && u.ring.published == s.ring.published && u.ring.dead == s.ring.dead
            && u.output == s.output + (if s.ring.cursor in s.ring.published
                                       then [Delivery(s.cursor, s.ring.published[s.ring.cursor])] else [])
  {}

  // Fencing and releasing.

  /** The drainer goes to fence exactly when the cursor's ticket is claimed. */
  lemma FenceLoadExactly(s: State)
    requires Inv(s) && Timely(s) && Enabled(s, FenceLoad)
    ensures DrainerMoved(s, if s.ring.cursor < s.ring.head then Fencing(s.cursor, s.ring.cursor) else Resting, s.ring,
                         Apply(s, FenceLoad)) && Apply(s, FenceLoad).output == s.output
  {
    if s.head == s.cursor { SameWord(s.ring.head, s.ring.cursor); }
  }

  /** A fence wins exactly when the ticket is still pending: then it is lost, and the cursor is to pass it. */
  lemma FenceExactly(s: State, spurious: bool)
    requires Inv(s) && Timely(s) && Enabled(s, FenceSwap(spurious))
    ensures var u := Apply(s, FenceSwap(spurious));
            var won := Pending(s.ring, s.ring.cursor) && !spurious;
            && DrainerMoved(s, if won then Advancing(s.cursor, s.ring.cursor, None) else Resting, u.ring, u)
            && u.ring.dead == (if won then s.ring.dead + {s.ring.cursor} else s.ring.dead)
            && u.ring.published == s.ring.published && u.ring.head == s.ring.head && u.ring.cursor == s.ring.cursor
            && u.output == s.output
  {
    var c := s.ring.cursor;
    GateNear(s, c);
    FreeWord(s.n, s.ring.gates[c % s.n], c);
    assert GateSound(s.n, s.ring, c % s.n);
    assert Resolved(s.ring, c) || Holds(s.n, s.ring, Free(c));
  }

  /** The host releases a dead writer's ticket exactly when its slot is still its own and nothing was published. */
  lemma HostLoadExactly(s: State, w: nat)
    requires Inv(s) && Enabled(s, HostLoad(w))
    ensures var me := s.writers[w];
            var u := Apply(s, HostLoad(w));
            && u.host == (if Holds(s.n, s.ring, Free(me.ticket)) || Holds(s.n, s.ring, Fenced(me.ticket))
                          then Storing(me.word, me.ticket) else Watching)
            && u.ring == s.ring && u.writers == s.writers && u.drainer == s.drainer && u.output == s.output
  {
    var me := s.writers[w];
    assert WriterOk(s.n, s.cells, s.ring, me);
    GateNear(s, me.ticket);
    var g := s.ring.gates[me.ticket % s.n];
    FreeWord(s.n, g, me.ticket);
    if Encode(g) == me.word + FENCED_BIT { SameWord(g.ticket, me.ticket); }
  }

  /** Its store frees the slot for the next lap, and the ticket is lost. */
  lemma HostStoreExactly(s: State)
    requires Inv(s) && Enabled(s, HostStore)
    ensures var t := s.host.ticket;
            var u := Apply(s, HostStore);
            && u.host.Watching? && u.ring.dead == s.ring.dead + {t} && u.ring.published == s.ring.published
            && Holds(s.n, u.ring, Free(t + s.n)) && u.writers == s.writers && u.drainer == s.drainer
  {
    NextLap(s.n, s.host.ticket);
  }
}
