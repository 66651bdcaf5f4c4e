/** Every interleaving of the admission ring: writers, one drainer, one host (src/ring.rs, src/writer.rs). */
module RingRuns {
  import opened Keys
  import opened Admission
  import opened Ring

  /** Where a writer stands. `word` is what it knows of its ticket; `ticket` is the ticket itself. */
  datatype Writer =
    | Idle
    | Checking(word: nat, ticket: nat)
    | Swapping(word: nat, ticket: nat)
    | Holding(word: nat, ticket: nat)
    | Writing(word: nat, ticket: nat, payload: Payload, i: nat)
    | Publishing(word: nat, ticket: nat, payload: Payload)
    | Rereading(word: nat, ticket: nat, payload: Payload)
    | SelfReleasing(word: nat, ticket: nat, payload: Payload)
    | Finished(word: nat, ticket: nat, accepted: bool)
    | Dead(word: nat, ticket: nat)

  datatype Drainer =
    | Resting
    | Reading(word: nat, ticket: nat, bytes: Payload)
    | Advancing(word: nat, ticket: nat, out: Option<Payload>)
    | Fencing(word: nat, ticket: nat)

  datatype Host = Watching | Storing(word: nat, ticket: nat)

  /** What `poll_drain` hands out. */
  datatype Delivery = Delivery(word: nat, payload: Payload)

  datatype State = State(n: nat, head: nat, cursor: nat, gates: seq<nat>, cells: seq<seq<nat>>,
                         writers: seq<Writer>, drainer: Drainer, host: Host,
                         output: seq<Delivery>, refused: set<nat>, ring: Admission)

  /** One atomic operation. A compare-exchange may fail for no reason. */
  datatype Event =
    | LoadHead(w: nat)
    | CheckGate(w: nat)
    | ClaimSwap(w: nat, spurious: bool)
    | Begin(w: nat, payload: Payload)
    | StoreWord(w: nat)
    | PublishSwap(w: nat, spurious: bool)
    | Reread(w: nat)
    | SelfRelease(w: nat, spurious: bool)
    | Return(w: nat)
    | Die(w: nat)
    | PollLoad
    | ReadWord
    | ReleaseStore
    | CursorStore
    | FenceLoad
    | FenceSwap(spurious: bool)
    | HostLoad(w: nat)
    | HostStore

  predicate Shaped(s: State) {
    && s.n > 0 && |s.gates| == s.n && |s.cells| == s.n && |s.ring.gates| == s.n
    && forall i :: 0 <= i < s.n ==> |s.cells[i]| == CELLS
  }

  /** The writer may store to its ticket's cells and gate. */
  predicate Owns(w: Writer) {
    w.Holding? || w.Writing? || w.Publishing? || w.Rereading? || w.SelfReleasing?
  }

  predicate HasTicket(w: Writer) {
    Owns(w) || w.Finished? || w.Dead?
  }

  /** The host frees a ticket only once its writer is dead, and before the ticket space comes round to it. */
  predicate Enabled(s: State, e: Event) {
    && Shaped(s)
    && match e {
         case LoadHead(w) => w < |s.writers| && s.writers[w].Idle?
         case CheckGate(w) => w < |s.writers| && s.writers[w].Checking?
         case ClaimSwap(w, _) => w < |s.writers| && s.writers[w].Swapping?
         case Begin(w, p) => w < |s.writers| && s.writers[w].Holding? && |p| == 4 * CELLS
         case StoreWord(w) => w < |s.writers| && s.writers[w].Writing? && s.writers[w].i < CELLS
             && |s.writers[w].payload| == 4 * CELLS
         case PublishSwap(w, _) => w < |s.writers| && s.writers[w].Publishing?
         case Reread(w) => w < |s.writers| && s.writers[w].Rereading?
         case SelfRelease(w, _) => w < |s.writers| && s.writers[w].SelfReleasing?
         case Return(w) => w < |s.writers| && s.writers[w].Finished?
         case Die(w) => w < |s.writers| && HasTicket(s.writers[w])
         case PollLoad => s.drainer.Resting?
         case ReadWord => s.drainer.Reading? && |s.drainer.bytes| < 4 * CELLS
         case ReleaseStore => s.drainer.Reading? && |s.drainer.bytes| == 4 * CELLS
         case CursorStore => s.drainer.Advancing?
         case FenceLoad => s.drainer.Resting?
         case FenceSwap(_) => s.drainer.Fencing?
         case HostLoad(w) => s.host.Watching? && w < |s.writers| && s.writers[w].Dead?
                             && s.ring.head + s.n <= s.writers[w].ticket + TICKETS
         case HostStore => s.host.Storing?
       }
  }

  function Move(s: State, w: nat, to: Writer): State
    requires w < |s.writers|
  {
    s.(writers := s.writers[w := to])
  }

  function SetGate(s: State, word: nat, gate: nat): State
    requires Shaped(s)
  {
    s.(gates := s.gates[word % s.n := gate])
  }

  function Apply(s: State, e: Event): State
    requires Enabled(s, e)
  {
    match e
    case LoadHead(w) => Move(s, w, Checking(s.head, s.ring.head))
    case CheckGate(w) =>
      var me := s.writers[w];
      Move(s, w, if s.gates[me.word % s.n] == me.word then Swapping(me.word, me.ticket) else Idle)
    case ClaimSwap(w, spurious) =>
      var me := s.writers[w];
      if s.head == me.word && !spurious then
        Move(s, w, Holding(me.word, me.ticket)).(head := NextTicket(me.word), ring := Claim(s.ring))
      else Move(s, w, Idle)
    case Begin(w, p) => Move(s, w, Writing(s.writers[w].word, s.writers[w].ticket, p, 0))
    case StoreWord(w) => AfterStore(s, w)
    case PublishSwap(w, spurious) =>
      var me := s.writers[w];
      if s.gates[me.word % s.n] == me.word && !spurious then
        SetGate(Move(s, w, Finished(me.word, me.ticket, true)), me.word, PublishedGate(me.word))
        .(ring := Publish(s.n, s.ring, me.ticket, me.payload))
      else Move(s, w, Rereading(me.word, me.ticket, me.payload))
    case Reread(w) =>
      var me := s.writers[w];
      var g := s.gates[me.word % s.n];
      if g == me.word then Move(s, w, Publishing(me.word, me.ticket, me.payload))
      else if g == me.word + FENCED_BIT then Move(s, w, SelfReleasing(me.word, me.ticket, me.payload))
      else Move(s, w, Finished(me.word, me.ticket, false)).(refused := s.refused + {me.ticket})
    case SelfRelease(w, spurious) =>
      var me := s.writers[w];
      var done := Move(s, w, Finished(me.word, me.ticket, false)).(refused := s.refused + {me.ticket});
      if s.gates[me.word % s.n] == me.word + FENCED_BIT && !spurious then
        SetGate(done, me.word, ReleaseGate(s.n, me.word)).(ring := Release(s.n, s.ring, me.ticket))
      else done
    case Return(w) => Move(s, w, Idle)
    case Die(w) => Move(s, w, Dead(s.writers[w].word, s.writers[w].ticket))
    case PollLoad =>
      var g := s.gates[s.cursor % s.n];
      if g == PublishedGate(s.cursor) then s.(drainer := Reading(s.cursor, s.ring.cursor, []))
      else if GateIsPast(s.n, g, s.cursor) then s.(drainer := Advancing(s.cursor, s.ring.cursor, None))
      else s
    case ReadWord =>
      var d := s.drainer;
      s.(drainer := Reading(d.word, d.ticket, d.bytes + LittleEndian(s.cells[d.word % s.n][|d.bytes| / 4])))
    case ReleaseStore =>
      var d := s.drainer;
      SetGate(s, d.word, ReleaseGate(s.n, d.word))
      .(drainer := Advancing(d.word, d.ticket, Some(d.bytes)), ring := TakeCursor(s.n, s.ring))
    case CursorStore =>
      var d := s.drainer;
      s.(cursor := NextTicket(d.word), drainer := Resting, ring := Pass(s.ring),
         output := if d.out.Some? then s.output + [Delivery(d.word, d.out.value)] else s.output)
    case FenceLoad =>
      if s.head == s.cursor then s else s.(drainer := Fencing(s.cursor, s.ring.cursor))
    case FenceSwap(spurious) =>
      var d := s.drainer;
      if s.gates[d.word % s.n] == d.word && !spurious then
        SetGate(s, d.word, d.word + FENCED_BIT).(drainer := Advancing(d.word, d.ticket, None),
                                                 ring := Fence(s.n, s.ring))
      else s.(drainer := Resting)
    case HostLoad(w) =>
      var me := s.writers[w];
      var g := s.gates[me.word % s.n];
      if g == me.word || g == me.word + FENCED_BIT then s.(host := Storing(me.word, me.ticket)) else s
    case HostStore =>
      var h := s.host;
      SetGate(s, h.word, ReleaseGate(s.n, h.word)).(host := Watching, ring := Release(s.n, s.ring, h.ticket))
  }

  function AfterStore(s: State, w: nat): State
    requires Enabled(s, StoreWord(w))
  {
    var me := s.writers[w];
    var k := me.word % s.n;
    var row: seq<nat> := s.cells[k][me.i := Pack(me.payload, me.i)];
    Move(s, w, if me.i + 1 == CELLS then Publishing(me.word, me.ticket, me.payload)
         else Writing(me.word, me.ticket, me.payload, me.i + 1))
    .(cells := s.cells[k := row])
  }

  /** What the ring asks of its host: the backlog stays under half the ticket space, and no claim
      stalls while the whole ticket space is handed out. */
  predicate Timely(s: State) {
    && s.ring.head + s.n <= s.ring.cursor + HALF
    && forall w :: 0 <= w < |s.writers| && (s.writers[w].Checking? || s.writers[w].Swapping?) ==>
         s.ring.head < s.writers[w].ticket + TICKETS
  }

  // The invariant.

  ghost predicate Linked(s: State) {
    && Shaped(s)
    && s.head == s.ring.head % TICKETS && s.cursor == s.ring.cursor % TICKETS
    && forall i :: 0 <= i < s.n ==> s.gates[i] == Encode(s.ring.gates[i])
  }

  /** Ticket `t`'s cells hold the first `m` words of `p`. */
  predicate Stored(n: nat, cells: seq<seq<nat>>, t: nat, p: Payload, m: nat) {
    && n > 0 && |cells| == n && |cells[t % n]| == CELLS && |p| == 4 * CELLS && m <= CELLS
    && forall j :: 0 <= j < m ==> cells[t % n][j] == Pack(p, j)
  }

  predicate WriterOk(n: nat, cells: seq<seq<nat>>, a: Admission, w: Writer)
    requires n > 0 && |a.gates| == n
  {
    w.Idle? || (
      && w.word == w.ticket % TICKETS
      && (w.Checking? || w.Swapping? ==> w.ticket <= a.head)
      && (w.Swapping? && w.ticket == a.head ==> a.gates[w.ticket % n] == Free(w.ticket))
      && (HasTicket(w) ==> w.ticket < a.head)
      && (Owns(w) ==> a.gates[w.ticket % n].ticket == w.ticket && !a.gates[w.ticket % n].Published?)
      && (w.Writing? ==> Stored(n, cells, w.ticket, w.payload, w.i))
      && (w.Publishing? || w.Rereading? ==> Stored(n, cells, w.ticket, w.payload, CELLS))
      && (w.SelfReleasing? ==> a.gates[w.ticket % n].Fenced?)
      && (w.Finished? ==> if w.accepted then w.ticket in a.published else w.ticket in a.dead)
    )
  }

  ghost predicate WritersOk(n: nat, cells: seq<seq<nat>>, a: Admission, writers: seq<Writer>) {
    n > 0 && |a.gates| == n && forall j :: 0 <= j < |writers| ==> WriterOk(n, cells, a, writers[j])
  }

  ghost predicate Distinct(writers: seq<Writer>) {
    forall i, j :: 0 <= i < j < |writers| && HasTicket(writers[i]) && HasTicket(writers[j]) ==>
      writers[i].ticket != writers[j].ticket
  }

  predicate DrainerOk(n: nat, a: Admission, d: Drainer) {
    match d
    case Resting => !a.taken
    case Reading(word, t, bytes) =>
      && word == t % TICKETS && t == a.cursor && !a.taken && Holds(n, a, Published(t))
      && t in a.published && |bytes| % 4 == 0 && |bytes| <= |a.published[t]| && bytes == a.published[t][..|bytes|]
    case Advancing(word, t, out) =>
      && word == t % TICKETS && t == a.cursor && (a.taken <==> out.Some?)
      && (out.Some? ==> t in a.published && out.value == a.published[t])
      && (out.None? ==> t in a.dead)
    case Fencing(word, t) => word == t % TICKETS && t == a.cursor && t < a.head && !a.taken
  }

  ghost predicate HostOk(n: nat, a: Admission, writers: seq<Writer>, h: Host) {
    h.Storing? ==>
      && h.word == h.ticket % TICKETS && h.ticket < a.head
      && (Holds(n, a, Free(h.ticket)) || Holds(n, a, Fenced(h.ticket)))
      && forall j :: 0 <= j < |writers| && Owns(writers[j]) ==> writers[j].ticket != h.ticket
  }

  /** A published slot holds its ticket's payload. */
  ghost predicate CellsOk(n: nat, cells: seq<seq<nat>>, a: Admission) {
    && (forall t :: t in a.published ==> |a.published[t]| == 4 * CELLS)
    && forall i :: 0 <= i < |a.gates| && a.gates[i].Published? ==>
         a.gates[i].ticket in a.published && Stored(n, cells, a.gates[i].ticket, a.published[a.gates[i].ticket], CELLS)
  }

  ghost predicate OutputOk(output: seq<Delivery>, drained: seq<Record>) {
    |output| == |drained|
        && forall i :: 0 <= i < |output| ==> output[i] == Delivery(drained[i].ticket % TICKETS, drained[i].payload)
  }

  ghost predicate Inv(s: State) {
    && GoodSize(s.n) && Linked(s) && Sound(s.n, s.ring)
    && WritersOk(s.n, s.cells, s.ring, s.writers) && Distinct(s.writers)
    && DrainerOk(s.n, s.ring, s.drainer) && HostOk(s.n, s.ring, s.writers, s.host)
    && CellsOk(s.n, s.cells, s.ring) && OutputOk(s.output, s.ring.drained)
    && s.refused <= s.ring.dead
  }

  // Frames.

  /** The slot of a claimed ticket, and how near its gate is. */
  lemma GateNear(s: State, t: nat)
    requires Inv(s) && t < s.ring.head
    ensures (t % TICKETS) % s.n == t % s.n < s.n
    ensures s.gates[t % s.n] == Encode(s.ring.gates[t % s.n])
    ensures s.ring.gates[t % s.n].ticket % s.n == t % s.n
    ensures t <= s.ring.gates[t % s.n].ticket < s.ring.head + s.n
  {
    WordSlot(s.n, t);
    SlotReached(s.n, s.ring, t);
    assert GateSound(s.n, s.ring, t % s.n);
  }

  /** Changing slot `k`, of which no other writer is the owner, leaves the other writers as they were. */
  lemma OthersOk(n: nat, cells: seq<seq<nat>>, a: Admission, cells': seq<seq<nat>>, b: Admission, k: nat,
                 writers: seq<Writer>, me: nat)
    requires WritersOk(n, cells, a, writers) && k < n && |b.gates| == n && |cells| == |cells'| == n
    requires forall i :: 0 <= i < n && i != k ==> b.gates[i] == a.gates[i] && cells'[i] == cells[i]
    requires b.head == a.head && a.dead <= b.dead && a.published.Keys <= b.published.Keys
    requires a.gates[k] != Free(a.head)
    requires forall j :: 0 <= j < |writers| && j != me && Owns(writers[j]) ==>
               writers[j].ticket % n != k || WriterOk(n, cells', b, writers[j])
    ensures forall j :: 0 <= j < |writers| && j != me ==> WriterOk(n, cells', b, writers[j])
  {
    forall j | 0 <= j < |writers| && j != me ensures WriterOk(n, cells', b, writers[j]) {
      assert WriterOk(n, cells, a, writers[j]);
    }
  }

  /** Two owners never share a slot. */
  lemma OwnSlots(n: nat, cells: seq<seq<nat>>, a: Admission, writers: seq<Writer>, me: nat)
    requires WritersOk(n, cells, a, writers) && Distinct(writers) && me < |writers| && Owns(writers[me])
    ensures forall j :: 0 <= j < |writers| && j != me && Owns(writers[j]) ==>
              writers[j].ticket % n != writers[me].ticket % n
  {
    forall j | 0 <= j < |writers| && j != me && Owns(writers[j])
      ensures writers[j].ticket % n != writers[me].ticket % n
    {
      assert WriterOk(n, cells, a, writers[j]) && WriterOk(n, cells, a, writers[me]);
      assert if j < me then writers[j].ticket != writers[me].ticket else writers[me].ticket != writers[j].ticket;
    }
  }

  /** A writer that moves on and keeps its ticket, or drops it, keeps the tickets distinct. */
  lemma StillDistinct(writers: seq<Writer>, w: nat, to: Writer)
    requires Distinct(writers) && w < |writers|
    requires HasTicket(to) ==> HasTicket(writers[w]) && to.ticket == writers[w].ticket
    ensures Distinct(writers[w := to])
  {}

  /** A move that touches neither memory nor the ring. */
  lemma MoveKeeps(s: State, w: nat, to: Writer)
    requires Inv(s) && w < |s.writers| && WriterOk(s.n, s.cells, s.ring, to)
    requires HasTicket(to) ==> HasTicket(s.writers[w]) && to.ticket == s.writers[w].ticket
    requires Owns(to) ==> Owns(s.writers[w])
    ensures Inv(Move(s, w, to))
  {
    StillDistinct(s.writers, w, to);
    var next := s.writers[w := to];
    forall j | 0 <= j < |next| ensures WriterOk(s.n, s.cells, s.ring, next[j]) {
      assert j != w ==> WriterOk(s.n, s.cells, s.ring, s.writers[j]);
    }
  }

  /** A gate that stops being published, or never was, leaves the published cells as they were. */
  lemma CellsFrame(n: nat, cells: seq<seq<nat>>, a: Admission, b: Admission, k: nat)
    requires CellsOk(n, cells, a) && k < |a.gates| == |b.gates| && b.gates == a.gates[k := b.gates[k]]
    requires !b.gates[k].Published? && b.published == a.published
    ensures CellsOk(n, cells, b)
  {}

  /** A change to an owner's slot is not a change to the slot the host is about to store to. */
  lemma HostFrame(s: State, b: Admission, w: nat, to: Writer)
    requires Inv(s) && w < |s.writers| && Owns(s.writers[w]) && !Owns(to) && |b.gates| == s.n && b.head == s.ring.head
    requires b.gates == s.ring.gates[s.writers[w].ticket % s.n := b.gates[s.writers[w].ticket % s.n]]
    ensures HostOk(s.n, b, s.writers[w := to], s.host)
  {
    assert WriterOk(s.n, s.cells, s.ring, s.writers[w]);
  }

  lemma WritersFrame(s: State, b: Admission, w: nat, to: Writer)
    requires Inv(s) && w < |s.writers| && Owns(s.writers[w]) && |b.gates| == s.n && b.head == s.ring.head
    requires b.gates == s.ring.gates[s.writers[w].ticket % s.n := b.gates[s.writers[w].ticket % s.n]]
    requires s.ring.dead <= b.dead && s.ring.published.Keys <= b.published.Keys
    requires WriterOk(s.n, s.cells, b, to) && HasTicket(to) && to.ticket == s.writers[w].ticket
    ensures WritersOk(s.n, s.cells, b, s.writers[w := to]) && Distinct(s.writers[w := to])
  {
    var k := s.writers[w].ticket % s.n;
    assert WriterOk(s.n, s.cells, s.ring, s.writers[w]);
    assert GateSound(s.n, s.ring, k);
    OwnSlots(s.n, s.cells, s.ring, s.writers, w);
    OthersOk(s.n, s.cells, s.ring, s.cells, b, k, s.writers, w);
    StillDistinct(s.writers, w, to);
    assert forall j :: 0 <= j < |s.writers| && j != w ==> s.writers[w := to][j] == s.writers[j];
  }

  // The steps of a writer.

  lemma CheckGateKeeps(s: State, w: nat)
    requires Inv(s) && Timely(s) && Enabled(s, CheckGate(w))
    ensures Inv(Apply(s, CheckGate(w)))
  {
    var me := s.writers[w];
    assert WriterOk(s.n, s.cells, s.ring, me);
    if me.ticket == s.ring.head {
      HeadGate(s);
    }
    MoveKeeps(s, w, if s.gates[me.word % s.n] == me.word then Swapping(me.word, me.ticket) else Idle);
  }

  /** The head's slot matches the head's word only when it is free for it. */
  lemma HeadGate(s: State)
    requires Inv(s)
    ensures s.gates[s.head % s.n] == s.head <==> Holds(s.n, s.ring, Free(s.ring.head))
  {
    var t := s.ring.head;
    WordSlot(s.n, t);
    SlotReached(s.n, s.ring, t);
    assert GateSound(s.n, s.ring, t % s.n);
    FreeWord(s.n, s.ring.gates[t % s.n], t);
  }

  lemma ClaimSwapKeeps(s: State, w: nat, spurious: bool)
    requires Inv(s) && Timely(s) && Enabled(s, ClaimSwap(w, spurious))
    ensures Inv(Apply(s, ClaimSwap(w, spurious)))
  {
    var me := s.writers[w];
    assert WriterOk(s.n, s.cells, s.ring, me);
    if s.head == me.word && !spurious {
      SameWord(s.ring.head, me.ticket);
      Claimed(s, w);
    } else {
      MoveKeeps(s, w, Idle);
    }
  }

  lemma Claimed(s: State, w: nat)
    requires Inv(s) && w < |s.writers| && s.writers[w].Swapping? && s.writers[w].ticket == s.ring.head
    ensures Inv(Move(s, w, Holding(s.head, s.ring.head)).(head := NextTicket(s.head), ring := Claim(s.ring)))
  {
    var t := s.ring.head;
    assert WriterOk(s.n, s.cells, s.ring, s.writers[w]);
    ClaimSound(s.n, s.ring);
    NextWord(t);
    var next := s.writers[w := Holding(s.head, t)];
    forall j | 0 <= j < |next| ensures WriterOk(s.n, s.cells, Claim(s.ring), next[j]) {
      assert WriterOk(s.n, s.cells, s.ring, s.writers[j]);
    }
    forall j | 0 <= j < |next| && j != w && HasTicket(next[j]) ensures next[j].ticket < t {
      assert WriterOk(s.n, s.cells, s.ring, s.writers[j]);
    }
  }

  lemma StoreWordKeeps(s: State, w: nat)
    requires Inv(s) && Enabled(s, StoreWord(w))
    ensures Inv(Apply(s, StoreWord(w)))
  {
    var me := s.writers[w];
    var s' := AfterStore(s, w);
    var k := me.ticket % s.n;
    assert WriterOk(s.n, s.cells, s.ring, me);
    GateNear(s, me.ticket);
    OwnSlots(s.n, s.cells, s.ring, s.writers, w);
    OthersOk(s.n, s.cells, s.ring, s'.cells, s.ring, k, s.writers, w);
    StillDistinct(s.writers, w, s'.writers[w]);
    assert Stored(s.n, s'.cells, me.ticket, me.payload, me.i + 1);
    assert WriterOk(s.n, s'.cells, s.ring, s'.writers[w]);
    assert forall j :: 0 <= j < |s.writers| && j != w ==> s'.writers[j] == s.writers[j];
    assert CellsOk(s.n, s'.cells, s.ring) by {
      forall i | 0 <= i < s.n && s.ring.gates[i].Published?
        ensures Stored(s.n, s'.cells, s.ring.gates[i].ticket, s.ring.published[s.ring.gates[i].ticket], CELLS)
      {
        assert GateSound(s.n, s.ring, i);
        assert Stored(s.n, s.cells, s.ring.gates[i].ticket, s.ring.published[s.ring.gates[i].ticket], CELLS);
      }
    }
  }

  lemma PublishSwapKeeps(s: State, w: nat, spurious: bool)
    requires Inv(s) && Enabled(s, PublishSwap(w, spurious))
    ensures Inv(Apply(s, PublishSwap(w, spurious)))
  {
    var me := s.writers[w];
    assert WriterOk(s.n, s.cells, s.ring, me);
    GateNear(s, me.ticket);
    if s.gates[me.word % s.n] == me.word && !spurious {
      FreeWord(s.n, s.ring.gates[me.ticket % s.n], me.ticket);
      WasPublished(s, w);
    } else {
      MoveKeeps(s, w, Rereading(me.word, me.ticket, me.payload));
    }
  }

  lemma WasPublished(s: State, w: nat)
    requires Inv(s) && w < |s.writers| && s.writers[w].Publishing? && Holds(s.n, s.ring, Free(s.writers[w].ticket))
    ensures Inv(SetGate(Move(s, w, Finished(s.writers[w].word, s.writers[w].ticket, true)), s.writers[w].word,
                        PublishedGate(s.writers[w].word))
                .(ring := Publish(s.n, s.ring, s.writers[w].ticket, s.writers[w].payload)))
  {
    var me := s.writers[w];
    var t, k := me.ticket, me.ticket % s.n;
    var b := Publish(s.n, s.ring, t, me.payload);
    var to := Finished(me.word, t, true);
    assert WriterOk(s.n, s.cells, s.ring, me);
    GateNear(s, t);
    NextWord(t);
    PublishSound(s.n, s.ring, t, me.payload);
    HostFrame(s, b, w, to);
    WritersFrame(s, b, w, to);
    assert GateSound(s.n, s.ring, k);
  }

  lemma RereadKeeps(s: State, w: nat)
    requires Inv(s) && Enabled(s, Reread(w))
    ensures Inv(Apply(s, Reread(w)))
  {
    var me := s.writers[w];
    assert WriterOk(s.n, s.cells, s.ring, me);
    GateNear(s, me.ticket);
    var g := s.ring.gates[me.ticket % s.n];
    assert g == Free(me.ticket) || g == Fenced(me.ticket);
    MoveKeeps(s, w,
              if g.Free? then Publishing(me.word, me.ticket, me.payload)
              else SelfReleasing(me.word, me.ticket, me.payload));
  }

  lemma WasReleased(s: State, w: nat)
    requires Inv(s) && w < |s.writers| && s.writers[w].SelfReleasing?
    ensures Inv(SetGate(Move(s, w, Finished(s.writers[w].word, s.writers[w].ticket, false)), s.writers[w].word,
                        ReleaseGate(s.n, s.writers[w].word))
                .(ring := Release(s.n, s.ring, s.writers[w].ticket), refused := s.refused + {s.writers[w].ticket}))
  {
    var me := s.writers[w];
    var t, k := me.ticket, me.ticket % s.n;
    var b := Release(s.n, s.ring, t);
    var to := Finished(me.word, t, false);
    assert WriterOk(s.n, s.cells, s.ring, me);
    GateNear(s, t);
    ReleaseSound(s.n, s.ring, t);
    ReleaseWord(s.n, t);
    HostFrame(s, b, w, to);
    WritersFrame(s, b, w, to);
    CellsFrame(s.n, s.cells, s.ring, b, k);
    assert GateSound(s.n, s.ring, k);
  }

  lemma SelfReleaseKeeps(s: State, w: nat, spurious: bool)
    requires Inv(s) && Enabled(s, SelfRelease(w, spurious))
    ensures Inv(Apply(s, SelfRelease(w, spurious)))
  {
    var me := s.writers[w];
    var t, k := me.ticket, me.ticket % s.n;
    assert WriterOk(s.n, s.cells, s.ring, me);
    GateNear(s, t);
    assert GateSound(s.n, s.ring, k);
    if spurious {
      MoveKeeps(s, w, Finished(me.word, t, false));
    } else {
      WasReleased(s, w);
    }
  }

  // The steps of the drainer and the host.

  lemma PollLoadKeeps(s: State)
    requires Inv(s) && Timely(s) && Enabled(s, PollLoad)
    ensures Inv(Apply(s, PollLoad))
  {
    var c := s.ring.cursor;
    var k := c % s.n;
    WordSlot(s.n, c);
    SlotReached(s.n, s.ring, c);
    assert GateSound(s.n, s.ring, k);
    var g := s.ring.gates[k];
    PublishedWord(s.n, g, c);
    if g != Published(c) {
      PastExact(s.n, g, c);
      if GateIsPast(s.n, s.gates[k], s.cursor) {
        assert c < s.ring.head;
        assert Resolved(s.ring, c) || Holds(s.n, s.ring, Free(c));
        assert c in s.ring.published ==> Holds(s.n, s.ring, Published(c));
        assert c in s.ring.dead;
      }
    }
  }

  /** Reading the next cell of a stored payload extends the bytes read. */
  lemma NextBytes(n: nat, cells: seq<seq<nat>>, t: nat, p: Payload, bytes: Payload)
    requires Stored(n, cells, t, p, CELLS) && |bytes| % 4 == 0 && |bytes| < 4 * CELLS && bytes == p[..|bytes|]
    ensures bytes + LittleEndian(cells[t % n][|bytes| / 4]) == p[..|bytes| + 4]
  {
    var i := |bytes| / 4;
    WordRoundTrip(p, i);
    assert p[..4 * i] + p[4 * i .. 4 * i + 4] == p[..4 * i + 4];
  }

  lemma ReadOk(n: nat, cells: seq<seq<nat>>, a: Admission, d: Drainer)
    requires GoodSize(n) && |a.gates| == n && CellsOk(n, cells, a)
    requires d.Reading? && DrainerOk(n, a, d) && |d.bytes| < 4 * CELLS
    ensures d.word % n == d.ticket % n && Stored(n, cells, d.ticket, a.published[d.ticket], CELLS)
    ensures DrainerOk(n, a, Reading(d.word, d.ticket, d.bytes + LittleEndian(cells[d.ticket % n][|d.bytes| / 4])))
  {
    WordSlot(n, d.ticket);
    assert a.gates[d.ticket % n] == Published(d.ticket);
    NextBytes(n, cells, d.ticket, a.published[d.ticket], d.bytes);
  }

  lemma ReadWordKeeps(s: State)
    requires Inv(s) && Enabled(s, ReadWord)
    ensures Inv(Apply(s, ReadWord))
  {
    ReadOk(s.n, s.cells, s.ring, s.drainer);
  }

  /** A published slot is nobody's but the drainer's. */
  lemma PublishedFrame(s: State, b: Admission, k: nat)
    requires Inv(s) && k < s.n && s.ring.gates[k].Published? && |b.gates| == s.n && b.head == s.ring.head
    requires b.gates == s.ring.gates[k := b.gates[k]] && b.dead == s.ring.dead && b.published == s.ring.published
    ensures WritersOk(s.n, s.cells, b, s.writers) && HostOk(s.n, b, s.writers, s.host)
  {
    forall j | 0 <= j < |s.writers| && Owns(s.writers[j]) ensures s.writers[j].ticket % s.n != k {
      assert WriterOk(s.n, s.cells, s.ring, s.writers[j]);
    }
    OthersOk(s.n, s.cells, s.ring, s.cells, b, k, s.writers, |s.writers|);
  }

  lemma ReleaseStoreKeeps(s: State)
    requires Inv(s) && Enabled(s, ReleaseStore)
    ensures Inv(Apply(s, ReleaseStore))
  {
    var d := s.drainer;
    var t, k := d.ticket, d.ticket % s.n;
    var b := TakeCursor(s.n, s.ring);
    WordSlot(s.n, t);
    TakeSound(s.n, s.ring);
    ReleaseWord(s.n, t);
    PublishedFrame(s, b, k);
    CellsFrame(s.n, s.cells, s.ring, b, k);
    assert d.bytes == s.ring.published[t];
  }

  lemma CursorStoreKeeps(s: State)
    requires Inv(s) && Enabled(s, CursorStore)
    ensures Inv(Apply(s, CursorStore))
  {
    var b := Pass(s.ring);
    PassSound(s.n, s.ring);
    NextWord(s.ring.cursor);
    forall j | 0 <= j < |s.writers| ensures WriterOk(s.n, s.cells, b, s.writers[j]) {
      assert WriterOk(s.n, s.cells, s.ring, s.writers[j]);
    }
  }

  lemma FenceSwapKeeps(s: State, spurious: bool)
    requires Inv(s) && Timely(s) && Enabled(s, FenceSwap(spurious))
    ensures Inv(Apply(s, FenceSwap(spurious)))
  {
    var d := s.drainer;
    var t, k := d.ticket, d.ticket % s.n;
    GateNear(s, t);
    FreeWord(s.n, s.ring.gates[k], t);
    if s.gates[k] == d.word && !spurious {
      var b := Fence(s.n, s.ring);
      FenceSound(s.n, s.ring);
      forall j | 0 <= j < |s.writers| && Owns(s.writers[j])
        ensures s.writers[j].ticket % s.n != k || WriterOk(s.n, s.cells, b, s.writers[j])
      {
        assert WriterOk(s.n, s.cells, s.ring, s.writers[j]);
      }
      OthersOk(s.n, s.cells, s.ring, s.cells, b, k, s.writers, |s.writers|);
    }
  }

  lemma HostLoadKeeps(s: State, w: nat)
    requires Inv(s) && Enabled(s, HostLoad(w))
    ensures Inv(Apply(s, HostLoad(w)))
  {
    var me := s.writers[w];
    assert WriterOk(s.n, s.cells, s.ring, me);
    GateNear(s, me.ticket);
    var g := s.ring.gates[me.ticket % s.n];
    FreeWord(s.n, g, me.ticket);
    if Encode(g) == me.word + FENCED_BIT {
      SameWord(g.ticket, me.ticket);
    }
    forall j | 0 <= j < |s.writers| && Owns(s.writers[j]) ensures s.writers[j].ticket != me.ticket {
      assert if j < w then s.writers[j].ticket != me.ticket else me.ticket != s.writers[j].ticket;
    }
  }

  lemma HostStoreKeeps(s: State)
    requires Inv(s) && Enabled(s, HostStore)
    ensures Inv(Apply(s, HostStore))
  {
    var t, k := s.host.ticket, s.host.ticket % s.n;
    var b := Release(s.n, s.ring, t);
    GateNear(s, t);
    ReleaseSound(s.n, s.ring, t);
    ReleaseWord(s.n, t);
    forall j | 0 <= j < |s.writers| && Owns(s.writers[j]) ensures s.writers[j].ticket % s.n != k {
      assert WriterOk(s.n, s.cells, s.ring, s.writers[j]);
    }
    OthersOk(s.n, s.cells, s.ring, s.cells, b, k, s.writers, |s.writers|);
    CellsFrame(s.n, s.cells, s.ring, b, k);
    assert GateSound(s.n, s.ring, k);
  }

  /** Every atomic operation keeps the invariant. */
  lemma StepKeeps(s: State, e: Event)
    requires Inv(s) && Timely(s) && Enabled(s, e)
    ensures Inv(Apply(s, e))
  {
    match e
    case LoadHead(w) => MoveKeeps(s, w, Checking(s.head, s.ring.head));
    case CheckGate(w) => CheckGateKeeps(s, w);
    case ClaimSwap(w, spurious) => ClaimSwapKeeps(s, w, spurious);
    case Begin(w, p) => BeginKeeps(s, w, p);
    case StoreWord(w) => StoreWordKeeps(s, w);
    case PublishSwap(w, spurious) => PublishSwapKeeps(s, w, spurious);
    case Reread(w) => RereadKeeps(s, w);
    case SelfRelease(w, spurious) => SelfReleaseKeeps(s, w, spurious);
    case Return(w) => MoveKeeps(s, w, Idle);
    case Die(w) => DieKeeps(s, w);
    case PollLoad => PollLoadKeeps(s);
    case ReadWord => ReadWordKeeps(s);
    case ReleaseStore => ReleaseStoreKeeps(s);
    case CursorStore => CursorStoreKeeps(s);
    case FenceLoad => FenceLoadKeeps(s);
    case FenceSwap(spurious) => FenceSwapKeeps(s, spurious);
    case HostLoad(w) => HostLoadKeeps(s, w);
    case HostStore => HostStoreKeeps(s);
  }

  lemma BeginKeeps(s: State, w: nat, p: Payload)
    requires Inv(s) && Enabled(s, Begin(w, p))
    ensures Inv(Apply(s, Begin(w, p)))
  {
    assert WriterOk(s.n, s.cells, s.ring, s.writers[w]);
    GateNear(s, s.writers[w].ticket);
    MoveKeeps(s, w, Writing(s.writers[w].word, s.writers[w].ticket, p, 0));
  }

  lemma DieKeeps(s: State, w: nat)
    requires Inv(s) && Enabled(s, Die(w))
    ensures Inv(Apply(s, Die(w)))
  {
    assert WriterOk(s.n, s.cells, s.ring, s.writers[w]);
    MoveKeeps(s, w, Dead(s.writers[w].word, s.writers[w].ticket));
  }

  lemma FenceLoadKeeps(s: State)
    requires Inv(s) && Enabled(s, FenceLoad)
    ensures Inv(Apply(s, FenceLoad))
  {}

  // Whole runs.

  /** `with_head`: the slots of the first lap are free, and the rest of the ring is empty. */
  ghost predicate Initial(s: State) {
    && GoodSize(s.n) && Linked(s) && s.ring.head == s.ring.cursor == s.ring.base
    && (forall i :: 0 <= i < s.n ==> s.ring.gates[i].Free? && s.ring.gates[i].ticket % s.n == i
                                     && s.ring.base <= s.ring.gates[i].ticket < s.ring.base + s.n)
    && s.ring.published == map[] && s.ring.dead == {} && !s.ring.taken && s.ring.drained == [] && s.output == []
    && s.refused == {}
    && s.drainer.Resting? && s.host.Watching? && forall j :: 0 <= j < |s.writers| ==> s.writers[j].Idle?
  }

  /** The first ticket from `base` on whose slot is `k`. */
  function FirstOf(n: nat, base: nat, k: nat): (t: nat)
    requires n > 0 && k < n
    ensures base <= t < base + n && t % n == k
  {
    var r := base % n;
    assert base == n * (base / n) + r;
    ModUnique(n, base / n, k);
    NextLap(n, n * (base / n) + k);
    if k >= r then base + (k - r) else base + (k + n - r)
  }

  /** `with_head`: seeds every slot's gate with the first ticket that maps to it. */
  method WithHead(n: nat, seed: nat, writers: nat) returns (s: State)
    requires GoodSize(n) && seed < TICKETS
    ensures Initial(s) && s.n == n && s.ring.base == seed && s.head == seed && |s.writers| == writers
  {
    var gates: seq<nat> := seq(n, _ => 0);
    var t := seed;
    for i := 0 to n
      invariant |gates| == n && t == (seed + i) % TICKETS
      invariant forall k :: 0 <= k < n && FirstOf(n, seed, k) < seed + i ==> gates[k] == FirstOf(n, seed, k) % TICKETS
    {
      WordSlot(n, seed + i);
      ghost var k := t % n;
      assert FirstOf(n, seed, k) == seed + i by {
        if FirstOf(n, seed, k) < seed + i { SameSlot(n, FirstOf(n, seed, k), seed + i); }
        if FirstOf(n, seed, k) > seed + i { SameSlot(n, seed + i, FirstOf(n, seed, k)); }
      }
      NextWord(seed + i);
      gates := gates[t % n := t];
      t := NextTicket(t);
    }
    var ring :=
        Admission(seed, seed, seed, seq(n, k requires 0 <= k < n => Free(FirstOf(n, seed, k))), map[], {}, false, []);
    s :=
        State(n, seed, seed, gates, seq(n, _ => seq(CELLS, _ => 0)), seq(writers, _ => Idle), Resting, Watching, [],
              {}, ring);
  }

  lemma InitialInv(s: State)
    requires Initial(s)
    ensures Inv(s)
  {
    forall i | 0 <= i < s.n ensures GateSound(s.n, s.ring, i) {
      assert s.ring.gates[i].Free?;
    }
  }

  /** A run is its events in order, each enabled in a timely state. */
  ghost predicate Run(s: State, events: seq<Event>, t: State)
    decreases |events|
  {
    if events == [] then s == t
    else Timely(s) && Enabled(s, events[0]) && Run(Apply(s, events[0]), events[1..], t)
  }

  lemma {:induction false} RunKeeps(s: State, events: seq<Event>, t: State)
    requires Inv(s) && Run(s, events, t)
    ensures Inv(t)
    decreases |events|
  {
    if events != [] {
      StepKeeps(s, events[0]);
      RunKeeps(Apply(s, events[0]), events[1..], t);
    }
  }

  /** What is published, dead or handed out stays so. */
  lemma StepGrows(s: State, e: Event)
    requires Inv(s) && Enabled(s, e)
    ensures Apply(s, e).ring.base == s.ring.base && s.ring.dead <= Apply(s, e).ring.dead
            && s.output <= Apply(s, e).output
    ensures forall t :: t in s.ring.published ==>
              t in Apply(s, e).ring.published && Apply(s, e).ring.published[t] == s.ring.published[t]
  {
    if e.PublishSwap? {
      var me := s.writers[e.w];
      assert WriterOk(s.n, s.cells, s.ring, me);
      GateNear(s, me.ticket);
      assert GateSound(s.n, s.ring, me.ticket % s.n);
      FreeWord(s.n, s.ring.gates[me.ticket % s.n], me.ticket);
    }
  }

  lemma {:induction false} RunGrows(s: State, events: seq<Event>, u: State)
    requires Inv(s) && Run(s, events, u)
    ensures u.ring.base == s.ring.base && s.ring.dead <= u.ring.dead && s.output <= u.output
    ensures forall t :: t in s.ring.published ==> t in u.ring.published && u.ring.published[t] == s.ring.published[t]
    decreases |events|
  {
    if events != [] {
      StepKeeps(s, events[0]);
      StepGrows(s, events[0]);
      RunGrows(Apply(s, events[0]), events[1..], u);
    }
  }

  ghost predicate Ascending(rs: seq<Record>) {
    forall i, j :: 0 <= i < j < |rs| ==> rs[i].ticket < rs[j].ticket
  }

  lemma {:induction false} DueExact(published: map<nat, Payload>, base: nat, cursor: nat)
    ensures Ascending(Due(published, base, cursor))
    ensures forall r :: r in Due(published, base, cursor) <==>
              base <= r.ticket < cursor && r.ticket in published && r.payload == published[r.ticket]
    decreases cursor
  {
    if cursor > base {
      DueExact(published, base, cursor - 1);
      var before := Due(published, base, cursor - 1);
      assert forall i :: 0 <= i < |before| ==> before[i] in before;
    }
  }

  /** Exactly once, in ticket order, with the bytes written: the drainer's output over a whole run is the
      published tickets behind its cursor, ascending, each once and with the payload its writer published;
      a ticket that was fenced, released or refused is never among them; no ticket behind the cursor is lost. */
  lemma ExactlyOnce(s: State, events: seq<Event>, u: State)
    requires Initial(s) && Run(s, events, u)
    ensures OutputOk(u.output, u.ring.drained) && Ascending(u.ring.drained)
    ensures forall r :: r in u.ring.drained <==>
              s.ring.base <= r.ticket < u.ring.cursor && r.ticket in u.ring.published
                  && r.payload == u.ring.published[r.ticket]
    ensures forall r :: r in u.ring.drained ==> r.ticket !in u.ring.dead && r.ticket !in u.refused
    ensures forall t :: s.ring.base <= t < u.ring.cursor ==> t in u.ring.published || t in u.ring.dead
  {
    InitialInv(s);
    RunKeeps(s, events, u);
    RunGrows(s, events, u);
    DueExact(u.ring.published, u.ring.base, u.ring.cursor);
    forall t | s.ring.base <= t < u.ring.cursor ensures t in u.ring.published || t in u.ring.dead {
      assert Resolved(u.ring, t);
    }
  }

  /** A publish that returned `Published` has its payload drained once the cursor passes its ticket;
      one that returned `Fenced` never does, at any later point of the run. */
  lemma PublishVerdict(s: State, events: seq<Event>, m: State, later: seq<Event>, u: State, w: nat)
    requires Initial(s) && Run(s, events, m) && Run(m, later, u) && w < |m.writers| && m.writers[w].Finished?
    ensures m.writers[w].accepted ==>
              m.writers[w].ticket in m.ring.published
              && (u.ring.cursor > m.writers[w].ticket ==>
                    Record(m.writers[w].ticket, m.ring.published[m.writers[w].ticket]) in u.ring.drained)
    ensures !m.writers[w].accepted ==> forall r :: r in u.ring.drained ==> r.ticket != m.writers[w].ticket
  {
    InitialInv(s);
    RunKeeps(s, events, m);
    assert WriterOk(m.n, m.cells, m.ring, m.writers[w]);
    RunKeeps(m, later, u);
    RunGrows(m, later, u);
    DueExact(u.ring.published, u.ring.base, u.ring.cursor);
  }
}
