/** The drainer and its durability watermark (src/drainer.rs). */
module Draining {
  import opened Keys
  import opened Ring
  import opened PayloadCodec

  /** A ticket drained but not yet acknowledged; a dead one carries no payload. */
  datatype Pending = Pending(word: nat, data: Option<Bytes>)

  datatype Poll = Drained(word: nat, payload: Bytes) | Skipped(word: nat) | AwaitingPublish

  datatype Write = Written | Full | Failed

  datatype Sweep = Swept(tickets: nat) | Idle | Stalled | Error

  /** `is_ticket_durable`. */
  predicate IsTicketDurable(durable: nat, word: nat) {
    var dist := Distance(durable, word % TICKETS);
    dist != 0 && dist < HALF
  }

  /** The watermark test is exact for tickets less than half the ticket space away. */
  lemma DurableExact(settled: nat, t: nat)
    requires t <= settled + HALF && settled < t + TICKETS
    ensures IsTicketDurable(settled % TICKETS, t % TICKETS) <==> t < settled < t + HALF
  {
    var d, w := settled % TICKETS, t % TICKETS;
    assert IsTicketDurable(d, w) <==> Distance(d, w) != 0 && Distance(d, w) < HALF by {
      assert w % TICKETS == w;
    }
    if t <= settled {
      DistanceWord(settled, t);
    } else {
      DistanceWord(settled + TICKETS, t);
      Around(settled);
    }
  }

  lemma Around(t: nat)
    ensures (t + TICKETS) % TICKETS == t % TICKETS
  {
  }

  /** What a payload asks of the database: nothing for a range that is empty or inverted. */
  function Effect(m: Mutation): seq<Mutation> {
    if m.RangeDelete? && !LexLess(m.start, m.end) then [] else [m]
  }

  /** `WriteBatch` takes the mutation. */
  predicate Queueable(m: Mutation, keyMax: nat, valMax: nat) {
    match m
    case Put(key, val) => 0 < |key| <= keyMax && |val| <= valMax
    case Delete(key) => 0 < |key| <= keyMax
    case RangeDelete(start, end) => 0 < |start| <= keyMax && |end| <= keyMax && |end| <= valMax
    case PutTtl(key, val, _) => 0 < |key| <= keyMax && |val| <= valMax
  }

  /** What a mutation puts where a batch keeps keys, and where it keeps values. */
  function Parts(m: Mutation): (Bytes, Bytes) {
    match m
    case Put(key, val) => (key, val)
    case Delete(key) => (key, [])
    case RangeDelete(start, end) => (start, end)
    case PutTtl(key, val, _) => (key, val)
  }

  /** A batch takes a mutation exactly when its key is not empty and fits, its value fits, and the end of a range fits
      both as a key and as a value. */
  lemma QueueableExactly(m: Mutation, keyMax: nat, valMax: nat)
    ensures Queueable(m, keyMax, valMax) <==>
            && Parts(m).0 != [] && |Parts(m).0| <= keyMax && |Parts(m).1| <= valMax
            && (m.RangeDelete? ==> |m.end| <= keyMax)
  {}

  ghost predicate Readable(p: Bytes) {
    |p| == SLOT && Decode(p).Ok?
  }

  /** What tickets `from .. upto` ask of the database, in ticket order. */
  ghost function Effects(payloads: map<nat, Bytes>, from: nat, upto: nat): seq<Mutation>
    decreases upto
  {
    if upto <= from then []
    else Effects(payloads, from, upto - 1)
         + if upto - 1 in payloads && Readable(payloads[upto - 1]) then Effect(Decode(payloads[upto - 1]).mutation)
         else []
  }

  lemma NoEffects(payloads: map<nat, Bytes>, from: nat)
    ensures Effects(payloads, from, from) == []
  {}

  lemma EffectsNext(payloads: map<nat, Bytes>, from: nat, t: nat)
    requires from <= t
    ensures Effects(payloads, from, t + 1)
            == Effects(payloads, from, t)
               + if t in payloads && Readable(payloads[t]) then Effect(Decode(payloads[t]).mutation) else []
  {}

  /** A put, a deletion, or a range deletion that is neither empty nor inverted. */
  predicate AsksFor(m: Mutation) {
    m.Put? || m.Delete? || m.PutTtl? || (m.RangeDelete? && RankOf(m.start) < RankOf(m.end))
  }

  /** The ticket's payload asks something of the database. */
  ghost predicate Asks(payloads: map<nat, Bytes>, t: nat) {
    t in payloads && Readable(payloads[t]) && AsksFor(Decode(payloads[t]).mutation)
  }

  /** The tickets of `from .. upto` that ask something of the database. */
  ghost function Asking(payloads: map<nat, Bytes>, from: nat, upto: nat): seq<nat>
    decreases upto
  {
    if upto <= from then []
    else Asking(payloads, from, upto - 1) + if Asks(payloads, upto - 1) then [upto - 1] else []
  }

  /** Each of them once, ascending. */
  lemma {:induction false} AskingExact(payloads: map<nat, Bytes>, from: nat, upto: nat)
    ensures forall t :: t in Asking(payloads, from, upto) <==> from <= t < upto && Asks(payloads, t)
    ensures forall i, j :: 0 <= i < j < |Asking(payloads, from, upto)| ==>
              Asking(payloads, from, upto)[i] < Asking(payloads, from, upto)[j]
    decreases upto
  {
    hide Asks;
    if upto > from {
      AskingExact(payloads, from, upto - 1);
      var before := Asking(payloads, from, upto - 1);
      assert forall i :: 0 <= i < |before| ==> before[i] in before;
    }
  }

  /** What the tickets ask for is every mutation they carry, in ticket order and no other. */
  lemma {:induction false} EffectsExact(payloads: map<nat, Bytes>, from: nat, upto: nat)
    ensures |Effects(payloads, from, upto)| == |Asking(payloads, from, upto)|
    ensures forall i :: 0 <= i < |Effects(payloads, from, upto)| ==>
              var t := Asking(payloads, from, upto)[i];
              Asks(payloads, t) && Effects(payloads, from, upto)[i] == Decode(payloads[t]).mutation
    decreases upto
  {
    if upto > from {
      EffectsExact(payloads, from, upto - 1);
      if upto - 1 in payloads && Readable(payloads[upto - 1]) { EffectIs(Decode(payloads[upto - 1]).mutation); }
    }
  }

  lemma EffectIs(m: Mutation)
    ensures Effect(m) == if AsksFor(m) then [m] else []
  {
    if m.RangeDelete? { RankOrder(m.start, m.end); }
  }

  lemma {:induction false} EffectsExtend(payloads: map<nat, Bytes>, from: nat, upto: nat, t: nat, p: Bytes)
    requires t >= upto
    ensures Effects(payloads[t := p], from, upto) == Effects(payloads, from, upto)
    decreases upto
  {
    if upto > from { EffectsExtend(payloads, from, upto - 1, t, p); }
  }

  lemma {:induction false} EffectsConcat(payloads: map<nat, Bytes>, from: nat, mid: nat, upto: nat)
    requires from <= mid <= upto
    ensures Effects(payloads, from, upto) == Effects(payloads, from, mid) + Effects(payloads, mid, upto)
    decreases upto
  {
    if mid < upto { EffectsConcat(payloads, from, mid, upto - 1); }
  }

  /** What happened to a ticket behind the watermark: it died, or what it asked for is in the database. */
  ghost predicate Resolved(payloads: map<nat, Bytes>, lost: set<nat>, t: nat) {
    t in lost || (t in payloads && Readable(payloads[t]))
  }

  ghost predicate AllResolved(payloads: map<nat, Bytes>, lost: set<nat>, from: nat, upto: nat) {
    forall t :: from <= t < upto ==> Resolved(payloads, lost, t)
  }

  /** The buffered tickets are those from `settled` on. */
  ghost predicate Buffered(pending: seq<Pending>, settled: nat, payloads: map<nat, Bytes>, lost: set<nat>) {
    forall i :: 0 <= i < |pending| ==> BufferedAt(pending[i], settled + i, payloads, lost)
  }

  ghost predicate BufferedAt(p: Pending, t: nat, payloads: map<nat, Bytes>, lost: set<nat>) {
    && p.word == t % TICKETS
    && (p.data.Some? ==> |p.data.value| == SLOT && t in payloads && payloads[t] == p.data.value)
    && (p.data.None? ==> t in lost && t !in payloads)
  }

  /** Every buffered ticket is dead. */
  ghost predicate AllDead(pending: seq<Pending>) {
    forall i :: 0 <= i < |pending| ==> pending[i].data.None?
  }

  /** Dead tickets ask for nothing, and are not refused. */
  lemma {:induction false} DeadAsk(pending: seq<Pending>, settled: nat, payloads: map<nat, Bytes>, lost: set<nat>,
                                   n: nat)
    requires Buffered(pending, settled, payloads, lost) && AllDead(pending) && n <= |pending|
    ensures Effects(payloads, settled, settled + n) == []
    ensures forall i :: 0 <= i < |pending| ==> !pending[i].data.Some?
  {
    if n > 0 {
      DeadAsk(pending, settled, payloads, lost, n - 1);
      assert BufferedAt(pending[n - 1], settled + n - 1, payloads, lost);
    }
  }

  lemma ResolvedMore(payloads: map<nat, Bytes>, lost: set<nat>, next: map<nat, Bytes>, gone: set<nat>, from: nat,
                     upto: nat)
    requires AllResolved(payloads, lost, from, upto) && lost <= gone
    requires forall t :: t in payloads ==> t in next && next[t] == payloads[t]
    ensures AllResolved(next, gone, from, upto)
  {
    forall t | from <= t < upto ensures Resolved(next, gone, t) {
      assert Resolved(payloads, lost, t);
    }
  }

  lemma ResolvedNext(payloads: map<nat, Bytes>, lost: set<nat>, from: nat, upto: nat)
    requires from <= upto && AllResolved(payloads, lost, from, upto) && Resolved(payloads, lost, upto)
    ensures AllResolved(payloads, lost, from, upto + 1)
  {
    forall t | from <= t < upto + 1 ensures Resolved(payloads, lost, t) {}
  }

  /** The next ticket joins the buffer. */
  lemma BufferedMore(pending: seq<Pending>, settled: nat, payloads: map<nat, Bytes>, lost: set<nat>,
                     next: map<nat, Bytes>, gone: set<nat>, q: Pending)
    requires Buffered(pending, settled, payloads, lost) && lost <= gone
    requires forall t :: t != settled + |pending| ==> (t in next <==> t in payloads)
    requires forall t :: t in payloads ==> t in next && next[t] == payloads[t]
    requires BufferedAt(q, settled + |pending|, next, gone)
    ensures Buffered(pending + [q], settled, next, gone)
  {
    var all := pending + [q];
    forall i | 0 <= i < |all| ensures BufferedAt(all[i], settled + i, next, gone) {
      if i < |pending| { assert BufferedAt(pending[i], settled + i, payloads, lost); }
    }
  }

  class Drainer {
    const keyMax: nat
    const valMax: nat
    const maxWrites: nat
    /** The shared watermark, a 31-bit word. */
    var durable: nat
    /** The ring's cursor word. */
    var ringCursor: nat
    var pending: seq<Pending>
    var stallBudget: nat
    var stallPolls: nat
    var poisoned: bool
    /** The tickets behind the words: the ring's first one, its cursor, the watermark, and how far the
        database holds what tickets asked for. */
    ghost const base: nat
    ghost var cursor: nat
    ghost var settled: nat
    ghost var applied: nat
    /** The payloads drained, the dead tickets, and every mutation given to a successful `Db::write`. */
    ghost var payloads: map<nat, Bytes>
    ghost var lost: set<nat>
    ghost var database: seq<Mutation>
    /** What the ring answered, and how often the cursor was fenced or tried to be. */
    ghost var polls: seq<Poll>
    ghost var fences: nat
    /** How the calls of `Db::write` ended. */
    ghost var writes: seq<Write>

    /** Holds between any two atomic operations: everything behind the watermark is dead or in the database,
        which holds exactly the effects of the tickets up to `applied`, each once and in ticket order. */
    ghost predicate Consistent()
      reads this
    {
      && base <= settled <= applied <= cursor && durable == settled % TICKETS && ringCursor == cursor % TICKETS
      && (forall t :: t in payloads || t in lost ==> base <= t < cursor && !(t in payloads && t in lost))
      && AllResolved(payloads, lost, base, applied)
      && database == Effects(payloads, base, applied)
    }

    /** Holds between sweeps. */
    ghost predicate Valid()
      reads this
    {
      && Consistent() && applied == settled
      && settled + |pending| == cursor && |pending| <= maxWrites
      && Buffered(pending, settled, payloads, lost)
    }

    constructor (keyMax: nat, valMax: nat, maxWrites: nat, seed: nat)
      requires seed < TICKETS
      ensures Valid() && base == settled == cursor == seed && !poisoned && database == []
      ensures pending == [] && stallBudget == 1024 && stallPolls == 0
      ensures this.keyMax == keyMax && this.valMax == valMax && this.maxWrites == maxWrites
    {
      this.keyMax, this.valMax, this.maxWrites := keyMax, valMax, maxWrites;
      durable, ringCursor := seed, seed;
      pending, stallBudget, stallPolls, poisoned := [], 1024, 0, false;
      base, cursor, settled, applied := seed, seed, seed, seed;
      payloads, lost, database, polls, fences, writes := map[], {}, [], [], 0, [];
    }

    /** One `poll_drain`: whatever the writers did, it reports the ring's cursor ticket and moves past it, or waits. */
    method PollDrain() returns (r: Poll)
      requires Consistent()
      modifies this`ringCursor, this`cursor, this`payloads, this`lost, this`polls
      ensures Consistent() && polls == old(polls) + [r]
      ensures r.AwaitingPublish? ==> cursor == old(cursor) && payloads == old(payloads) && lost == old(lost)
      ensures r.Drained? ==> cursor == old(cursor) + 1 && r.word == old(cursor) % TICKETS && |r.payload| == SLOT
                             && payloads == old(payloads)[old(cursor) := r.payload] && lost == old(lost)
      ensures r.Skipped? ==> cursor == old(cursor) + 1 && r.word == old(cursor) % TICKETS
                             && payloads == old(payloads) && lost == old(lost) + {old(cursor)}
    {
      var choice: nat := *;
      var payload: Bytes := *;
      var c := ringCursor;
      NextWord(cursor);
      polls := polls + [if choice == 0 && |payload| == SLOT then Drained(c, payload)
                        else if choice == 1 then Skipped(c) else AwaitingPublish];
      if choice == 0 && |payload| == SLOT {
        EffectsExtend(payloads, base, applied, cursor, payload);
        ResolvedMore(payloads, lost, payloads[cursor := payload], lost, base, applied);
        payloads := payloads[cursor := payload];
        ringCursor, cursor := NextTicket(c), cursor + 1;
        return Drained(c, payload);
      } else if choice == 1 {
        ResolvedMore(payloads, lost, payloads, lost + {cursor}, base, applied);
        lost := lost + {cursor};
        ringCursor, cursor := NextTicket(c), cursor + 1;
        return Skipped(c);
      }
      return AwaitingPublish;
    }

    /** `fence_cursor`: the cursor ticket's word when the fence won. */
    method FenceCursor() returns (r: Option<nat>)
      requires Consistent()
      modifies this`ringCursor, this`cursor, this`lost, this`fences
      ensures Consistent() && fences == old(fences) + 1
      ensures r.None? ==> cursor == old(cursor) && lost == old(lost)
      ensures r.Some? ==>
                cursor == old(cursor) + 1 && r.value == old(cursor) % TICKETS && lost == old(lost) + {old(cursor)}
    {
      var won: bool := *;
      var c := ringCursor;
      fences := fences + 1;
      NextWord(cursor);
      if won {
        ResolvedMore(payloads, lost, payloads, lost + {cursor}, base, applied);
        lost := lost + {cursor};
        ringCursor, cursor := NextTicket(c), cursor + 1;
        return Some(c);
      }
      return None;
    }

    /** `advance_durable`: the compare-exchange never fails. */
    method AdvanceDurable(word: nat)
      requires Consistent() && settled < applied && word == settled % TICKETS
      modifies this`durable, this`settled
      ensures Consistent() && settled == old(settled) + 1
    {
      var t := word % TICKETS;
      var next := (t + 1) % WORDS % TICKETS;
      NextWord(settled);
      if durable == t {
        durable := next;
        settled := settled + 1;
      } else {
        assert false;
      }
    }

    /** `ack_pending`. */
    method AckPending()
      requires Consistent() && applied == cursor == settled + |pending| && Buffered(pending, settled, payloads, lost)
      modifies this`durable, this`settled, this`pending
      ensures Valid() && settled == cursor && pending == []
    {
      var i := 0;
      while i < |pending|
        invariant 0 <= i <= |pending| && pending == old(pending)
        invariant Consistent() && settled == old(settled) + i
      {
        assert BufferedAt(pending[i], old(settled) + i, payloads, lost);
        AdvanceDurable(pending[i].word);
        i := i + 1;
      }
      pending := [];
    }

    /** The drain phase of a sweep. */
    method Collect()
      requires Valid() && pending == []
      modifies this`ringCursor, this`cursor, this`payloads, this`lost, this`pending, this`stallPolls, this`polls
      ensures Valid() && |polls| >= |old(polls)|
      ensures |pending| < maxWrites ==> |polls| > |old(polls)| && polls[|polls| - 1].AwaitingPublish?
      ensures pending != [] ==> stallPolls == 0
      ensures pending == [] ==> stallPolls == old(stallPolls)
      ensures forall t :: t in old(payloads) ==> t in payloads && payloads[t] == old(payloads)[t]
    {
      while |pending| < maxWrites
        invariant Valid() && |polls| >= |old(polls)|
        invariant pending == [] ==> stallPolls == old(stallPolls)
        invariant pending != [] ==> stallPolls == 0
        invariant forall t :: t in old(payloads) ==> t in payloads && payloads[t] == old(payloads)[t]
        decreases maxWrites - |pending|
      {
        ghost var had, gone := payloads, lost;
        var r := PollDrain();
        if r.AwaitingPublish? {
          return;
        }
        var next := Pending(r.word, if r.Drained? then Some(r.payload) else None);
        BufferedMore(pending, settled, had, gone, payloads, lost, next);
        pending := pending + [next];
        stallPolls := 0;
      }
    }

    /** The batch phase: the mutations of the buffered payloads, or nothing when one is malformed or too large. */
    method Batch() returns (ops: Option<seq<Mutation>>)
      requires Valid()
      ensures ops.Some? ==>
                ops.value == Effects(payloads, settled, cursor) && AllResolved(payloads, lost, settled, cursor)
      ensures ops.None? <==> exists i :: 0 <= i < |pending| && pending[i].data.Some? && Refused(pending[i].data.value)
    {
      hide Decode, Effect, Effects, AsksFor, Queueable, Drainer.Consistent;
      NoEffects(payloads, settled);
      var batch: seq<Mutation> := [];
      var i := 0;
      while i < |pending|
        invariant 0 <= i <= |pending|
        invariant batch == Effects(payloads, settled, settled + i) && AllResolved(payloads, lost, settled, settled + i)
        invariant forall j :: 0 <= j < i && pending[j].data.Some? ==> !Refused(pending[j].data.value)
      {
        assert BufferedAt(pending[i], settled + i, payloads, lost);
        if pending[i].data.Some? {
          var d := Decode(pending[i].data.value);
          if d.Ok? { EffectIs(d.mutation); }
          if d.Err? || (Effect(d.mutation) != [] && !Queueable(d.mutation, keyMax, valMax)) {
            assert Refused(pending[i].data.value);
            return None;
          }
          batch := batch + Effect(d.mutation);
        }
        EffectsNext(payloads, settled, settled + i);
        ResolvedNext(payloads, lost, settled, settled + i);
        i := i + 1;
      }
      return Some(batch);
    }

    /** The payload does not decode, or the database's limits exclude it. */
    ghost predicate Refused(p: Bytes) {
      |p| == SLOT
          && (Decode(p).Err? || (AsksFor(Decode(p).mutation) && !Queueable(Decode(p).mutation, keyMax, valMax)))
    }

    /** `Db::write`: all of the batch, or none of it. */
    method WriteDb(ops: seq<Mutation>) returns (r: Write)
      modifies this`database, this`writes
      ensures database == (if r.Written? then old(database) + ops else old(database)) && writes == old(writes) + [r]
    {
      r := *;
      writes := writes + [r];
      if r.Written? { database := database + ops; }
    }

    /** The batch is in the database: every buffered ticket is resolved. */
    method Settle(ghost ops: seq<Mutation>)
      requires base <= settled == applied <= cursor && durable == settled % TICKETS && settled + |pending| == cursor
      requires ringCursor == cursor % TICKETS
      requires forall t :: t in payloads || t in lost ==> base <= t < cursor && !(t in payloads && t in lost)
      requires AllResolved(payloads, lost, base, settled) && AllResolved(payloads, lost, settled, cursor)
      requires Buffered(pending, settled, payloads, lost)
      requires ops == Effects(payloads, settled, cursor) && database == Effects(payloads, base, settled) + ops
      modifies this`applied, this`durable, this`settled, this`pending
      ensures Valid() && settled == cursor && pending == []
    {
      EffectsConcat(payloads, base, settled, cursor);
      applied := cursor;
      AckPending();
    }

    /** `sweep`. */
    method Sweep() returns (r: Sweep)
      requires Valid()
      modifies this
      ensures Valid() && settled >= old(settled)
      ensures old(poisoned) ==>
                r.Idle? && durable == old(durable) && database == old(database) && pending == old(pending)
      ensures r.Swept? ==> settled == cursor && settled == old(settled) + r.tickets && pending == [] && !poisoned
      ensures r.Stalled? ==> settled == old(settled) && database == old(database) && !poisoned
      ensures r.Error? ==> settled == old(settled) && database == old(database) && poisoned
      ensures r.Idle? ==> database == old(database) && (old(pending) == [] || old(poisoned))
      ensures r.Idle? && !old(poisoned) && maxWrites > 0 ==>
                |polls| > |old(polls)| && polls[|polls| - 1].AwaitingPublish?
      ensures r.Idle? && !old(poisoned) ==>
                if old(stallPolls) >= stallBudget then stallPolls == 0 && fences == old(fences) + 1
                else stallPolls == old(stallPolls) + 1 && fences == old(fences)
      ensures forall t :: t in old(payloads) ==> t in payloads && payloads[t] == old(payloads)[t]
    {
      if poisoned {
        return Idle;
      }
      if pending == [] {
        Collect();
      }
      if pending == [] {
        NothingPublished();
        return Idle;
      }
      r := Apply();
    }

    /** The batch and flush phases: the buffered tickets settle together, or stay buffered. */
    method Apply() returns (r: Sweep)
      requires Valid() && !poisoned && pending != []
      modifies this`database, this`applied, this`durable, this`settled, this`pending, this`poisoned, this`writes
      ensures Valid() && !r.Idle?
      ensures r.Error? && writes == old(writes) ==>
                exists i :: 0 <= i < |old(pending)| && old(pending)[i].data.Some? && Refused(old(pending)[i].data.value)
      ensures r.Error? ==> writes == old(writes) || writes == old(writes) + [Failed]
      ensures r.Stalled? ==> writes == old(writes) + [Full]
      ensures r.Swept? ==> writes == old(writes) || writes == old(writes) + [Written]
      ensures old(AllDead(pending)) ==> r.Swept? && r.tickets == |old(pending)| && database == old(database)
      ensures r.Swept? ==> settled == cursor && settled == old(settled) + r.tickets && pending == [] && !poisoned
      ensures r.Stalled? ==> settled == old(settled) && database == old(database) && !poisoned
      ensures r.Error? ==> settled == old(settled) && database == old(database) && poisoned
    {
      hide AllDead, Effects, AllResolved;
      var tickets := |pending|;
      var ops := Batch();
      if AllDead(pending) { DeadAsk(pending, settled, payloads, lost, |pending|); }
      if ops.None? {
        poisoned := true;
        return Error;
      }
      if ops.value == [] {
        Settle([]);
        return Swept(tickets);
      }
      var w := WriteDb(ops.value);
      match w
      case Written =>
        Settle(ops.value);
        return Swept(tickets);
      case Full =>
        return Stalled;
      case Failed =>
        poisoned := true;
        return Error;
    }

    /** A sweep that found nothing: past the stall budget the cursor is fenced. */
    method NothingPublished()
      requires Valid() && pending == []
      modifies this`stallPolls, this`ringCursor, this`cursor, this`lost, this`durable, this`settled, this`applied,
               this`fences
      ensures Valid() && settled >= old(settled)
      ensures if old(stallPolls) >= stallBudget then stallPolls == 0 && fences == old(fences) + 1
              else stallPolls == old(stallPolls) + 1 && fences == old(fences)
    {
      stallPolls := stallPolls + 1;
      if stallPolls > stallBudget {
        stallPolls := 0;
        var f := FenceCursor();
        if f.Some? {
          assert Effects(payloads, base, cursor) == Effects(payloads, base, applied);
          applied := cursor;
          AdvanceDurable(f.value);
        }
      }
    }

    /** A put is reported complete only when its ticket is resolved, and always is for half the ticket space. */
    method PollPut(word: nat, ghost ticket: nat) returns (done: bool)
      requires Consistent() && word == ticket % TICKETS && base <= ticket <= settled + HALF
               && settled < ticket + TICKETS
      ensures done ==> ticket < settled && Resolved(payloads, lost, ticket)
      ensures ticket < settled < ticket + HALF ==> done
    {
      DurableExact(settled, ticket);
      return IsTicketDurable(durable, word);
    }
  }
}
