/** The reverse scan (`RevScan` in src/scan.rs): it yields the readable keys of a range, descending, each once. */
module BackwardScan {
  import opened Keys
  import opened Visibility
  import opened Merging
  import opened TableLookup
  import opened ReverseSearch
  import opened Cursors
  import opened Reading
  import opened ForwardScan

  ghost function Live(s: Source): set<Entry> {
    set e | e in s.points && e.key >= s.first
  }

  /** A cursor's block, or its run's first slot, holds where the next search starts. */
  ghost predicate Lodged(d: Stored, h: Parked) {
    match d
    case Slots(slots) => RunFrom(slots, h.entry.key, h.block)
    case Table(blocks) => h.block < |blocks| && h.entry in blocks[h.block].entries
  }

  /** A parked cursor stands on its source's answer for the bound. */
  ghost predicate ParkedAt(s: Source, d: Stored, b: Bound, view: nat, h: Option<Parked>) {
    && Walkable(d) && s.points == Held(d)
    && Answer(Live(s), b, view, if h.None? then None else Some(h.value.entry))
    && (h.Some? ==> Lodged(d, h.value))
  }

  /** Below the live lower bound everything is dead, and a backward walk only goes lower. */
  function Alive(s: Source, r: Option<Parked>): Option<Parked> {
    if r.Some? && r.value.entry.key < s.first then None else r
  }

  lemma AliveAnswer(s: Source, b: Bound, view: nat, r: Option<Parked>)
    requires Answer(s.points, b, view, if r.None? then None else Some(r.value.entry))
    ensures Answer(Live(s), b, view, if Alive(s, r).None? then None else Some(Alive(s, r).value.entry))
  {}

  /** The last slot within the bound, or none: the end of the run of the greatest key within it. */
  predicate EndsAt(slots: seq<SlotView>, b: Bound, n: nat) {
    && n <= |slots| && (forall j :: 0 <= j < n ==> Within(b, slots[j].entry.key))
    && (forall j :: n <= j < |slots| ==> !Within(b, slots[j].entry.key))
  }

  lemma {:induction false} EndExists(slots: seq<SlotView>, b: Bound, n: nat)
    requires SlotsOrdered(slots) && n <= |slots| && forall j :: n <= j < |slots| ==> !Within(b, slots[j].entry.key)
    ensures exists at :: 0 <= at <= |slots| && EndsAt(slots, b, at)
  {
    if n == 0 || Within(b, slots[n - 1].entry.key) {
      forall j | 0 <= j < n ensures Within(b, slots[j].entry.key) {
        assert j < n - 1 ==> Before(slots[j].entry, slots[n - 1].entry);
      }
      assert EndsAt(slots, b, n);
    } else {
      EndExists(slots, b, n - 1);
    }
  }

  /** What lies below slot `n` answers for the bound that ends there. */
  lemma BelowSlot(slots: seq<SlotView>, b: Bound, n: nat, view: nat, r: Option<Entry>)
    requires EndsAt(slots, b, n) && Answer(SlotPoints(slots, n), Everything, view, r)
    ensures Answer(SlotPoints(slots, |slots|), b, view, r)
  {
    forall f | f in SlotPoints(slots, |slots|) && Within(b, f.key) ensures f in SlotPoints(slots, n) {
      var i :| 0 <= i < |slots| && !slots[i].rangeDel && slots[i].entry == f;
      assert i < n;
    }
  }

  /** The search of the slots below `n`. */
  method ParkSlots(slots: seq<SlotView>, b: Bound, n: nat, view: nat) returns (h: Option<Parked>)
    requires SlotsOrdered(slots) && EndsAt(slots, b, n)
    ensures Answer(SlotPoints(slots, |slots|), b, view, if h.None? then None else Some(h.value.entry))
    ensures h.Some? ==> Lodged(Slots(slots), h.value)
  {
    if n == 0 {
      h := None;
    } else {
      h := AdvanceMemRev(slots, n - 1, view);
    }
    BelowSlot(slots, b, n, view, if h.None? then None else Some(h.value.entry));
  }

  /** `seek_prev` for one source. */
  method ParkFirst(s: Source, d: Stored, b: Bound, view: nat) returns (h: Option<Parked>)
    requires Walkable(d) && s.points == Held(d)
    ensures ParkedAt(s, d, b, view, h)
  {
    hide Answer, All;
    var r: Option<Parked>;
    match d {
      case Slots(slots) =>
        EndExists(slots, b, |slots|);
        var n :| 0 <= n <= |slots| && EndsAt(slots, b, n);
        r := ParkSlots(slots, b, n, view);
      case Table(blocks) =>
        if blocks == [] {
          NoBlocks(s, blocks, b, view);
          return None;
        }
        r := SeekRev(blocks, b, view);
    }
    AliveAnswer(s, b, view, r);
    return Alive(s, r);
  }

  lemma NoBlocks(s: Source, blocks: seq<DataBlock>, b: Bound, view: nat)
    requires blocks == [] && s.points == All(blocks)
    ensures Answer(Live(s), b, view, None)
  {}

  /** The re-park strictly below the key the cursor stands on starts at its own block, or below its run's first slot. */
  method ParkBelow(s: Source, d: Stored, ghost b: Bound, view: nat, h: Parked) returns (r: Option<Parked>)
    requires ParkedAt(s, d, b, view, Some(h))
    ensures ParkedAt(s, d, UpTo(h.entry.key, false), view, r)
    ensures r.Some? ==> r.value.entry.key < h.entry.key
  {
    var k := h.entry.key;
    var p: Option<Parked>;
    match d {
      case Slots(slots) =>
        p := ParkSlots(slots, UpTo(k, false), h.block, view);
      case Table(blocks) =>
        p := ParkRev(blocks, h.block, UpTo(k, false), view);
        LaterBlocks(blocks, h, view, if p.None? then None else Some(p.value.entry));
    }
    AliveAnswer(s, UpTo(k, false), view, p);
    return Alive(s, p);
  }

  lemma LaterBlocks(blocks: seq<DataBlock>, h: Parked, view: nat, r: Option<Entry>)
    requires Searchable(blocks) && h.block < |blocks| && h.entry in blocks[h.block].entries
    requires Answer(Blocks(blocks, 0, h.block + 1), UpTo(h.entry.key, false), view, r)
    ensures Answer(All(blocks), UpTo(h.entry.key, false), view, r)
  {
    assert All(blocks) == Blocks(blocks, 0, |blocks|);
    BlocksJoin(blocks, h.block + 1, |blocks|);
    forall f | f in Blocks(blocks, h.block + 1, |blocks|) ensures f.key >= h.entry.key {
      var i :| h.block < i < |blocks| && f in blocks[i].entries;
      assert Before(h.entry, f);
    }
  }

  /** A cursor on a smaller key stays where it is when the bound drops to `k`. */
  lemma StaysParked(s: Source, d: Stored, b: Bound, view: nat, h: Option<Parked>, k: Rank)
    requires ParkedAt(s, d, b, view, h) && Within(b, k) && (h.Some? ==> h.value.entry.key < k)
    ensures ParkedAt(s, d, UpTo(k, false), view, h)
  {
    hide Held, Walkable, Lodged;
    forall f | Qualifies(UpTo(k, false), view, f) ensures Qualifies(b, view, f) {}
  }

  function HeadOn(h: Option<Parked>, k: Rank): Option<Entry> {
    if h.Some? && h.value.entry.key == k && h.value.entry.seqno > 0 then Some(h.value.entry) else None
  }

  lemma HeadOnBest(sources: seq<Source>, d: Stored, b: Bound, view: nat, h: Option<Parked>, k: Rank, i: nat)
    requires i < |sources| && ParkedAt(sources[i], d, b, view, h) && Within(b, k)
             && (h.Some? ==> h.value.entry.key <= k)
    ensures Head(sources, k, view, i, HeadOn(h, k))
  {
    forall e | IsVersion(sources, k, view, i, e) ensures HeadOn(h, k).Some? && e.seqno <= h.value.entry.seqno {
      assert e in Live(sources[i]) && Qualifies(b, view, e);
    }
    if h.Some? { assert h.value.entry in Live(sources[i]); }
  }

  predicate AboveLower(lower: Option<Rank>, k: Rank) {
    lower.Some? ==> k > lower.value
  }

  /** A table wholly at or below the lower end of the range gets no cursor. */
  ghost predicate PastLower(s: Source, lower: Option<Rank>) {
    forall e :: e in s.points ==> !AboveLower(lower, e.key)
  }

  ghost predicate AllParked(sources: seq<Source>, stored: seq<Stored>, b: Bound, lower: Option<Rank>, view: nat,
                            heads: seq<Option<Parked>>) {
    && |heads| == |sources| == |stored|
    && forall i :: 0 <= i < |heads| ==>
      ParkedAt(sources[i], stored[i], b, view, heads[i]) || (heads[i].None? && PastLower(sources[i], lower))
  }

  lemma BelowLimits(ks: KeySpace, s: Source, lower: Option<Rank>)
    requires Bounded(ks, s) && s.limits.Some? && !AboveLower(lower, s.limits.value.last)
    ensures PastLower(s, lower)
  {}

  lemma PastIsBare(sources: seq<Source>, k: Rank, view: nat, i: nat, lower: Option<Rank>)
    requires i < |sources| && PastLower(sources[i], lower) && AboveLower(lower, k)
    ensures Head(sources, k, view, i, None)
  {}

  /** Keys between the cursors and the bound have no version. */
  lemma AboveCursors(sources: seq<Source>, stored: seq<Stored>, b: Bound, lower: Option<Rank>, view: nat, now: nat,
                     heads: seq<Option<Parked>>, x: Rank, v: Value)
    requires AllParked(sources, stored, b, lower, view, heads) && Within(b, x) && AboveLower(lower, x)
    requires forall i :: 0 <= i < |heads| && heads[i].Some? ==> heads[i].value.entry.key < x
    ensures !Reads(sources, x, view, now, v)
  {
    forall i: nat, e ensures !IsVersion(sources, x, view, i, e) {
      if i < |sources| && !PastLower(sources[i], lower) {
        assert ParkedAt(sources[i], stored[i], b, view, heads[i]);
        assert e in sources[i].points && e.key == x && x >= sources[i].first ==> e in Live(sources[i]);
      }
    }
  }

  /** `max_src`: the greatest key under a cursor. */
  method MaxKey(heads: seq<Option<Parked>>) returns (m: Option<nat>)
    ensures m.Some? ==> m.value < |heads| && heads[m.value].Some?
    ensures m.Some? ==> forall i :: 0 <= i < |heads| && heads[i].Some? ==>
              heads[i].value.entry.key <= heads[m.value].value.entry.key
    ensures m.None? ==> forall i :: 0 <= i < |heads| ==> heads[i].None?
  {
    m := None;
    for i := 0 to |heads|
      invariant m.Some? ==> m.value < i && heads[m.value].Some?
      invariant m.Some? ==> forall j :: 0 <= j < i && heads[j].Some? ==>
                  heads[j].value.entry.key <= heads[m.value].value.entry.key
      invariant m.None? ==> forall j :: 0 <= j < i ==> heads[j].None?
    {
      if heads[i].Some? && (m.None? || heads[i].value.entry.key > heads[m.value].value.entry.key) {
        m := Some(i);
      }
    }
  }

  /** The winner of key `k` under the cursors, if it is to be yielded. */
  method DecideRev(ghost ks: KeySpace, sources: seq<Source>, ghost stored: seq<Stored>, ghost b: Bound,
                   ghost lower: Option<Rank>, heads: seq<Option<Parked>>, view: nat, now: nat, k: Rank)
    returns (r: Option<Value>)
    requires Fair(sources) && AllBounded(ks, sources) && ks.Key(k)
    requires AllParked(sources, stored, b, lower, view, heads) && Within(b, k) && AboveLower(lower, k)
    requires forall i :: 0 <= i < |heads| && heads[i].Some? ==> heads[i].value.entry.key <= k
    ensures r.Some? ==> Reads(sources, k, view, now, r.value)
    ensures r.None? ==> forall v :: !Reads(sources, k, view, now, v)
  {
    hide Fair, AllBounded, ParkedAt, Head, Wins;
    var on := seq(|heads|, i requires 0 <= i < |heads| => HeadOn(heads[i], k));
    forall i | 0 <= i < |heads| ensures Head(sources, k, view, i, on[i]) {
      if ParkedAt(sources[i], stored[i], b, view, heads[i]) {
        HeadOnBest(sources, stored[i], b, view, heads[i], k, i);
      } else {
        PastIsBare(sources, k, view, i, lower);
      }
    }
    var w := PickWinner(sources, k, view, on);
    if w.None? {
      NoVersion(sources, k, view, now);
      return None;
    }
    var e := on[w.value].value;
    var covered := RdelHides(ks, sources, k, view, VersionOf(sources[w.value], e));
    OnlyWinner(sources, k, view, now, w.value, e);
    if e.tombstone || covered || Expired(e, now) {
      return None;
    }
    return Some(e.value);
  }

  /** Every readable key within `was` and not within `b` is behind: there is none. */
  ghost predicate PassedDown(sources: seq<Source>, view: nat, now: nat, was: Bound, b: Bound) {
    && (forall x :: Within(b, x) ==> Within(was, x))
    && (forall x, v :: Within(was, x) && !Within(b, x) ==> !Reads(sources, x, view, now, v))
  }

  ghost predicate NoneAbove(sources: seq<Source>, view: nat, now: nat, was: Bound, k: Rank) {
    forall x, v :: Within(was, x) && x > k ==> !Reads(sources, x, view, now, v)
  }

  ghost predicate NoneBelow(sources: seq<Source>, view: nat, now: nat, was: Bound, lower: Option<Rank>) {
    forall x, v :: Within(was, x) && (lower.Some? ==> x > lower.value) ==> !Reads(sources, x, view, now, v)
  }

  lemma DownToKey(sources: seq<Source>, stored: seq<Stored>, b: Bound, lower: Option<Rank>, view: nat, now: nat,
                  heads: seq<Option<Parked>>, was: Bound, k: Rank)
    requires AllParked(sources, stored, b, lower, view, heads) && PassedDown(sources, view, now, was, b)
             && Within(b, k) && AboveLower(lower, k)
    requires forall i :: 0 <= i < |heads| && heads[i].Some? ==> heads[i].value.entry.key <= k
    ensures NoneAbove(sources, view, now, was, k)
    ensures (forall v :: !Reads(sources, k, view, now, v)) ==> PassedDown(sources, view, now, was, UpTo(k, false))
  {
    hide ParkedAt, Reads;
    forall x, v | Within(was, x) && x > k ensures !Reads(sources, x, view, now, v) {
      if Within(b, x) { AboveCursors(sources, stored, b, lower, view, now, heads, x, v); }
    }
  }

  lemma EndDown(sources: seq<Source>, stored: seq<Stored>, b: Bound, view: nat, now: nat, heads: seq<Option<Parked>>,
                was: Bound, lower: Option<Rank>)
    requires AllParked(sources, stored, b, lower, view, heads) && PassedDown(sources, view, now, was, b)
    requires forall i :: 0 <= i < |heads| && heads[i].Some? ==> lower.Some? && heads[i].value.entry.key <= lower.value
    ensures NoneBelow(sources, view, now, was, lower)
  {
    hide ParkedAt, Reads;
    forall x, v | Within(was, x) && (lower.Some? ==> x > lower.value) ensures !Reads(sources, x, view, now, v) {
      if Within(b, x) { AboveCursors(sources, stored, b, lower, view, now, heads, x, v); }
    }
  }

  /** What a bound still leaves to visit. */
  ghost function Left(sources: seq<Source>, b: Bound): set<Entry> {
    set i, e | 0 <= i < |sources| && e in sources[i].points && Within(b, e.key) :: e
  }

  /** The key the scan has to yield next, and its value. */
  ghost predicate NextDown(sources: seq<Source>, view: nat, now: nat, was: Bound, lower: Option<Rank>, x: Rank,
                           v: Value) {
    && Within(was, x) && (lower.Some? ==> x > lower.value) && Reads(sources, x, view, now, v)
    && NoneAbove(sources, view, now, was, x)
  }

  class RevScan {
    ghost const ks: KeySpace
    const sources: seq<Source>
    const stored: seq<Stored>
    const view: nat
    const now: nat
    const lower: Option<Rank>
    const from: Bound
    var heads: seq<Option<Parked>>
    ghost var bound: Bound

    ghost predicate Valid()
      reads this
    {
      Fair(sources) && AllBounded(ks, sources) && AllParked(sources, stored, bound, lower, view, heads)
    }

    constructor (ghost ks: KeySpace, sources: seq<Source>, stored: seq<Stored>, from: Bound, lower: Option<Rank>,
                 view: nat, now: nat)
      requires Fair(sources) && AllBounded(ks, sources) && |stored| == |sources|
      requires forall i :: 0 <= i < |stored| ==> Walkable(stored[i]) && sources[i].points == Held(stored[i])
      ensures Valid() && bound == from && this.ks == ks && this.sources == sources && this.from == from
              && this.lower == lower && this.view == view && this.now == now
    {
      hide Fair, Bounded, KeySpace.Valid, ParkedAt, PastLower;
      this.ks := ks;
      this.sources, this.stored, this.view, this.now, this.lower, this.from := sources, stored, view, now, lower, from;
      var parked: seq<Option<Parked>> := [];
      for i := 0 to |stored|
        invariant |parked| == i
        invariant forall j :: 0 <= j < i ==>
                    ParkedAt(sources[j], stored[j], from, view, parked[j])
                        || (parked[j].None? && PastLower(sources[j], lower))
      {
        var h: Option<Parked> := None;
        if sources[i].limits.None? || AboveLower(lower, sources[i].limits.value.last) {
          h := ParkFirst(sources[i], stored[i], from, view);
        } else {
          BelowLimits(ks, sources[i], lower);
        }
        parked := parked + [h];
      }
      heads, bound := parked, from;
    }

    /** `advance_past_key_rev`. */
    method AdvanceBelow(k: Rank)
      requires Valid() && Within(bound, k)
               && forall i :: 0 <= i < |heads| && heads[i].Some? ==> heads[i].value.entry.key <= k
      requires exists i :: 0 <= i < |heads| && heads[i].Some? && heads[i].value.entry.key == k
      modifies this
      ensures Valid() && bound == UpTo(k, false) && Left(sources, bound) < old(Left(sources, bound))
    {
      hide Fair, AllBounded, ParkedAt;
      FewerLeft(sources, stored, bound, lower, view, heads, k);
      var next: seq<Option<Parked>> := [];
      for i := 0 to |heads|
        invariant heads == old(heads) && bound == old(bound) && Valid() && |next| == i
        invariant forall j :: 0 <= j < i ==>
                    ParkedAt(sources[j], stored[j], UpTo(k, false), view, next[j])
                        || (next[j].None? && PastLower(sources[j], lower))
      {
        var h := heads[i];
        if h.Some? && h.value.entry.key == k {
          h := ParkBelow(sources[i], stored[i], bound, view, h.value);
        } else if h.Some? || ParkedAt(sources[i], stored[i], bound, view, h) {
          StaysParked(sources[i], stored[i], bound, view, h, k);
        }
        next := next + [h];
      }
      heads, bound := next, UpTo(k, false);
    }

    /** `prev`. A buffer that is too small changes nothing the scan has yet to yield. */
    method Prev(keyLen: Rank -> nat, keyRoom: nat, valRoom: nat) returns (r: Step)
      requires Valid()
      modifies this
      ensures Valid()
      ensures r.Item? ==> Within(old(bound), r.key) && (lower.Some? ==> r.key > lower.value)
      ensures r.Item? ==> Reads(sources, r.key, view, now, r.value) && NoneAbove(sources, view, now, old(bound), r.key)
      ensures r.Item? ==> bound == UpTo(r.key, false) && Left(sources, bound) < old(Left(sources, bound))
      ensures r.Item? ==> keyLen(r.key) <= keyRoom && |r.value| <= valRoom
      ensures r.End? ==> NoneBelow(sources, view, now, old(bound), lower)
      ensures r.TooSmall? ==> forall x, v :: Within(old(bound), x) && Reads(sources, x, view, now, v) ==>
                Within(bound, x)
      ensures r.TooSmall? ==> exists x, v ::
                NextDown(sources, view, now, old(bound), lower, x, v) && Short(r, keyLen(x), keyRoom, |v|, valRoom)
    {
      hide Fair, Bounded, KeySpace.Valid, ParkedAt, Reads, Left;
      while true
        invariant Valid() && PassedDown(sources, view, now, old(bound), bound)
        invariant Left(sources, bound) <= old(Left(sources, bound))
        decreases Left(sources, bound)
      {
        var m := MaxKey(heads);
        if m.None? {
          EndDown(sources, stored, bound, view, now, heads, old(bound), lower);
          return End;
        }
        var k := heads[m.value].value.entry.key;
        HeadWithin(sources[m.value], stored[m.value], bound, view, heads[m.value].value);
        HeldIsKey(ks, sources[m.value], heads[m.value].value.entry);
        if lower.Some? && k <= lower.value {
          EndDown(sources, stored, bound, view, now, heads, old(bound), lower);
          return End;
        }
        DownToKey(sources, stored, bound, lower, view, now, heads, old(bound), k);
        var v := DecideRev(ks, sources, stored, bound, lower, heads, view, now, k);
        if v.None? {
          AdvanceBelow(k);
        } else if keyLen(k) > keyRoom {
          assert NextDown(sources, view, now, old(bound), lower, k, v.value);
          return TooSmall(keyLen(k));
        } else if |v.value| > valRoom {
          assert NextDown(sources, view, now, old(bound), lower, k, v.value);
          return TooSmall(|v.value|);
        } else {
          AdvanceBelow(k);
          return Item(k, v.value);
        }
      }
    }
  }

  lemma HeldIsKey(ks: KeySpace, s: Source, e: Entry)
    requires Bounded(ks, s) && e in s.points
    ensures ks.Key(e.key)
  {}

  lemma HeadWithin(s: Source, d: Stored, b: Bound, view: nat, h: Parked)
    requires ParkedAt(s, d, b, view, Some(h))
    ensures Within(b, h.entry.key) && h.entry in s.points
  {}

  lemma FewerLeft(sources: seq<Source>, stored: seq<Stored>, b: Bound, lower: Option<Rank>, view: nat,
                  heads: seq<Option<Parked>>, k: Rank)
    requires AllParked(sources, stored, b, lower, view, heads) && Within(b, k)
    requires exists i :: 0 <= i < |heads| && heads[i].Some? && heads[i].value.entry.key == k
    ensures Left(sources, UpTo(k, false)) < Left(sources, b)
  {
    hide ParkedAt;
    var i :| 0 <= i < |heads| && heads[i].Some? && heads[i].value.entry.key == k;
    HeadWithin(sources[i], stored[i], b, view, heads[i].value);
    assert heads[i].value.entry in Left(sources, b) && heads[i].value.entry !in Left(sources, UpTo(k, false));
  }

  predicate InRevRange(from: Bound, lower: Option<Rank>, k: Rank) {
    Within(from, k) && (lower.Some? ==> k > lower.value)
  }

  ghost predicate Descending(out: seq<Pair>) {
    forall i, j :: 0 <= i < j < |out| ==> out[i].key > out[j].key
  }

  ghost predicate YieldedDown(sources: seq<Source>, view: nat, now: nat, from: Bound, lower: Option<Rank>, b: Bound,
                              out: seq<Pair>) {
    && Descending(out)
    && (forall p :: p in out ==>
          InRevRange(from, lower, p.key) && Reads(sources, p.key, view, now, p.value) && !Within(b, p.key))
    && (forall x, v :: InRevRange(from, lower, x) && !Within(b, x) && Reads(sources, x, view, now, v) ==>
          Pair(x, v) in out)
    && (forall x :: Within(b, x) ==> Within(from, x))
  }

  lemma YieldPrev(sources: seq<Source>, view: nat, now: nat, from: Bound, lower: Option<Rank>, b: Bound,
                  out: seq<Pair>, p: Pair)
    requires Fair(sources) && YieldedDown(sources, view, now, from, lower, b, out)
    requires Within(b, p.key) && InRevRange(from, lower, p.key) && Reads(sources, p.key, view, now, p.value)
    requires NoneAbove(sources, view, now, b, p.key)
    ensures YieldedDown(sources, view, now, from, lower, UpTo(p.key, false), out + [p])
  {
    hide Fair, Reads;
    var all := out + [p];
    forall i, j | 0 <= i < j < |all| ensures all[i].key > all[j].key {
      assert j == |out| ==> out[i] in out;
    }
    forall x, v | InRevRange(from, lower, x) && !Within(UpTo(p.key, false), x) && Reads(sources, x, view, now, v)
      ensures Pair(x, v) in all
    {
      if x == p.key {
        ReadsUnique(sources, x, view, now, v, p.value);
        assert all[|out|] == Pair(x, v);
      } else {
        assert !Within(b, x);
      }
    }
  }

  /** Run to its end, a reverse scan yields exactly the readable keys of its range, strictly descending, each
      with its winning value. */
  method RevScanAll(scan: RevScan, keyLen: Rank -> nat, keyRoom: nat, valRoom: nat) returns (out: seq<Pair>)
    requires scan.Valid() && scan.bound == scan.from
    requires forall x, v :: Reads(scan.sources, x, scan.view, scan.now, v) ==> keyLen(x) <= keyRoom && |v| <= valRoom
    modifies scan
    ensures Descending(out)
    ensures forall x, v :: Pair(x, v) in out <==>
              InRevRange(scan.from, scan.lower, x) && Reads(scan.sources, x, scan.view, scan.now, v)
  {
    hide Fair, AllBounded, Reads, AllParked, Left;
    out := [];
    while true
      invariant scan.Valid() && YieldedDown(scan.sources, scan.view, scan.now, scan.from, scan.lower, scan.bound, out)
      decreases Left(scan.sources, scan.bound)
    {
      ghost var was := scan.bound;
      var r := scan.Prev(keyLen, keyRoom, valRoom);
      match r
      case Item(k, v) =>
        YieldPrev(scan.sources, scan.view, scan.now, scan.from, scan.lower, was, out, Pair(k, v));
        out := out + [Pair(k, v)];
      case TooSmall(_) =>
        assert false;
      case End =>
        return;
    }
  }
}
