/** The forward scan (`Scan` in src/scan.rs): it yields the readable keys of a range, ascending, each once. */
module ForwardScan {
  import opened Keys
  import opened Visibility
  import opened Merging
  import opened Cursors
  import opened Reading

  /** Keys the scan has not passed. */
  predicate Ahead(start: Rank, last: Option<Rank>, k: Rank) {
    k >= start && (last.Some? ==> k > last.value)
  }

  /** A parked cursor: `es` is what is left of the source, its head visible. */
  ghost predicate Remaining(s: Source, es: seq<Entry>, view: nat, start: Rank, last: Option<Rank>) {
    && Ordered(es) && (es != [] ==> es[0].seqno <= view)
    && (forall e :: e in es ==> e in s.points && e.key >= s.first && Ahead(start, last, e.key))
    && (forall e :: e in s.points && e.key >= s.first && Ahead(start, last, e.key) && e.seqno <= view ==> e in es)
  }

  /** `advance_past_key` for one cursor: past `k` it is on later keys. */
  method LeaveKey(ghost s: Source, d: Stored, c: Cursor, ghost es: seq<Entry>, view: nat, ghost start: Rank,
                  ghost last: Option<Rank>, k: Rank)
    returns (r: Cursor)
    requires Tracks(d, c, es) && Remaining(s, es, view, start, last) && Ahead(start, last, k)
             && (es != [] ==> k <= es[0].key)
    ensures Standing(d, r) && Remaining(s, Yet(d, r), view, start, Some(k)) && |Yet(d, r)| <= |es|
    ensures es != [] && es[0].key == k ==> |Yet(d, r)| < |es|
  {
    hide Standing, Yet;
    r := c;
    ghost var rest := es;
    HeadFirst(d, r, rest);
    while r.head.Some? && r.head.value.key == k
      invariant Tracks(d, r, rest) && (r.head.Some? ==> rest != [] && rest[0] == r.head.value)
                && (r.head.None? ==> rest == [])
      invariant Ordered(rest) && |rest| <= |es| && (rest != [] ==> rest[0].seqno <= view && k <= rest[0].key)
      invariant forall e :: e in rest ==> e in es
      invariant forall e :: e in es && e.seqno <= view && e.key > k ==> e in rest
      invariant rest != [] && es != [] && es[0].key == k ==> rest == es || |rest| < |es|
      decreases |rest|
    {
      TailOrdered(rest);
      SkipKeeps(rest[1..], view, None);
      AfterHead(rest);
      r := ParkNext(d, r, view, rest);
      rest := Skip(rest[1..], view, None);
      HeadFirst(d, r, rest);
    }
    LeftKey(s, es, rest, view, start, last, k);
  }

  lemma AfterHead(es: seq<Entry>)
    requires Ordered(es) && es != []
    ensures forall e :: e in es[1..] ==> e.key >= es[0].key
  {
    forall e | e in es[1..] ensures e.key >= es[0].key {
      var i :| 0 <= i < |es[1..]| && es[1..][i] == e;
      assert Before(es[0], es[i + 1]);
    }
  }

  lemma LeftKey(s: Source, es: seq<Entry>, r: seq<Entry>, view: nat, start: Rank, last: Option<Rank>, k: Rank)
    requires Remaining(s, es, view, start, last) && Ahead(start, last, k)
    requires Ordered(r) && (r != [] ==> r[0].seqno <= view && k < r[0].key)
    requires forall e :: e in r ==> e in es
    requires forall e :: e in es && e.seqno <= view && e.key > k ==> e in r
    ensures Remaining(s, r, view, start, Some(k))
  {
    forall e | e in r ensures e.key > k {
      var i :| 0 <= i < |r| && r[i] == e;
      assert i > 0 ==> Before(r[0], r[i]);
    }
  }

  /** A parked cursor shows its source's best version of a key, if it stands on it. */
  function HeadAt(h: Option<Entry>, k: Rank): Option<Entry> {
    if h.Some? && h.value.key == k && h.value.seqno > 0 then h else None
  }

  lemma HeadIsBest(sources: seq<Source>, es: seq<Entry>, h: Option<Entry>, view: nat, start: Rank, last: Option<Rank>,
                   k: Rank, i: nat)
    requires i < |sources| && Remaining(sources[i], es, view, start, last) && Ahead(start, last, k)
    requires (h.Some? ==> es != [] && es[0] == h.value && k <= es[0].key) && (h.None? ==> es == [])
    ensures Head(sources, k, view, i, HeadAt(h, k))
  {
    forall e | IsVersion(sources, k, view, i, e) ensures HeadAt(h, k).Some? && e.seqno <= es[0].seqno {
      assert e in es;
      var j :| 0 <= j < |es| && es[j] == e;
      assert j > 0 ==> Before(es[0], es[j]);
    }
    if es != [] { assert es[0] in es; }
  }

  function Count(rest: seq<seq<Entry>>): nat {
    if rest == [] then 0 else |rest[0]| + Count(rest[1..])
  }

  lemma {:induction false} CountLess(a: seq<seq<Entry>>, b: seq<seq<Entry>>)
    requires |a| == |b| && forall i :: 0 <= i < |a| ==> |a[i]| <= |b[i]|
    ensures Count(a) <= Count(b)
    ensures (exists i :: 0 <= i < |a| && |a[i]| < |b[i]|) ==> Count(a) < Count(b)
  {
    if a != [] {
      assert forall i :: 0 <= i < |a| - 1 ==> a[1..][i] == a[i + 1] && b[1..][i] == b[i + 1];
      CountLess(a[1..], b[1..]);
      if i :| 0 <= i < |a| && |a[i]| < |b[i]| {
        if i > 0 { assert |a[1..][i - 1]| < |b[1..][i - 1]|; }
      }
    }
  }

  datatype Step = Item(key: Rank, value: Value) | TooSmall(need: nat) | End

  /** A table wholly past the end of the range gets no cursor. */
  predicate PastEnd(s: Source, end: Option<Rank>) {
    end.Some? && s.first >= end.value
  }

  /** What each cursor has yet to pass. */
  ghost predicate AllRemaining(sources: seq<Source>, rest: seq<seq<Entry>>, view: nat, start: Rank, last: Option<Rank>,
                               end: Option<Rank>) {
    && |rest| == |sources|
    && forall i :: 0 <= i < |rest| ==>
      Remaining(sources[i], rest[i], view, start, last) || (rest[i] == [] && PastEnd(sources[i], end))
  }

  /** Each cursor holds the head of what it has yet to pass. */
  ghost predicate AllTrack(stored: seq<Stored>, cursors: seq<Cursor>, rest: seq<seq<Entry>>) {
    |stored| == |cursors| == |rest| && forall i :: 0 <= i < |rest| ==> Tracks(stored[i], cursors[i], rest[i])
  }

  ghost predicate HeadsOf(cursors: seq<Cursor>, rest: seq<seq<Entry>>) {
    && |cursors| == |rest|
    && forall i :: 0 <= i < |rest| ==>
         && (cursors[i].head.Some? ==> rest[i] != [] && rest[i][0] == cursors[i].head.value)
         && (cursors[i].head.None? ==> rest[i] == [])
  }

  lemma TrackHeads(stored: seq<Stored>, cursors: seq<Cursor>, rest: seq<seq<Entry>>)
    requires AllTrack(stored, cursors, rest)
    ensures HeadsOf(cursors, rest)
  {
    hide Tracks;
    forall i | 0 <= i < |rest|
      ensures (cursors[i].head.Some? ==> rest[i] != [] && rest[i][0] == cursors[i].head.value)
              && (cursors[i].head.None? ==> rest[i] == [])
    {
      HeadFirst(stored[i], cursors[i], rest[i]);
    }
  }

  /** No readable key lies ahead of `last` and before `k`. */
  ghost predicate NoneBefore(sources: seq<Source>, view: nat, now: nat, start: Rank, last: Option<Rank>, k: Rank) {
    forall x, v :: Ahead(start, last, x) && x < k ==> !Reads(sources, x, view, now, v)
  }

  ghost predicate NoneAhead(sources: seq<Source>, view: nat, now: nat, start: Rank, last: Option<Rank>,
                            end: Option<Rank>) {
    forall x, v :: Ahead(start, last, x) && (end.Some? ==> x < end.value) ==> !Reads(sources, x, view, now, v)
  }

  /** `min_src`: the least key under a cursor. */
  method MinKey(cursors: seq<Cursor>) returns (m: Option<nat>)
    ensures m.Some? ==> m.value < |cursors| && cursors[m.value].head.Some?
    ensures m.Some? ==> forall i :: 0 <= i < |cursors| && cursors[i].head.Some? ==>
              cursors[m.value].head.value.key <= cursors[i].head.value.key
    ensures m.None? ==> forall i :: 0 <= i < |cursors| ==> cursors[i].head.None?
  {
    m := None;
    for i := 0 to |cursors|
      invariant m.Some? ==> m.value < i && cursors[m.value].head.Some?
      invariant m.Some? ==> forall j :: 0 <= j < i && cursors[j].head.Some? ==>
                  cursors[m.value].head.value.key <= cursors[j].head.value.key
      invariant m.None? ==> forall j :: 0 <= j < i ==> cursors[j].head.None?
    {
      if cursors[i].head.Some? && (m.None? || cursors[i].head.value.key < cursors[m.value].head.value.key) {
        m := Some(i);
      }
    }
  }

  /** Nothing under a cursor is below its head. */
  lemma FromHead(es: seq<Entry>, x: Rank)
    requires Ordered(es) && (es != [] ==> x < es[0].key)
    ensures forall e :: e in es ==> x < e.key
  {
    forall e | e in es ensures x < e.key {
      var j :| 0 <= j < |es| && es[j] == e;
      assert j > 0 ==> Before(es[0], es[j]);
    }
  }

  /** Keys below every cursor have no version. */
  lemma BelowCursors(sources: seq<Source>, rest: seq<seq<Entry>>, view: nat, now: nat, start: Rank, last: Option<Rank>,
                     end: Option<Rank>, x: Rank, v: Value)
    requires AllRemaining(sources, rest, view, start, last, end) && Ahead(start, last, x) && InRange(start, end, x)
    requires forall i :: 0 <= i < |rest| && rest[i] != [] ==> x < rest[i][0].key
    ensures !Reads(sources, x, view, now, v)
  {
    forall i: nat, e ensures !IsVersion(sources, x, view, i, e) {
      if i < |sources| && !PastEnd(sources[i], end) {
        assert Remaining(sources[i], rest[i], view, start, last);
        FromHead(rest[i], x);
      }
    }
  }

  /** The winner of key `k` under the cursors, if it is to be yielded. */
  method Decide(ghost ks: KeySpace, sources: seq<Source>, cursors: seq<Cursor>, view: nat, now: nat, k: Rank,
                ghost rest: seq<seq<Entry>>, ghost start: Rank, ghost last: Option<Rank>,
                    ghost end: Option<Rank>) returns (r: Option<Value>)
    requires Fair(sources) && AllBounded(ks, sources) && ks.Key(k)
    requires AllRemaining(sources, rest, view, start, last, end) && HeadsOf(cursors, rest)
    requires Ahead(start, last, k) && InRange(start, end, k)
    requires forall i :: 0 <= i < |rest| && rest[i] != [] ==> k <= rest[i][0].key
    ensures r.Some? ==> Reads(sources, k, view, now, r.value)
    ensures r.None? ==> forall v :: !Reads(sources, k, view, now, v)
  {
    hide Fair, AllBounded, Remaining, Head, Wins;
    var heads := seq(|cursors|, i requires 0 <= i < |cursors| => HeadAt(cursors[i].head, k));
    forall i | 0 <= i < |cursors| ensures Head(sources, k, view, i, heads[i]) {
      if Remaining(sources[i], rest[i], view, start, last) {
        HeadIsBest(sources, rest[i], cursors[i].head, view, start, last, k, i);
      } else {
        PastIsEmpty(sources, k, view, i, end);
      }
    }
    var w := PickWinner(sources, k, view, heads);
    if w.None? {
      NoVersion(sources, k, view, now);
      return None;
    }
    var e := heads[w.value].value;
    var covered := RdelHides(ks, sources, k, view, VersionOf(sources[w.value], e));
    OnlyWinner(sources, k, view, now, w.value, e);
    if e.tombstone || covered || Expired(e, now) {
      return None;
    }
    return Some(e.value);
  }

  lemma PastIsEmpty(sources: seq<Source>, k: Rank, view: nat, i: nat, end: Option<Rank>)
    requires i < |sources| && PastEnd(sources[i], end) && (end.Some? ==> k < end.value)
    ensures Head(sources, k, view, i, None)
  {}

  lemma NoVersion(sources: seq<Source>, k: Rank, view: nat, now: nat)
    requires forall i: nat, e :: !IsVersion(sources, k, view, i, e)
    ensures forall v :: !Reads(sources, k, view, now, v)
  {}

  /** The key the scan has to yield next, and its value. */
  ghost predicate NextUp(sources: seq<Source>, view: nat, now: nat, start: Rank, last: Option<Rank>, end: Option<Rank>,
                         x: Rank, v: Value) {
    && Ahead(start, last, x) && (end.Some? ==> x < end.value) && Reads(sources, x, view, now, v)
    && NoneBefore(sources, view, now, start, last, x)
  }

  /** The buffer named is too small, and what it would take is reported. */
  predicate Short(r: Step, keyLen: nat, keyRoom: nat, valLen: nat, valRoom: nat) {
    if keyLen > keyRoom then r == TooSmall(keyLen) else valLen > valRoom && r == TooSmall(valLen)
  }

  class Scan {
    ghost const ks: KeySpace
    const sources: seq<Source>
    const stored: seq<Stored>
    const view: nat
    const now: nat
    const start: Rank
    const end: Option<Rank>
    var cursors: seq<Cursor>
    ghost var rest: seq<seq<Entry>>
    ghost var last: Option<Rank>

    ghost predicate Valid()
      reads this
    {
      && Fair(sources) && AllBounded(ks, sources)
      && AllRemaining(sources, rest, view, start, last, end) && AllTrack(stored, cursors, rest)
    }

    /** `seek_with_time`: every cursor at its first visible entry from `start` and its live bound on; a table whose
        keys all lie outside the range gets none. */
    constructor (ghost ks: KeySpace, sources: seq<Source>, stored: seq<Stored>, start: Rank, end: Option<Rank>,
                 view: nat, now: nat)
      requires Fair(sources) && AllBounded(ks, sources) && |stored| == |sources|
      requires forall i :: 0 <= i < |stored| ==> Walkable(stored[i]) && sources[i].points == Held(stored[i])
      ensures Valid() && last == None && this.ks == ks && this.sources == sources && this.start == start
              && this.end == end && this.view == view && this.now == now
    {
      hide Fair, Bounded, Remaining, Standing, Walkable;
      this.ks := ks;
      this.sources, this.stored, this.start, this.end, this.view, this.now := sources, stored, start, end, view, now;
      var parked: seq<Cursor> := [];
      ghost var ahead: seq<seq<Entry>> := [];
      for i := 0 to |stored|
        invariant |parked| == |ahead| == i && AllTrack(stored[..i], parked, ahead)
                  && AllRemaining(sources[..i], ahead, view, start, None, end)
      {
        var c := Seek(sources[i], stored[i], start, end, view, ks);
        parked, ahead := parked + [c], ahead + [Yet(stored[i], c)];
      }
      assert stored[..|stored|] == stored && sources[..|stored|] == sources;
      cursors, rest, last := parked, ahead, None;
    }

    /** Moves every cursor past `k`. */
    method AdvancePast(k: Rank)
      requires Valid() && Ahead(start, last, k) && forall i :: 0 <= i < |rest| && rest[i] != [] ==> k <= rest[i][0].key
      requires exists i :: 0 <= i < |rest| && rest[i] != [] && rest[i][0].key == k
      modifies this
      ensures Valid() && last == Some(k) && Count(rest) < old(Count(rest))
    {
      hide Fair, AllBounded, Remaining, Tracks, Standing, Yet, PastEnd;
      var next: seq<Cursor> := [];
      ghost var left: seq<seq<Entry>> := [];
      for i := 0 to |cursors|
        invariant cursors == old(cursors) && rest == old(rest) && last == old(last) && Valid() && |next| == |left| == i
        invariant forall j :: 0 <= j < i ==> Tracks(stored[j], next[j], left[j]) && |left[j]| <= |rest[j]|
        invariant forall j :: 0 <= j < i ==>
                    Remaining(sources[j], left[j], view, start, Some(k)) || (left[j] == [] && PastEnd(sources[j], end))
        invariant forall j :: 0 <= j < i && rest[j] != [] && rest[j][0].key == k ==> |left[j]| < |rest[j]|
      {
        var c := PassKey(sources[i], stored[i], cursors[i], rest[i], view, start, last, end, k);
        next, left := next + [c], left + [Yet(stored[i], c)];
      }
      CountLess(left, rest);
      cursors, rest, last := next, left, Some(k);
    }

    /** `next`. A buffer that is too small changes nothing the scan has yet to yield. */
    method Next(keyLen: Rank -> nat, keyRoom: nat, valRoom: nat) returns (r: Step)
      requires Valid()
      modifies this
      ensures Valid()
      ensures r.Item? ==> Ahead(start, old(last), r.key) && (end.Some? ==> r.key < end.value)
      ensures r.Item? ==>
                Reads(sources, r.key, view, now, r.value) && NoneBefore(sources, view, now, start, old(last), r.key)
      ensures r.Item? ==> last == Some(r.key) && Count(rest) < old(Count(rest))
      ensures r.Item? ==> keyLen(r.key) <= keyRoom && |r.value| <= valRoom
      ensures r.End? ==> NoneAhead(sources, view, now, start, old(last), end)
      ensures r.TooSmall? ==> forall x, v :: Ahead(start, old(last), x) && Reads(sources, x, view, now, v) ==>
                Ahead(start, last, x)
      ensures r.TooSmall? ==> exists x, v ::
                NextUp(sources, view, now, start, old(last), end, x, v) && Short(r, keyLen(x), keyRoom, |v|, valRoom)
    {
      hide Fair, Bounded, KeySpace.Valid, Remaining, Reads, AllTrack;
      while true
        invariant Valid() && Passed(sources, view, now, start, old(last), last)
        invariant Count(rest) <= old(Count(rest))
        decreases Count(rest)
      {
        TrackHeads(stored, cursors, rest);
        var m := MinKey(cursors);
        if m.None? {
          EndOfScan(sources, rest, view, now, start, old(last), last, end);
          return End;
        }
        var k := cursors[m.value].head.value.key;
        HeadAhead(sources[m.value], rest[m.value], view, start, last);
        HeadIsKey(ks, sources[m.value], rest[m.value], view, start, last);
        if end.Some? && k >= end.value {
          EndOfScan(sources, rest, view, now, start, old(last), last, end);
          return End;
        }
        UpToKey(sources, rest, view, now, start, old(last), last, end, k);
        var v := Decide(ks, sources, cursors, view, now, k, rest, start, last, end);
        if v.None? {
          AdvancePast(k);
        } else if keyLen(k) > keyRoom {
          assert NextUp(sources, view, now, start, old(last), end, k, v.value);
          return TooSmall(keyLen(k));
        } else if |v.value| > valRoom {
          assert NextUp(sources, view, now, start, old(last), end, k, v.value);
          return TooSmall(|v.value|);
        } else {
          AdvancePast(k);
          return Item(k, v.value);
        }
      }
    }
  }

  lemma HeadIsKey(ks: KeySpace, s: Source, es: seq<Entry>, view: nat, start: Rank, last: Option<Rank>)
    requires Bounded(ks, s) && Remaining(s, es, view, start, last) && es != []
    ensures ks.Key(es[0].key)
  {
    assert es[0] in es;
  }

  lemma HeadAhead(s: Source, es: seq<Entry>, view: nat, start: Rank, last: Option<Rank>)
    requires Remaining(s, es, view, start, last) && es != []
    ensures Ahead(start, last, es[0].key)
  {
    assert es[0] in es;
  }

  lemma StaysEmpty(s: Source, view: nat, start: Rank, last: Option<Rank>, k: Rank)
    requires Ahead(start, last, k)
    ensures Remaining(s, [], view, start, last) ==> Remaining(s, [], view, start, Some(k))
  {}

  /** The same for a cursor that may have no key in the range. */
  method PassKey(ghost s: Source, d: Stored, c: Cursor, ghost es: seq<Entry>, view: nat, ghost start: Rank,
                 ghost last: Option<Rank>,
                 ghost end: Option<Rank>, k: Rank) returns (r: Cursor)
    requires Tracks(d, c, es) && (Remaining(s, es, view, start, last) || (es == [] && PastEnd(s, end)))
    requires Ahead(start, last, k) && (es != [] ==> k <= es[0].key)
    ensures Standing(d, r) && Tracks(d, r, Yet(d, r)) && |Yet(d, r)| <= |es|
            && (es != [] && es[0].key == k ==> |Yet(d, r)| < |es|)
    ensures Remaining(s, Yet(d, r), view, start, Some(k)) || (Yet(d, r) == [] && PastEnd(s, end))
  {
    hide Remaining, Standing, Yet;
    HeadFirst(d, c, es);
    if c.head.None? {
      StaysEmpty(s, view, start, last, k);
      return c;
    }
    r := LeaveKey(s, d, c, es, view, start, last, k);
  }

  /** `add_cursor` behind the key-range prune. */
  method Seek(s: Source, d: Stored, start: Rank, end: Option<Rank>, view: nat, ghost ks: KeySpace) returns (c: Cursor)
    requires Walkable(d) && s.points == Held(d) && Bounded(ks, s)
    ensures Standing(d, c) && (Remaining(s, Yet(d, c), view, start, None) || (c.head.None? && PastEnd(s, end)))
  {
    if s.limits.Some? && (s.limits.value.last < start || PastEnd(s, end)) {
      return Cursor(0, 0, None);
    }
    hide Walkable, Held;
    var floor := Max(start, s.first);
    c := SeekCursor(d, view, floor);
    ghost var es := Skip(Whole(d), view, Some(floor));
    WholeOrdered(d);
    SkipKeeps(Whole(d), view, Some(floor));
    SeekRemaining(s, es, view, start, floor);
  }

  lemma SeekRemaining(s: Source, es: seq<Entry>, view: nat, start: Rank, floor: Rank)
    requires floor == Max(start, s.first) && Ordered(es) && (es != [] ==> Shown(es[0], view, Some(floor)))
    requires forall e :: e in es ==> e in s.points
    requires forall e :: e in s.points && Shown(e, view, Some(floor)) ==> e in es
    ensures Remaining(s, es, view, start, None)
  {
    forall e | e in es ensures e.key >= floor {
      var i :| 0 <= i < |es| && es[i] == e;
      assert i > 0 ==> Before(es[0], es[i]);
    }
  }

  /** A key reads as its winner does. */
  lemma OnlyWinner(sources: seq<Source>, k: Rank, view: nat, now: nat, i: nat, e: Entry)
    requires Fair(sources) && Wins(sources, k, view, i, e)
    ensures Yields(sources, k, view, now, i, e) ==> Reads(sources, k, view, now, e.value)
    ensures !Yields(sources, k, view, now, i, e) ==> forall v :: !Reads(sources, k, view, now, v)
  {
    forall v | Reads(sources, k, view, now, v) ensures Yields(sources, k, view, now, i, e) {
      var j: nat, f :| Wins(sources, k, view, j, f) && Yields(sources, k, view, now, j, f) && f.value == v;
      BeatsTotal(sources, k, view, i, e, j, f);
    }
  }

  /** Every key passed since `was` reads as absent. */
  ghost predicate Passed(sources: seq<Source>, view: nat, now: nat, start: Rank, was: Option<Rank>,
                         last: Option<Rank>) {
    && (forall x :: Ahead(start, last, x) ==> Ahead(start, was, x))
    && (forall x, v :: Ahead(start, was, x) && !Ahead(start, last, x) ==> !Reads(sources, x, view, now, v))
  }

  lemma UpToKey(sources: seq<Source>, rest: seq<seq<Entry>>, view: nat, now: nat, start: Rank, was: Option<Rank>,
                last: Option<Rank>, end: Option<Rank>, k: Rank)
    requires InRange(start, end, k) && AllRemaining(sources, rest, view, start, last, end)
             && Passed(sources, view, now, start, was, last) && Ahead(start, last, k)
    requires forall i :: 0 <= i < |rest| && rest[i] != [] ==> k <= rest[i][0].key
    ensures NoneBefore(sources, view, now, start, was, k)
    ensures (forall v :: !Reads(sources, k, view, now, v)) ==> Passed(sources, view, now, start, was, Some(k))
  {
    forall x, v | Ahead(start, was, x) && x < k ensures !Reads(sources, x, view, now, v) {
      if Ahead(start, last, x) { BelowCursors(sources, rest, view, now, start, last, end, x, v); }
    }
  }

  lemma EndOfScan(sources: seq<Source>, rest: seq<seq<Entry>>, view: nat, now: nat, start: Rank, was: Option<Rank>,
                  last: Option<Rank>, end: Option<Rank>)
    requires AllRemaining(sources, rest, view, start, last, end) && Passed(sources, view, now, start, was, last)
    requires forall i :: 0 <= i < |rest| && rest[i] != [] ==> end.Some? && end.value <= rest[i][0].key
    ensures NoneAhead(sources, view, now, start, was, end)
  {
    forall x, v | Ahead(start, was, x) && (end.Some? ==> x < end.value) ensures !Reads(sources, x, view, now, v) {
      if Ahead(start, last, x) { BelowCursors(sources, rest, view, now, start, last, end, x, v); }
    }
  }

  datatype Pair = Pair(key: Rank, value: Value)

  predicate InRange(start: Rank, end: Option<Rank>, k: Rank) {
    start <= k && (end.Some? ==> k < end.value)
  }

  ghost predicate Ascending(out: seq<Pair>) {
    forall i, j :: 0 <= i < j < |out| ==> out[i].key < out[j].key
  }

  /** What was yielded is what is readable up to `last`. */
  ghost predicate Yielded(sources: seq<Source>, view: nat, now: nat, start: Rank, end: Option<Rank>,
                          last: Option<Rank>, out: seq<Pair>) {
    && Ascending(out)
    && (forall p :: p in out ==>
          InRange(start, end, p.key) && Reads(sources, p.key, view, now, p.value) && !Ahead(start, last, p.key))
    && (forall x, v :: InRange(start, end, x) && !Ahead(start, last, x) && Reads(sources, x, view, now, v) ==>
          Pair(x, v) in out)
  }

  lemma YieldNext(sources: seq<Source>, view: nat, now: nat, start: Rank, end: Option<Rank>, last: Option<Rank>,
                  out: seq<Pair>, p: Pair)
    requires Fair(sources) && Yielded(sources, view, now, start, end, last, out)
    requires Ahead(start, last, p.key) && InRange(start, end, p.key) && Reads(sources, p.key, view, now, p.value)
    requires NoneBefore(sources, view, now, start, last, p.key)
    ensures Yielded(sources, view, now, start, end, Some(p.key), out + [p])
  {
    hide Fair, Reads;
    var all := out + [p];
    forall i, j | 0 <= i < j < |all| ensures all[i].key < all[j].key {
      assert j == |out| ==> out[i] in out;
    }
    forall x, v | InRange(start, end, x) && !Ahead(start, Some(p.key), x) && Reads(sources, x, view, now, v)
      ensures Pair(x, v) in all
    {
      if x == p.key {
        ReadsUnique(sources, x, view, now, v, p.value);
        assert all[|out|] == Pair(x, v);
      } else {
        assert !Ahead(start, last, x);
      }
    }
  }

  /** Run to its end, a scan yields exactly the readable keys of its range, strictly ascending, each with its
      winning value. */
  method ScanAll(scan: Scan, keyLen: Rank -> nat, keyRoom: nat, valRoom: nat) returns (out: seq<Pair>)
    requires scan.Valid() && scan.last == None
    requires forall x, v :: Reads(scan.sources, x, scan.view, scan.now, v) ==> keyLen(x) <= keyRoom && |v| <= valRoom
    modifies scan
    ensures Ascending(out)
    ensures forall x, v :: Pair(x, v) in out <==>
              InRange(scan.start, scan.end, x) && Reads(scan.sources, x, scan.view, scan.now, v)
  {
    hide Fair, AllBounded, Reads, AllRemaining, AllTrack;
    out := [];
    while true
      invariant scan.Valid() && Yielded(scan.sources, scan.view, scan.now, scan.start, scan.end, scan.last, out)
      decreases Count(scan.rest)
    {
      ghost var was := scan.last;
      var r := scan.Next(keyLen, keyRoom, valRoom);
      match r
      case Item(k, v) =>
        YieldNext(scan.sources, scan.view, scan.now, scan.start, scan.end, was, out, Pair(k, v));
        out := out + [Pair(k, v)];
      case TooSmall(_) =>
        assert false;
      case End =>
        return;
    }
  }
}
