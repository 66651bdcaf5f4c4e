/** The streaming merge of range-tombstone sections (`RdelMerger` of src/compact.rs). */
module RdelMerge {
  import opened Keys
  import opened Tombstones

  /** One table's range-tombstone section and the table's live lower bound. */
  datatype Section = Section(lower: Rank, entries: seq<Rdel>)

  /** What `fill_rdel_head` makes of one stored entry: cut at the live lower bound, gone when wholly below it. */
  function ClipEntry(lower: Rank, e: Rdel): seq<Rdel> {
    if e.end <= lower then [] else [e.(start := Max(e.start, lower))]
  }

  function ClipEntries(lower: Rank, es: seq<Rdel>): seq<Rdel> {
    if es == [] then [] else ClipEntry(lower, es[0]) + ClipEntries(lower, es[1..])
  }

  /** The live tombstones of `sections`, read one section after another. */
  function Live(sections: seq<Section>): seq<Rdel> {
    if sections == [] then [] else ClipEntries(sections[0].lower, sections[0].entries) + Live(sections[1..])
  }

  /** `RdelHead`: a read position over a list of sections (one for a source, the targets for the
      concatenating head) plus the parsed head entry. */
  datatype Head = Head(sections: seq<Section>, at: nat, entry: Option<Rdel>) {
    ghost predicate Valid() {
      sections != [] ==> at <= |sections[0].entries|
    }

    ghost function Rest(): seq<Rdel>
      requires Valid()
    {
      (if entry.Some? then [entry.value] else [])
      + if sections == [] then []
        else ClipEntries(sections[0].lower, sections[0].entries[at..]) + Live(sections[1..])
    }
  }

  /** `fill_rdel_head`: parses entries until one is live or every section is read. */
  method Fill(h: Head) returns (r: Head)
    requires h.Valid()
    ensures r.Valid() && r.Rest() == h.Rest()
    ensures r.entry.None? ==> h.Rest() == []
  {
    r := h;
    if r.entry.Some? {
      return;
    }
    while r.sections != []
      invariant r.Valid() && r.entry.None?
      invariant r.Rest() == h.Rest()
      decreases |r.sections|, if r.sections == [] then 0 else |r.sections[0].entries| - r.at
    {
      var s := r.sections[0];
      if r.at == |s.entries| {
        SectionDone(r);
        r := Head(r.sections[1..], 0, None);
        continue;
      }
      var e := s.entries[r.at];
      EntryRead(r);
      r := r.(at := r.at + 1);
      if e.end <= s.lower {
        continue;
      }
      r := r.(entry := Some(e.(start := Max(e.start, s.lower))));
      return;
    }
  }

  lemma SectionDone(h: Head)
    requires h.Valid() && h.entry.None? && h.sections != [] && h.at == |h.sections[0].entries|
    ensures Head(h.sections[1..], 0, None).Rest() == h.Rest()
  {
    assert h.sections[0].entries[h.at..] == [];
    if h.sections[1..] != [] {
      assert h.sections[1].entries[0..] == h.sections[1].entries;
    }
  }

  lemma EntryRead(h: Head)
    requires h.Valid() && h.entry.None? && h.sections != [] && h.at < |h.sections[0].entries|
    ensures h.Rest() == ClipEntry(h.sections[0].lower, h.sections[0].entries[h.at]) + h.(at := h.at + 1).Rest()
  {
    var es := h.sections[0].entries[h.at..];
    assert es[0] == h.sections[0].entries[h.at] && es[1..] == h.sections[0].entries[h.at + 1..];
  }

  /** Merge order: start ascending, sequence descending. */
  predicate EntryLess(a: Rdel, b: Rdel) {
    a.start < b.start || (a.start == b.start && a.seqno > b.seqno)
  }

  /** The least head among the first `n`, the earliest on ties; -1 when all are exhausted. */
  function MinHead(heads: seq<seq<Rdel>>, n: nat): (m: int)
    requires n <= |heads|
    ensures -1 <= m < n
    ensures m == -1 ==> forall i :: 0 <= i < n ==> heads[i] == []
    ensures m >= 0 ==> heads[m] != [] && forall i :: 0 <= i < n && heads[i] != [] ==>
              !EntryLess(heads[i][0], heads[m][0])
  {
    if n == 0 then -1
    else
      var m := MinHead(heads, n - 1);
      if heads[n - 1] == [] then m
      else if m == -1 || EntryLess(heads[n - 1][0], heads[m][0]) then n - 1
      else m
  }

  function Size(heads: seq<seq<Rdel>>): nat {
    if heads == [] then 0 else |heads[0]| + Size(heads[1..])
  }

  lemma {:induction false} SizePop(heads: seq<seq<Rdel>>, m: nat)
    requires m < |heads| && heads[m] != []
    ensures Size(heads[m := heads[m][1..]]) == Size(heads) - 1
  {
    var popped := heads[m := heads[m][1..]];
    if m == 0 {
      assert popped[1..] == heads[1..];
    } else {
      SizePop(heads[1..], m - 1);
      assert popped[1..] == heads[1..][m - 1 := heads[m][1..]];
    }
  }

  datatype State = State(heads: seq<seq<Rdel>>, pending: Option<Rdel>, last: Option<Rdel>)

  datatype Rule = Rule(bottommost: bool, oldest: nat)

  /** `set_pending_from_head`'s drop: an identical range, newer and visible to every snapshot, was just emitted. */
  predicate Shadowed(rule: Rule, last: Option<Rdel>, e: Rdel) {
    && rule.bottommost && e.seqno < rule.oldest
    && last.Some? && last.value.seqno > e.seqno && last.value.seqno <= rule.oldest
    && last.value.start == e.start && last.value.end == e.end
  }

  function Take(rule: Rule, last: Option<Rdel>, e: Rdel): Option<Rdel> {
    if Shadowed(rule, last, e) then None else Some(e)
  }

  predicate Coalesces(pending: Option<Rdel>, h: Rdel) {
    pending.Some? && h.seqno == pending.value.seqno && h.start <= pending.value.end
  }

  function Extend(p: Rdel, h: Rdel): Rdel {
    if h.end > p.end then p.(end := h.end) else p
  }

  function AsSeq(o: Option<Rdel>): seq<Rdel> {
    if o.Some? then [o.value] else []
  }

  /** One round of the merge: consumes the least head `s.heads[m]`. */
  function Step(rule: Rule, s: State, m: nat): (t: State)
    requires m < |s.heads| && s.heads[m] != []
  {
    var h := s.heads[m][0];
    var heads := s.heads[m := s.heads[m][1..]];
    if Coalesces(s.pending, h) then State(heads, Some(Extend(s.pending.value, h)), s.last)
    else
      var last := if s.pending.Some? then s.pending else s.last;
      State(heads, Take(rule, last, h), last)
  }

  predicate Emits(s: State, m: nat)
    requires m < |s.heads| && s.heads[m] != []
  {
    s.pending.Some? && !Coalesces(s.pending, s.heads[m][0])
  }

  /** Everything the merger still emits from state `s`, in order. */
  ghost function Drain(rule: Rule, s: State): seq<Rdel>
    decreases Size(s.heads)
  {
    var m := MinHead(s.heads, |s.heads|);
    if m == -1 then AsSeq(s.pending)
    else
      SizePop(s.heads, m);
      (if Emits(s, m) then AsSeq(s.pending) else []) + Drain(rule, Step(rule, s, m))
  }

  ghost predicate Valid(s: State) {
    && (forall i :: 0 <= i < |s.heads| ==> StartSorted(s.heads[i]))
    && (s.pending.Some? ==> Bounds(s.heads, s.pending.value.start))
  }

  ghost predicate Bounds(heads: seq<seq<Rdel>>, lo: Rank) {
    forall i, j :: 0 <= i < |heads| && 0 <= j < |heads[i]| ==> lo <= heads[i][j].start
  }

  lemma StepKeepsValid(rule: Rule, s: State, m: nat)
    requires Valid(s) && m == MinHead(s.heads, |s.heads|)
    ensures Valid(Step(rule, s, m))
    ensures Bounds(s.heads, s.heads[m][0].start)
  {
    var h := s.heads[m][0];
    var t := Step(rule, s, m);
    forall i, j | 0 <= i < |s.heads| && 0 <= j < |s.heads[i]| ensures h.start <= s.heads[i][j].start {
      assert s.heads[i] != [];
      StartSortedTail(s.heads[i]);
      assert s.heads[i][j] in s.heads[i];
    }
    assert StartSorted(s.heads[m][1..]) by { StartSortedTail(s.heads[m]); }
    forall i, j | 0 <= i < |t.heads| && 0 <= j < |t.heads[i]|
      ensures h.start <= t.heads[i][j].start
      ensures s.pending.Some? ==> s.pending.value.start <= t.heads[i][j].start
    {
      if i == m {
        assert t.heads[i][j] == s.heads[i][j + 1];
      } else {
        assert t.heads[i][j] == s.heads[i][j];
      }
    }
  }

  /** The emitted stream has non-decreasing starts, from the pending entry or the least head on. */
  lemma {:induction false} DrainSorted(rule: Rule, s: State, lo: Rank)
    requires Valid(s)
    requires if s.pending.Some? then s.pending.value.start >= lo else Bounds(s.heads, lo)
    ensures StartSorted(Drain(rule, s))
    ensures forall r :: r in Drain(rule, s) ==> lo <= r.start
    decreases Size(s.heads)
  {
    var m := MinHead(s.heads, |s.heads|);
    if m != -1 {
      SizePop(s.heads, m);
      StepKeepsValid(rule, s, m);
      var t := Step(rule, s, m);
      var h := s.heads[m][0];
      var from := if s.pending.Some? then s.pending.value.start else h.start;
      if t.pending.None? {
        forall i, j | 0 <= i < |t.heads| && 0 <= j < |t.heads[i]| ensures from <= t.heads[i][j].start {
          if i == m { assert t.heads[i][j] == s.heads[i][j + 1]; } else { assert t.heads[i][j] == s.heads[i][j]; }
        }
      }
      DrainSorted(rule, t, from);
      if Emits(s, m) {
        StartSortedCons(s.pending.value, Drain(rule, t));
      }
    }
  }

  ghost predicate InHeads(heads: seq<seq<Rdel>>, r: Rdel) {
    exists i :: 0 <= i < |heads| && r in heads[i]
  }

  /** Popping a head loses that entry and nothing else. */
  lemma PopMembers(heads: seq<seq<Rdel>>, m: nat, r: Rdel)
    requires m < |heads| && heads[m] != []
    ensures InHeads(heads, r) <==> r == heads[m][0] || InHeads(heads[m := heads[m][1..]], r)
  {
    var popped := heads[m := heads[m][1..]];
    assert heads[m] == [heads[m][0]] + heads[m][1..];
    if InHeads(heads, r) {
      var i :| 0 <= i < |heads| && r in heads[i];
      if r != heads[m][0] { assert r in popped[i]; }
    }
    if InHeads(popped, r) {
      var i :| 0 <= i < |popped| && r in popped[i];
      assert r in heads[i];
    }
    if r == heads[m][0] { assert r in heads[m]; }
  }

  ghost predicate Unread(s: State, r: Rdel) {
    s.pending == Some(r) || InHeads(s.heads, r)
  }

  /** Nothing a reader at or past the oldest snapshot relies on is lost by the merge. */
  lemma {:induction false} DrainKeeps(rule: Rule, s: State, r: Rdel, k: Rank, view: nat)
    requires Valid(s) && Unread(s, r) && VisibleCover(r, k, view) && (rule.bottommost ==> view >= rule.oldest)
    ensures exists q :: q in AsSeq(s.last) + Drain(rule, s) && VisibleCover(q, k, view) && q.seqno >= r.seqno
    decreases Size(s.heads)
  {
    var m := MinHead(s.heads, |s.heads|);
    if m == -1 {
      assert r in Drain(rule, s);
    } else {
      SizePop(s.heads, m);
      StepKeepsValid(rule, s, m);
      PopMembers(s.heads, m, r);
      var h := s.heads[m][0];
      var t := Step(rule, s, m);
      var rest := Drain(rule, t);
      if Emits(s, m) && s.pending == Some(r) {
        assert r in Drain(rule, s);
      } else {
        var q := WitnessAfterStep(rule, s, m, r, k, view);
        assert q in AsSeq(s.last) + Drain(rule, s);
      }
    }
  }

  lemma {:induction false} WitnessAfterStep(rule: Rule, s: State, m: nat, r: Rdel, k: Rank, view: nat) returns (q: Rdel)
    requires Valid(s) && m == MinHead(s.heads, |s.heads|)
    requires Unread(s, r) && VisibleCover(r, k, view) && (rule.bottommost ==> view >= rule.oldest)
    requires !(Emits(s, m) && s.pending == Some(r))
    ensures VisibleCover(q, k, view) && q.seqno >= r.seqno
    ensures q in AsSeq(s.last) || (Emits(s, m) && s.pending == Some(q)) || q in Drain(rule, Step(rule, s, m))
    decreases Size(s.heads), 0
  {
    SizePop(s.heads, m);
    StepKeepsValid(rule, s, m);
    PopMembers(s.heads, m, r);
    var h := s.heads[m][0];
    var t := Step(rule, s, m);
    var next: Rdel := r;
    if Coalesces(s.pending, h) {
      if s.pending == Some(r) || r == h { next := t.pending.value; }
    } else if r == h && t.pending.None? {
      q := t.last.value;
      return;
    }
    assert Unread(t, next) && VisibleCover(next, k, view);
    DrainKeeps(rule, t, next, k, view);
    q :| q in AsSeq(t.last) + Drain(rule, t) && VisibleCover(q, k, view) && q.seqno >= next.seqno;
  }

  /** An emitted tombstone starts where an unread one starts and ends where one ends, not before the first. */
  ghost predicate Bounded(s: State, q: Rdel) {
    exists a, b :: Unread(s, a) && Unread(s, b) && q.start == a.start && a.end <= q.end && q.end == b.end
  }

  lemma {:induction false} DrainBounds(rule: Rule, s: State, q: Rdel)
    requires q in Drain(rule, s)
    ensures Bounded(s, q)
    decreases Size(s.heads)
  {
    var m := MinHead(s.heads, |s.heads|);
    if m == -1 || (Emits(s, m) && s.pending == Some(q)) {
      assert Unread(s, q);
    } else {
      SizePop(s.heads, m);
      var t := Step(rule, s, m);
      DrainBounds(rule, t, q);
      var a, b :| Unread(t, a) && Unread(t, b) && q.start == a.start && a.end <= q.end && q.end == b.end;
      var a', _ := WasUnread(rule, s, m, a);
      var _, b' := WasUnread(rule, s, m, b);
      assert Unread(s, a') && Unread(s, b');
    }
  }

  lemma WasUnread(rule: Rule, s: State, m: nat, r: Rdel) returns (a: Rdel, b: Rdel)
    requires m < |s.heads| && s.heads[m] != [] && Unread(Step(rule, s, m), r)
    ensures Unread(s, a) && Unread(s, b) && r.start == a.start && a.end <= r.end && r.end == b.end
  {
    var h, t := s.heads[m][0], Step(rule, s, m);
    PopMembers(s.heads, m, r);
    PopMembers(s.heads, m, h);
    a, b := r, r;
    if t.pending == Some(r) && Coalesces(s.pending, h) {
      a := s.pending.value;
      b := if h.end > a.end then h else a;
    } else if t.pending == Some(r) {
      a, b := h, h;
    }
  }

  /** The merge invents nothing: each emitted piece's cover at a key is an unread entry's. */
  lemma {:induction false} DrainInvents(rule: Rule, s: State, q: Rdel, k: Rank)
    requires Valid(s) && q in Drain(rule, s) && Covers(q, k)
    ensures exists r :: Unread(s, r) && Covers(r, k) && r.seqno == q.seqno
    decreases Size(s.heads)
  {
    var m := MinHead(s.heads, |s.heads|);
    if m == -1 || (Emits(s, m) && s.pending == Some(q)) {
      assert Unread(s, q);
    } else {
      SizePop(s.heads, m);
      StepKeepsValid(rule, s, m);
      var t := Step(rule, s, m);
      DrainInvents(rule, t, q, k);
      var r :| Unread(t, r) && Covers(r, k) && r.seqno == q.seqno;
      var h := s.heads[m][0];
      PopMembers(s.heads, m, r);
      PopMembers(s.heads, m, h);
      if Coalesces(s.pending, h) && t.pending == Some(r) {
        var p := s.pending.value;
        assert Unread(s, p) && Unread(s, h);
        assert Covers(p, k) || Covers(h, k);
      } else {
        assert InHeads(s.heads, r);
      }
    }
  }

  ghost predicate AllValid(heads: seq<Head>) {
    forall i :: 0 <= i < |heads| ==> heads[i].Valid()
  }

  /** What each head still has to deliver. */
  ghost function Rests(heads: seq<Head>): (r: seq<seq<Rdel>>)
    requires AllValid(heads)
    ensures |r| == |heads| && forall i :: 0 <= i < |heads| ==> r[i] == heads[i].Rest()
  {
    seq(|heads|, i requires 0 <= i < |heads| => heads[i].Rest())
  }

  /** Each head holds the first of what it still has to deliver. */
  ghost predicate AllFilled(heads: seq<Head>, rests: seq<seq<Rdel>>) {
    && |rests| == |heads|
    && forall i :: 0 <= i < |heads| ==>
         if heads[i].entry.Some? then rests[i] != [] && rests[i][0] == heads[i].entry.value else rests[i] == []
  }

  /** `min_head`. */
  /** A parsed head is the first of what is left. */
  lemma HeadFirst(h: Head)
    requires h.Valid() && h.entry.Some?
    ensures h.Rest() != [] && h.Rest()[0] == h.entry.value
  {}

  /** `a` comes no later than `b`: it starts before it, or there and is no older. */
  predicate LeastFirst(a: Rdel, b: Rdel) {
    a.start < b.start || (a.start == b.start && a.seqno >= b.seqno)
  }

  method PickMin(heads: seq<Head>, ghost rests: seq<seq<Rdel>>) returns (m: int)
    requires AllFilled(heads, rests)
    ensures m == MinHead(rests, |heads|)
    ensures m >= 0 ==> heads[m].entry.Some?
    ensures forall i :: 0 <= i < |heads| && heads[i].entry.Some? ==>
              m >= 0 && LeastFirst(heads[m].entry.value, heads[i].entry.value)
    ensures m >= 0 ==> forall i :: 0 <= i < m && heads[i].entry.Some? ==>
              heads[i].entry.value.start != heads[m].entry.value.start
                  || heads[i].entry.value.seqno != heads[m].entry.value.seqno
  {
    m := -1;
    var i := 0;
    while i < |heads|
      invariant 0 <= i <= |heads|
      invariant m == MinHead(rests, i)
      invariant m >= 0 ==> m < i && heads[m].entry.Some?
      invariant forall j :: 0 <= j < i && heads[j].entry.Some? ==>
                  m >= 0 && LeastFirst(heads[m].entry.value, heads[j].entry.value)
      invariant m >= 0 ==> forall j :: 0 <= j < m && heads[j].entry.Some? ==>
                  heads[j].entry.value.start != heads[m].entry.value.start
                      || heads[j].entry.value.seqno != heads[m].entry.value.seqno
    {
      if heads[i].entry.Some? && (m == -1 || EntryLess(heads[i].entry.value, heads[m].entry.value)) {
        m := i;
      }
      i := i + 1;
    }
  }

  /** `RdelMerger`. */
  class Merger {
    const rule: Rule
    var heads: seq<Head>
    var pending: Option<Rdel>
    var last: Option<Rdel>
    var current: Rdel

    ghost predicate Ready()
      reads this
    {
      AllValid(heads)
    }

    ghost function View(): State
      reads this
      requires Ready()
    {
      State(Rests(heads), pending, last)
    }

    /** One head per source, then one concatenating head over the targets. */
    constructor (rule: Rule, sources: seq<Section>, targets: seq<Section>)
      ensures this.rule == rule && Ready()
      ensures View() == Initial(sources, targets)
    {
      this.rule := rule;
      heads := seq(|sources|, i requires 0 <= i < |sources| => Head([sources[i]], 0, None)) + [Head(targets, 0, None)];
      pending, last, current := None, None, Rdel(0.0, 0.0, 0);
      new;
      forall i | 0 <= i < |sources| ensures heads[i].Rest() == Live([sources[i]]) {
        assert sources[i].entries[0..] == sources[i].entries;
        assert [sources[i]][1..] == [];
      }
      assert heads[|sources|].Rest() == Live(targets) by {
        if targets != [] { assert targets[0].entries[0..] == targets[0].entries; }
      }
      assert View().heads == Initial(sources, targets).heads;
    }

    method FillAll()
      requires Ready()
      modifies this
      ensures Ready() && View() == old(View()) && |heads| == old(|heads|)
      ensures AllFilled(heads, View().heads)
    {
      hide Head.Rest, Head.Valid, Live, ClipEntries;
      ghost var before := View();
      var i := 0;
      while i < |heads|
        invariant 0 <= i <= |heads| && |heads| == old(|heads|) && Ready()
        invariant forall j :: 0 <= j < |heads| ==> heads[j].Rest() == before.heads[j]
        invariant pending == before.pending && last == before.last
        invariant forall j :: 0 <= j < i && heads[j].entry.None? ==> before.heads[j] == []
      {
        var h := Fill(heads[i]);
        heads := heads[i := h];
        i := i + 1;
      }
      assert View().heads == before.heads;
      forall j | 0 <= j < |heads| && heads[j].entry.Some?
        ensures before.heads[j] != [] && before.heads[j][0] == heads[j].entry.value
      {
        HeadFirst(heads[j]);
      }
    }

    /** The body of `next_merged`'s loop: head `m` joins the pending entry or displaces it. */
    method Consume(m: nat) returns (emit: bool)
      requires Ready() && m < |heads| && heads[m].entry.Some?
      modifies this
      ensures Ready()
      ensures old(View()).heads[m] != []
      ensures View() == Step(rule, old(View()), m)
      ensures emit == Emits(old(View()), m)
      ensures emit ==> Some(current) == old(pending)
    {
      ghost var before := View();
      var h := heads[m].entry.value;
      assert before.heads[m][0] == h;
      emit := false;
      if Coalesces(pending, h) {
        pending := Some(Extend(pending.value, h));
      } else {
        if pending.Some? {
          current, last := pending.value, pending;
          emit := true;
        }
        pending := Take(rule, last, h);
      }
      heads := heads[m := heads[m].(entry := None)];
      assert heads[m].Rest() == before.heads[m][1..];
      assert View().heads == before.heads[m := before.heads[m][1..]];
    }

    /** `next_merged`: emits the next element of the drain and leaves the rest to emit. */
    method NextMerged() returns (more: bool)
      requires Ready()
      modifies this
      ensures Ready()
      ensures more ==> old(Drain(rule, View())) == [current] + Drain(rule, View())
      ensures !more ==> old(Drain(rule, View())) == [] && Drain(rule, View()) == []
    {
      ghost var all := Drain(rule, View());
      while true
        invariant Ready() && Drain(rule, View()) == all
        decreases Size(View().heads)
      {
        FillAll();
        var m := PickMin(heads, View().heads);
        ghost var before := View();
        if m == -1 {
          more := pending.Some?;
          if more {
            current, last, pending := pending.value, pending, None;
            assert View().heads == before.heads;
          }
          return;
        }
        SizePop(before.heads, m);
        more := Consume(m);
        if more {
          return;
        }
      }
    }
  }

  ghost function Initial(sources: seq<Section>, targets: seq<Section>): State {
    State(seq(|sources|, i requires 0 <= i < |sources| => Live([sources[i]])) + [Live(targets)], None, None)
  }

  /** Every live tombstone of the inputs. */
  ghost function Inputs(sources: seq<Section>, targets: seq<Section>): seq<Rdel> {
    Live(sources) + Live(targets)
  }

  /** Sections are stored in start order and hold no empty range; target tables are disjoint and in key order. */
  ghost predicate WellFormed(s: Section) {
    StartSorted(s.entries) && forall e :: e in s.entries ==> e.start < e.end
  }

  ghost predicate DisjointTargets(targets: seq<Section>) {
    forall i, j, e :: 0 <= i < j < |targets| && e in targets[i].entries ==> e.end <= targets[j].lower
  }

  lemma {:induction false} ClipMembers(lower: Rank, es: seq<Rdel>, r: Rdel)
    ensures r in ClipEntries(lower, es) <==> exists e ::
              e in es && e.end > lower && r == e.(start := Max(e.start, lower))
  {
    if es != [] {
      ClipMembers(lower, es[1..], r);
      assert es == [es[0]] + es[1..];
    }
  }

  lemma {:induction false} ClipSorted(lower: Rank, es: seq<Rdel>)
    requires StartSorted(es)
    ensures StartSorted(ClipEntries(lower, es))
  {
    if es != [] {
      StartSortedTail(es);
      ClipSorted(lower, es[1..]);
      if es[0].end > lower {
        var e := es[0].(start := Max(es[0].start, lower));
        forall q | q in ClipEntries(lower, es[1..]) ensures e.start <= q.start {
          ClipMembers(lower, es[1..], q);
        }
        StartSortedCons(e, ClipEntries(lower, es[1..]));
      }
    }
  }

  lemma {:induction false} LiveMembers(sections: seq<Section>, r: Rdel)
    ensures r in Live(sections) <==>
            exists i, e :: 0 <= i < |sections| && e in sections[i].entries && e.end > sections[i].lower
                           && r == e.(start := Max(e.start, sections[i].lower))
  {
    if sections != [] {
      ClipMembers(sections[0].lower, sections[0].entries, r);
      LiveMembers(sections[1..], r);
      assert forall i :: 1 <= i < |sections| ==> sections[i] == sections[1..][i - 1];
    }
  }

  lemma {:induction false} LiveSorted(sections: seq<Section>)
    requires forall s :: s in sections ==> WellFormed(s)
    requires DisjointTargets(sections)
    ensures StartSorted(Live(sections))
  {
    if sections != [] {
      var rest := sections[1..];
      LiveSorted(rest);
      assert WellFormed(sections[0]);
      ClipSorted(sections[0].lower, sections[0].entries);
      var a, b := ClipEntries(sections[0].lower, sections[0].entries), Live(rest);
      forall x, y | x in a && y in b ensures x.start <= y.start {
        TargetsInOrder(sections, x, y);
      }
      SortedConcat(a, b);
    }
  }

  lemma TargetsInOrder(sections: seq<Section>, x: Rdel, y: Rdel)
    requires sections != [] && WellFormed(sections[0]) && DisjointTargets(sections)
    requires x in ClipEntries(sections[0].lower, sections[0].entries) && y in Live(sections[1..])
    ensures x.start <= y.start
  {
    ClipMembers(sections[0].lower, sections[0].entries, x);
    LiveMembers(sections[1..], y);
    var e :| e in sections[0].entries && e.end > sections[0].lower && x == e.(start := Max(e.start, sections[0].lower));
    var i, f :| 0 <= i < |sections[1..]| && f in sections[1..][i].entries && f.end > sections[1..][i].lower
                && y == f.(start := Max(f.start, sections[1..][i].lower));
    assert sections[1..][i] == sections[i + 1];
  }

  lemma SortedConcat(a: seq<Rdel>, b: seq<Rdel>)
    requires StartSorted(a) && StartSorted(b)
    requires forall x, y :: x in a && y in b ==> x.start <= y.start
    ensures StartSorted(a + b)
  {
    var s := a + b;
    forall i, j | 0 <= i < j < |s| ensures s[i].start <= s[j].start {
      if i < |a| <= j {
        assert s[i] in a && s[j] in b;
      }
    }
  }

  lemma InitialValid(sources: seq<Section>, targets: seq<Section>)
    requires forall s :: s in sources || s in targets ==> WellFormed(s)
    requires DisjointTargets(targets)
    ensures Valid(Initial(sources, targets))
    ensures forall r :: Unread(Initial(sources, targets), r) <==> r in Inputs(sources, targets)
  {
    var s := Initial(sources, targets);
    forall i | 0 <= i < |s.heads| ensures StartSorted(s.heads[i]) {
      if i < |sources| {
        assert sources[i] in sources;
        LiveSorted([sources[i]]);
      } else {
        LiveSorted(targets);
      }
    }
    forall r ensures Unread(s, r) <==> r in Inputs(sources, targets) {
      LiveMembers(sources, r);
      forall i | 0 <= i < |sources| ensures r in s.heads[i] <==> r in Live([sources[i]]) {}
      if InHeads(s.heads, r) {
        var i :| 0 <= i < |s.heads| && r in s.heads[i];
        if i < |sources| {
          LiveMembers([sources[i]], r);
        }
      }
      if r in Live(sources) {
        var i, e :| 0 <= i < |sources| && e in sources[i].entries && e.end > sources[i].lower
                    && r == e.(start := Max(e.start, sources[i].lower));
        LiveMembers([sources[i]], r);
        assert [sources[i]][0] == sources[i];
        assert r in s.heads[i];
      }
      if r in Live(targets) {
        assert s.heads[|sources|] == Live(targets);
      }
    }
  }

  /** A reader the merge must answer: at or past the oldest snapshot, or past every tombstone merged
      (any reader, when the output is not bottommost). */
  ghost predicate Reader(rule: Rule, inputs: seq<Rdel>, view: nat) {
    (rule.bottommost ==> view >= rule.oldest) || forall r :: r in inputs ==> r.seqno <= view
  }

  /** The merged section: non-decreasing starts, and for every key and every such reader the same
      highest covering sequence as the inputs' live tombstones. */
  lemma MergedSection(rule: Rule, sources: seq<Section>, targets: seq<Section>)
    requires forall s :: s in sources || s in targets ==> WellFormed(s)
    requires DisjointTargets(targets)
    ensures StartSorted(Drain(rule, Initial(sources, targets)))
    ensures forall k, view: nat :: Reader(rule, Inputs(sources, targets), view) ==>
              CoverSeq(Drain(rule, Initial(sources, targets)), k, view) == CoverSeq(Inputs(sources, targets), k, view)
  {
    InitialValid(sources, targets);
    SortedFromStart(rule, Initial(sources, targets));
    forall k, view: nat | Reader(rule, Inputs(sources, targets), view)
      ensures CoverSeq(Drain(rule, Initial(sources, targets)), k, view) == CoverSeq(Inputs(sources, targets), k, view)
    {
      MergedCover(rule, Initial(sources, targets), Inputs(sources, targets), k, view);
    }
  }

  lemma MergedCover(rule: Rule, s: State, inputs: seq<Rdel>, k: Rank, view: nat)
    requires Valid(s) && s.last.None? && Reader(rule, inputs, view)
    requires forall r :: Unread(s, r) <==> r in inputs
    ensures CoverSeq(Drain(rule, s), k, view) == CoverSeq(inputs, k, view)
  {
    hide Drain, Valid, CoverSeq, Unread;
    var out := Drain(rule, s);
    forall q | q in out && Covers(q, k)
      ensures exists r :: r in inputs && Covers(r, k) && r.seqno == q.seqno
    {
      DrainInvents(rule, s, q, k);
    }
    MatchedCover(out, inputs, k, view);
    forall r | r in inputs && VisibleCover(r, k, view)
      ensures exists q :: q in out && VisibleCover(q, k, view) && q.seqno >= r.seqno
    {
      var at := if rule.bottommost && view < rule.oldest then rule.oldest else view;
      DrainKeeps(rule, s, r, k, at);
      assert AsSeq(s.last) + out == out;
    }
    MatchedCover(inputs, out, k, view);
  }

  lemma SortedFromStart(rule: Rule, s: State)
    requires Valid(s) && s.pending.None?
    ensures StartSorted(Drain(rule, s))
  {
    var m := MinHead(s.heads, |s.heads|);
    if m != -1 {
      StepKeepsValid(rule, s, m);
      DrainSorted(rule, s, s.heads[m][0].start);
    }
  }
}
