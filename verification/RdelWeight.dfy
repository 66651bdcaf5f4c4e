/** What a range-tombstone merge can weigh: whatever it coalesces and drops, what an output takes of it weighs no more
    than what the output would take of the tombstones merged (src/compact.rs). */
module RdelWeight {
  import opened Keys
  import opened Tombstones
  import opened RdelMerge

  function SumOf(rs: seq<Rdel>, g: Rdel -> nat): nat {
    if rs == [] then 0 else g(rs[0]) + SumOf(rs[1..], g)
  }

  lemma {:induction false} SumConcat(a: seq<Rdel>, b: seq<Rdel>, g: Rdel -> nat)
    ensures SumOf(a + b, g) == SumOf(a, g) + SumOf(b, g)
  {
    if a == [] {
      assert a + b == b;
    } else {
      assert (a + b)[0] == a[0] && (a + b)[1..] == a[1..] + b;
      SumConcat(a[1..], b, g);
    }
  }

  lemma {:induction false} SumMonotone(rs: seq<Rdel>, g: Rdel -> nat, h: Rdel -> nat)
    requires forall r :: r in rs ==> g(r) <= h(r)
    ensures SumOf(rs, g) <= SumOf(rs, h)
  {
    if rs != [] {
      assert rs[0] in rs;
      SumMonotone(rs[1..], g, h);
    }
  }

  lemma {:induction false} SumIsCount(rs: seq<Rdel>)
    ensures SumOf(rs, One) == |rs|
  {
    if rs != [] { SumIsCount(rs[1..]); }
  }

  function One(r: Rdel): nat {
    1
  }

  function HeadsSum(heads: seq<seq<Rdel>>, g: Rdel -> nat): nat {
    if heads == [] then 0 else SumOf(heads[0], g) + HeadsSum(heads[1..], g)
  }

  /** Taking the first tombstone of a head. */
  lemma {:induction false} HeadsPop(heads: seq<seq<Rdel>>, m: nat, g: Rdel -> nat)
    requires m < |heads| && heads[m] != []
    ensures HeadsSum(heads, g) == g(heads[m][0]) + HeadsSum(heads[m := heads[m][1..]], g)
  {
    var popped := heads[m := heads[m][1..]];
    if m == 0 {
      assert popped[1..] == heads[1..];
    } else {
      assert popped[0] == heads[0] && popped[1..] == heads[1..][m - 1 := heads[m][1..]];
      HeadsPop(heads[1..], m - 1, g);
    }
  }

  /** What the merger still has to read or to emit. */
  function Waiting(s: State, g: Rdel -> nat): nat {
    SumOf(AsSeq(s.pending), g) + HeadsSum(s.heads, g)
  }

  /** Coalescing makes nothing heavier. */
  ghost predicate Joins(g: Rdel -> nat) {
    forall p: Rdel, h: Rdel :: p.start <= h.start <= p.end ==> g(Extend(p, h)) <= g(p) + g(h)
  }

  lemma SumOne(o: Option<Rdel>, g: Rdel -> nat)
    ensures SumOf(AsSeq(o), g) == if o.Some? then g(o.value) else 0
  {
    if o.Some? { assert AsSeq(o)[1..] == []; }
  }

  lemma StepLight(rule: Rule, s: State, m: nat, g: Rdel -> nat)
    requires Valid(s) && m < |s.heads| && s.heads[m] != [] && Joins(g)
    ensures Waiting(Step(rule, s, m), g) + (if Emits(s, m) then SumOf(AsSeq(s.pending), g) else 0) <= Waiting(s, g)
  {
    var t := Step(rule, s, m);
    HeadsPop(s.heads, m, g);
    SumOne(s.pending, g);
    SumOne(t.pending, g);
    if Coalesces(s.pending, s.heads[m][0]) {
      assert s.pending.value.start <= s.heads[m][0].start;
    }
  }

  /** The merged stream weighs no more than what goes into it. */
  lemma {:induction false} DrainLight(rule: Rule, s: State, g: Rdel -> nat)
    requires Valid(s) && Joins(g)
    ensures SumOf(Drain(rule, s), g) <= Waiting(s, g)
    decreases Size(s.heads)
  {
    var m := MinHead(s.heads, |s.heads|);
    if m != -1 {
      SizePop(s.heads, m);
      StepKeepsValid(rule, s, m);
      StepLight(rule, s, m, g);
      DrainLight(rule, Step(rule, s, m), g);
      SumConcat(if Emits(s, m) then AsSeq(s.pending) else [], Drain(rule, Step(rule, s, m)), g);
    }
  }

  lemma StepWhole(rule: Rule, s: State, m: nat, g: Rdel -> nat)
    requires m < |s.heads| && s.heads[m] != []
    ensures var t := Step(rule, s, m); var out := if Emits(s, m) then AsSeq(s.pending) else [];
            && Waiting(t, One) + |out| <= Waiting(s, One)
            && (Waiting(t, One) + |out| == Waiting(s, One) ==> Waiting(t, g) + SumOf(out, g) == Waiting(s, g))
  {
    var t := Step(rule, s, m);
    HeadsPop(s.heads, m, g);
    HeadsPop(s.heads, m, One);
    SumOne(s.pending, g);
    SumOne(t.pending, g);
    SumOne(s.pending, One);
    SumOne(t.pending, One);
  }

  /** A merge that emits as many tombstones as it reads emits just those. */
  lemma {:induction false} DrainWhole(rule: Rule, s: State, g: Rdel -> nat)
    ensures |Drain(rule, s)| <= Waiting(s, One)
    ensures |Drain(rule, s)| == Waiting(s, One) ==> SumOf(Drain(rule, s), g) == Waiting(s, g)
    decreases Size(s.heads)
  {
    var m := MinHead(s.heads, |s.heads|);
    if m == -1 {
      NoHeads(s.heads, g);
      NoHeads(s.heads, One);
      SumOne(s.pending, One);
    } else {
      SizePop(s.heads, m);
      var t := Step(rule, s, m);
      var out := if Emits(s, m) then AsSeq(s.pending) else [];
      StepWhole(rule, s, m, g);
      DrainWhole(rule, t, g);
      SumConcat(out, Drain(rule, t), g);
    }
  }

  lemma {:induction false} NoHeads(heads: seq<seq<Rdel>>, g: Rdel -> nat)
    requires forall i :: 0 <= i < |heads| ==> heads[i] == []
    ensures HeadsSum(heads, g) == 0
  {
    if heads != [] { NoHeads(heads[1..], g); }
  }

  // A merge of sections.

  lemma {:induction false} HeadsAppend(heads: seq<seq<Rdel>>, last: seq<Rdel>, g: Rdel -> nat)
    ensures HeadsSum(heads + [last], g) == HeadsSum(heads, g) + SumOf(last, g)
  {
    if heads == [] {
      assert (heads + [last])[1..] == [];
    } else {
      assert (heads + [last])[0] == heads[0] && (heads + [last])[1..] == heads[1..] + [last];
      HeadsAppend(heads[1..], last, g);
    }
  }

  function SourceHeads(sources: seq<Section>): seq<seq<Rdel>> {
    seq(|sources|, i requires 0 <= i < |sources| => Live([sources[i]]))
  }

  lemma LiveOne(s: Section)
    ensures Live([s]) == ClipEntries(s.lower, s.entries)
  {
    assert [s][1..] == [] && Live([]) == [];
  }

  lemma {:induction false} SourcesSum(sources: seq<Section>, g: Rdel -> nat)
    ensures HeadsSum(SourceHeads(sources), g) == SumOf(Live(sources), g)
  {
    hide SumOf, ClipEntries;
    if sources == [] {
      SumNone(g);
    } else {
      var rest := sources[1..];
      assert SourceHeads(sources)[1..] == SourceHeads(rest) && SourceHeads(sources)[0] == Live([sources[0]]);
      SourcesSum(rest, g);
      LiveOne(sources[0]);
      SumConcat(ClipEntries(sources[0].lower, sources[0].entries), Live(rest), g);
    }
  }

  lemma SumNone(g: Rdel -> nat)
    ensures SumOf([], g) == 0
  {}

  /** A merge starts with its sections' live tombstones waiting. */
  lemma InitialSum(sources: seq<Section>, targets: seq<Section>, g: Rdel -> nat)
    ensures Waiting(Initial(sources, targets), g) == SumOf(Inputs(sources, targets), g)
  {
    var s := Initial(sources, targets);
    assert s.heads == SourceHeads(sources) + [Live(targets)];
    HeadsAppend(SourceHeads(sources), Live(targets), g);
    SourcesSum(sources, g);
    SumConcat(Live(sources), Live(targets), g);
  }

  // What an output takes.

  /** What is left of a tombstone's start and end in an output's range. */
  function ClipEnd(r: Rdel, to: Option<Rank>): Rank {
    if to.Some? && to.value < r.end then to.value else r.end
  }

  predicate Reaches(r: Rdel, lo: Rank, to: Option<Rank>) {
    Max(r.start, lo) < ClipEnd(r, to)
  }

  /** The weight of the piece an output over `lo .. to` takes of `r`: `base` and the lengths of its bounds. */
  function PieceWeight(r: Rdel, lo: Rank, to: Option<Rank>, base: nat, len: Rank -> nat): nat {
    if Reaches(r, lo, to) then base + len(Max(r.start, lo)) + len(ClipEnd(r, to)) else 0
  }

  function PieceOf(lo: Rank, to: Option<Rank>, base: nat, len: Rank -> nat): Rdel -> nat {
    r => PieceWeight(r, lo, to, base, len)
  }

  function Weight(rs: seq<Rdel>, lo: Rank, to: Option<Rank>, base: nat, len: Rank -> nat): nat {
    SumOf(rs, PieceOf(lo, to, base, len))
  }

  /** The piece of two joined tombstones has bounds of theirs. */
  lemma PiecesJoin(lo: Rank, to: Option<Rank>, base: nat, len: Rank -> nat)
    ensures Joins(PieceOf(lo, to, base, len))
  {
    forall p: Rdel, h: Rdel | p.start <= h.start <= p.end
      ensures PieceWeight(Extend(p, h), lo, to, base, len)
              <= PieceWeight(p, lo, to, base, len) + PieceWeight(h, lo, to, base, len)
    {
      var u := Extend(p, h);
      if Reaches(u, lo, to) && u != p {
        assert Max(u.start, lo) == Max(p.start, lo);
        if !Reaches(p, lo, to) {
          assert ClipEnd(u, to) == ClipEnd(h, to);
        }
      }
    }
  }

  /** From `from` on, an output takes no more of `b` than of `a`. */
  ghost predicate NoHeavier(from: Rank, a: seq<Rdel>, b: seq<Rdel>) {
    forall lo, to, base: nat, len: Rank -> nat :: from <= lo ==>
      Weight(b, lo, to, base, len) <= Weight(a, lo, to, base, len)
  }

  /** Cutting a section at or below the output's start takes nothing from its pieces. */
  lemma {:induction false} ClipWeight(lower: Rank, es: seq<Rdel>, lo: Rank, to: Option<Rank>, base: nat,
                                      len: Rank -> nat)
    requires lower <= lo
    ensures Weight(ClipEntries(lower, es), lo, to, base, len) == Weight(es, lo, to, base, len)
  {
    if es != [] {
      var g := PieceOf(lo, to, base, len);
      ClipWeight(lower, es[1..], lo, to, base, len);
      SumConcat(ClipEntry(lower, es[0]), ClipEntries(lower, es[1..]), g);
      var c := ClipEntry(lower, es[0]);
      if c != [] { assert c[1..] == []; }
    }
  }

  /** What a piece weighs as it is written. */
  function OwnOf(base: nat, len: Rank -> nat): Rdel -> nat {
    (r: Rdel) => base + len(r.start) + len(r.end)
  }

  /** What an output over `lo .. to` writes weighs no more than its share of the tombstones `rs` does. */
  ghost predicate Light(rs: seq<Rdel>, pieces: seq<Rdel>, lo: Rank, to: Option<Rank>) {
    forall base: nat, len: Rank -> nat :: SumOf(pieces, OwnOf(base, len)) <= Weight(rs, lo, to, base, len)
  }
}
