/** The merged tombstone stream is coalesced (src/compact.rs): what can be joined to the entry before it has been. */
module RdelApart {
  import opened Keys
  import opened Tombstones
  import opened RdelMerge

  /** The second does not carry on the first: another sequence, or a gap between them. */
  predicate Apart(a: Rdel, b: Rdel) {
    a.seqno != b.seqno || a.end < b.start
  }

  ghost predicate AllApart(rs: seq<Rdel>) {
    forall i :: 0 < i < |rs| ==> Apart(rs[i - 1], rs[i])
  }

  /** A pending entry is the next to be emitted, perhaps with a later end. */
  lemma {:induction false} PendingFirst(rule: Rule, s: State)
    requires s.pending.Some?
    ensures var d := Drain(rule, s);
            d != [] && d[0].start == s.pending.value.start && d[0].seqno == s.pending.value.seqno
    decreases Size(s.heads)
  {
    var m := MinHead(s.heads, |s.heads|);
    if m != -1 && !Emits(s, m) {
      SizePop(s.heads, m);
      PendingFirst(rule, Step(rule, s, m));
    }
  }

  /** Where nothing is dropped as shadowed, no two entries in a row of the merged stream could still be joined. */
  lemma {:induction false} DrainApart(rule: Rule, s: State)
    requires !rule.bottommost
    ensures AllApart(Drain(rule, s))
    decreases Size(s.heads)
  {
    var m := MinHead(s.heads, |s.heads|);
    if m != -1 {
      var next := Step(rule, s, m);
      SizePop(s.heads, m);
      DrainApart(rule, next);
      if Emits(s, m) {
        PendingFirst(rule, next);
        ApartCons(s.pending.value, Drain(rule, next));
      }
    }
  }

  lemma ApartCons(r: Rdel, rs: seq<Rdel>)
    requires AllApart(rs) && (rs != [] ==> Apart(r, rs[0]))
    ensures AllApart([r] + rs)
  {
    var all := [r] + rs;
    forall i | 0 < i < |all| ensures Apart(all[i - 1], all[i]) {
      if i > 1 { assert all[i - 1] == rs[i - 2] && all[i] == rs[i - 1]; }
    }
  }

  /** A bottommost merge emits nothing that an entry of the same range, newer and settled for every reader, was emitted
      just before: it goes from the stream, and nothing else goes. */
  lemma ShadowGoes(rule: Rule, s: State, m: nat)
    requires m == MinHead(s.heads, |s.heads|) && m != -1 && s.pending.Some? && !Coalesces(s.pending, s.heads[m][0])
    ensures var p, h, next := s.pending.value, s.heads[m][0], Step(rule, s, m);
            next.pending.None? <==>
              rule.bottommost && p.start == h.start && p.end == h.end && h.seqno < p.seqno <= rule.oldest
  {}
}
