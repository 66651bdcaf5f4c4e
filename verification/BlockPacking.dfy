/** What the table writer's counters stand for (`TableWriter` of src/sstable.rs): the entries in their order, cut into
    blocks that fit, each sealed only because the next entry did not. */
module BlockPacking {
  import opened SplitMargin

  /** The blocks sealed, and the one in progress. */
  datatype Layout = Layout(sealed: seq<seq<Item>>, current: seq<Item>)

  function Bytes(es: seq<Item>): nat {
    if es == [] then 0 else Bytes(es[..|es| - 1]) + es[|es| - 1].elen
  }

  /** One restart offset of two bytes for every sixteen entries or part of it, their count, and the CRC. */
  function Tail(n: nat): nat {
    2 * ((n + 15) / 16) + 2 + 4
  }

  /** The entries make a block that fits, restart offsets and all. */
  predicate Fits(c: Config, es: seq<Item>) {
    |es| <= 128 * 16 && Bytes(es) + Tail(|es|) <= c.block
  }

  /** Bytes of the index: for each sealed block 18 and its first key. */
  function IndexBytes(sealed: seq<seq<Item>>): nat {
    if sealed == [] then 0
    else IndexBytes(sealed[..|sealed| - 1])
         + 18 + if sealed[|sealed| - 1] == [] then 0 else sealed[|sealed| - 1][0].keyLen
  }

  function Flat(sealed: seq<seq<Item>>): seq<Item> {
    if sealed == [] then [] else Flat(sealed[..|sealed| - 1]) + sealed[|sealed| - 1]
  }

  /** All entries, in the order they were pushed. */
  function Items(l: Layout): seq<Item> {
    Flat(l.sealed) + l.current
  }

  /** The writer's counters are those of the layout. */
  predicate Represents(l: Layout, w: Writer) {
    && w.dataBlocks == |l.sealed| && w.indexLen == IndexBytes(l.sealed) && w.entries == |Items(l)|
    && w.payload == Bytes(l.current) && w.n == |l.current|
    && w.firstLen == if l.current == [] then 0 else l.current[0].keyLen
  }

  /** Every block fits and none is empty; each was sealed because the first entry of the next did not fit it. */
  ghost predicate Packed(c: Config, l: Layout) {
    && (forall i :: 0 <= i < |l.sealed| ==> l.sealed[i] != [] && Fits(c, l.sealed[i]))
    && (l.current != [] ==> Fits(c, l.current))
    && (forall i :: 0 < i < |l.sealed| ==> !Fits(c, l.sealed[i - 1] + [l.sealed[i][0]]))
    && (l.sealed != [] && l.current != [] ==> !Fits(c, l.sealed[|l.sealed| - 1] + [l.current[0]]))
  }

  /** A block is sealed only to open the next. */
  predicate Going(l: Layout) {
    l.sealed == [] || l.current != []
  }

  lemma BytesNext(es: seq<Item>, e: Item)
    ensures Bytes(es + [e]) == Bytes(es) + e.elen
  {
    assert (es + [e])[..|es|] == es;
  }

  /** `entry_fits` asks exactly whether the block with the entry fits. */
  lemma FitsExactly(c: Config, es: seq<Item>, e: Item)
    ensures EntryFits(c, Bytes(es), |es|, e.elen) <==> Fits(c, es + [e])
  {
    BytesNext(es, e);
    assert (|es| + 1 + 15) / 16 == |es| / 16 + 1;
  }

  lemma SealedNext(sealed: seq<seq<Item>>, block: seq<Item>)
    requires block != []
    ensures IndexBytes(sealed + [block]) == IndexBytes(sealed) + 18 + block[0].keyLen
    ensures Flat(sealed + [block]) == Flat(sealed) + block
  {
    assert (sealed + [block])[..|sealed|] == sealed;
  }

  /** The layout after a push that succeeds. */
  function Pushed(c: Config, l: Layout, e: Item): Layout {
    if Fits(c, l.current + [e]) then Layout(l.sealed, l.current + [e]) else Layout(l.sealed + [l.current], [e])
  }

  /** A push puts the entry behind the others, in the block in progress if it fits there, else in a new one. */
  lemma PushPacks(c: Config, limit: nat, l: Layout, w: Writer, e: Item)
    requires Represents(l, w) && Packed(c, l) && Going(l) && |Push(c, limit, w, e)| == 1
    ensures Represents(Pushed(c, l, e), Push(c, limit, w, e)[0]) && Packed(c, Pushed(c, l, e)) && Going(Pushed(c, l, e))
    ensures Items(Pushed(c, l, e)) == Items(l) + [e]
  {
    hide Fits, EntryFits, Packed;
    FitsExactly(c, l.current, e);
    BytesNext(l.current, e);
    if Fits(c, l.current + [e]) {
      assert Flat(l.sealed) + (l.current + [e]) == Flat(l.sealed) + l.current + [e];
      MorePacked(c, l, e);
    } else {
      FitsExactly(c, [], e);
      BytesNext([], e);
      assert [] + [e] == [e];
      SealedNext(l.sealed, l.current);
      SealedPacked(c, l, e);
    }
  }

  lemma MorePacked(c: Config, l: Layout, e: Item)
    requires Packed(c, l) && Going(l) && Fits(c, l.current + [e])
    ensures Packed(c, Layout(l.sealed, l.current + [e]))
  {
    hide Fits;
    assert l.current != [] ==> (l.current + [e])[0] == l.current[0];
  }

  lemma SealedPacked(c: Config, l: Layout, e: Item)
    requires Packed(c, l) && l.current != [] && !Fits(c, l.current + [e]) && Fits(c, [e])
    ensures Packed(c, Layout(l.sealed + [l.current], [e]))
  {
    hide Fits;
    var all := l.sealed + [l.current];
    forall i | 0 < i < |all| ensures !Fits(c, all[i - 1] + [all[i][0]]) {
      if i < |l.sealed| { assert all[i - 1] == l.sealed[i - 1] && all[i] == l.sealed[i]; }
    }
  }

  function PushedAll(c: Config, l: Layout, es: seq<Item>): Layout
    decreases |es|
  {
    if es == [] then l else PushedAll(c, Pushed(c, l, es[0]), es[1..])
  }

  lemma {:induction false} PushAllPacks(c: Config, limit: nat, l: Layout, w: Writer, es: seq<Item>)
    requires Represents(l, w) && Packed(c, l) && Going(l) && |PushAll(c, limit, w, es)| == 1
    ensures Represents(PushedAll(c, l, es), PushAll(c, limit, w, es)[0]) && Packed(c, PushedAll(c, l, es))
    ensures Going(PushedAll(c, l, es))
    ensures Items(PushedAll(c, l, es)) == Items(l) + es
    decreases |es|
  {
    hide Represents, Packed, Push, Pushed, Items, Going;
    if es != [] {
      PushPacks(c, limit, l, w, es[0]);
      PushAllPacks(c, limit, Pushed(c, l, es[0]), Push(c, limit, w, es[0])[0], es[1..]);
      assert Items(l) + [es[0]] + es[1..] == Items(l) + es by { assert es == [es[0]] + es[1..]; }
    }
  }

  /** The closing seal leaves no block in progress. */
  function Closed(l: Layout): Layout {
    if l.current == [] then l else Layout(l.sealed + [l.current], [])
  }

  lemma ClosePacks(c: Config, limit: nat, l: Layout, w: Writer)
    requires Represents(l, w) && Packed(c, l) && |SealData(c, limit, w)| == 1
    ensures Represents(Closed(l), SealData(c, limit, w)[0]) && Packed(c, Closed(l))
    ensures Items(Closed(l)) == Items(l) && Closed(l).current == []
  {
    if l.current != [] {
      SealedNext(l.sealed, l.current);
      assert Flat(l.sealed) + l.current + [] == Flat(l.sealed) + l.current;
      ClosedPacked(c, l);
    }
  }

  lemma ClosedPacked(c: Config, l: Layout)
    requires Packed(c, l) && l.current != []
    ensures Packed(c, Layout(l.sealed + [l.current], []))
  {
    hide Fits;
    var all := l.sealed + [l.current];
    forall i | 0 < i < |all| ensures !Fits(c, all[i - 1] + [all[i][0]]) {
      if i < |l.sealed| { assert all[i - 1] == l.sealed[i - 1] && all[i] == l.sealed[i]; }
    }
  }

  // A whole job.

  function FlatItems(ls: seq<Layout>): seq<Item> {
    if ls == [] then [] else Items(ls[0]) + FlatItems(ls[1..])
  }

  function FlatKeys(keys: seq<seq<Item>>): seq<Item> {
    if keys == [] then [] else keys[0] + FlatKeys(keys[1..])
  }

  /** The layouts are those of the closed outputs: nothing is left in progress, every block fits. */
  ghost predicate Laid(c: Config, outputs: seq<Writer>, ls: seq<Layout>) {
    |ls| == |outputs| && forall i :: 0 <= i < |ls| ==>
      Represents(ls[i], outputs[i]) && Packed(c, ls[i]) && ls[i].current == []
  }

  /** A job's outputs hold exactly what was pushed, in order, in blocks that fit, each cut where the next entry did not
      fit or the output ended. */
  lemma {:induction false} JobPacks(c: Config, budget: nat, versions: nat, l: Layout, w: Writer, keys: seq<seq<Item>>)
    returns (ls: seq<Layout>)
    requires Represents(l, w) && Packed(c, l) && Going(l) && RunOutputs(c, budget, versions, w, keys).Closed?
    ensures Laid(c, RunOutputs(c, budget, versions, w, keys).outputs, ls)
    ensures FlatItems(ls) == Items(l) + FlatKeys(keys)
    decreases |keys|, w.entries
  {
    hide Represents, Packed, PushAll, SealData, Items, Closed, Going, Margin, IndexRoom, Laid, FlatItems, FlatKeys;
    if keys == [] {
      ClosePacks(c, budget, l, w);
      ls := [Closed(l)];
      LaidCons(c, SealData(c, budget, w), Closed(l), [], []);
      assert SealData(c, budget, w) + [] == SealData(c, budget, w) && [Closed(l)] + [] == ls;
      FlatCons(Closed(l), []);
      Nothing();
    } else if ShouldSplit(c, budget, versions, w) {
      ClosePacks(c, budget, l, w);
      FreshPacks(c);
      var rest := JobPacks(c, budget, versions, Layout([], []), Fresh, keys);
      ls := [Closed(l)] + rest;
      FlatCons(Closed(l), rest);
      LaidCons(c, SealData(c, budget, w), Closed(l), RunOutputs(c, budget, versions, Fresh, keys).outputs, rest);
    } else {
      PushAllPacks(c, budget, l, w, keys[0]);
      ls := JobPacks(c, budget, versions, PushedAll(c, l, keys[0]), PushAll(c, budget, w, keys[0])[0], keys[1..]);
      KeysCons(Items(l), keys);
    }
  }

  lemma FlatCons(l: Layout, rest: seq<Layout>)
    ensures FlatItems([l] + rest) == Items(l) + FlatItems(rest)
  {
    assert ([l] + rest)[1..] == rest;
  }

  lemma KeysCons(before: seq<Item>, keys: seq<seq<Item>>)
    requires keys != []
    ensures before + keys[0] + FlatKeys(keys[1..]) == before + FlatKeys(keys)
  {}

  lemma Nothing()
    ensures FlatItems([]) == [] && FlatKeys([]) == []
  {}

  lemma FreshPacks(c: Config)
    ensures Represents(Layout([], []), Fresh) && Packed(c, Layout([], [])) && Going(Layout([], []))
    ensures Items(Layout([], [])) == []
  {}

  lemma LaidCons(c: Config, s: seq<Writer>, l: Layout, outputs: seq<Writer>, rest: seq<Layout>)
    requires |s| == 1 && Represents(l, s[0]) && Packed(c, l) && l.current == []
    requires rest != [] || outputs != [] ==> Laid(c, outputs, rest)
    ensures Laid(c, s + outputs, [l] + rest)
  {
    hide Represents, Packed;
    forall i | 0 <= i < |[l] + rest|
      ensures Represents(([l] + rest)[i], (s + outputs)[i]) && Packed(c, ([l] + rest)[i])
              && ([l] + rest)[i].current == []
    {
      if i > 0 { assert ([l] + rest)[i] == rest[i - 1] && (s + outputs)[i] == outputs[i - 1]; }
    }
  }
}
