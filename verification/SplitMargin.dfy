/** Block budgets of a compaction output (src/compact.rs, src/sstable.rs): the margin kept when deciding whether to
    split is enough for any key. */
module SplitMargin {
  import opened Arithmetic
  /** The sizes a database is built with. */
  datatype Config = Config(block: nat, keyMax: nat, valMax: nat)

  const ENTRY_HEADER := 13
  const CRC_LEN := 4
  const MAX_DATA_TAIL := 262
  const MAX_ENTRIES := 2048
  const INDEX_ENTRY := 18

  /** The largest entry: header, key, value and an expiry. */
  function EntryMax(c: Config): nat {
    ENTRY_HEADER + c.keyMax + c.valMax + 8
  }

  function Room(c: Config): nat {
    if c.block > MAX_DATA_TAIL then c.block - MAX_DATA_TAIL else 0
  }

  function IndexRoom(c: Config): nat {
    if c.block > CRC_LEN then c.block - CRC_LEN else 0
  }

  /** What a sealed block holds at least, when only the next entry's size sealed it. */
  function MinFill(c: Config): nat
    requires Room(c) > EntryMax(c)
  {
    Room(c) - EntryMax(c) + 1
  }

  /** `key_run_blocks` without the closing seal: how often `versions` entries can seal a block. */
  function Seals(c: Config, versions: nat): nat {
    if Room(c) > EntryMax(c) then 1 + versions * EntryMax(c) / MinFill(c) else versions
  }

  /** `key_run_blocks`. */
  function Margin(c: Config, versions: nat): nat {
    Seals(c, versions) + 1
  }

  /** `entry_fits`. */
  predicate EntryFits(c: Config, payload: nat, n: nat, elen: nat) {
    elen <= c.block && n < MAX_ENTRIES && payload + elen + (2 * (n / 16 + 1) + 6) <= c.block
  }

  /** The table writer: blocks sealed, the block in progress, the index so far. */
  datatype Writer = Writer(dataBlocks: nat, payload: nat, n: nat, firstLen: nat, indexLen: nat, entries: nat)

  datatype Item = Item(keyLen: nat, elen: nat)

  /** `seal_current`: fails when the index entry does not fit its block. */
  function Seal(c: Config, w: Writer): (r: seq<Writer>)
    ensures |r| <= 1
  {
    if w.indexLen + INDEX_ENTRY + w.firstLen > IndexRoom(c) then []
    else [w.(dataBlocks := w.dataBlocks + 1, payload := 0, n := 0, firstLen := 0,
             indexLen := w.indexLen + INDEX_ENTRY + w.firstLen)]
  }

  function Buffer(w: Writer, e: Item): Writer {
    w.(payload := w.payload + e.elen, n := w.n + 1,
       firstLen := if w.n == 0 then e.keyLen else w.firstLen, entries := w.entries + 1)
  }

  /** `push`: the writer afterwards, or nothing on failure. */
  function Push(c: Config, limit: nat, w: Writer, e: Item): (r: seq<Writer>)
    ensures |r| <= 1
  {
    if EntryFits(c, w.payload, w.n, e.elen) then [Buffer(w, e)]
    else if w.n == 0 || w.dataBlocks + 2 > limit then []
    else
      var s := Seal(c, w);
      if s == [] || !EntryFits(c, 0, 0, e.elen) then [] else [Buffer(s[0], e)]
  }

  function PushAll(c: Config, limit: nat, w: Writer, es: seq<Item>): (r: seq<Writer>)
    ensures |r| <= 1
    decreases |es|
  {
    if es == [] then [w]
    else var r := Push(c, limit, w, es[0]); if r == [] then [] else PushAll(c, limit, r[0], es[1..])
  }

  /** `seal_data`: the closing seal. */
  function SealData(c: Config, limit: nat, w: Writer): (r: seq<Writer>)
    ensures |r| <= 1
  {
    if w.n == 0 then [w] else if w.dataBlocks >= limit then [] else Seal(c, w)
  }

  /** `should_split`. */
  predicate ShouldSplit(c: Config, budget: nat, versions: nat, w: Writer) {
    w.entries > 0 && (w.dataBlocks + Margin(c, versions) > budget
                      || w.indexLen + Margin(c, versions) * (INDEX_ENTRY + c.keyMax) > IndexRoom(c))
  }

  /** The worst case of one key fits an empty output. */
  predicate KeyFitsEmpty(c: Config, budget: nat, versions: nat) {
    && Margin(c, versions) <= budget && Margin(c, versions) * (INDEX_ENTRY + c.keyMax) <= IndexRoom(c)
    && EntryFits(c, 0, 0, EntryMax(c)) && 0 < versions < MAX_ENTRIES
  }

  predicate Modest(c: Config, e: Item) {
    e.keyLen <= c.keyMax && e.elen <= EntryMax(c)
  }

  /** A writer between keys. */
  predicate Between(c: Config, w: Writer) {
    w.firstLen <= c.keyMax && (w.entries == 0 ==> w.dataBlocks == w.n == w.indexLen == w.payload == 0)
  }

  /** Since the key began at `w0`: `s` seals, `count` entries of `pushed` bytes. */
  ghost predicate Within(c: Config, w0: Writer, w: Writer, s: nat, count: nat, pushed: nat) {
    && w.dataBlocks == w0.dataBlocks + s && w.indexLen <= w0.indexLen + s * (INDEX_ENTRY + c.keyMax)
    && s <= count && pushed <= count * EntryMax(c) && w.firstLen <= c.keyMax
    && (s >= 1 ==> w.n <= count)
    && (s >= 1 && Room(c) > EntryMax(c) ==> (s - 1) * MinFill(c) + w.payload <= pushed)
  }

  /** A block of this key's own entries is sealed only when it is nearly full. */
  lemma SealedFull(c: Config, w: Writer, e: Item, count: nat)
    requires Room(c) > EntryMax(c) && Modest(c, e) && w.n <= count < MAX_ENTRIES
             && !EntryFits(c, w.payload, w.n, e.elen)
    ensures w.payload >= MinFill(c)
  {}

  /** The next seal is within the allowance. */
  lemma OneMoreSeal(c: Config, w0: Writer, w: Writer, s: nat, count: nat, pushed: nat, versions: nat, e: Item)
    requires Within(c, w0, w, s, count, pushed) && count < versions < MAX_ENTRIES && Modest(c, e)
    requires !EntryFits(c, w.payload, w.n, e.elen)
    ensures s + 1 <= Seals(c, versions)
    ensures s >= 1 && Room(c) > EntryMax(c) ==> s * MinFill(c) <= pushed
  {
    hide EntryFits, Modest;
    if Room(c) > EntryMax(c) && s >= 1 {
      SealedFull(c, w, e, count);
      Unfold(s, MinFill(c));
      MulMonotone(count, versions, EntryMax(c));
      DivAtLeast(versions * EntryMax(c), MinFill(c), s);
    }
  }

  /** One entry of the key goes in. */
  lemma PushFits(c: Config, limit: nat, w0: Writer, w: Writer, s: nat, count: nat, pushed: nat, versions: nat, e: Item)
    returns (t: nat)
    requires Within(c, w0, w, s, count, pushed) && count < versions < MAX_ENTRIES && Modest(c, e)
    requires w0.dataBlocks + Margin(c, versions) <= limit
             && w0.indexLen + Margin(c, versions) * (INDEX_ENTRY + c.keyMax) <= IndexRoom(c)
    requires EntryFits(c, 0, 0, EntryMax(c)) && (w.n > 0 || w.payload == 0)
    ensures |Push(c, limit, w, e)| == 1 && Within(c, w0, Push(c, limit, w, e)[0], t, count + 1, pushed + e.elen)
    ensures Push(c, limit, w, e)[0].n > 0
  {
    hide Seals;
    Unfold(count + 1, EntryMax(c));
    t := s;
    if !EntryFits(c, w.payload, w.n, e.elen) {
      OneMoreSeal(c, w0, w, s, count, pushed, versions, e);
      t := s + 1;
      SealFits(c, w0, w, s, count, pushed, versions);
      NotEmpty(c, w, e);
    }
  }

  /** The index has room for one more entry. */
  lemma SealFits(c: Config, w0: Writer, w: Writer, s: nat, count: nat, pushed: nat, versions: nat)
    requires Within(c, w0, w, s, count, pushed) && s + 1 <= Margin(c, versions)
    requires w0.indexLen + Margin(c, versions) * (INDEX_ENTRY + c.keyMax) <= IndexRoom(c)
    ensures |Seal(c, w)| == 1
            && w.indexLen + INDEX_ENTRY + w.firstLen <= w0.indexLen + (s + 1) * (INDEX_ENTRY + c.keyMax)
  {
    hide Margin;
    Unfold(s + 1, INDEX_ENTRY + c.keyMax);
    MulMonotone(s + 1, Margin(c, versions), INDEX_ENTRY + c.keyMax);
  }

  lemma NotEmpty(c: Config, w: Writer, e: Item)
    requires Modest(c, e) && EntryFits(c, 0, 0, EntryMax(c)) && !EntryFits(c, w.payload, w.n, e.elen)
             && (w.n > 0 || w.payload == 0)
    ensures w.n > 0 && EntryFits(c, 0, 0, e.elen)
  {}

  /** All of the key's entries go in. */
  lemma {:induction false} RunFits(c: Config, limit: nat, w0: Writer, w: Writer, s: nat, count: nat, pushed: nat,
                                   versions: nat, es: seq<Item>)
    returns (t: nat, total: nat)
    requires Within(c, w0, w, s, count, pushed) && count + |es| <= versions < MAX_ENTRIES
             && forall e :: e in es ==> Modest(c, e)
    requires w0.dataBlocks + Margin(c, versions) <= limit
             && w0.indexLen + Margin(c, versions) * (INDEX_ENTRY + c.keyMax) <= IndexRoom(c)
    requires EntryFits(c, 0, 0, EntryMax(c)) && (w.n > 0 || w.payload == 0)
    ensures |PushAll(c, limit, w, es)| == 1 && Within(c, w0, PushAll(c, limit, w, es)[0], t, count + |es|, total)
    decreases |es|
  {
    hide Within, Margin, Push, EntryFits;
    t, total := s, pushed;
    if es != [] {
      var u := PushFits(c, limit, w0, w, s, count, pushed, versions, es[0]);
      t, total :=
          RunFits(c, limit, w0, Push(c, limit, w, es[0])[0], u, count + 1, pushed + es[0].elen, versions, es[1..]);
    }
  }

  lemma SealsBound(c: Config, w0: Writer, w: Writer, s: nat, count: nat, pushed: nat, versions: nat)
    requires Within(c, w0, w, s, count, pushed) && count <= versions
    ensures s <= Seals(c, versions)
  {
    if Room(c) > EntryMax(c) && s >= 1 {
      MulMonotone(count, versions, EntryMax(c));
      DivAtLeast(versions * EntryMax(c), MinFill(c), s - 1);
    }
  }

  /** The split margin is enough: if an empty output can hold one key's worst case, then no push that the merge makes
      for a key begun without splitting fails, and the output can still be closed after it. */
  lemma MarginIsEnough(c: Config, budget: nat, versions: nat, w: Writer, es: seq<Item>)
    requires KeyFitsEmpty(c, budget, versions) && !ShouldSplit(c, budget, versions, w) && Between(c, w)
             && (w.n > 0 || w.payload == 0)
    requires |es| <= versions && forall e :: e in es ==> Modest(c, e)
    ensures |PushAll(c, budget, w, es)| == 1
    ensures |SealData(c, budget, PushAll(c, budget, w, es)[0])| == 1
    ensures Between(c, PushAll(c, budget, w, es)[0])
    ensures PushAll(c, budget, w, es)[0].n > 0 || PushAll(c, budget, w, es)[0].payload == 0
    ensures PushAll(c, budget, w, es)[0].entries == w.entries + |es|
  {
    var s, total := RunFits(c, budget, w, w, 0, 0, 0, versions, es);
    var r := PushAll(c, budget, w, es)[0];
    SealsBound(c, w, r, s, |es|, total, versions);
    SealFits(c, w, r, s, |es|, total, versions);
    Entries(c, budget, w, es);
  }

  lemma {:induction false} Entries(c: Config, limit: nat, w: Writer, es: seq<Item>)
    requires |PushAll(c, limit, w, es)| == 1
    ensures PushAll(c, limit, w, es)[0].entries == w.entries + |es|
    ensures es == [] ==> PushAll(c, limit, w, es)[0] == w
    ensures es != [] ==> PushAll(c, limit, w, es)[0].n > 0
    decreases |es|
  {
    hide EntryFits;
    if es != [] {
      Entries(c, limit, Push(c, limit, w, es[0])[0], es[1..]);
    }
  }

  // A whole job.

  /** The writers of a job's closed outputs, or a push or a seal that failed. */
  datatype Run = Failed | Closed(outputs: seq<Writer>)

  const Fresh := Writer(0, 0, 0, 0, 0, 0)

  /** The outputs of a merge that splits as `should_split` says, before a key or not at all: `keys` are the entries it
      emits, key by key. */
  function RunOutputs(c: Config, budget: nat, versions: nat, w: Writer, keys: seq<seq<Item>>): Run
    decreases |keys|, w.entries
  {
    if keys == [] then
      var s := SealData(c, budget, w);
      if s == [] then Failed else Closed(s)
    else if ShouldSplit(c, budget, versions, w) then
      var s := SealData(c, budget, w);
      if s == [] then Failed
      else
        var rest := RunOutputs(c, budget, versions, Fresh, keys);
        if rest.Failed? then Failed else Closed(s + rest.outputs)
    else
      var r := PushAll(c, budget, w, keys[0]);
      if r == [] then Failed else RunOutputs(c, budget, versions, r[0], keys[1..])
  }

  function Count(keys: seq<seq<Item>>): nat {
    if keys == [] then 0 else |keys[0]| + Count(keys[1..])
  }

  function EntryCount(outputs: seq<Writer>): nat {
    if outputs == [] then 0 else outputs[0].entries + EntryCount(outputs[1..])
  }

  ghost predicate EachFits(c: Config, budget: nat, outputs: seq<Writer>) {
    forall w :: w in outputs ==> w.dataBlocks <= budget && w.indexLen <= IndexRoom(c)
  }

  /** A writer at a key boundary that can be closed. */
  ghost predicate Closable(c: Config, budget: nat, w: Writer) {
    && Between(c, w) && (w.n > 0 || w.payload == 0) && |SealData(c, budget, w)| == 1
    && w.dataBlocks <= budget && w.indexLen <= IndexRoom(c)
  }

  lemma ClosesWithin(c: Config, budget: nat, w: Writer)
    requires Closable(c, budget, w)
    ensures var s := SealData(c, budget, w)[0];
            s.dataBlocks <= budget && s.indexLen <= IndexRoom(c) && s.entries == w.entries
  {}

  /** Pushing leaves blocks and index within their limits. */
  lemma {:induction false} PushWithin(c: Config, limit: nat, w: Writer, es: seq<Item>)
    requires w.dataBlocks <= limit && w.indexLen <= IndexRoom(c) && |PushAll(c, limit, w, es)| == 1
    ensures PushAll(c, limit, w, es)[0].dataBlocks <= limit && PushAll(c, limit, w, es)[0].indexLen <= IndexRoom(c)
    decreases |es|
  {
    hide EntryFits;
    if es != [] { PushWithin(c, limit, Push(c, limit, w, es[0])[0], es[1..]); }
  }

  /** If an empty output can hold one key's worst case, no push and no seal of a job fails: every output stays within
      its data blocks and its one-block index, and together they hold every entry. */
  lemma {:induction false} JobFits(c: Config, budget: nat, versions: nat, w: Writer, keys: seq<seq<Item>>)
    requires KeyFitsEmpty(c, budget, versions) && Closable(c, budget, w)
    requires forall es :: es in keys ==> |es| <= versions && forall e :: e in es ==> Modest(c, e)
    ensures var r := RunOutputs(c, budget, versions, w, keys);
            r.Closed? && EachFits(c, budget, r.outputs) && EntryCount(r.outputs) == w.entries + Count(keys)
    decreases |keys|, w.entries
  {
    hide KeyFitsEmpty, EntryFits, PushAll, SealData, Modest;
    ClosesWithin(c, budget, w);
    if keys == [] {
      assert EntryCount(SealData(c, budget, w)[1..]) == 0;
    } else if ShouldSplit(c, budget, versions, w) {
      FreshCloses(c, budget);
      JobFits(c, budget, versions, Fresh, keys);
      var s, rest := SealData(c, budget, w), RunOutputs(c, budget, versions, Fresh, keys);
      assert (s + rest.outputs)[0] == s[0] && (s + rest.outputs)[1..] == rest.outputs;
    } else {
      assert keys[0] in keys;
      MarginIsEnough(c, budget, versions, w, keys[0]);
      PushWithin(c, budget, w, keys[0]);
      JobFits(c, budget, versions, PushAll(c, budget, w, keys[0])[0], keys[1..]);
    }
  }

  lemma FreshCloses(c: Config, budget: nat)
    ensures Closable(c, budget, Fresh)
  {}

  /** What one key can still need, in the source's own numbers: versions of at most 13 bytes of header, key, value and 8
      of expiry, in blocks of at least the block less 262 bytes of tail less one entry, and the closing seal. */
  function KeyBlocks(block: nat, keyMax: nat, valMax: nat, versions: nat): nat {
    var entry := 21 + keyMax + valMax;
    if block > 262 + entry then 2 + versions * entry / (block - 262 - entry + 1) else versions + 1
  }

  /** An output with these counters may not have room for another key: in its data blocks, or in its one-block index,
      which takes 18 bytes and a key for each. */
  predicate Full(c: Config, budget: nat, versions: nat, w: Writer) {
    var need := KeyBlocks(c.block, c.keyMax, c.valMax, versions);
    w.dataBlocks + need > budget || w.indexLen + need * (18 + c.keyMax) + 4 > c.block
  }

  lemma MarginIs(c: Config, versions: nat)
    ensures Margin(c, versions) == KeyBlocks(c.block, c.keyMax, c.valMax, versions)
  {}

  /** An output ends before a key exactly when it holds entries and may not have room. */
  lemma SplitExactly(c: Config, budget: nat, versions: nat, w: Writer)
    requires c.block >= 4
    ensures ShouldSplit(c, budget, versions, w) <==> w.entries > 0 && Full(c, budget, versions, w)
  {
    MarginIs(c, versions);
  }

  lemma ClosedFull(c: Config, budget: nat, versions: nat, w: Writer)
    requires c.block >= 4 && ShouldSplit(c, budget, versions, w) && |SealData(c, budget, w)| == 1
    ensures Full(c, budget, versions, SealData(c, budget, w)[0])
  {
    hide KeyBlocks;
    SplitExactly(c, budget, versions, w);
  }

  /** A job closes no output early: all but the last one may not have room for another key. */
  lemma {:induction false} OutputsFull(c: Config, budget: nat, versions: nat, w: Writer, keys: seq<seq<Item>>, i: nat)
    requires c.block >= 4 && RunOutputs(c, budget, versions, w, keys).Closed?
    requires i + 1 < |RunOutputs(c, budget, versions, w, keys).outputs|
    ensures Full(c, budget, versions, RunOutputs(c, budget, versions, w, keys).outputs[i])
    decreases |keys|, w.entries
  {
    hide Full, SealData, PushAll;
    if keys != [] {
      if ShouldSplit(c, budget, versions, w) {
        if i == 0 {
          ClosedFull(c, budget, versions, w);
        } else {
          OutputsFull(c, budget, versions, Fresh, keys, i - 1);
        }
      } else {
        OutputsFull(c, budget, versions, PushAll(c, budget, w, keys[0])[0], keys[1..], i);
      }
    }
  }
}
