/** Point lookups in a table (src/sstable.rs): index search and walk-back, restart search, run walk across blocks. */
module TableLookup {
  import opened Arithmetic
  import opened Keys
  import opened Visibility
  import opened Merging

  /** A data block: its entries and the positions of its restart points. */
  datatype DataBlock = DataBlock(entries: seq<Entry>, restarts: seq<nat>) {
    ghost predicate Valid() {
      && entries != [] && Ordered(entries)
      && (forall i :: 0 <= i < |restarts| ==> restarts[i] < |entries|)
      && (forall i, j :: 0 <= i < j < |restarts| ==> restarts[i] < restarts[j])
    }
  }

  /** A table's data blocks in order. A key's versions may run across any number of them. */
  ghost predicate Sorted(blocks: seq<DataBlock>) {
    && (forall b :: b in blocks ==> b.Valid())
    && (forall i, j, x, y :: 0 <= i < j < |blocks| && x in blocks[i].entries && y in blocks[j].entries ==> Before(x, y))
  }

  /** Every version the table holds. */
  ghost function All(blocks: seq<DataBlock>): set<Entry> {
    set i, e | 0 <= i < |blocks| && e in blocks[i].entries :: e
  }

  function FirstKey(blocks: seq<DataBlock>, i: nat): Rank {
    if i < |blocks| && blocks[i].entries != [] then blocks[i].entries[0].key else 0.0
  }

  lemma FirstKeysSorted(blocks: seq<DataBlock>, i: nat, j: nat)
    requires Sorted(blocks) && i < j < |blocks|
    ensures FirstKey(blocks, i) <= FirstKey(blocks, j)
    ensures forall e :: e in blocks[i].entries ==> e.key <= FirstKey(blocks, j)
    ensures forall e :: e in blocks[j].entries ==> e.key >= FirstKey(blocks, j)
  {
    assert blocks[i] in blocks && blocks[j] in blocks;
    var first := blocks[j].entries[0];
    assert blocks[i].Valid() && blocks[j].Valid() && first in blocks[j].entries;
    forall e | e in blocks[i].entries ensures e.key <= first.key {
      assert Before(e, first);
    }
    assert blocks[i].entries[0] in blocks[i].entries;
    forall e | e in blocks[j].entries ensures e.key >= FirstKey(blocks, j) {
      var a :| 0 <= a < |blocks[j].entries| && blocks[j].entries[a] == e;
      assert a > 0 ==> Before(blocks[j].entries[0], blocks[j].entries[a]);
    }
  }

  /** `index_upper_bound`: the first block whose first key is past `key`. */
  method UpperBound(blocks: seq<DataBlock>, key: Rank) returns (lo: nat)
    requires Sorted(blocks)
    ensures lo <= |blocks|
    ensures forall i :: 0 <= i < lo ==> FirstKey(blocks, i) <= key
    ensures forall i :: lo <= i < |blocks| ==> FirstKey(blocks, i) > key
  {
    hide *;
    lo := 0;
    var hi := |blocks|;
    while lo < hi
      invariant 0 <= lo <= hi <= |blocks|
      invariant forall i :: 0 <= i < lo ==> FirstKey(blocks, i) <= key
      invariant forall i :: hi <= i < |blocks| ==> FirstKey(blocks, i) > key
    {
      var mid := lo + (hi - lo) / 2;
      if FirstKey(blocks, mid) <= key {
        forall i | lo <= i < mid ensures FirstKey(blocks, i) <= key { FirstKeysSorted(blocks, i, mid); }
        lo := mid + 1;
      } else {
        forall i | mid < i < hi ensures FirstKey(blocks, i) > key { FirstKeysSorted(blocks, mid, i); }
        hi := mid;
      }
    }
  }

  /** `index_lookup`: the first block that can hold `key`; no version of it lies before. */
  method IndexLookup(blocks: seq<DataBlock>, key: Rank) returns (pos: Option<nat>)
    requires Sorted(blocks)
    ensures pos.Some? ==> pos.value < |blocks| && forall i, e :: 0 <= i < pos.value && e in blocks[i].entries ==>
              e.key < key
    ensures pos.None? ==> forall i, e :: 0 <= i < |blocks| && e in blocks[i].entries ==> e.key > key
  {
    hide *;
    var lo := UpperBound(blocks, key);
    if lo == 0 {
      forall i, e | 0 <= i < |blocks| && e in blocks[i].entries ensures e.key > key { EntryFrom(blocks, i, e); }
      return None;
    }
    var p := lo - 1;
    while p > 0 && FirstKey(blocks, p) == key
      invariant 0 <= p < lo && FirstKey(blocks, p) <= key
    {
      p := p - 1;
    }
    forall i, e | 0 <= i < p && e in blocks[i].entries ensures e.key < key {
      FirstKeysSorted(blocks, i, p);
    }
    return Some(p);
  }

  lemma EntryFrom(blocks: seq<DataBlock>, i: nat, e: Entry)
    requires Sorted(blocks) && i < |blocks| && e in blocks[i].entries
    ensures e.key >= FirstKey(blocks, i)
  {
    assert blocks[i] in blocks;
    var a :| 0 <= a < |blocks[i].entries| && blocks[i].entries[a] == e;
    assert a > 0 ==> Before(blocks[i].entries[0], blocks[i].entries[a]);
  }

  datatype BlockOutcome = Hit(entry: Entry) | Absent | Truncated

  /** What one block says about `key` at `view`. */
  ghost predicate Says(es: seq<Entry>, key: Rank, view: nat, r: BlockOutcome) {
    match r
    case Hit(e) => e in es && Newest(Points(es), key, view, e)
    case Absent => (exists e :: e in es && e.key > key) && forall e :: e in es ==> !VersionAt(e, key, view)
    case Truncated => forall e :: e in es ==> e.key <= key && !VersionAt(e, key, view)
  }

  /** Entries below `i` are settled: they are not visible versions of `key`. */
  ghost predicate Passed(es: seq<Entry>, i: nat, key: Rank, view: nat) {
    i <= |es| && forall j :: 0 <= j < i ==> es[j].key <= key && !VersionAt(es[j], key, view)
  }

  /** The restart search lands at or before the key's run. */
  method RestartSearch(b: DataBlock, key: Rank) returns (off: nat)
    requires b.Valid()
    ensures off < |b.entries| && forall j :: 0 <= j < off ==> b.entries[j].key < key
    ensures off == 0 || off in b.restarts
    ensures forall i :: 0 <= i < |b.restarts| && b.restarts[i] > off ==> b.entries[b.restarts[i]].key >= key
  {
    var lo, hi: nat := 0, |b.restarts|;
    while lo < hi
      invariant 0 <= lo <= hi <= |b.restarts|
      invariant lo > 0 ==> b.entries[b.restarts[lo - 1]].key < key
      invariant forall i :: hi <= i < |b.restarts| ==> b.entries[b.restarts[i]].key >= key
    {
      var mid := lo + (hi - lo) / 2;
      if b.entries[b.restarts[mid]].key < key {
        lo := mid + 1;
      } else {
        forall i | mid < i < |b.restarts| ensures b.entries[b.restarts[i]].key >= key {
          assert Before(b.entries[b.restarts[mid]], b.entries[b.restarts[i]]);
        }
        hi := mid;
      }
    }
    if lo == 0 {
      return 0;
    }
    off := b.restarts[lo - 1];
    forall j | 0 <= j < off ensures b.entries[j].key < key {
      assert Before(b.entries[j], b.entries[off]);
    }
  }

  /** `data_lookup`: restart search, then a linear scan that stops at the key's first visible version. */
  method DataLookup(b: DataBlock, key: Rank, view: nat) returns (r: BlockOutcome)
    requires b.Valid()
    ensures Says(b.entries, key, view, r)
  {
    var off := RestartSearch(b, key);
    while off < |b.entries|
      invariant Passed(b.entries, off, key, view)
    {
      var e := b.entries[off];
      if e.key > key {
        Beyond(b.entries, off, key, view);
        return Absent;
      }
      if e.key == key && e.seqno <= view {
        FirstIsNewest(b.entries, off, key, view);
        return Hit(e);
      }
      off := off + 1;
    }
    return Truncated;
  }

  lemma Beyond(es: seq<Entry>, off: nat, key: Rank, view: nat)
    requires Ordered(es) && Passed(es, off, key, view) && off < |es| && es[off].key > key
    ensures Says(es, key, view, Absent)
  {
    forall e | e in es ensures !VersionAt(e, key, view) {
      var a :| 0 <= a < |es| && es[a] == e;
      assert off < a ==> Before(es[off], es[a]);
    }
  }

  lemma FirstIsNewest(es: seq<Entry>, off: nat, key: Rank, view: nat)
    requires Ordered(es) && Passed(es, off, key, view) && off < |es| && VersionAt(es[off], key, view)
    ensures Newest(Points(es), key, view, es[off])
  {
    forall f | f in Points(es) && VersionAt(f, key, view) ensures f.seqno <= es[off].seqno {
      var a :| 0 <= a < |es| && es[a] == f;
      assert off < a ==> Before(es[off], es[a]);
    }
  }

  /** `lookup_at` behind the bloom gate: the key's newest visible version in the whole table, or none at all. */
  method LookupAt(blocks: seq<DataBlock>, key: Rank, view: nat) returns (r: Option<Entry>)
    requires Sorted(blocks)
    ensures r.Some? ==> Newest(All(blocks), key, view, r.value)
    ensures r.None? ==> forall e :: e in All(blocks) ==> !VersionAt(e, key, view)
  {
    var pos := IndexLookup(blocks, key);
    if pos.None? {
      return None;
    }
    var id, remaining := pos.value, |blocks| - pos.value;
    while true
      invariant id < |blocks| && remaining == |blocks| - id
      invariant forall i, e :: 0 <= i < id && e in blocks[i].entries ==> !VersionAt(e, key, view)
      decreases remaining
    {
      assert blocks[id] in blocks;
      var o := DataLookup(blocks[id], key, view);
      match o
      case Hit(e) =>
        HitWins(blocks, id, key, view, e);
        return Some(e);
      case Absent =>
        NoneLater(blocks, id, key, view);
        return None;
      case Truncated =>
        remaining := remaining - 1;
        if remaining == 0 {
          return None;
        }
        id := id + 1;
    }
  }

  lemma HitWins(blocks: seq<DataBlock>, id: nat, key: Rank, view: nat, e: Entry)
    requires Sorted(blocks) && id < |blocks| && e in blocks[id].entries
             && Newest(Points(blocks[id].entries), key, view, e)
    requires forall i, f :: 0 <= i < id && f in blocks[i].entries ==> !VersionAt(f, key, view)
    ensures Newest(All(blocks), key, view, e)
  {
    forall f | f in All(blocks) && VersionAt(f, key, view) ensures f.seqno <= e.seqno {
      var i :| 0 <= i < |blocks| && f in blocks[i].entries;
      assert i > id ==> Before(e, f);
      assert i == id ==> f in Points(blocks[id].entries);
    }
  }

  lemma NoneLater(blocks: seq<DataBlock>, id: nat, key: Rank, view: nat)
    requires Sorted(blocks) && id < |blocks| && Says(blocks[id].entries, key, view, Absent)
    requires forall i, f :: 0 <= i < id && f in blocks[i].entries ==> !VersionAt(f, key, view)
    ensures forall f :: f in All(blocks) ==> !VersionAt(f, key, view)
  {
    var e :| e in blocks[id].entries && e.key > key;
    forall f | f in All(blocks) ensures !VersionAt(f, key, view) {
      var i :| 0 <= i < |blocks| && f in blocks[i].entries;
      assert i > id ==> Before(e, f);
    }
  }

  // The bloom gate.

  /** Probe `i` of a key with hashes `h1` and `h2`, in a filter of `bits` bits. */
  function Probe(h1: nat, h2: nat, i: nat, bits: nat): nat
    requires bits > 0
  {
    (h1 + i * h2) % 0x1_0000_0000_0000_0000 % bits
  }

  /** The probes on 64-bit words: from the first hash on, the second is added time and again. */
  function ProbeWord(h1: nat, h2: nat, i: nat): nat {
    if i == 0 then h1 % 0x1_0000_0000_0000_0000 else (ProbeWord(h1, h2, i - 1) + h2) % 0x1_0000_0000_0000_0000
  }

  lemma {:induction false} ProbeSteps(h1: nat, h2: nat, i: nat, bits: nat)
    requires bits > 0
    ensures Probe(h1, h2, i, bits) == ProbeWord(h1, h2, i) % bits
    ensures ProbeWord(h1, h2, i) == (h1 + i * h2) % 0x1_0000_0000_0000_0000
  {
    if i > 0 {
      ProbeSteps(h1, h2, i - 1, bits);
      Unfold(i, h2);
      Wraps(h1 + (i - 1) * h2, h2);
    }
  }

  lemma Wraps(a: nat, b: nat)
    ensures (a % 0x1_0000_0000_0000_0000 + b) % 0x1_0000_0000_0000_0000 == (a + b) % 0x1_0000_0000_0000_0000
  {}

  /** `bloom_add`; the filter is the set of its bits. */
  method BloomAdd(filter: set<nat>, h1: nat, h2: nat, k: nat, bits: nat) returns (r: set<nat>)
    ensures filter <= r && (bits > 0 ==> forall i :: 0 <= i < k ==> Probe(h1, h2, i, bits) in r)
    ensures forall b :: b in r ==> b in filter || IsProbe(h1, h2, k, bits, b)
  {
    r := filter;
    if bits == 0 {
      return;
    }
    for i := 0 to k
      invariant filter <= r && forall j :: 0 <= j < i ==> Probe(h1, h2, j, bits) in r
      invariant forall b :: b in r ==> b in filter || exists j :: 0 <= j < i && b == Probe(h1, h2, j, bits)
    {
      r := r + {Probe(h1, h2, i, bits)};
    }
  }

  /** `bloom_maybe_contains`. */
  method MaybeContains(filter: set<nat>, h1: nat, h2: nat, k: nat, bits: nat) returns (r: bool)
    ensures r <==> bits == 0 || forall i :: 0 <= i < k ==> Probe(h1, h2, i, bits) in filter
  {
    if bits == 0 {
      return true;
    }
    for i := 0 to k
      invariant forall j :: 0 <= j < i ==> Probe(h1, h2, j, bits) in filter
    {
      if Probe(h1, h2, i, bits) !in filter {
        return false;
      }
    }
    return true;
  }

  /** The filter of a table's keys. */
  method BuildFilter(keys: seq<Rank>, h1: Rank -> nat, h2: Rank -> nat, k: nat, bits: nat) returns (filter: set<nat>)
    ensures Passes(keys, filter, h1, h2, k, bits)
    ensures forall b :: b in filter ==> SetBy(keys, h1, h2, k, bits, b)
  {
    filter := {};
    for n := 0 to |keys|
      invariant Passes(keys[..n], filter, h1, h2, k, bits)
      invariant forall b :: b in filter ==> SetBy(keys, h1, h2, k, bits, b)
    {
      var next := BloomAdd(filter, h1(keys[n]), h2(keys[n]), k, bits);
      assert keys[..n + 1] == keys[..n] + [keys[n]];
      forall b | b in next ensures SetBy(keys, h1, h2, k, bits, b) {
        if b !in filter {
          assert IsProbe(h1(keys[n]), h2(keys[n]), k, bits, b);
          SetByKey(keys, n, h1, h2, k, bits, b);
        }
      }
      filter := next;
    }
    assert keys[..|keys|] == keys;
  }

  /** The bit is a probe of one of these keys. */
  ghost predicate SetBy(keys: seq<Rank>, h1: Rank -> nat, h2: Rank -> nat, k: nat, bits: nat, b: nat) {
    exists n :: 0 <= n < |keys| && IsProbe(h1(keys[n]), h2(keys[n]), k, bits, b)
  }

  ghost predicate IsProbe(h1: nat, h2: nat, k: nat, bits: nat, b: nat) {
    bits > 0 && exists i :: 0 <= i < k && b == Probe(h1, h2, i, bits)
  }

  lemma SetByKey(keys: seq<Rank>, n: nat, h1: Rank -> nat, h2: Rank -> nat, k: nat, bits: nat, b: nat)
    requires n < |keys| && IsProbe(h1(keys[n]), h2(keys[n]), k, bits, b)
    ensures SetBy(keys, h1, h2, k, bits, b)
  {}

  /** The filter hides none of these keys. */
  ghost predicate Passes(keys: seq<Rank>, filter: set<nat>, h1: Rank -> nat, h2: Rank -> nat, k: nat, bits: nat) {
    bits > 0 ==> forall x, i :: x in keys && 0 <= i < k ==> Probe(h1(x), h2(x), i, bits) in filter
  }

  /** A lookup through the gate answers as one without it. */
  method GatedLookup(blocks: seq<DataBlock>, keys: seq<Rank>, filter: set<nat>, h1: Rank -> nat, h2: Rank -> nat,
                     k: nat, bits: nat,
                     key: Rank, view: nat) returns (r: Option<Entry>)
    requires Sorted(blocks) && Passes(keys, filter, h1, h2, k, bits) && forall e :: e in All(blocks) ==> e.key in keys
    ensures r.Some? ==> Newest(All(blocks), key, view, r.value)
    ensures r.None? ==> forall e :: e in All(blocks) ==> !VersionAt(e, key, view)
  {
    var maybe := MaybeContains(filter, h1(key), h2(key), k, bits);
    if !maybe {
      return None;
    }
    r := LookupAt(blocks, key, view);
  }
}
