/** The split margin holds for what the merge emits (src/compact.rs): at most one version of a key for the live view and
    one for each snapshot. */
module SplitFits {
  import opened Keys
  import opened Coverage
  import opened Visibility
  import opened Retention
  import opened Merging
  import opened JobOutputs
  import opened CompactionJob
  import SM = SplitMargin
  import BP = BlockPacking

  /** The sequences of the versions of `k` that serve one of the first `n` thresholds. */
  ghost function ServingTo(job: Job, inputs: set<Entry>, k: Rank, n: nat): set<nat>
    requires n <= |job.snapshots| + 1
  {
    set e | e in inputs && e.key == k && (exists i: nat :: i < n && ServesAt(job, inputs, e, i)) :: e.seqno
  }

  /** `e` is its key's newest version at threshold `i`. */
  ghost predicate ServesAt(job: Job, inputs: set<Entry>, e: Entry, i: nat) {
    && i <= |job.snapshots| && e.seqno <= Threshold(job, i)
    && forall f :: f in inputs && VersionAt(f, e.key, Threshold(job, i)) ==> f.seqno <= e.seqno
  }

  /** A threshold is served by one sequence. */
  lemma {:induction false} FewServe(job: Job, inputs: set<Entry>, k: Rank, n: nat)
    requires n <= |job.snapshots| + 1
    ensures |ServingTo(job, inputs, k, n)| <= n
  {
    var all := ServingTo(job, inputs, k, n);
    if n == 0 {
      assert all == {};
    } else {
      var rest := ServingTo(job, inputs, k, n - 1);
      FewServe(job, inputs, k, n - 1);
      if s :| s in all && s !in rest {
        forall q | q in all ensures q in rest + {s} {
          if q !in rest { OneServes(job, inputs, k, n, s, q); }
        }
        Smaller(all, rest, s);
      } else {
        assert all <= rest;
        SubsetSize(all, rest);
      }
    }
  }

  lemma OneServes(job: Job, inputs: set<Entry>, k: Rank, n: nat, s: nat, q: nat)
    requires 0 < n <= |job.snapshots| + 1 && s in ServingTo(job, inputs, k, n) && q in ServingTo(job, inputs, k, n)
    requires s !in ServingTo(job, inputs, k, n - 1) && q !in ServingTo(job, inputs, k, n - 1)
    ensures s == q
  {
    var e :| e in inputs && e.key == k && (exists i: nat :: i < n && ServesAt(job, inputs, e, i)) && e.seqno == s;
    var f :| f in inputs && f.key == k && (exists i: nat :: i < n && ServesAt(job, inputs, f, i)) && f.seqno == q;
    assert ServesAt(job, inputs, e, n - 1) && ServesAt(job, inputs, f, n - 1);
  }

  lemma Smaller(all: set<nat>, rest: set<nat>, s: nat)
    requires all <= rest + {s}
    ensures |all| <= |rest| + 1
  {
    SubsetSize(all, rest + {s});
  }

  lemma SubsetSize(a: set<nat>, b: set<nat>)
    requires a <= b
    ensures |a| <= |b|
  {
    assert b == a + (b - a);
  }

  /** Versions of one key in table order, their sequences from a set. */
  lemma {:induction false} DistinctSeqs(run: seq<Entry>, seqs: set<nat>)
    requires Ordered(run) && (forall e, f :: e in run && f in run ==> e.key == f.key)
             && forall e :: e in run ==> e.seqno in seqs
    ensures |run| <= |seqs|
    decreases |run|
  {
    if run != [] {
      TailOrdered(run);
      var s := run[0].seqno;
      forall e | e in run[1..] ensures e.seqno in seqs - {s} {
        var i :| 0 <= i < |run[1..]| && run[1..][i] == e;
        assert Before(run[0], run[i + 1]) && run[0] in run && e in run;
      }
      assert run[0] in run;
      DistinctSeqs(run[1..], seqs - {s});
    }
  }

  // The stream of a job's entries, key by key.

  function StreamOf(outputs: seq<Output>): seq<Entry> {
    if outputs == [] then [] else outputs[0].entries + StreamOf(outputs[1..])
  }

  function SameKey(es: seq<Entry>, k: Rank): (n: nat)
    ensures n <= |es| && forall i :: 0 <= i < n ==> es[i].key == k
    ensures es != [] && es[0].key == k ==> n > 0
  {
    if es == [] || es[0].key != k then 0 else 1 + SameKey(es[1..], k)
  }

  /** The entries of each key, one key after the other. */
  function Runs(es: seq<Entry>): seq<seq<Entry>>
    decreases |es|
  {
    if es == [] then []
    else
      var n := SameKey(es, es[0].key);
      [es[..n]] + Runs(es[n..])
  }

  /** The runs are the stream, cut where the key changes. */
  lemma {:induction false} RunsExact(es: seq<Entry>)
    ensures Joined(Runs(es)) == es && AllCut(Runs(es))
    decreases |es|
  {
    hide AllCut;
    if es != [] {
      var n := SameKey(es, es[0].key);
      var rest := Runs(es[n..]);
      RunsExact(es[n..]);
      KeyEnds(es, es[0].key);
      assert es == es[..n] + es[n..];
      assert Runs(es) == [es[..n]] + rest && Runs(es)[1..] == rest;
      CutCons(es[..n], rest, es[n..]);
    } else {
      NoCut();
    }
  }

  /** Run `i` is not empty, has one key, and that is not the key of the run before. */
  ghost predicate CutAt(runs: seq<seq<Entry>>, i: nat) {
    && i < |runs| && runs[i] != [] && (forall j :: 0 <= j < |runs[i]| ==> runs[i][j].key == runs[i][0].key)
    && (i > 0 ==> runs[i - 1] != [] && runs[i - 1][0].key != runs[i][0].key)
  }

  ghost predicate AllCut(runs: seq<seq<Entry>>) {
    forall i :: 0 <= i < |runs| ==> CutAt(runs, i)
  }

  lemma NoCut()
    ensures AllCut([])
  {}

  lemma CutCons(run: seq<Entry>, rest: seq<seq<Entry>>, more: seq<Entry>)
    requires AllCut(rest) && Joined(rest) == more && run != []
    requires (forall j :: 0 <= j < |run| ==> run[j].key == run[0].key) && (more != [] ==> more[0].key != run[0].key)
    ensures AllCut([run] + rest)
  {
    var all := [run] + rest;
    forall i | 0 <= i < |all| ensures CutAt(all, i) {
      if i > 0 {
        assert CutAt(rest, i - 1) && all[i] == rest[i - 1];
        if i == 1 { assert more[0] == rest[0][0]; }
      }
    }
  }

  function Joined(runs: seq<seq<Entry>>): seq<Entry> {
    if runs == [] then [] else runs[0] + Joined(runs[1..])
  }

  lemma {:induction false} KeyEnds(es: seq<Entry>, k: Rank)
    ensures SameKey(es, k) < |es| ==> es[SameKey(es, k)].key != k
  {
    if es != [] && es[0].key == k { KeyEnds(es[1..], k); }
  }

  lemma OrderedPart(es: seq<Entry>, i: nat, j: nat)
    requires Ordered(es) && i <= j <= |es|
    ensures Ordered(es[i..j]) && forall e :: e in es[i..j] ==> e in es
  {
    forall a, b | 0 <= a < b < j - i ensures Before(es[i..j][a], es[i..j][b]) {
      assert Before(es[i + a], es[i + b]);
    }
  }

  lemma {:induction false} RunsAreRuns(es: seq<Entry>, run: seq<Entry>)
    requires Ordered(es) && run in Runs(es)
    ensures Ordered(run) && (forall e :: e in run ==> e in es) && forall e, f :: e in run && f in run ==> e.key == f.key
    decreases |es|
  {
    var n := SameKey(es, es[0].key);
    OrderedPart(es, 0, n);
    assert es[0..n] == es[..n];
    OrderedPart(es, n, |es|);
    assert es[n..|es|] == es[n..];
    if run != es[..n] {
      assert run in Runs(es[n..]);
      RunsAreRuns(es[n..], run);
    }
  }

  lemma {:induction false} StreamHolds(outputs: seq<Output>, e: Entry)
    ensures e in StreamOf(outputs) <==> exists o :: o in outputs && e in o.entries
  {
    if outputs != [] {
      assert outputs == [outputs[0]] + outputs[1..];
      StreamHolds(outputs[1..], e);
    }
  }

  lemma RestInOrder(outputs: seq<Output>)
    requires EntriesInOrder(outputs) && outputs != []
    ensures EntriesInOrder(outputs[1..])
  {
    var rest := outputs[1..];
    forall i, j, e, f | 0 <= i < j < |rest| && e in rest[i].entries && f in rest[j].entries ensures e.key < f.key {
      assert e in outputs[i + 1].entries && f in outputs[j + 1].entries;
    }
  }

  lemma FirstBeforeRest(outputs: seq<Output>, x: Entry, y: Entry)
    requires EntriesInOrder(outputs) && outputs != [] && x in outputs[0].entries && y in StreamOf(outputs[1..])
    ensures Before(x, y)
  {
    StreamHolds(outputs[1..], y);
    var o :| o in outputs[1..] && y in o.entries;
    var j :| 0 <= j < |outputs[1..]| && outputs[1..][j] == o;
    assert y in outputs[j + 1].entries;
  }

  lemma {:induction false} StreamOrdered(outputs: seq<Output>)
    requires EntriesInOrder(outputs)
    ensures Ordered(StreamOf(outputs)) && forall e :: e in StreamOf(outputs) <==> e in AllEntries(outputs)
  {
    forall e ensures e in StreamOf(outputs) <==> e in AllEntries(outputs) { StreamHolds(outputs, e); }
    if outputs != [] {
      assert Ordered(outputs[0].entries) by { assert outputs[0] in outputs; }
      RestInOrder(outputs);
      StreamOrdered(outputs[1..]);
      forall x, y | x in outputs[0].entries && y in StreamOf(outputs[1..]) ensures Before(x, y) {
        FirstBeforeRest(outputs, x, y);
      }
      hide EntriesInOrder, Ordered;
      OrderedConcat(outputs[0].entries, StreamOf(outputs[1..]));
    }
  }

  /** Of every key a job emits at most one version for each threshold. */
  lemma FewPerKey(c: Context, outputs: seq<Output>, run: seq<Entry>)
    requires Finished(c, outputs) && run in Runs(StreamOf(outputs))
    ensures |run| <= 1 + |c.job.snapshots| && forall e :: e in run ==> e in AllEntries(outputs)
  {
    StreamOrdered(outputs);
    RunsAreRuns(StreamOf(outputs), run);
    if run != [] {
      var k, n := run[0].key, |c.job.snapshots| + 1;
      assert run[0] in run;
      var seqs := ServingTo(c.job, c.inputs, k, n);
      forall e | e in run ensures e.seqno in seqs {
        EmittedServes(c, outputs, e);
      }
      FewServe(c.job, c.inputs, k, n);
      DistinctSeqs(run, seqs);
    }
  }

  /** An emitted version serves a threshold. */
  lemma EmittedServes(c: Context, outputs: seq<Output>, e: Entry)
    requires Finished(c, outputs) && e in AllEntries(outputs)
    ensures e.seqno in ServingTo(c.job, c.inputs, e.key, |c.job.snapshots| + 1)
  {
    hide Shaped, Compacted;
    assert CompactedAt(c.job, c.inputs, c.rdels, AllEntries(outputs), AllPieces(outputs), c.exact, e.key);
    var inexact, cover, dropped :|
      Compacted(c.job, c.inputs, c.rdels, AllEntries(outputs), AllPieces(outputs), inexact, cover, dropped, e.key);
    var d := CompactedFrom(c, outputs, inexact, cover, dropped, e);
    var i :| 0 <= i <= |c.job.snapshots| && d.seqno <= Threshold(c.job, i)
             && forall f :: f in c.inputs && VersionAt(f, d.key, Threshold(c.job, i)) ==> f.seqno <= d.seqno;
    assert ServesAt(c.job, c.inputs, d, i);
  }

  lemma CompactedFrom(c: Context, outputs: seq<Output>, inexact: seq<Range>, cover: nat, dropped: bool, e: Entry)
    returns (d: Entry)
    requires Compacted(c.job, c.inputs, c.rdels, AllEntries(outputs), AllPieces(outputs), inexact, cover, dropped,
                       e.key)
    requires e in AllEntries(outputs)
    ensures d in c.inputs && d.key == e.key && d.seqno == e.seqno && Serves(c.job, c.inputs, d)
  {
    d :| d in c.inputs && d.key == e.key && Kept(c.job, c.inputs, cover, dropped, d) && e == Emit(c.job, d);
  }

  // The writer.

  /** An entry as the table writer sees it: its key's length and its encoded length. */
  function ItemOf(e: Entry, len: Rank -> nat): SM.Item {
    SM.Item(len(e.key),
            SM.ENTRY_HEADER + len(e.key)
            + if e.tombstone then 0 else |e.value| + if e.expireAt != 0 then 8 else 0)
  }

  /** Thirteen bytes of header and the key; a value its bytes too, and eight more if it expires. */
  lemma ItemSizes(e: Entry, len: Rank -> nat)
    ensures ItemOf(e, len).keyLen == len(e.key)
    ensures e.tombstone ==> ItemOf(e, len).elen == 13 + len(e.key)
    ensures !e.tombstone && e.expireAt == 0 ==> ItemOf(e, len).elen == 13 + len(e.key) + |e.value|
    ensures !e.tombstone && e.expireAt > 0 ==> ItemOf(e, len).elen == 21 + len(e.key) + |e.value|
  {}

  function ItemsOf(es: seq<Entry>, len: Rank -> nat): (items: seq<SM.Item>)
    ensures |items| == |es| && forall i :: 0 <= i < |es| ==> items[i] == ItemOf(es[i], len)
  {
    seq(|es|, i requires 0 <= i < |es| => ItemOf(es[i], len))
  }

  /** What a job emits, key by key, as the table writer sees it. */
  function KeysOf(outputs: seq<Output>, len: Rank -> nat): (ks: seq<seq<SM.Item>>)
    ensures var runs := Runs(StreamOf(outputs));
            |ks| == |runs| && forall i :: 0 <= i < |runs| ==> ks[i] == ItemsOf(runs[i], len)
  {
    var runs := Runs(StreamOf(outputs));
    seq(|runs|, i requires 0 <= i < |runs| => ItemsOf(runs[i], len))
  }

  /** If an empty output can hold one key's worst case, then over everything a job emits no push and no seal fails. */
  lemma EmittedFits(c: Context, outputs: seq<Output>, g: SM.Config, budget: nat, len: Rank -> nat)
    requires Finished(c, outputs) && SM.KeyFitsEmpty(g, budget, 1 + |c.job.snapshots|)
    requires forall k :: len(k) <= g.keyMax
    requires forall e :: e in AllEntries(outputs) ==> |e.value| <= g.valMax
    ensures var r := SM.RunOutputs(g, budget, 1 + |c.job.snapshots|, SM.Fresh, KeysOf(outputs, len));
            && r.Closed? && SM.EachFits(g, budget, r.outputs)
            && SM.EntryCount(r.outputs) == SM.Count(KeysOf(outputs, len))
  {
    hide Finished, SM.KeyFitsEmpty, SM.RunOutputs, SM.Modest, KeysOf, SM.Count;
    var keys := KeysOf(outputs, len);
    forall es | es in keys ensures |es| <= 1 + |c.job.snapshots| && forall e :: e in es ==> SM.Modest(g, e) {
      KeyFits(c, outputs, g, len, es);
    }
    SM.FreshCloses(g, budget);
    SM.JobFits(g, budget, 1 + |c.job.snapshots|, SM.Fresh, keys);
  }

  lemma KeyFits(c: Context, outputs: seq<Output>, g: SM.Config, len: Rank -> nat, es: seq<SM.Item>)
    requires Finished(c, outputs) && es in KeysOf(outputs, len) && forall k :: len(k) <= g.keyMax
    requires forall e :: e in AllEntries(outputs) ==> |e.value| <= g.valMax
    ensures |es| <= 1 + |c.job.snapshots| && forall e :: e in es ==> SM.Modest(g, e)
  {
    hide Finished, Runs, StreamOf, AllEntries, SM.Modest;
    var runs := Runs(StreamOf(outputs));
    var i :| 0 <= i < |runs| && es == ItemsOf(runs[i], len);
    FewPerKey(c, outputs, runs[i]);
    ItemsModest(runs[i], g, len);
  }

  lemma ItemsModest(run: seq<Entry>, g: SM.Config, len: Rank -> nat)
    requires (forall k :: len(k) <= g.keyMax) && forall e :: e in run ==> |e.value| <= g.valMax
    ensures forall e :: e in ItemsOf(run, len) ==> SM.Modest(g, e)
  {
    forall e | e in ItemsOf(run, len) ensures SM.Modest(g, e) {
      var j :| 0 <= j < |run| && ItemOf(run[j], len) == e;
      assert run[j] in run;
    }
  }

  lemma {:induction false} JoinedItems(runs: seq<seq<Entry>>, keys: seq<seq<SM.Item>>, len: Rank -> nat)
    requires |keys| == |runs| && forall i :: 0 <= i < |runs| ==> keys[i] == ItemsOf(runs[i], len)
    ensures BP.FlatKeys(keys) == ItemsOf(Joined(runs), len)
    decreases |runs|
  {
    hide ItemOf;
    if runs != [] {
      JoinedItems(runs[1..], keys[1..], len);
      assert keys[0] == ItemsOf(runs[0], len);
    }
  }

  /** The tables' blocks hold exactly what the job emits, in its order, and every block fits. */
  lemma EmittedPacks(c: Context, outputs: seq<Output>, g: SM.Config, budget: nat, len: Rank -> nat)
    returns (ls: seq<BP.Layout>)
    requires Finished(c, outputs) && SM.KeyFitsEmpty(g, budget, 1 + |c.job.snapshots|)
    requires forall k :: len(k) <= g.keyMax
    requires forall e :: e in AllEntries(outputs) ==> |e.value| <= g.valMax
    ensures var r := SM.RunOutputs(g, budget, 1 + |c.job.snapshots|, SM.Fresh, KeysOf(outputs, len));
            r.Closed? && BP.Laid(g, r.outputs, ls)
    ensures BP.FlatItems(ls) == ItemsOf(StreamOf(outputs), len)
  {
    hide Finished, SM.KeyFitsEmpty, SM.RunOutputs, Runs, StreamOf, BP.Laid, BP.FlatItems, BP.FlatKeys, Joined;
    EmittedFits(c, outputs, g, budget, len);
    var keys := KeysOf(outputs, len);
    BP.FreshPacks(g);
    ls := BP.JobPacks(g, budget, 1 + |c.job.snapshots|, BP.Layout([], []), SM.Fresh, keys);
    RunsExact(StreamOf(outputs));
    JoinedItems(Runs(StreamOf(outputs)), keys, len);
  }
}
