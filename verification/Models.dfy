/** The repository's own executable models (src/model.rs) of retention and of tight jobs, as proved here. */
module Models {
  import opened Visibility
  import opened Retention
  import opened Merging

  /** The first version, newest first, at or below a threshold. */
  method FirstVisible(versions: seq<Entry>, threshold: nat) returns (i: nat)
    ensures i <= |versions| && forall j :: 0 <= j < i ==> versions[j].seqno > threshold
    ensures i < |versions| ==> versions[i].seqno <= threshold
  {
    i := 0;
    while i < |versions| && versions[i].seqno > threshold
      invariant i <= |versions| && forall j :: 0 <= j < i ==> versions[j].seqno > threshold
    {
      i := i + 1;
    }
  }

  /** Version `i` of the chain serves threshold `t`. */
  ghost predicate ServesAt(job: Job, versions: seq<Entry>, i: nat, t: nat) {
    i < |versions| && t <= |job.snapshots| && versions[i].seqno <= Threshold(job, t)
        && forall j :: 0 <= j < i ==> versions[j].seqno > Threshold(job, t)
  }

  ghost predicate Distinct(kept: seq<nat>) {
    forall i, j :: 0 <= i < j < |kept| ==> kept[i] != kept[j]
  }

  ghost predicate Ascending(kept: seq<nat>) {
    forall i, j :: 0 <= i < j < |kept| ==> kept[i] < kept[j]
  }

  /** One key's chain: its versions newest first. */
  ghost predicate Chain(versions: seq<Entry>) {
    Ordered(versions)
        && forall i, j :: 0 <= i < |versions| && 0 <= j < |versions| ==> versions[i].key == versions[j].key
  }

  /** In a chain, serving is being the first at or below some threshold. */
  lemma ServesIsFirst(job: Job, versions: seq<Entry>, i: nat)
    requires Chain(versions) && i < |versions|
    ensures Serves(job, Points(versions), versions[i]) <==> exists t: nat :: ServesAt(job, versions, i, t)
  {
    if t: nat :| ServesAt(job, versions, i, t) {
      forall f | f in Points(versions) && VersionAt(f, versions[i].key, Threshold(job, t))
        ensures f.seqno <= versions[i].seqno
      {
        var j :| 0 <= j < |versions| && versions[j] == f;
        assert i < j ==> Before(versions[i], versions[j]);
      }
    }
    if Serves(job, Points(versions), versions[i]) {
      var t :| 0 <= t <= |job.snapshots| && versions[i].seqno <= Threshold(job, t)
               && forall f :: f in Points(versions) && VersionAt(f, versions[i].key, Threshold(job, t)) ==>
                 f.seqno <= versions[i].seqno;
      forall j | 0 <= j < i ensures versions[j].seqno > Threshold(job, t) {
        assert Before(versions[j], versions[i]) && versions[j] in Points(versions);
      }
      assert ServesAt(job, versions, i, t);
    }
  }

  /** `model_may_drop_tombstone`, asked of the newest version of a chain. */
  predicate DropsChain(job: Job, versions: seq<Entry>) {
    job.bottommost && versions != [] && versions[0].tombstone && versions[0].seqno < job.oldest
  }

  /** Where nothing outside the job can show through and nothing has expired, that is the merge's own drop rule. */
  lemma DropsAsMerge(job: Job, versions: seq<Entry>)
    requires versions != [] && (versions[0].tombstone || versions[0].expireAt == 0)
    requires OutsideClear(job.origin, job.origin.maxWall, versions[0].seqno)
    ensures DropsChain(job, versions) <==> MayDropKey(job, versions[0])
  {}

  /** `model_keep_set`: the kept positions, each once and ascending, are those of the versions that the retention rule
      keeps when no tombstone covers the key. */
  method KeepSet(job: Job, versions: seq<Entry>) returns (kept: seq<nat>)
    requires Chain(versions)
    ensures Ascending(kept)
    ensures forall i: nat :: i in kept <==>
              i < |versions| && Kept(job, Points(versions), 0, DropsChain(job, versions), versions[i])
  {
    if DropsChain(job, versions) {
      return [];
    }
    kept := [];
    var t: nat := 0;
    while t <= |job.snapshots|
      invariant t <= |job.snapshots| + 1 && Distinct(kept)
      invariant forall i: nat :: i in kept <==> exists u: nat :: u < t && ServesAt(job, versions, i, u)
    {
      var i := FirstVisible(versions, Threshold(job, t));
      if i < |versions| && i !in kept {
        kept := kept + [i];
      }
      assert i < |versions| ==> ServesAt(job, versions, i, t);
      t := t + 1;
    }
    forall i: nat ensures i in kept <==> i < |versions| && Serves(job, Points(versions), versions[i]) {
      if i < |versions| { ServesIsFirst(job, versions, i); }
    }
    kept := Sort(kept);
  }

  ghost predicate AscendingTo(s: seq<nat>, n: nat) {
    n <= |s| && forall a, b :: 0 <= a < b < n ==> s[a] < s[b]
  }

  /** The closing insertion sort. */
  method Sort(kept: seq<nat>) returns (r: seq<nat>)
    requires Distinct(kept)
    ensures Ascending(r) && |r| == |kept| && forall x :: x in r <==> x in kept
  {
    r := kept;
    if kept == [] {
      return;
    }
    for i := 1 to |kept|
      invariant |r| == |kept| && Distinct(r) && AscendingTo(r, i) && forall x :: x in r <==> x in kept
    {
      r := SinkInto(r, i);
    }
  }

  method SinkInto(s: seq<nat>, i: nat) returns (r: seq<nat>)
    requires 1 <= i < |s| && Distinct(s) && AscendingTo(s, i)
    ensures |r| == |s| && Distinct(r) && AscendingTo(r, i + 1) && forall x :: x in r <==> x in s
  {
    r := s;
    var j := i;
    while j > 0 && r[j - 1] > r[j]
      invariant 0 <= j <= i && |r| == |s| && Distinct(r) && forall x :: x in r <==> x in s
      invariant forall a, b :: 0 <= a < b <= i && b != j ==> r[a] < r[b]
    {
      Swapped(r, j);
      r := r[j - 1 := r[j]][j := r[j - 1]];
      j := j - 1;
    }
  }

  lemma Swapped(r: seq<nat>, j: nat)
    requires 1 <= j < |r| && Distinct(r)
    ensures var t := r[j - 1 := r[j]][j := r[j - 1]]; Distinct(t) && forall x :: x in t <==> x in r
  {
    var t := r[j - 1 := r[j]][j := r[j - 1]];
    forall x ensures x in t <==> x in r {
      if x in r {
        var i :| 0 <= i < |r| && r[i] == x;
        assert t[if i == j then j - 1 else if i == j - 1 then j else i] == x;
      }
      if x in t {
        var i :| 0 <= i < |t| && t[i] == x;
        assert r[if i == j then j - 1 else if i == j - 1 then j else i] == x;
      }
    }
  }

  datatype TightJob = TightJob(free: nat, commits: nat, minFreeAtOpen: nat)

  /** `model_tight_job`: a tight job that starts with a free slot never finds the region without one, and never ends
      with fewer. */
  method RunTightJob(free: nat, retires: seq<nat>) returns (r: TightJob)
    ensures free >= 1 ==> r.free >= free && r.minFreeAtOpen >= 1
    ensures r.commits <= |retires|
    ensures r.free + r.commits == free + Sum(retires[..r.commits])
    ensures r.commits < |retires| ==> r.free == 0 || r.commits + 1 > Sum(retires[..r.commits + 1])
    ensures forall j :: 0 <= j <= r.commits && j < |retires| ==> r.minFreeAtOpen + j <= free + Sum(retires[..j])
    ensures r.minFreeAtOpen == free
            || exists j :: 0 <= j <= r.commits && j < |retires| && r.minFreeAtOpen + j == free + Sum(retires[..j])
  {
    var freeNow, freed, commits, low := free, 0, 0, free;
    var i := 0;
    assert retires[..0] == [];
    while i < |retires|
      invariant 0 <= i <= |retires| && commits == i && freed == Sum(retires[..i])
      invariant freeNow + commits == free + freed && commits <= freed
      invariant low >= 0 && (free >= 1 ==> low >= 1)
      invariant forall j :: 0 <= j < i ==> low + j <= free + Sum(retires[..j])
      invariant low == free || exists j :: 0 <= j < i && low + j == free + Sum(retires[..j])
    {
      if freeNow < low {
        low := freeNow;
      }
      if freeNow == 0 {
        break;
      }
      assert retires[..i + 1][..i] == retires[..i];
      if commits + 1 > freed + retires[i] {
        break;
      }
      freed := freed + retires[i];
      freeNow := freeNow - 1 + retires[i];
      commits := commits + 1;
      i := i + 1;
    }
    r := TightJob(freeNow, commits, low);
  }

  function Sum(xs: seq<nat>): nat {
    if xs == [] then 0 else Sum(xs[..|xs| - 1]) + xs[|xs| - 1]
  }
}
