/** The manifest's commits and recovery over any number of copies (src/manifest.rs). */
module ManifestCommit {
  import opened Arithmetic
  import opened Keys
  import Ring

  /** A block of a manifest copy. A valid one has an intact CRC. The body's unit is a byte on the device;
      nothing below depends on it. */
  datatype Block<T> = Blank | Corrupt | Valid(seqno: nat, index: nat, count: nat, chunk: seq<T>)

  type Copy<T> = seq<Block<T>>

  /** A committed manifest; sequence 0 is the fresh one, which no copy holds. */
  datatype Manifest<T> = Manifest(seqno: nat, body: seq<T>)

  function Fresh<T>(): Manifest<T> {
    Manifest(0, [])
  }

  datatype Probe = IsBlank | IsCorrupt | Intact(seqno: nat, count: nat)

  /** The body cut into blocks, every one full but the last. */
  function Chunks<T>(body: seq<T>, size: nat): (cs: seq<seq<T>>)
    requires size > 0
    ensures cs != [] && Join(cs) == body
    ensures forall i :: 0 <= i < |cs| - 1 ==> |cs[i]| == size
    decreases |body|
  {
    if |body| <= size then [body]
    else
      var rest := Chunks(body[size..], size);
      var cs := [body[..size]] + rest;
      assert cs[1..] == rest;
      cs
  }

  function Join<T>(cs: seq<seq<T>>): seq<T> {
    if cs == [] then [] else cs[0] + Join(cs[1..])
  }

  lemma {:induction false} JoinAppend<T>(cs: seq<seq<T>>, c: seq<T>)
    ensures Join(cs + [c]) == Join(cs) + c
  {
    if cs == [] {
      assert cs + [c] == [c];
    } else {
      JoinAppend(cs[1..], c);
      assert (cs + [c])[1..] == cs[1..] + [c];
    }
  }

  /** The copy that sequence `s` is written to. */
  function Place(n: nat, s: nat): (k: nat)
    requires n > 0
    ensures k < n
  {
    s % n
  }

  lemma PlaceNext(n: nat, s: nat)
    requires n >= 2
    ensures Place(n, s + 1) != Place(n, s) && Place(n, 0) == 0
  {
    Ring.NextSlot(n, s);
  }

  predicate Fits<T>(body: seq<T>, size: nat, stride: nat) {
    size > 0 && |Chunks(body, size)| <= stride
  }

  lemma {:induction false} ChunkCount<T>(body: seq<T>, size: nat)
    requires size > 0
    ensures |Chunks(body, size)| >= 1 && |body| <= |Chunks(body, size)| * size
    ensures |body| > 0 ==> |body| > (|Chunks(body, size)| - 1) * size
    decreases |body|
  {
    if |body| > size {
      var n := |Chunks(body[size..], size)|;
      ChunkCount(body[size..], size);
      assert (n + 1) * size == n * size + size && n * size == (n - 1) * size + size by {
        Distribute(n, 1, size);
        Distribute(n - 1, 1, size);
      }
    }
  }

  /** A body fits exactly when it is no longer than a copy's blocks together. */
  lemma FitsExactly<T>(body: seq<T>, size: nat, stride: nat)
    requires size > 0 && stride > 0
    ensures Fits(body, size, stride) <==> |body| <= stride * size
  {
    var n := |Chunks(body, size)|;
    ChunkCount(body, size);
    if n <= stride {
      MulMonotone(n, stride, size);
    } else {
      MulMonotone(stride, n - 1, size);
    }
  }

  predicate Shaped<T>(copies: seq<Copy<T>>, stride: nat) {
    |copies| >= 2 && stride >= 1 && forall k :: 0 <= k < |copies| ==> |copies[k]| == stride
  }

  /** A copy is only ever written at its own sequence numbers, block by block in place. */
  ghost predicate CopySound<T>(n: nat, k: nat, c: Copy<T>, s: nat)
    requires n > 0
  {
    forall i :: 0 <= i < |c| && c[i].Valid? ==> c[i].index == i && 1 <= c[i].seqno <= s + 1 && Place(n, c[i].seqno) == k
  }

  /** The copy that holds the manifest. */
  ghost predicate Written<T>(c: Copy<T>, m: Manifest<T>, size: nat) {
    Fits(m.body, size, |c|) &&
    var cs := Chunks(m.body, size);
    forall i :: 0 <= i < |cs| ==> c[i] == Valid(m.seqno, i, |cs|, cs[i])
  }

  /** No block closes a copy of the next sequence: a commit that crashed never wrote its last block. */
  ghost predicate Unfinished<T>(c: Copy<T>, s: nat) {
    forall i :: 0 <= i < |c| && c[i].Valid? && c[i].seqno == s + 1 ==> i + 1 != c[i].count
  }

  ghost predicate Sound<T>(copies: seq<Copy<T>>, stride: nat, size: nat, m: Manifest<T>) {
    && Shaped(copies, stride) && size > 0
    && (forall k :: 0 <= k < |copies| ==> CopySound(|copies|, k, copies[k], m.seqno))
    && Unfinished(copies[Place(|copies|, m.seqno + 1)], m.seqno)
    && (if m.seqno == 0 then m == Fresh() && copies[0][0].Blank?
        else Written(copies[Place(|copies|, m.seqno)], m, size))
  }

  lemma Sized<T>(copies: seq<Copy<T>>, stride: nat, size: nat, m: Manifest<T>)
    requires Sound(copies, stride, size, m)
    ensures size > 0 && stride > 0
  {}

  // Commits.

  /** A commit under way: blocks `0 .. i` of the target copy are the new manifest's. */
  ghost predicate Partly<T>(copies: seq<Copy<T>>, stride: nat, size: nat, m: Manifest<T>, body: seq<T>, i: nat) {
    && Sound(copies, stride, size, m) && Fits(body, size, stride) && i < |Chunks(body, size)|
    && var cs, c := Chunks(body, size), copies[Place(|copies|, m.seqno + 1)];
       forall j :: 0 <= j < i ==> c[j] == Valid(m.seqno + 1, j, |cs|, cs[j])
  }

  /** Writing any block but the last, or spoiling any block, leaves the previous manifest in place. */
  lemma StillSound<T>(copies: seq<Copy<T>>, stride: nat, size: nat, m: Manifest<T>, i: nat, b: Block<T>)
    requires Sound(copies, stride, size, m) && i < stride
    requires b == Corrupt || (b.Valid? && b.seqno == m.seqno + 1 && b.index == i && i + 1 != b.count)
    ensures var t := Place(|copies|, m.seqno + 1); Sound(copies[t := copies[t][i := b]], stride, size, m)
  {
    hide Place, Chunks;
    var n := |copies|;
    var t := Place(n, m.seqno + 1);
    PlaceNext(n, m.seqno);
    var after := copies[t := copies[t][i := b]];
    assert m.seqno > 0 ==> after[Place(n, m.seqno)] == copies[Place(n, m.seqno)];
    forall k | 0 <= k < n ensures CopySound(n, k, after[k], m.seqno) {
      assert CopySound(n, k, copies[k], m.seqno);
    }
  }

  /** Writing the last block makes the new manifest the current one. */
  lemma LastBlock<T>(copies: seq<Copy<T>>, stride: nat, size: nat, m: Manifest<T>, body: seq<T>)
    requires size > 0 && Partly(copies, stride, size, m, body, |Chunks(body, size)| - 1)
    ensures var t, cs := Place(|copies|, m.seqno + 1), Chunks(body, size);
            var i := |cs| - 1;
            Sound(copies[t := copies[t][i := Valid(m.seqno + 1, i, |cs|, cs[i])]], stride, size,
                  Manifest(m.seqno + 1, body))
  {
    hide Place, Chunks;
    var n, cs := |copies|, Chunks(body, size);
    var t, i := Place(n, m.seqno + 1), |cs| - 1;
    var after := copies[t := copies[t][i := Valid(m.seqno + 1, i, |cs|, cs[i])]];
    forall k | 0 <= k < n ensures CopySound(n, k, after[k], m.seqno + 1) {
      assert CopySound(n, k, copies[k], m.seqno);
    }
    PlaceNext(n, m.seqno + 1);
    var u := Place(n, m.seqno + 2);
    assert CopySound(n, u, copies[u], m.seqno);
    assert Written(after[t], Manifest(m.seqno + 1, body), size);
  }

  // Recovery.

  /** `probe_copy`. */
  method ProbeCopy<T>(c: Copy<T>, size: nat) returns (p: Probe)
    requires c != []
    ensures p.Intact? ==> IntactAs(c, size, p.seqno, p.count)
    ensures p.IsBlank? <==> c[0].Blank?
    ensures p.IsCorrupt? ==> forall s, n :: !IntactAs(c, size, s, n)
  {
    assert forall s, n :: IntactAs(c, size, s, n) ==> BlockFits(c, size, s, n, 0);
    if c[0].Blank? {
      return IsBlank;
    }
    if c[0].Corrupt? {
      return IsCorrupt;
    }
    var head := c[0];
    if head.index != 0 || head.count == 0 || head.count > |c| {
      return IsCorrupt;
    }
    if head.count > 1 && |head.chunk| != size {
      return IsCorrupt;
    }
    for i := 1 to head.count
      invariant forall j :: 0 <= j < i ==> BlockFits(c, size, head.seqno, head.count, j)
    {
      var h := c[i];
      if !h.Valid? || h.seqno != head.seqno || h.index != i || h.count != head.count
          || (i + 1 != head.count && |h.chunk| != size) {
        assert !BlockFits(c, size, head.seqno, head.count, i);
        return IsCorrupt;
      }
    }
    return Intact(head.seqno, head.count);
  }

  ghost predicate BlockFits<T>(c: Copy<T>, size: nat, s: nat, n: nat, j: nat) {
    && j < |c| && c[j].Valid? && c[j].seqno == s && c[j].index == j && c[j].count == n
    && (j + 1 != n ==> |c[j].chunk| == size)
  }

  /** Every block of the copy belongs to one manifest of `n` blocks. */
  ghost predicate IntactAs<T>(c: Copy<T>, size: nat, s: nat, n: nat) {
    0 < n <= |c| && forall j :: 0 <= j < n ==> BlockFits(c, size, s, n, j)
  }

  lemma WrittenIntact<T>(c: Copy<T>, m: Manifest<T>, size: nat)
    requires c != [] && Written(c, m, size)
    ensures IntactAs(c, size, m.seqno, |Chunks(m.body, size)|)
    ensures forall s, n :: IntactAs(c, size, s, n) ==> s == m.seqno && n == |Chunks(m.body, size)|
  {
    var cs := Chunks(m.body, size);
    forall j | 0 <= j < |cs| ensures BlockFits(c, size, m.seqno, |cs|, j) {}
    forall s, n | IntactAs(c, size, s, n) ensures s == m.seqno && n == |cs| {
      assert BlockFits(c, size, s, n, 0);
    }
  }

  /** No intact copy is newer than the current manifest, and only its own copy is as new. */
  lemma IntactBelow<T>(copies: seq<Copy<T>>, stride: nat, size: nat, m: Manifest<T>, k: nat, s: nat, n: nat)
    requires Sound(copies, stride, size, m) && k < |copies| && IntactAs(copies[k], size, s, n)
    ensures 1 <= s <= m.seqno && (s == m.seqno ==> k == Place(|copies|, m.seqno))
  {
    var c := copies[k];
    assert CopySound(|copies|, k, c, m.seqno);
    assert BlockFits(c, size, s, n, 0) && BlockFits(c, size, s, n, n - 1);
  }

  /** The chunks of a copy's first blocks. */
  function Parts<T>(c: Copy<T>, count: nat): (cs: seq<seq<T>>)
    requires count <= |c|
    ensures |cs| == count && forall i :: 0 <= i < count && c[i].Valid? ==> cs[i] == c[i].chunk
  {
    seq(count, i requires 0 <= i < count => if c[i].Valid? then c[i].chunk else [])
  }

  lemma WrittenParts<T>(c: Copy<T>, m: Manifest<T>, size: nat)
    requires Written(c, m, size)
    ensures Join(Parts(c, |Chunks(m.body, size)|)) == m.body
  {
    assert Parts(c, |Chunks(m.body, size)|) == Chunks(m.body, size);
  }

  /** Reads an intact copy's body back. */
  method ReadBody<T>(c: Copy<T>, size: nat, ghost s: nat, count: nat) returns (body: seq<T>)
    requires IntactAs(c, size, s, count)
    ensures body == Join(Parts(c, count))
  {
    body := [];
    ghost var cs := Parts(c, count);
    assert cs[..0] == [];
    for i := 0 to count
      invariant body == Join(cs[..i])
    {
      assert BlockFits(c, size, s, count, i);
      JoinAppend(cs[..i], c[i].chunk);
      assert cs[..i + 1] == cs[..i] + [c[i].chunk];
      body := body + c[i].chunk;
    }
    assert cs[..count] == cs;
  }

  /** Copy `k` holds a manifest with this sequence in `n` blocks, and no copy one with a higher sequence. */
  ghost predicate NewestIntact<T>(copies: seq<Copy<T>>, size: nat, k: nat, s: nat, n: nat) {
    && k < |copies| && IntactAs(copies[k], size, s, n)
    && forall j, q: nat, l: nat :: 0 <= j < |copies| && IntactAs(copies[j], size, q, l) ==> q <= s
  }

  ghost predicate NoneIntact<T>(copies: seq<Copy<T>>, size: nat) {
    forall j, q: nat, l: nat :: 0 <= j < |copies| ==> !IntactAs(copies[j], size, q, l)
  }

  /** What the device stands for, whatever it holds: the newest intact copy's manifest; without one a fresh one, if some
      copy was never written; else nothing. */
  ghost predicate Recovered<T>(copies: seq<Copy<T>>, size: nat, r: Option<Manifest<T>>) {
    if NoneIntact(copies, size) then
      r == if exists k :: 0 <= k < |copies| && copies[k] != [] && copies[k][0].Blank? then Some(Fresh()) else None
    else
      r.Some? && exists k: nat, n: nat :: NewestIntact(copies, size, k, r.value.seqno, n) && n <= |copies[k]|
                                       && r.value.body == Join(Parts(copies[k], n))
  }

  /** `recover_from` on any device at all. */
  method RecoverAny<T>(copies: seq<Copy<T>>, size: nat) returns (r: Option<Manifest<T>>)
    requires forall k :: 0 <= k < |copies| ==> copies[k] != []
    ensures Recovered(copies, size, r)
  {
    hide IntactAs;
    var best: Option<(nat, nat, nat)> := None;
    var blank := false;
    for k := 0 to |copies|
      invariant best.None? ==> NoneIntact(copies[..k], size)
      invariant best.Some? ==> NewestIntact(copies[..k], size, best.value.1, best.value.0, best.value.2)
      invariant blank <==> exists j :: 0 <= j < k && copies[j][0].Blank?
    {
      var p := ProbeCopy(copies[k], size);
      OneIntact(copies[k], size, p);
      match p
      case Intact(s, count) =>
        if best.None? || s > best.value.0 {
          best := Some((s, k, count));
        }
      case IsBlank => blank := true;
      case IsCorrupt =>
    }
    assert copies[..|copies|] == copies;
    if best.None? {
      return if blank then Some(Fresh()) else None;
    }
    IntactBound(copies[best.value.1], size, best.value.0, best.value.2);
    var body := ReadBody(copies[best.value.1], size, best.value.0, best.value.2);
    return Some(Manifest(best.value.0, body));
  }

  lemma IntactBound<T>(c: Copy<T>, size: nat, s: nat, n: nat)
    requires IntactAs(c, size, s, n)
    ensures 0 < n <= |c|
  {}

  /** A copy is intact in one way at most, and not when it is blank or corrupt. */
  lemma OneIntact<T>(c: Copy<T>, size: nat, p: Probe)
    requires c != [] && (p.IsBlank? <==> c[0].Blank?)
    requires p.Intact? ==> IntactAs(c, size, p.seqno, p.count)
    requires p.IsCorrupt? ==> forall s, n :: !IntactAs(c, size, s, n)
    ensures forall s, n :: IntactAs(c, size, s, n) ==> p == Intact(s, n)
  {
    forall s, n | IntactAs(c, size, s, n) ensures p == Intact(s, n) {
      assert BlockFits(c, size, s, n, 0);
      if p.Intact? { assert BlockFits(c, size, p.seqno, p.count, 0); }
    }
  }

  /** A sound device stands for the current manifest. */
  lemma SoundIsCurrent<T>(copies: seq<Copy<T>>, stride: nat, size: nat, m: Manifest<T>, r: Option<Manifest<T>>)
    requires Sound(copies, stride, size, m) && Recovered(copies, size, r)
    ensures r == Some(m)
  {
    hide Place, Chunks;
    var home := Place(|copies|, m.seqno);
    if m.seqno > 0 {
      WrittenIntact(copies[home], m, size);
      WrittenParts(copies[home], m, size);
      var k: nat, n: nat :| NewestIntact(copies, size, k, r.value.seqno, n) && n <= |copies[k]|
                       && r.value.body == Join(Parts(copies[k], n));
      IntactBelow(copies, stride, size, m, k, r.value.seqno, n);
    } else {
      forall j, q: nat, l: nat | 0 <= j < |copies| ensures !IntactAs(copies[j], size, q, l) {
        if IntactAs(copies[j], size, q, l) { IntactBelow(copies, stride, size, m, j, q, l); }
      }
      assert copies[0] != [] && copies[0][0].Blank?;
    }
  }

  /** `recover_from` over a sound device returns the current manifest, whatever else the copies hold. */
  method RecoverFrom<T>(copies: seq<Copy<T>>, stride: nat, size: nat, ghost m: Manifest<T>)
    returns (r: Option<Manifest<T>>)
    requires Sound(copies, stride, size, m)
    ensures r == Some(m)
  {
    r := RecoverAny(copies, size);
    SoundIsCurrent(copies, stride, size, m, r);
  }

  /** The manifest's copies on a device. */
  class ManifestStore<T> {
    const stride: nat
    const size: nat
    var copies: seq<Copy<T>>
    var seqno: nat
    ghost var current: Manifest<T>

    ghost predicate Valid()
      reads this
    {
      Sound(copies, stride, size, current)
    }

    constructor (n: nat, stride: nat, size: nat)
      requires n >= 2 && stride >= 1 && size > 0
      ensures Valid() && current == Fresh() && seqno == 0 && this.stride == stride && this.size == size
    {
      this.stride, this.size := stride, size;
      copies := seq(n, _ => seq(stride, _ => Blank));
      seqno, current := 0, Fresh();
    }

    /** `commit_edit`: writes copy `seqno + 1` block by block. Power fails after `steps` block writes, when there
        are as many, and may spoil the block being written. */
    method Commit(body: seq<T>, steps: nat, spoil: bool) returns (done: bool)
      requires Valid() && seqno == current.seqno && Fits(body, size, stride)
      modifies this
      ensures Valid() && |copies| == |old(copies)|
      ensures done ==> seqno == current.seqno
      ensures done <==> steps > |Chunks(body, size)|
      ensures current == if steps >= |Chunks(body, size)| then Manifest(old(seqno) + 1, body) else old(current)
      ensures steps < |Chunks(body, size)| && spoil ==> copies[Place(|copies|, old(seqno) + 1)][steps].Corrupt?
      ensures forall k :: 0 <= k < |copies| && k != Place(|copies|, old(seqno) + 1) ==> copies[k] == old(copies)[k]
    {
      hide Place, Chunks, CopySound, Unfinished, Written;
      var cs := Chunks(body, size);
      var t := Place(|copies|, seqno + 1);
      var i := 0;
      while i + 1 < |cs|
        invariant i < |cs| && i <= steps && seqno == old(seqno) && current == old(current) && |copies| == |old(copies)|
        invariant Partly(copies, stride, size, current, body, i)
        invariant forall k :: 0 <= k < |copies| && k != t ==> copies[k] == old(copies)[k]
      {
        if i == steps {
          if spoil { Spoil(t, i); }
          return false;
        }
        StillSound(copies, stride, size, current, i, Block.Valid(seqno + 1, i, |cs|, cs[i]));
        copies := copies[t := copies[t][i := Block.Valid(seqno + 1, i, |cs|, cs[i])]];
        i := i + 1;
      }
      if i == steps {
        if spoil { Spoil(t, i); }
        return false;
      }
      LastBlock(copies, stride, size, current, body);
      copies := copies[t := copies[t][i := Block.Valid(seqno + 1, i, |cs|, cs[i])]];
      current := Manifest(seqno + 1, body);
      if i + 1 == steps {
        return false;
      }
      seqno := seqno + 1;
      return true;
    }

    /** A block write that power failure spoiled. */
    method Spoil(t: nat, i: nat)
      requires Valid() && i < stride && t == Place(|copies|, current.seqno + 1)
      modifies this`copies
      ensures Valid() && |copies| == |old(copies)| && copies[t][i].Corrupt?
      ensures copies == old(copies)[t := copies[t]] && copies[t] == old(copies)[t][i := Corrupt]
    {
      StillSound(copies, stride, size, current, i, Corrupt);
      copies := copies[t := copies[t][i := Corrupt]];
    }

    /** Restarting finds the current manifest. */
    method Recover() returns (m: Manifest<T>)
      requires Valid()
      modifies this`seqno
      ensures Valid() && m == current && seqno == current.seqno
    {
      var r := RecoverFrom(copies, stride, size, current);
      m := r.value;
      seqno := m.seqno;
    }
  }
}
