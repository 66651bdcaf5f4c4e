/** The compressor finds repeats (src/compress.rs): a block of one byte over and over shrinks to little more than a
    byte for every 255. */
module LzRuns {
  import opened Keys
  import opened Lz77

  function RunOf(b: Byte, n: nat): (src: Bytes)
    ensures |src| == n && forall i :: 0 <= i < n ==> src[i] == b
  {
    seq(n, _ => b)
  }

  lemma {:induction false} RunsAgree(src: Bytes, b: Byte, a: nat, c: nat, cap: nat)
    requires a + cap <= |src| && c + cap <= |src| && forall i :: 0 <= i < |src| ==> src[i] == b
    ensures Common(src, a, c, cap) == cap
    decreases cap
  {
    if cap > 0 { RunsAgree(src, b, a + 1, c + 1, cap - 1); }
  }

  lemma {:induction false} ExtLength(rem: nat)
    ensures |ExtBytes(rem)| == rem / 255 + 1
  {
    if rem >= 255 {
      ExtLength(rem - 255);
      assert rem / 255 == (rem - 255) / 255 + 1;
    } else {
      assert rem / 255 == 0;
    }
  }

  /** The first byte is a literal, the rest one match a byte back. */
  lemma RunStream(b: Byte, n: nat)
    requires 20 <= n <= 0x1_0000
    ensures GreedyStream(RunOf(b, n)) == Token([b], n - 5, 1) + Literals([], 0)
  {
    hide Token, Literals, Hash;
    var src := RunOf(b, n);
    var empty := seq(HASH_SIZE, _ => -1);
    GreedyStep(src, 0, 0, empty);
    var h := Hash(src, 0);
    SameHash(src, b);
    var table := empty[h := 0];
    GreedyStep(src, 1, 0, table);
    RunsAgree(src, b, 0, 1, n - 1);
    assert Candidate(src, 1, table) == Found(0, n - 1);
    GreedyEnd(src, n, Indexed(src, table, 2, n));
    assert src[0..1] == [b] && src[n..] == [];
  }

  lemma SameHash(src: Bytes, b: Byte)
    requires |src| >= 5 && forall i :: 0 <= i < |src| ==> src[i] == b
    ensures Hash(src, 1) == Hash(src, 0)
  {}

  /** A run of `n` bytes takes six bytes and one for every 255 past the first twenty. */
  lemma RunCompresses(b: Byte, n: nat)
    requires 20 <= n <= 0x1_0000
    ensures |GreedyStream(RunOf(b, n))| == (n - 20) / 255 + 6
  {
    RunStream(b, n);
    ExtLength(n - 20);
    assert |Literals([], 0)| == 1;
    assert |Token([b], n - 5, 1)| == 1 + 0 + 1 + |LengthBytes(n - 5)| + 2;
  }
}
