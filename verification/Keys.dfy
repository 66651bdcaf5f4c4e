/** Keys are byte strings in lexicographic order.

    The modules that only compare keys work on a key's rank instead: a real number, one per
    byte string, ordered exactly as the strings are (`RankOrder`, `RankInjective`). Their theorems
    quantify over every rank, hence over every key. */
module Keys {

  newtype Byte = x: int | 0 <= x < 256

  type Rank = real

  /** The order of Rust's `[u8]: Ord`: the first differing byte decides, a proper prefix is smaller. */
  predicate LexLess(a: seq<Byte>, b: seq<Byte>) {
    if b == [] then false
    else if a == [] then true
    else a[0] < b[0] || (a[0] == b[0] && LexLess(a[1..], b[1..]))
  }

  /** The strings agree on their first `i` bytes, and there the first ends or has the lesser byte. */
  ghost predicate DiffersAt(a: seq<Byte>, b: seq<Byte>, i: nat) {
    i <= |a| && i < |b| && a[..i] == b[..i] && (i == |a| || a[i] < b[i])
  }

  /** One string is below another exactly when at some place it is the first to end or has the lesser byte. */
  lemma {:induction false} LexExactly(a: seq<Byte>, b: seq<Byte>)
    ensures LexLess(a, b) <==> exists i: nat :: DiffersAt(a, b, i)
  {
    if a == [] || b == [] {
      assert b != [] ==> DiffersAt(a, b, 0);
    } else {
      LexExactly(a[1..], b[1..]);
      if a[0] < b[0] { assert DiffersAt(a, b, 0); }
      if a[0] == b[0] && LexLess(a[1..], b[1..]) {
        var i: nat :| DiffersAt(a[1..], b[1..], i);
        assert a[..i + 1] == [a[0]] + a[1..][..i] && b[..i + 1] == [b[0]] + b[1..][..i];
        assert DiffersAt(a, b, i + 1);
      }
      if i: nat :| DiffersAt(a, b, i) {
        if i > 0 {
          assert a[..i][0] == a[0] && b[..i][0] == b[0];
          assert a[..i][1..] == a[1..][..i - 1] && b[..i][1..] == b[1..][..i - 1];
          assert DiffersAt(a[1..], b[1..], i - 1);
        }
      }
    }
  }

  /** Reads the string as the digits after the point of a base-257 fraction; digit 0 is "no more bytes". */
  function RankOf(k: seq<Byte>): (r: Rank)
    ensures 0.0 <= r < 1.0
    ensures k != [] ==> r > 0.0
  {
    if k == [] then 0.0 else ((k[0] as int + 1) as real + RankOf(k[1..])) / 257.0
  }

  lemma {:induction false} RankOrder(a: seq<Byte>, b: seq<Byte>)
    ensures LexLess(a, b) <==> RankOf(a) < RankOf(b)
  {
    if a != [] && b != [] {
      RankOrder(a[1..], b[1..]);
      var x, y := (a[0] as int + 1) as real, (b[0] as int + 1) as real;
      var s, t := RankOf(a[1..]), RankOf(b[1..]);
      assert RankOf(a) == (x + s) / 257.0 && RankOf(b) == (y + t) / 257.0;
      if a[0] < b[0] {
        assert x + 1.0 <= y;
      } else if a[0] > b[0] {
        assert y + 1.0 <= x;
      }
    }
  }

  lemma {:induction false} LexTotal(a: seq<Byte>, b: seq<Byte>)
    ensures LexLess(a, b) || a == b || LexLess(b, a)
  {
    if a != [] && b != [] && a[0] == b[0] {
      LexTotal(a[1..], b[1..]);
      assert a == [a[0]] + a[1..] && b == [b[0]] + b[1..];
    }
  }

  lemma RankInjective(a: seq<Byte>, b: seq<Byte>)
    requires RankOf(a) == RankOf(b)
    ensures a == b
  {
    RankOrder(a, b);
    RankOrder(b, a);
    LexTotal(a, b);
  }

  predicate LexLeq(a: seq<Byte>, b: seq<Byte>) {
    a == b || LexLess(a, b)
  }

  datatype Option<+T> = None | Some(value: T)

  /** The key with its last byte below 255 raised by one, and the bytes after it cut off. */
  function Raised(key: seq<Byte>): Option<seq<Byte>> {
    if key == [] then None
    else
      var n := |key| - 1;
      if key[n] != 255 then Some(key[..n] + [key[n] + 1]) else Raised(key[..n])
  }

  /** The key that follows `key` among those of at most `keyMax` bytes. */
  function NextKey(key: seq<Byte>, keyMax: nat): Option<seq<Byte>> {
    if key == [] then None else if |key| < keyMax then Some(key + [0]) else Raised(key)
  }

  /** No key lies between a key and the next, and there is no next only after the empty and the greatest key. */
  lemma NextKeyExact(key: seq<Byte>, keyMax: nat, k: seq<Byte>)
    requires |key| <= keyMax && |k| <= keyMax
    ensures var next := NextKey(key, keyMax);
            && (next.Some? ==>
                  |next.value| <= keyMax && next.value != [] && (LexLeq(k, key) <==> LexLess(k, next.value)))
            && (next.None? ==> key == [] || LexLeq(k, key))
  {
    if 0 < |key| < keyMax {
      ZeroExtension(key, k);
    } else if key != [] {
      assert key[..|key|] == key;
      RaisedExact(key, |key|, k);
    }
  }

  lemma {:induction false} RaisedExact(key: seq<Byte>, n: nat, k: seq<Byte>)
    requires n <= |key| && |k| <= |key| && forall j :: n <= j < |key| ==> key[j] == 255
    ensures var next := Raised(key[..n]);
            if next.Some? then 0 < |next.value| <= n && (LexLeq(k, key) <==> LexLess(k, next.value)) else LexLeq(k, key)
  {
    if n == 0 {
      AllMax(key, k);
    } else {
      assert key[..n][..n - 1] == key[..n - 1];
      if key[n - 1] != 255 {
        Bumped(key, n - 1, k);
      } else {
        RaisedExact(key, n - 1, k);
      }
    }
  }

  /** `KeyBound::successor`: the exclusive end of the key range that ends at `key`. */
  method Successor(key: seq<Byte>, keyMax: nat) returns (next: Option<seq<Byte>>)
    requires |key| <= keyMax
    ensures next == NextKey(key, keyMax)
    ensures next.Some? ==> |next.value| <= keyMax
    ensures next.Some? ==>
              forall k: seq<Byte> :: |k| <= keyMax ==> (LexLeq(k, key) <==> LexLess(k, next.value))
    ensures next.None? ==>
              key == [] || forall k: seq<Byte> :: |k| <= keyMax ==> LexLeq(k, key)
  {
    forall k: seq<Byte> | |k| <= keyMax
      ensures NextKey(key, keyMax).Some? ==>
                |NextKey(key, keyMax).value| <= keyMax && (LexLeq(k, key) <==> LexLess(k, NextKey(key, keyMax).value))
      ensures NextKey(key, keyMax).None? ==> key == [] || LexLeq(k, key)
    {
      NextKeyExact(key, keyMax, k);
    }
    NextKeyExact(key, keyMax, []);
    var len := |key|;
    if len == 0 {
      return None;
    }
    if len < keyMax {
      return Some(key + [0]);
    }
    var i := len;
    assert key[..len] == key;
    while i > 0
      invariant 0 <= i <= len
      invariant Raised(key) == Raised(key[..i])
    {
      assert key[..i][..i - 1] == key[..i - 1];
      i := i - 1;
      if key[i] != 255 {
        return Some(key[..i] + [key[i] + 1]);
      }
    }
    return None;
  }

  /** The keys a database admits, by rank, and the key that follows each. */
  datatype KeySpace = KeySpace(keyMax: nat, next: Rank -> Option<Rank>) {
    ghost predicate Key(r: Rank) {
      exists k: seq<Byte> :: 0 < |k| <= keyMax && RankOf(k) == r
    }

    /** `next` is the rank of the next key; after the greatest key there is none. */
    ghost predicate Valid() {
      forall r :: Key(r) ==> Follows(r)
    }

    ghost predicate Follows(r: Rank) {
      match next(r)
      case Some(s) => Key(s) && forall k :: Key(k) ==> (k <= r <==> k < s)
      case None => forall k :: Key(k) ==> k <= r
    }

    /** A range that ends, exclusively, at `end` has no key past `last`. */
    predicate EndsBy(end: Rank, last: Rank) {
      end <= last || (next(last).Some? && end <= next(last).value)
    }
  }

  /** Ranks carry the order of `NextKey` over. */
  lemma RankNext(key: seq<Byte>, keyMax: nat, k: seq<Byte>)
    requires 0 < |key| <= keyMax && |k| <= keyMax
    ensures var next := NextKey(key, keyMax);
            if next.Some? then RankOf(k) <= RankOf(key) <==> RankOf(k) < RankOf(next.value)
            else RankOf(k) <= RankOf(key)
  {
    NextKeyExact(key, keyMax, k);
    RankOrder(k, key);
    if RankOf(k) == RankOf(key) { RankInjective(k, key); }
    var next := NextKey(key, keyMax);
    if next.Some? { RankOrder(k, next.value); }
  }

  /** Every key length has its space: `Successor` on ranks. */
  lemma SpaceOf(keyMax: nat) returns (ks: KeySpace)
    ensures ks.keyMax == keyMax && ks.Valid()
    ensures forall k: seq<Byte> :: 0 < |k| <= keyMax ==>
              ks.next(RankOf(k)) == var n := NextKey(k, keyMax); if n.None? then None else Some(RankOf(n.value))
  {
    ks := KeySpace(keyMax, r => NextRank(keyMax, r));
    forall k: seq<Byte> | 0 < |k| <= keyMax
      ensures ks.next(RankOf(k)) == var n := NextKey(k, keyMax); if n.None? then None else Some(RankOf(n.value))
    {
      NextRankIs(keyMax, k);
    }
    forall r | ks.Key(r) ensures ks.Follows(r) {
      var key: seq<Byte> :| 0 < |key| <= keyMax && RankOf(key) == r;
      NextKeyExact(key, keyMax, []);
      forall k | ks.Key(k) ensures if ks.next(r).Some? then k <= r <==> k < ks.next(r).value else k <= r {
        var b: seq<Byte> :| 0 < |b| <= keyMax && RankOf(b) == k;
        RankNext(key, keyMax, b);
      }
    }
  }

  ghost function NextRank(keyMax: nat, r: Rank): Option<Rank> {
    if k: seq<Byte> :| 0 < |k| <= keyMax && RankOf(k) == r then
      var n := NextKey(k, keyMax);
      if n.None? then None else Some(RankOf(n.value))
    else None
  }

  lemma NextRankIs(keyMax: nat, k: seq<Byte>)
    requires 0 < |k| <= keyMax
    ensures NextRank(keyMax, RankOf(k)) == var n := NextKey(k, keyMax); if n.None? then None else Some(RankOf(n.value))
  {
    forall b: seq<Byte> | RankOf(b) == RankOf(k) ensures b == k { RankInjective(b, k); }
  }

  /** Following keys keep their order. */
  lemma NextMonotone(ks: KeySpace, a: Rank, b: Rank)
    requires ks.Valid() && ks.Key(a) && ks.Key(b) && a <= b && ks.next(b).Some?
    ensures ks.next(a).Some? && ks.next(a).value <= ks.next(b).value
    ensures a < b ==> ks.next(a).value <= b
  {
    assert ks.Follows(a) && ks.Follows(b);
  }

  lemma {:induction false} ZeroExtension(key: seq<Byte>, k: seq<Byte>)
    ensures LexLeq(k, key) <==> LexLess(k, key + [0])
  {
    if key == [] {
      assert (key + [0])[1..] == [];
    } else if k != [] {
      ZeroExtension(key[1..], k[1..]);
      assert (key + [0])[1..] == key[1..] + [0];
      assert k == [k[0]] + k[1..] && key == [key[0]] + key[1..];
    }
  }

  lemma {:induction false} AllMax(key: seq<Byte>, k: seq<Byte>)
    requires |k| <= |key|
    requires forall j :: 0 <= j < |key| ==> key[j] == 255
    ensures LexLeq(k, key)
  {
    if k != [] {
      AllMax(key[1..], k[1..]);
      assert k == [k[0]] + k[1..] && key == [key[0]] + key[1..];
    }
  }

  lemma {:induction false} Bumped(key: seq<Byte>, i: nat, k: seq<Byte>)
    requires i < |key| && key[i] != 255 && |k| <= |key|
    requires forall j :: i < j < |key| ==> key[j] == 255
    ensures LexLeq(k, key) <==> LexLess(k, key[..i] + [key[i] + 1])
  {
    var bumped := key[..i] + [key[i] + 1];
    if k != [] {
      assert k == [k[0]] + k[1..] && key == [key[0]] + key[1..];
      if i == 0 {
        assert bumped[1..] == [];
        if k[0] == key[0] {
          AllMax(key[1..], k[1..]);
        }
      } else {
        Bumped(key[1..], i - 1, k[1..]);
        assert bumped[1..] == key[1..][..i - 1] + [key[1..][i - 1] + 1];
      }
    }
  }

  function Max(a: Rank, b: Rank): (m: Rank)
    ensures m >= a && m >= b && (m == a || m == b)
  {
    if a < b then b else a
  }
}
