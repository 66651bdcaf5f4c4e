/** The merge rule across nodes (src/version.rs), and when it is an order. */
module Versions {
  datatype Version = Version(node: nat, wall: nat, seqno: nat)

  /** `version_gt`. */
  predicate Gt(a: Version, b: Version) {
    if a.seqno == 0 then false
    else if b.seqno == 0 then true
    else if a.node == b.node then a.seqno > b.seqno
    else if a.wall != b.wall then a.wall > b.wall
    else a.node > b.node
  }

  /** Real versions, no two of one node with one sequence. */
  ghost predicate Genuine(vs: set<Version>) {
    && (forall v :: v in vs ==> v.seqno > 0)
    && (forall a, b :: a in vs && b in vs && a.node == b.node && a.seqno == b.seqno ==> a == b)
  }

  ghost predicate Transitive(vs: set<Version>) {
    forall a, b, c :: a in vs && b in vs && c in vs && Gt(a, b) && Gt(b, c) ==> Gt(a, c)
  }

  /** Within each node a higher sequence never has a lower wall. */
  ghost predicate Monotone(vs: set<Version>) {
    forall a, b :: a in vs && b in vs && a.node == b.node && a.seqno > b.seqno ==> a.wall >= b.wall
  }

  /** Any two different versions compare, one way only. */
  lemma Trichotomy(vs: set<Version>, a: Version, b: Version)
    requires Genuine(vs) && a in vs && b in vs
    ensures a == b ==> !Gt(a, b)
    ensures a != b ==> (Gt(a, b) <==> !Gt(b, a))
  {}

  lemma MonotoneTransitive(vs: set<Version>)
    requires Genuine(vs) && Monotone(vs)
    ensures Transitive(vs)
  {}

  lemma NodeBound(vs: set<Version>) returns (n: nat)
    ensures forall v :: v in vs ==> v.node < n
    decreases |vs|
  {
    if v :| v in vs {
      var m := NodeBound(vs - {v});
      n := if v.node < m then m else v.node + 1;
    } else {
      n := 0;
    }
  }

  /** A version of a node the set does not have. */
  ghost predicate Foreign(vs: set<Version>, c: Version) {
    c.seqno > 0 && forall v :: v in vs ==> v.node != c.node
  }

  /** The rule orders a database's versions together with any other node's exactly when its walls are monotone. */
  lemma OrderExactly(vs: set<Version>)
    requires Genuine(vs)
    ensures Monotone(vs) <==> forall c :: Foreign(vs, c) ==> Transitive(vs + {c})
  {
    if Monotone(vs) {
      forall c | Foreign(vs, c) ensures Transitive(vs + {c}) {
        MonotoneTransitive(vs + {c});
      }
    } else {
      var a, b :| a in vs && b in vs && a.node == b.node && a.seqno > b.seqno && a.wall < b.wall;
      var n := NodeBound(vs);
      var c := Version(n, a.wall, 1);
      assert Foreign(vs, c);
      assert Gt(a, b) && Gt(b, c) && !Gt(a, c);
      assert a in vs + {c} && b in vs + {c} && c in vs + {c};
    }
  }

  /** `a` is the greater by wall, then by node, then by sequence; the reserved sequence 0 is below them all. */
  predicate Above(a: Version, b: Version) {
    a.seqno > 0 && (b.seqno > 0 ==>
      a.wall > b.wall || (a.wall == b.wall && (a.node > b.node || (a.node == b.node && a.seqno > b.seqno))))
  }

  /** Under monotone walls the rule is the order by wall, node and sequence, and under no others: two versions of a
      node whose walls run backwards are the ones it takes the other way round. */
  lemma RuleExactly(vs: set<Version>)
    requires Genuine(vs)
    ensures Monotone(vs) <==> forall a, b :: a in vs && b in vs ==> (Gt(a, b) <==> Above(a, b))
  {
    if !Monotone(vs) {
      var a, b :| a in vs && b in vs && a.node == b.node && a.seqno > b.seqno && a.wall < b.wall;
      assert Gt(a, b) && !Above(a, b);
    }
  }

  /** The reserved sequence wins against nothing, and everything real wins against it. */
  lemma ReservedLoses(a: Version, b: Version)
    requires b.seqno == 0
    ensures !Gt(b, a) && (Gt(a, b) <==> Above(a, b))
  {}

  /** Versions of different nodes are taken by wall, and at one wall the greater node wins, whatever the sequences. */
  lemma AcrossNodes(a: Version, b: Version)
    requires a.seqno > 0 && b.seqno > 0 && a.node != b.node
    ensures a.wall > b.wall ==> Gt(a, b) && !Gt(b, a)
    ensures a.wall == b.wall && a.node > b.node ==> Gt(a, b) && !Gt(b, a)
  {}

  /** Three versions that beat each other in a circle. */
  lemma Circle()
    ensures var a, b, c := Version(1, 0, 100), Version(1, 50, 10), Version(2, 20, 1);
            Gt(a, b) && Gt(b, c) && Gt(c, a)
  {}

  // The fold that point reads and scans make.

  /** Keeps the newer of the best so far and the next. */
  function Fold(best: Version, vs: seq<Version>): Version
    decreases |vs|
  {
    if vs == [] then best else Fold(if Gt(vs[0], best) then vs[0] else best, vs[1..])
  }

  ghost predicate Greatest(all: set<Version>, w: Version) {
    w in all && forall v :: v in all ==> v == w || Gt(w, v)
  }

  lemma {:induction false} FoldGreatest(all: set<Version>, best: Version, vs: seq<Version>, seen: set<Version>)
    requires Genuine(all) && Transitive(all) && seen <= all && Greatest(seen, best) && forall v :: v in vs ==> v in all
    ensures Greatest(seen + (set v | v in vs), Fold(best, vs))
    decreases |vs|
  {
    var rest := seen + set v | v in vs;
    if vs == [] {
      assert rest == seen;
    } else {
      var v := vs[0];
      assert v in vs;
      var next := if Gt(v, best) then v else best;
      assert Greatest(seen + {v}, next) by {
        Trichotomy(all, v, best);
      }
      FoldGreatest(all, next, vs[1..], seen + {v});
      assert vs == [v] + vs[1..];
      assert seen + {v} + (set x | x in vs[1..]) == rest;
    }
  }

  /** With monotone walls the winner does not depend on the order in which the sources are asked: it is the greatest
      by wall, node and sequence. */
  lemma FoldOrder(a: seq<Version>, b: seq<Version>)
    requires a != [] && b != [] && (set v | v in a) == (set v | v in b)
    requires Genuine(set v | v in a) && Monotone(set v | v in a)
    ensures Fold(a[0], a[1..]) == Fold(b[0], b[1..])
    ensures Greatest((set v | v in a), Fold(a[0], a[1..]))
    ensures Fold(a[0], a[1..]) in a && forall v :: v in a && v != Fold(a[0], a[1..]) ==> Above(Fold(a[0], a[1..]), v)
  {
    var all := set v | v in a;
    MonotoneTransitive(all);
    Winner(all, a);
    Winner(all, b);
    Trichotomy(all, Fold(a[0], a[1..]), Fold(b[0], b[1..]));
    RuleExactly(all);
  }

  lemma Winner(all: set<Version>, a: seq<Version>)
    requires Genuine(all) && Transitive(all) && a != [] && all == set v | v in a
    ensures Greatest(all, Fold(a[0], a[1..]))
  {
    assert a[0] in a && forall v :: v in a[1..] ==> v in a;
    FoldGreatest(all, a[0], a[1..], {a[0]});
    assert a == [a[0]] + a[1..];
    assert {a[0]} + (set v | v in a[1..]) == all;
  }

  /** In a circle it does. */
  lemma FoldDepends()
    ensures var a, b, c := Version(1, 0, 100), Version(1, 50, 10), Version(2, 20, 1);
            Fold(a, [b, c]) == c && Fold(b, [c, a]) == a
  {
    var a, b, c := Version(1, 0, 100), Version(1, 50, 10), Version(2, 20, 1);
    assert [b, c][1..] == [c] && [c, a][1..] == [a] && [c][1..] == [] && [a][1..] == [];
    assert Fold(a, [b, c]) == Fold(a, [c]) == Fold(c, []);
    assert Fold(b, [c, a]) == Fold(b, [a]) == Fold(a, []);
  }
}
