/** The admission ring with unbounded tickets: the protocol that the 31-bit ring of src/ring.rs carries out.
    Claims, publishes, fences, releases and drains are single steps, and each keeps `Sound`. */
module Admission {
  import opened Arithmetic
  import opened Keys

  /** A slot's gate names the ticket the slot belongs to. */
  datatype Gate = Free(ticket: nat) | Published(ticket: nat) | Fenced(ticket: nat)

  type Payload = seq<Byte>

  datatype Record = Record(ticket: nat, payload: Payload)

  /** `taken`: the cursor's payload was read and its slot released, but the cursor has not moved yet.
      `dead` holds the tickets lost to a fence or a forced release, `drained` what the drainer handed out. */
  datatype Admission = Admission(base: nat, head: nat, cursor: nat, gates: seq<Gate>,
                                 published: map<nat, Payload>, dead: set<nat>, taken: bool, drained: seq<Record>)

  /** The published tickets of `[base, cursor)` in ticket order: what must have been drained. */
  function Due(published: map<nat, Payload>, base: nat, cursor: nat): seq<Record>
    decreases cursor
  {
    if cursor <= base then []
    else Due(published, base, cursor - 1)
         + (if cursor - 1 in published then [Record(cursor - 1, published[cursor - 1])] else [])
  }

  ghost predicate Sound(n: nat, a: Admission) {
    && n >= 2 && |a.gates| == n && a.base <= a.cursor <= a.head
    && (forall i :: 0 <= i < n ==> GateSound(n, a, i))
    && (forall t :: t in a.published || t in a.dead ==> a.base <= t < a.head && !(t in a.published && t in a.dead))
    && (forall t :: a.base <= t < a.head ==> Resolved(a, t) || Holds(n, a, Free(t)))
    && (forall t :: t in a.published && t >= a.cursor ==> Holds(n, a, Published(t)) || (a.taken && t == a.cursor))
    && (forall t :: a.base <= t < a.cursor ==> Resolved(a, t))
    && (a.taken ==> a.cursor in a.published)
    && a.drained == Due(a.published, a.base, a.cursor)
  }

  predicate Resolved(a: Admission, t: nat) {
    t in a.published || t in a.dead
  }

  predicate Holds(n: nat, a: Admission, g: Gate) {
    n > 0 && |a.gates| == n && a.gates[g.ticket % n] == g
  }

  predicate GateSound(n: nat, a: Admission, i: nat)
    requires n > 0 && i < |a.gates|
  {
    var t := a.gates[i].ticket;
    && t % n == i && a.head <= t + n && t < a.head + n
    && match a.gates[i] {
         case Free(_) => a.cursor <= t && !Resolved(a, t)
         case Published(_) => a.cursor <= t && t in a.published && !(a.taken && t == a.cursor)
         case Fenced(_) => t in a.dead && (t < a.cursor || (t == a.cursor && !a.taken))
       }
  }

  // The steps.

  function Claim(a: Admission): Admission {
    a.(head := a.head + 1)
  }

  function Publish(n: nat, a: Admission, t: nat, p: Payload): Admission
    requires n > 0 && |a.gates| == n
  {
    a.(gates := a.gates[t % n := Published(t)], published := a.published[t := p])
  }

  function Fence(n: nat, a: Admission): Admission
    requires n > 0 && |a.gates| == n
  {
    a.(gates := a.gates[a.cursor % n := Fenced(a.cursor)], dead := a.dead + {a.cursor})
  }

  /** Frees a lost ticket's slot for the next lap. */
  function Release(n: nat, a: Admission, t: nat): Admission
    requires n > 0 && |a.gates| == n
  {
    a.(gates := a.gates[t % n := Free(t + n)], dead := a.dead + {t})
  }

  /** Frees the cursor's slot once its payload is read. */
  function TakeCursor(n: nat, a: Admission): Admission
    requires n > 0 && |a.gates| == n
  {
    a.(gates := a.gates[a.cursor % n := Free(a.cursor + n)], taken := true)
  }

  /** Moves the cursor past a read or a lost ticket. */
  function Pass(a: Admission): Admission {
    a.(cursor := a.cursor + 1, taken := false,
       drained := if a.taken && a.cursor in a.published then a.drained + [Record(a.cursor, a.published[a.cursor])]
                  else a.drained)
  }

  // Arithmetic of slots.

  /** Tickets of one slot are at least a lap apart. */
  lemma SameSlot(n: nat, a: nat, b: nat)
    requires n > 0 && a % n == b % n && a < b
    ensures a + n <= b
  {
    var q, r := a / n, b / n;
    assert a == n * q + a % n && b == n * r + b % n;
    assert b - a == n * (r - q) by {
      DistributeMinus(n, q, r);
    }
    if r - q < 1 { NonPositive(n, r - q); }
    AtLeast(n, r - q);
  }

  lemma NonPositive(n: nat, d: int)
    requires d < 1
    ensures n * d <= 0
  {}

  lemma AtLeast(n: nat, d: int)
    ensures d >= 1 ==> n * d >= n
  {}

  lemma NextLap(n: nat, t: nat)
    requires n > 0
    ensures (t + n) % n == t % n
  {
    assert t == n * (t / n) + t % n;
    assert t + n == n * (t / n + 1) + t % n;
    ModUnique(n, t / n + 1, t % n);
  }

  lemma {:induction false} ModUnique(n: nat, q: nat, r: nat)
    requires r < n
    ensures (n * q + r) % n == r
  {
    var x := n * q + r;
    var d := x / n - q;
    assert x == n * (x / n) + x % n;
    DistributeMinus(n, q, x / n);
    if d >= 1 { AtLeast(n, d); }
    if d <= -1 { AtLeast(n, -d); }
  }

  /** A claimed or claimable ticket's slot has not fallen behind it. */
  lemma SlotReached(n: nat, a: Admission, t: nat)
    requires Sound(n, a) && t <= a.head
    ensures 0 <= t % n < n
    ensures t < a.head ==> a.gates[t % n].ticket >= t
    ensures t == a.head ==> a.gates[t % n].ticket == t || a.gates[t % n].ticket + n == t
  {
    var g := a.gates[t % n].ticket;
    assert GateSound(n, a, t % n);
    if g < t {
      SameSlot(n, g, t);
    } else if g > t {
      SameSlot(n, t, g);
    }
  }

  /** No other slot holds a gate of ticket `t`. */
  lemma OtherSlot(n: nat, a: Admission, t: nat, i: nat)
    requires Sound(n, a) && i < n && i != t % n
    ensures a.gates[i].ticket != t && a.gates[i].ticket % n == i
  {
    assert GateSound(n, a, i);
  }

  lemma ClaimSound(n: nat, a: Admission)
    requires Sound(n, a) && Holds(n, a, Free(a.head))
    ensures Sound(n, Claim(a))
  {
    var b := Claim(a);
    forall i | 0 <= i < n ensures GateSound(n, b, i) {
      assert GateSound(n, a, i);
      if i != a.head % n {
        OtherSlot(n, a, a.head, i);
        if a.gates[i].ticket + n == a.head { NextLap(n, a.gates[i].ticket); }
      }
    }
    forall t | a.base <= t < b.head ensures Resolved(b, t) || Holds(n, b, Free(t)) {
      assert t < a.head ==> Resolved(a, t) || Holds(n, a, Free(t));
    }
    forall t | a.base <= t < b.cursor ensures Resolved(b, t) {
      assert Resolved(a, t);
    }
    forall t | t in b.published && t >= b.cursor ensures Holds(n, b, Published(t)) || (b.taken && t == b.cursor) {
      assert Holds(n, a, Published(t)) || (a.taken && t == a.cursor);
    }
  }

  lemma PublishSound(n: nat, a: Admission, t: nat, p: Payload)
    requires Sound(n, a) && Holds(n, a, Free(t)) && t < a.head
    ensures Sound(n, Publish(n, a, t, p))
  {
    var b := Publish(n, a, t, p);
    assert GateSound(n, a, t % n);
    forall i | 0 <= i < n ensures GateSound(n, b, i) {
      assert GateSound(n, a, i);
    }
    DueOutside(a.published, a.base, a.cursor, t, p);
    KeptFree(n, a, b, t);
    KeptPublished(n, a, b, t);
  }

  lemma {:induction false} DueOutside(published: map<nat, Payload>, base: nat, cursor: nat, t: nat, p: Payload)
    requires t >= cursor
    ensures Due(published[t := p], base, cursor) == Due(published, base, cursor)
    decreases cursor
  {
    if cursor > base { DueOutside(published, base, cursor - 1, t, p); }
  }

  /** Changing the slot of ticket `t`, which was free or behind, keeps the other live tickets. */
  lemma KeptFree(n: nat, a: Admission, b: Admission, t: nat)
    requires Sound(n, a) && |b.gates| == n && b.gates == a.gates[t % n := b.gates[t % n]]
    requires b.head == a.head && b.base == a.base && Resolved(b, t)
    requires a.gates[t % n].ticket == t
    requires forall x :: Resolved(a, x) ==> Resolved(b, x)
    ensures forall x :: b.base <= x < b.head ==> Resolved(b, x) || Holds(n, b, Free(x))
  {
    forall x | b.base <= x < b.head ensures Resolved(b, x) || Holds(n, b, Free(x)) {
      if !Resolved(a, x) && x != t {
        assert Holds(n, a, Free(x));
      }
    }
  }

  lemma KeptPublished(n: nat, a: Admission, b: Admission, t: nat)
    requires Sound(n, a) && |b.gates| == n && b.gates == a.gates[t % n := b.gates[t % n]]
    requires b.cursor == a.cursor && a.gates[t % n].ticket == t
    requires forall x :: x in b.published && x != t ==> x in a.published
    requires t in b.published && t >= b.cursor ==> b.gates[t % n] == Published(t) || (b.taken && t == b.cursor)
    requires a.taken ==> b.taken
    ensures forall x :: x in b.published && x >= b.cursor ==> Holds(n, b, Published(x)) || (b.taken && x == b.cursor)
  {
    forall x | x in b.published && x >= b.cursor && x != t
      ensures Holds(n, b, Published(x)) || (b.taken && x == b.cursor)
    {
      assert Holds(n, a, Published(x)) || (a.taken && x == a.cursor);
    }
  }

  lemma FenceSound(n: nat, a: Admission)
    requires Sound(n, a) && Holds(n, a, Free(a.cursor)) && a.cursor < a.head && !a.taken
    ensures Sound(n, Fence(n, a))
  {
    var b := Fence(n, a);
    assert GateSound(n, a, a.cursor % n);
    forall i | 0 <= i < n ensures GateSound(n, b, i) {
      assert GateSound(n, a, i);
    }
    KeptFree(n, a, b, a.cursor);
    KeptPublished(n, a, b, a.cursor);
  }

  lemma ReleaseSound(n: nat, a: Admission, t: nat)
    requires Sound(n, a) && (Holds(n, a, Free(t)) || Holds(n, a, Fenced(t))) && t < a.head
    ensures Sound(n, Release(n, a, t))
  {
    var b := Release(n, a, t);
    assert GateSound(n, a, t % n);
    NextLap(n, t);
    forall i | 0 <= i < n ensures GateSound(n, b, i) {
      assert GateSound(n, a, i);
    }
    KeptFree(n, a, b, t);
    KeptPublished(n, a, b, t);
  }

  lemma TakeSound(n: nat, a: Admission)
    requires Sound(n, a) && Holds(n, a, Published(a.cursor))
    ensures Sound(n, TakeCursor(n, a))
  {
    var b := TakeCursor(n, a);
    assert GateSound(n, a, a.cursor % n);
    NextLap(n, a.cursor);
    forall i | 0 <= i < n ensures GateSound(n, b, i) {
      assert GateSound(n, a, i);
    }
    KeptFree(n, a, b, a.cursor);
    KeptPublished(n, a, b, a.cursor);
  }

  lemma PassSound(n: nat, a: Admission)
    requires Sound(n, a) && (a.taken || a.cursor in a.dead)
    ensures Sound(n, Pass(a))
  {
    var b := Pass(a);
    forall i | 0 <= i < n ensures GateSound(n, b, i) {
      assert GateSound(n, a, i);
    }
    forall t | b.base <= t < b.head ensures Resolved(b, t) || Holds(n, b, Free(t)) {
      assert Resolved(a, t) || Holds(n, a, Free(t));
    }
    forall t | b.base <= t < b.cursor ensures Resolved(b, t) {
      assert t < a.cursor ==> Resolved(a, t);
    }
    forall t | t in b.published && t >= b.cursor ensures Holds(n, b, Published(t)) {
      assert Holds(n, a, Published(t));
    }
  }
}
