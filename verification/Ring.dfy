/** The admission ring (src/ring.rs) on 31-bit tickets, as a step relation over single atomic operations.
    Every decision is taken on 32-bit words as the code takes it; each state also carries the ring with
    unbounded tickets, and `Inv` says that the words encode it in every reachable state. */
module Ring {
  import opened Arithmetic
  import opened Keys
  import opened Admission

  const TICKETS: nat := 0x8000_0000
  const FENCED_BIT: nat := 0x8000_0000
  const WORDS: nat := 0x1_0000_0000
  const HALF: nat := 0x4000_0000

  function NextTicket(t: nat): nat {
    (t + 1) % WORDS % TICKETS
  }

  function PublishedGate(t: nat): nat {
    NextTicket(t)
  }

  function ReleaseGate(n: nat, t: nat): nat {
    (t + n) % WORDS % TICKETS
  }

  /** `a.wrapping_sub(b) & TICKET_MASK`. */
  function Distance(a: nat, b: nat): nat {
    (a + WORDS - b % WORDS) % WORDS % TICKETS
  }

  /** `gate_is_past`: the slot has moved past ticket `c`. */
  predicate GateIsPast(n: nat, g: nat, c: nat)
    requires n > 0
  {
    if g >= FENCED_BIT then
      g % TICKETS == c
    else if g == c then
      false
    else
      var ticket := if g % n == c % n then g else Distance(g, 1);
      ticket != c && Distance(ticket, c) < HALF
  }

  /** The word a gate is stored as. */
  function Encode(g: Gate): nat {
    match g
    case Free(t) => t % TICKETS
    case Published(t) => (t + 1) % TICKETS
    case Fenced(t) => t % TICKETS + FENCED_BIT
  }

  /** A gate's word: the low 31 bits are its ticket's, or the next one's when published; bit 31 is set when fenced. */
  lemma GateWords(g: Gate)
    ensures Encode(g) < 0x1_0000_0000 && (Encode(g) >= 0x8000_0000 <==> g.Fenced?)
    ensures Encode(g) % 0x8000_0000 == (if g.Published? then g.ticket + 1 else g.ticket) % 0x8000_0000
  {}

  ghost predicate GoodSize(n: nat) {
    2 <= n <= HALF && TICKETS % n == 0
  }

  // Words and tickets.

  lemma {:induction false} Laps(n: nat, k: nat, r: nat)
    requires n > 0
    ensures (n * k + r) % n == r % n
  {
    if k > 0 {
      Laps(n, k - 1, r);
      assert n * k + r == (n * (k - 1) + r) + n by { Distribute(n, k - 1, k); }
      NextLap(n, n * (k - 1) + r);
    } else {
      assert n * k == 0;
    }
  }

  /** A ticket's word names its slot. */
  lemma WordSlot(n: nat, t: nat)
    requires GoodSize(n)
    ensures (t % TICKETS) % n == t % n
  {
    var m, q := TICKETS / n, t / TICKETS;
    assert n * m == TICKETS;
    assert t == n * (m * q) + t % TICKETS by {
      assert t == TICKETS * q + t % TICKETS;
      assert TICKETS * q == n * (m * q) by { Associate(n, m, q); }
    }
    Laps(n, m * q, t % TICKETS);
  }

  /** Neighbouring tickets have different slots. */
  lemma NextSlot(n: nat, t: nat)
    requires n >= 2
    ensures (t + 1) % n != t % n
  {
    if (t + 1) % n == t % n { SameSlot(n, t, t + 1); }
  }

  /** A gate word that equals a near ticket's word is that ticket's free gate. */
  lemma FreeWord(n: nat, g: Gate, t: nat)
    requires GoodSize(n) && g.ticket % n == t % n && t < g.ticket + TICKETS && g.ticket < t + TICKETS
    ensures Encode(g) == t % TICKETS <==> g == Free(t)
  {
    if g.Published? && Encode(g) == t % TICKETS {
      WordSlot(n, g.ticket + 1);
      WordSlot(n, t);
      NextSlot(n, g.ticket);
    }
  }

  /** Near tickets with one word are one ticket. */
  lemma SameWord(a: nat, b: nat)
    requires a % TICKETS == b % TICKETS && a < b + TICKETS && b < a + TICKETS
    ensures a == b
  {}

  lemma NextWord(t: nat)
    ensures NextTicket(t % TICKETS) == (t + 1) % TICKETS
  {
    var x := t % TICKETS;
    assert (x + 1) % WORDS == x + 1;
    Laps(TICKETS, t / TICKETS, x + 1);
    assert TICKETS * (t / TICKETS) + (x + 1) == t + 1;
  }

  lemma ReleaseWord(n: nat, t: nat)
    requires GoodSize(n)
    ensures ReleaseGate(n, t % TICKETS) == (t + n) % TICKETS
  {
    assert t % TICKETS + n < WORDS;
    var q := t / TICKETS;
    assert t == TICKETS * q + t % TICKETS;
    assert t + n == TICKETS * q + (t % TICKETS + n);
    Laps(TICKETS, q, t % TICKETS + n);
  }

  lemma DistanceWord(a: nat, b: nat)
    requires b <= a < b + TICKETS
    ensures Distance(a % TICKETS, b % TICKETS) == a - b
  {
    var x, y := a % TICKETS, b % TICKETS;
    assert x - y == a - b || x - y + TICKETS == a - b;
    assert x + WORDS - y % WORDS == x - y + WORDS;
    if x >= y {
      assert (x - y + WORDS) % WORDS == x - y;
    }
  }

  lemma BackOne(t: nat)
    ensures Distance((t + 1) % TICKETS, 1) == t % TICKETS
  {
    var x := (t + 1) % TICKETS;
    if x > 0 {
      assert (x + WORDS - 1) % WORDS == x - 1;
    }
  }

  lemma PublishedWord(n: nat, g: Gate, t: nat)
    requires GoodSize(n) && g.ticket % n == t % n && t < g.ticket + TICKETS && g.ticket < t + TICKETS
    ensures Encode(g) == PublishedGate(t % TICKETS) <==> g == Published(t)
  {
    NextWord(t);
    if g.Published? {
      if Encode(g) == (t + 1) % TICKETS { SameWord(g.ticket + 1, t + 1); }
    } else if g.Free? && Encode(g) == (t + 1) % TICKETS {
      WordSlot(n, t + 1);
      WordSlot(n, g.ticket);
      NextSlot(n, t);
    }
  }

  /** The ticket that `gate_is_past` decodes from an unfenced gate. */
  lemma Decoded(n: nat, g: Gate, c: nat)
    requires GoodSize(n) && g.ticket % n == c % n && !g.Fenced?
    ensures (if Encode(g) % n == (c % TICKETS) % n then Encode(g) else Distance(Encode(g), 1)) == g.ticket % TICKETS
  {
    WordSlot(n, c);
    WordSlot(n, g.ticket);
    WordSlot(n, g.ticket + 1);
    NextSlot(n, g.ticket);
    BackOne(g.ticket);
  }

  /** `gate_is_past` is exact while the gate is less than half the ticket space ahead. */
  lemma PastExact(n: nat, g: Gate, c: nat)
    requires GoodSize(n) && g.ticket % n == c % n && c < g.ticket + TICKETS
    requires if g.Fenced? then g.ticket < c + TICKETS else c <= g.ticket < c + 0x4000_0000
    ensures GateIsPast(n, Encode(g), c % TICKETS) <==> if g.Fenced? then g.ticket == c else g.ticket > c
  {
    if g.Fenced? {
      assert Encode(g) % TICKETS == g.ticket % TICKETS;
      if g.ticket % TICKETS == c % TICKETS { SameWord(g.ticket, c); }
    } else {
      Decoded(n, g, c);
      DistanceWord(g.ticket, c);
      FreeWord(n, g, c);
      if g.ticket % TICKETS == c % TICKETS { SameWord(g.ticket, c); }
    }
  }

  /** Past that distance it takes every later lap for an earlier one. */
  lemma PastTooFar(n: nat, g: Gate, c: nat)
    requires GoodSize(n) && g.ticket % n == c % n && !g.Fenced? && c + 0x4000_0000 <= g.ticket < c + TICKETS
    ensures !GateIsPast(n, Encode(g), c % TICKETS)
  {
    Decoded(n, g, c);
    DistanceWord(g.ticket, c);
  }

  // Payload cells.

  const CELLS := 8

  /** The little-endian word of bytes `4 * i .. 4 * i + 4`. */
  function Pack(p: Payload, i: nat): nat
    requires |p| == 4 * CELLS && i < CELLS
  {
    p[4 * i] as nat + 0x100 * p[4 * i + 1] as nat + 0x1_0000 * p[4 * i + 2] as nat + 0x100_0000 * p[4 * i + 3] as nat
  }

  function LittleEndian(w: nat): (b: Payload)
    ensures |b| == 4
  {
    [(w % 0x100) as Byte, (w / 0x100 % 0x100) as Byte, (w / 0x1_0000 % 0x100) as Byte, (w / 0x100_0000 % 0x100) as Byte]
  }

  lemma WordRoundTrip(p: Payload, i: nat)
    requires |p| == 4 * CELLS && i < CELLS
    ensures LittleEndian(Pack(p, i)) == p[4 * i .. 4 * i + 4]
  {
    var w := Pack(p, i);
    assert w % 0x100 == p[4 * i] as nat;
    assert w / 0x100 == p[4 * i + 1] as nat + 0x100 * p[4 * i + 2] as nat + 0x1_0000 * p[4 * i + 3] as nat;
    assert w / 0x1_0000 == p[4 * i + 2] as nat + 0x100 * p[4 * i + 3] as nat;
    assert w / 0x100_0000 == p[4 * i + 3] as nat;
  }
}
