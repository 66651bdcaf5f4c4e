/** Small facts about products and quotients that the solver is better told than left to find. */
module Arithmetic {
  lemma MulMonotone(a: nat, b: nat, n: nat)
    requires a <= b
    ensures a * n <= b * n
  {}

  lemma Unfold(s: nat, m: nat)
    requires s >= 1
    ensures s * m == (s - 1) * m + m
  {}

  lemma Distribute(a: nat, b: nat, c: nat)
    ensures (a + b) * c == a * c + b * c
  {}

  lemma Distribute3(n: nat, a: nat, b: nat, m: nat)
    ensures (n + a + b) * m == n * m + a * m + b * m
  {}

  lemma DistributeMinus(n: int, q: int, r: int)
    ensures n * r - n * q == n * (r - q)
  {}

  lemma Associate(a: nat, b: nat, c: nat)
    ensures a * b * c == a * (b * c)
  {}

  lemma DivAtLeast(a: nat, b: nat, q: nat)
    requires b > 0 && q * b <= a
    ensures q <= a / b
  {
    assert a == b * (a / b) + a % b;
    if q > a / b {
      MulMonotone(a / b + 1, q, b);
    }
  }

  lemma DivMonotone(a: nat, b: nat, d: nat)
    requires a <= b && d > 0
    ensures a / d <= b / d
  {
    assert a == d * (a / d) + a % d;
    assert d * (a / d) == (a / d) * d;
    DivAtLeast(b, d, a / d);
  }

  /** A quotient is known by its remainder. */
  lemma Quotient(n: nat, d: nat, q: nat, r: nat)
    requires d > 0 && n == d * q + r && r < d
    ensures n / d == q
  {
    assert q * d == d * q;
    DivAtLeast(n, d, q);
    assert n == d * (n / d) + n % d;
    if n / d > q { MulMonotone(q + 1, n / d, d); }
  }
}
