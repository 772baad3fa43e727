/** Small facts about products and quotients. */
module Arithmetic {
  lemma Distributes(a: int, b: int, c: int)
    ensures (a + b) * c == a * c + b * c
  {}

  lemma Monotone(a: int, b: int, c: nat)
    requires a <= b
    ensures a * c <= b * c
  {
    Distributes(a, b - a, c);
    assert (b - a) * c >= 0;
  }

  lemma Commutes(a: int, b: int)
    ensures a * b == b * a
  {}

  /** Row `j` ends before row `k` begins. */
  lemma Below(j: nat, k: nat, pitch: nat)
    requires j < k
    ensures j * pitch + pitch <= k * pitch
  {
    Distributes(j, 1, pitch);
    Monotone(j + 1, k, pitch);
  }

  lemma ProductFits(a: nat, b: nat)
    requires a < 0x1_0000_0000 && b < 0x1_0000_0000
    ensures a * b < 0x1_0000_0000_0000_0000
  {
    Monotone(a, 0x1_0000_0000, b);
  }

  lemma Quotient(n: nat, d: nat)
    requires d > 0
    ensures (n / d) * d <= n < (n / d) * d + d
  {
    Commutes(n / d, d);
  }

  lemma QuotientAtLeast(n: nat, d: nat, q: nat)
    requires d > 0 && q * d <= n
    ensures q <= n / d
  {
    Quotient(n, d);
    if n / d < q { Below(n / d, q, d); }
  }

  lemma QuotientAtMost(n: nat, d: nat, q: nat)
    requires d > 0 && n < q * d + d
    ensures n / d <= q
  {
    Quotient(n, d);
    if q < n / d { Below(q, n / d, d); }
  }
}
