/** Division and remainder by a divisor that is not a literal. */
module Arithmetic {
  lemma NextMultiple(p: int, q: int, n: nat)
    requires p > q
    ensures p * n >= q * n + n
  {
    assert p * n == q * n + n + (p - q - 1) * n;
    assert (p - q - 1) * n >= 0;
  }

  lemma UniqueDivision(n: nat, q: int, r: nat, q': int, r': nat)
    requires r < n && r' < n && q * n + r == q' * n + r'
    ensures q == q' && r == r'
  {
    if q > q' {
      NextMultiple(q, q', n);
    } else if q < q' {
      NextMultiple(q', q, n);
    }
  }

  lemma DivisionIs(k: nat, n: nat, q: nat, r: nat)
    requires r < n && k == q * n + r
    ensures k / n == q && k % n == r
  {
    UniqueDivision(n, q, r, k / n, k % n);
  }

  /** Wrapping twice in 32 bits is wrapping once. */
  lemma WrapsOnce(a: int, b: int)
    ensures (a % 0x1_0000_0000 + b) % 0x1_0000_0000 == (a + b) % 0x1_0000_0000
  {
  }
}
