/** Quotients bounded by products, with no division in sight of a product of variables. */
module Arithmetic {
  lemma MulMonotone(a: nat, b: nat, c: nat)
    requires a <= b
    ensures a * c <= b * c
  {
    assert (b - a) * c >= 0;
  }

  lemma Distribute(q: nat, n: nat)
    ensures (q + 1) * n == n * q + n && q * n == n * q
  {
  }

  lemma AtLeast(q: nat, k: nat, n: nat, x: nat)
    requires x < n * q + n && k * n <= x
    ensures k <= q
  {
    Distribute(q, n);
    if q < k { MulMonotone(q + 1, k, n); }
  }

  lemma AtMost(q: nat, k: nat, n: nat, x: nat)
    requires n * q <= x && x < k * n + n
    ensures q <= k
  {
    Distribute(q, n);
    Distribute(k, n);
    if q > k { MulMonotone(k + 1, q, n); }
  }

  /** Integer division, with the truncated part bounded. */
  function Div(x: nat, n: nat): (q: nat)
    requires n > 0
    ensures n * q <= x < n * q + n
  {
    x / n
  }
}
