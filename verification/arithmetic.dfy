/** The few nonlinear facts the exact divisions rest on. */
module Arithmetic {
  lemma MulMonotone(a: nat, b: nat, c: nat)
    requires a <= b
    ensures 0 <= a * c <= b * c
  {
    assert (b - a) * c >= 0;
  }

  lemma Distribute(a: nat, b: nat, c: nat)
    ensures a * (b + c) == a * b + a * c
  {
  }

  lemma DivisionIs(n: nat, d: nat, q: nat, r: nat)
    requires d > 0 && r < d && n == q * d + r
    ensures n / d == q
  {
    var k := n / d;
    assert n == k * d + n % d;
    MulMonotone(if k < q then k + 1 else k, if k < q then q else k, d);
    MulMonotone(if q < k then q + 1 else q, if q < k then k else q, d);
  }

  lemma AddMultiple(p: nat, m: nat, d: nat)
    requires d > 0
    ensures (p * d + m) / d == p + m / d
  {
    assert (p + m / d) * d == p * d + m / d * d;
    DivisionIs(p * d + m, d, p + m / d, m % d);
  }

  lemma SplitProduct(q: nat, r: nat, w: nat, d: nat)
    ensures (q * d + r) * w == (q * w) * d + r * w
  {
    assert (q * d + r) * w == (q * d) * w + r * w;
    assert (q * d) * w == (q * w) * d;
  }

  /** Splitting off whole multiples of the divisor first changes nothing. */
  lemma SplitDivision(q: nat, r: nat, w: nat, d: nat)
    requires d > 0
    ensures (q * d + r) * w / d == q * w + r * w / d
  {
    SplitProduct(q, r, w, d);
    AddMultiple(q * w, r * w, d);
  }
}
