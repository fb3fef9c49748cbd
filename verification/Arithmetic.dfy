/** Facts about products that the solver does not find by itself. */
module Arithmetic {

  lemma ProductGrows(a: nat, b: nat, k: nat)
    requires a <= b
    ensures a * k <= b * k
  {
    assert b * k == a * k + (b - a) * k;
    assert (b - a) * k >= 0;
  }

  lemma ProductStep(n: nat, k: nat)
    requires n > 0
    ensures n * k == (n - 1) * k + k
  {
  }

  lemma Multiple(q: nat, k: nat)
    requires k > 0
    ensures q * k % k == 0
  {
    var d, r := q * k / k, q * k % k;
    assert q * k == d * k + r;
    assert (d + 1) * k == d * k + k;
    if d < q {
      ProductGrows(d + 1, q, k);
    } else {
      ProductGrows(q, d, k);
    }
  }

  lemma QuotientBounds(n: nat, remaining: nat, stride: nat)
    requires stride > 0
    ensures n <= remaining / stride <==> stride * n <= remaining
  {
    var q, r := remaining / stride, remaining % stride;
    assert remaining == q * stride + r && 0 <= r < stride;
    assert stride * n == n * stride;
    if n <= q {
      ProductGrows(n, q, stride);
    } else {
      ProductGrows(q + 1, n, stride);
      ProductStep(q + 1, stride);
    }
  }
}
