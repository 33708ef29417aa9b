/** Quotients, remainders and two-level indices. */
module Arithmetic {
  lemma MulMonotone(a: nat, b: nat, k: nat)
    ensures a <= b ==> a * k <= b * k
  {
  }

  lemma QuotientRange(e: nat, stride: nat)
    requires stride > 0
    ensures (e / stride) * stride <= e < (e / stride + 1) * stride
  {
    assert e == stride * (e / stride) + e % stride;
    assert stride * (e / stride) == (e / stride) * stride;
    assert (e / stride + 1) * stride == (e / stride) * stride + stride;
  }

  lemma MulBelow(d: nat, k: nat, stride: nat, e: nat)
    requires d * stride <= e < k * stride
    ensures d < k
  {
    if k <= d {
      MulMonotone(k, d, stride);
    }
  }

  lemma QuotientBound(e: nat, stride: nat, k: nat)
    requires stride > 0 && e < k * stride
    ensures e / stride < k
  {
    var d := e / stride;
    QuotientRange(e, stride);
    MulBelow(d, k, stride, e);
  }

  lemma QuotientIs(c: nat, stride: nat, r: nat)
    requires r < stride
    ensures (c * stride + r) / stride == c
  {
    var e := c * stride + r;
    var d := e / stride;
    QuotientRange(e, stride);
    assert e < (c + 1) * stride;
    MulBelow(d, c + 1, stride, e);
    MulBelow(c, d + 1, stride, e);
  }

  lemma RemainderIs(d: nat, stride: nat, s: nat)
    requires s < stride
    ensures (d * stride + s) % stride == s
  {
    var x := d * stride + s;
    QuotientIs(d, stride, s);
    assert x == stride * (x / stride) + x % stride;
  }

  /** Position r of row c, in rows of n. */
  function Index(n: nat, c: nat, r: nat): nat {
    c * n + r
  }

  lemma IndexParts(n: nat, c: nat, r: nat)
    requires r < n
    ensures Index(n, c, r) / n == c && Index(n, c, r) % n == r
  {
    QuotientIs(c, n, r);
    RemainderIs(c, n, r);
  }

  lemma IndexBounded(n: nat, m: nat, c: nat, r: nat)
    requires r < n && c < m
    ensures Index(n, c, r) < m * n
  {
    MulMonotone(c + 1, m, n);
    assert (c + 1) * n == c * n + n;
  }
}
