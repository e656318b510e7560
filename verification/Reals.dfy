/** Inequalities of real arithmetic, each proved by itself. */
module Reals {

  lemma SquareSign(x: real)
    ensures x * x >= 0.0
  {
  }

  lemma ProductSign(x: real, y: real)
    ensures x > 0.0 && y > 0.0 ==> x * y > 0.0
    ensures x >= 0.0 && y >= 0.0 ==> x * y >= 0.0
    ensures x != 0.0 && y != 0.0 ==> x * y != 0.0
  {
  }

  lemma StrictSquares(x: real, y: real)
    requires 0.0 <= y < x
    ensures !(x * x <= y * y)
  {
    ProductSign(x - y, x + y);
    assert (x - y) * (x + y) == x * x - y * y;
  }

  lemma SquaresOrder(x: real, y: real)
    requires y >= 0.0 && x * x <= y * y
    ensures -y <= x <= y
  {
    assert (-x) * (-x) == x * x;
    if x > y {
      StrictSquares(x, y);
    }
    if -x > y {
      StrictSquares(-x, y);
    }
  }

  /** `p` is at most the geometric mean of `q` and `r`. */
  predicate Dominated(p: real, q: real, r: real) {
    q >= 0.0 && r >= 0.0 && p * p <= q * r
  }

  lemma DominatedGrows(p: real, q: real, r: real, q': real, r': real)
    requires Dominated(p, q, r) && q <= q' && r <= r'
    ensures Dominated(p, q', r')
  {
    assert q * r <= q' * r;
    assert q' * r <= q' * r';
  }

  /** The geometric mean is at most the arithmetic mean. */
  lemma MeansOrder(z: real, x: real, y: real)
    requires x >= 0.0 && y >= 0.0 && z * z <= x * y
    ensures 2.0 * z <= x + y
  {
    SquareSign(x - y);
    assert (x + y) * (x + y) == (x - y) * (x - y) + 4.0 * (x * y);
    assert (2.0 * z) * (2.0 * z) == 4.0 * (z * z);
    SquaresOrder(2.0 * z, x + y);
  }

  /** The two cross terms of Cauchy-Schwarz. */
  lemma CrossTerms(u: real, v: real, p: real, q: real, r: real)
    requires Dominated(p, q, r)
    ensures 2.0 * (u * v * p) <= u * u * r + v * v * q
  {
    SquareSign(u);
    SquareSign(v);
    ProductSign(u * u, r);
    ProductSign(v * v, q);
    MeanBound(u, v, p, q, r);
    MeansOrder(u * v * p, u * u * r, v * v * q);
  }

  lemma MeanBound(u: real, v: real, p: real, q: real, r: real)
    requires Dominated(p, q, r)
    ensures (u * v * p) * (u * v * p) <= (u * u * r) * (v * v * q)
  {
    var w := (u * v) * (u * v);
    SquareSign(u * v);
    assert w * (p * p) <= w * (q * r);
    assert (u * v * p) * (u * v * p) == w * (p * p);
    assert (u * u * r) * (v * v * q) == w * (q * r);
  }

  lemma DominatedStep(u: real, v: real, p: real, q: real, r: real)
    requires Dominated(p, q, r)
    ensures Dominated(u * v + p, u * u + q, v * v + r)
  {
    SquareSign(u);
    SquareSign(v);
    CrossTerms(u, v, p, q, r);
    assert (u * v + p) * (u * v + p) == (u * u) * (v * v) + 2.0 * (u * v * p) + p * p;
    assert (u * u + q) * (v * v + r) == (u * u) * (v * v) + u * u * r + v * v * q + q * r;
  }

  /** Three sums of products before and after the products of `u` and `v` are added. */
  predicate Adds(u: real, v: real, p: real, q: real, r: real, p': real, q': real, r': real) {
    p' == u * v + p && q' == u * u + q && r' == v * v + r
  }

  lemma DominatedSum(u: real, v: real, p: real, q: real, r: real, p': real, q': real, r': real)
    requires Dominated(p, q, r) && Adds(u, v, p, q, r, p', q', r')
    ensures Dominated(p', q', r')
  {
    DominatedStep(u, v, p, q, r);
  }

  /** `x` over the product of two lengths. */
  function Quotient(x: real, y: real, z: real): real
    requires y != 0.0 && z != 0.0
  {
    ProductSign(y, z);
    x / (y * z)
  }

  lemma QuotientSwaps(x: real, y: real, z: real)
    requires y != 0.0 && z != 0.0
    ensures Quotient(x, y, z) == Quotient(x, z, y)
  {
    assert y * z == z * y;
  }

  lemma Divided(x: real, y: real)
    requires y > 0.0
    ensures -y <= x <= y ==> -1.0 <= x / y <= 1.0
    ensures x > 0.0 <==> x / y > 0.0
    ensures x == 0.0 ==> x / y == 0.0
  {
  }

  lemma QuotientBound(p: real, y: real, z: real, q: real, r: real)
    requires y > 0.0 && z > 0.0 && y * y == q && z * z == r && Dominated(p, q, r)
    ensures -1.0 <= Quotient(p, y, z) <= 1.0
  {
    ProductSign(y, z);
    assert (y * z) * (y * z) == (y * y) * (z * z);
    SquaresOrder(p, y * z);
    Divided(p, y * z);
  }

  lemma QuotientSign(p: real, y: real, z: real)
    requires y > 0.0 && z > 0.0
    ensures p > 0.0 <==> Quotient(p, y, z) > 0.0
    ensures p == 0.0 ==> Quotient(p, y, z) == 0.0
  {
    ProductSign(y, z);
    Divided(p, y * z);
  }
}
