/** Facts of integer arithmetic the solver does not find on its own. */
module Arith {
  /** The quotient is the one `q` with `d*q <= x < d*q + d`. */
  lemma DivUnique(x: int, d: int, q: int)
    requires d > 0 && d * q <= x < d * q + d
    ensures x / d == q
  {
    var r := x / d;
    assert d * r <= x < d * r + d;
    if r < q {
      assert d * q == d * r + d * (q - r);
      MulAtLeast(d, q - r);
    } else if r > q {
      assert d * r == d * q + d * (r - q);
      MulAtLeast(d, r - q);
    }
  }

  lemma MulAtLeast(d: int, k: int)
    requires d > 0 && k >= 1
    ensures d * k >= d
  {
    assert d * k == d + d * (k - 1);
    assert d * (k - 1) >= 0;
  }

  lemma MulMono(n: int, x: int, y: int)
    requires n >= 0 && x <= y
    ensures n * x <= n * y
  {
    assert n * y - n * x == n * (y - x);
  }

  lemma MulCancelLt(n: int, x: int, y: int)
    requires n > 0 && n * x < n * y
    ensures x < y
  {
    if x >= y {
      MulMono(n, y, x);
    }
  }
}
