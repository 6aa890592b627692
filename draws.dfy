/**
 * Calls to `Math.random()` are inputs of the model. A draw is a fraction
 * num/den in [0, 1), and `Math.floor(Math.random() * n)` becomes `Pick(n, u)`.
 */
module Draws {
  import opened Arith

  datatype Draw = Draw(num: nat, den: nat)

  /** A value `Math.random()` can return: a fraction in [0, 1). */
  type Fraction = d: Draw | d.num < d.den witness Draw(0, 1)

  /** `Math.floor(u * n)`: an index of a collection of `n` elements. */
  function Pick(n: nat, u: Fraction): (i: nat)
    requires n > 0
    ensures i < n
  {
    PickBound(n, u);
    u.num * n / u.den
  }

  lemma PickBound(n: nat, u: Fraction)
    requires n > 0
    ensures u.num * n / u.den < n
  {
    assert u.num * n < u.den * n by {
      assert (u.den - u.num) * n > 0;
    }
  }

  /** Every index of the collection can be drawn. */
  lemma PickReachesEvery(n: nat, i: nat)
    requires i < n
    ensures Pick(n, Draw(i, n)) == i
  {
    DivUnique(i * n, n, i);
  }
}
