/** Powers of two, division rounding up, and the few facts about products and quotients
    of variables that the solver is given by hand. */
module Arithmetic {

  function Pow2(k: nat): (p: int)
    ensures p > 0
  {
    if k == 0 then 1 else 2 * Pow2(k - 1)
  }

  /** DIVROUNDUP. */
  function DivRoundUp(a: int, b: int): int
    requires b > 0
  {
    (a + b - 1) / b
  }

  lemma MulMono(x: int, y: int, p: int)
    requires x <= y && p >= 0
    ensures x * p <= y * p
  {
    assert (y - x) * p >= 0;
    assert y * p == x * p + (y - x) * p;
  }

  lemma Distribute(a: int, p: int, b: int, q: int)
    ensures (a * p + b) * q == a * (p * q) + b * q
  {
    assert (a * p + b) * q == (a * p) * q + b * q;
  }

  lemma QuotientTimes(u: int, v: int)
    requires v > 0 && u >= 0
    ensures 0 <= u / v
    ensures (u / v) * v <= u < (u / v) * v + v
  {
    assert u == v * (u / v) + u % v;
  }

  lemma QuotientAtLeast(u: int, v: int, k: int)
    requires v > 0 && u >= 0 && k * v <= u
    ensures k <= u / v
  {
    QuotientTimes(u, v);
    if k >= u / v + 1 {
      MulMono(u / v + 1, k, v);
      assert false;
    }
  }

  lemma QuotientBelow(b: int, u: int, v: int)
    requires v > 0 && 0 <= u < b * v
    ensures 0 <= u / v < b
  {
    QuotientTimes(u, v);
    if u / v >= b {
      MulMono(b, u / v, v);
      assert false;
    }
  }

  lemma QuotientIs(u: int, v: int, q: int)
    requires v > 0 && 0 <= u - q * v < v && q >= 0
    ensures u / v == q && u % v == u - q * v
  {
    MulMono(0, q, v);
    QuotientTimes(u, v);
    QuotientAtLeast(u, v, q);
    if u / v >= q + 1 {
      MulMono(q + 1, u / v, v);
      assert false;
    }
    assert u == v * (u / v) + u % v;
  }
}
