/** Integer and real helpers shared by the two scoring rules of the game. */
module Scoring {

  /** A non-negative real: the range of the abstracted power `n ** 1.5`. */
  type NonNegReal = x: real | 0.0 <= x

  function Max(a: int, b: int): int {
    if a >= b then a else b
  }

  /** `base ** k` on naturals, the `**` operator applied to integer operands. */
  function Pow(base: nat, k: nat): (p: nat)
    ensures base >= 1 ==> p >= 1
  {
    if k == 0 then 1 else base * Pow(base, k - 1)
  }

  /** `Math.floor` of a non-negative real. */
  function Floor(x: real): (v: int)
    requires 0.0 <= x
    ensures v >= 0
  {
    x.Floor
  }

  /** `Math.floor` of a product of non-negative factors is a natural number. */
  lemma FloorOfProduct(a: real, b: real, c: real, d: real)
    requires 0.0 <= a && 0.0 <= b && 0.0 <= c && 0.0 <= d
    ensures (a * b * c * d).Floor >= 0
  {
    assert 0.0 <= a * b;
    assert 0.0 <= a * b * c;
    assert 0.0 <= a * b * c * d;
  }

  /** Multiplying a non-negative real by a natural m at least multiplies its floor by m. */
  lemma FloorOfMultiple(x: real, m: nat)
    requires 0.0 <= x
    ensures (m as real * x).Floor >= m * x.Floor
  {
    var k := x.Floor;
    assert m as real * (x - k as real) >= 0.0;
    assert (m * k) as real == m as real * (k as real) <= m as real * x;
  }
}
