/** JavaScript's roundings of numbers. Amounts are counted in units of 1e-8 coin or Wh, so
    `Number(x.toFixed(8))` is rounding to a whole number of units. */
module Rounding {

  /** `toFixed`: nearest integer, halves away from zero. */
  function ToFixed(x: real): int {
    if x >= 0.0 then (x + 0.5).Floor else -((-x + 0.5).Floor)
  }

  function Max0(x: real): real {
    if x > 0.0 then x else 0.0
  }

  function ClampNat(x: int): nat {
    if x > 0 then x else 0
  }

  predicate Whole(x: real) {
    x == x.Floor as real
  }

  /** The 32-bit signed integer that `x | 0` gives. */
  function ToInt32(x: int): int {
    (x + 2147483648) % 4294967296 - 2147483648
  }

  /** It differs from the number by a multiple of 2^32. */
  lemma ToInt32Is(x: int)
    ensures -2147483648 <= ToInt32(x) < 2147483648
    ensures exists k: int :: ToInt32(x) == x - 4294967296 * k
  {
    var k := (x + 2147483648) / 4294967296;
    assert ToInt32(x) == x - 4294967296 * k;
  }

  lemma ToFixedWhole(n: int)
    ensures ToFixed(n as real) == n
  {
    if n >= 0 {
      assert (n as real + 0.5).Floor == n;
    } else {
      assert (-(n as real) + 0.5).Floor == -n;
    }
  }

  lemma ToFixedError(x: real)
    ensures -0.5 <= ToFixed(x) as real - x <= 0.5
  {
  }

  lemma ToFixedMonotone(x: real, y: real)
    requires x <= y
    ensures ToFixed(x) <= ToFixed(y)
  {
  }

  /** Subtracting whole units commutes with rounding once negative results are cut to zero. */
  lemma ToFixedShift(x: real, k: nat)
    requires x >= 0.0
    ensures (if ToFixed(x - k as real) < 0 then 0 else ToFixed(x - k as real)) ==
            ClampNat(ToFixed(x) - k)
  {
  }
}
