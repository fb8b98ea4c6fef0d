/** The machine widths the pallets use, and the saturating operations on them. */
module Numeric {

  const U32_MAX: nat := 0xFFFF_FFFF
  const U128_MODULUS: nat := 0x1_0000_0000_0000_0000_0000_0000_0000_0000
  const U128_MAX: nat := U128_MODULUS - 1

  type u32 = x: int | 0 <= x <= U32_MAX witness 0
  type u128 = x: int | 0 <= x <= U128_MAX witness 0

  function Min(a: int, b: int): int {
    if a <= b then a else b
  }

  function SaturatingAdd32(a: u32, b: u32): u32 {
    Min(a + b, U32_MAX)
  }

  function SaturatingAdd(a: nat, b: nat): nat {
    Min(a + b, U128_MAX)
  }

  function SaturatingMul(a: nat, b: nat): nat {
    MulMonotone(0, a, b);
    Min(a * b, U128_MAX)
  }

  function SaturatingSub(a: nat, b: nat): nat {
    if a <= b then 0 else a - b
  }

  /** Flooring division is monotone, and brackets the exact quotient from both sides. */
  lemma DivisionBrackets(a: nat, d: nat)
    requires 0 < d
    ensures d * (a / d) <= a < d * (a / d) + d
  {
  }

  lemma MulCancel(d: nat, x: int, y: int)
    requires d * x < d * y
    ensures x < y
  {
    MulMonotoneInt(y, x, d);
  }

  lemma MulMonotoneInt(a: int, b: int, k: nat)
    ensures a <= b ==> k * a <= k * b
  {
  }

  lemma MulSuccessor(a: nat, k: nat)
    ensures a * (k + 1) == a * k + a
  {
  }

  lemma DivisionMonotone(a: nat, b: nat, d: nat)
    requires 0 < d && a <= b
    ensures a / d <= b / d
  {
    DivisionBrackets(a, d);
    DivisionBrackets(b, d);
    assert d * (b / d) + d == d * (b / d + 1);
    MulCancel(d, a / d, b / d + 1);
  }

  lemma MulMonotone(a: nat, b: nat, k: nat)
    requires a <= b
    ensures a * k <= b * k && k * a <= k * b
  {
  }

  /** Wrapping at each addition is wrapping once. */
  lemma WrapOneMore(a: nat, b: nat)
    ensures (a % U128_MODULUS + b) % U128_MODULUS == (a + b) % U128_MODULUS
  {
  }
}
