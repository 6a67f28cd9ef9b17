/** The 64 bit arithmetic of the C code: wrapping conversions and division that truncates. */
module Int64 {
  const MIN := -0x8000_0000_0000_0000
  const MAX := 0x7FFF_FFFF_FFFF_FFFF
  const MODULUS := 0x1_0000_0000_0000_0000

  type int64 = x: int | MIN <= x <= MAX
  type uint64 = x: int | 0 <= x < MODULUS

  predicate Fits(x: int) { MIN <= x <= MAX }

  /** The value of `x` in 64 bits of two's complement. */
  function Wrap(x: int): (r: int64)
    ensures Fits(x) ==> r == x
    ensures (r - x) % MODULUS == 0
  {
    (x + 0x8000_0000_0000_0000) % MODULUS - 0x8000_0000_0000_0000
  }

  /** The unsigned value of `x` in 64 bits. */
  function WrapUnsigned(x: int): (r: uint64)
    ensures 0 <= x < MODULUS ==> r == x
  {
    x % MODULUS
  }

  /** C division: towards zero. */
  function Div(a: int, b: int): int
    requires b > 0
  {
    if a >= 0 then a / b else -((-a) / b)
  }

  /** The remainder that C division leaves is smaller than the divisor and has the sign of the dividend. */
  lemma DivBounds(a: int, b: int)
    requires b > 0
    ensures a >= 0 ==> 0 <= a - Div(a, b) * b < b
    ensures a <= 0 ==> -b < a - Div(a, b) * b <= 0
  {
  }

  /** The truncated mean of two numbers lies between them. */
  lemma MeanBetween(a: int, b: int)
    requires a <= b
    ensures a <= Div(a + b, 2) <= b
  {
  }
}
