/** The fixed-width C integers the firmware computes with, on top of unbounded `int`. */
module FixedWidth {
  type Byte = x: nat | x < 0x100

  const LONG_MAX := 0x7FFF_FFFF
  const LONG_MIN := -0x8000_0000

  /** A 32-bit long. */
  predicate IsLong(x: int) {
    LONG_MIN <= x <= LONG_MAX
  }

  /** A 16-bit word. */
  predicate IsWord(x: int) {
    -0x8000 <= x < 0x8000
  }

  /** The 16-bit two's complement value congruent to `x`. */
  function S16(x: int): int {
    if -0x8000 <= x < 0x8000 then x else (x + 0x8000) % 0x1_0000 - 0x8000
  }

  /** The 32-bit two's complement value congruent to `x`. */
  function S32(x: int): int {
    if IsLong(x) then x else (x + 0x8000_0000) % 0x1_0000_0000 - 0x8000_0000
  }

  /** The value a signed 14-bit bit-field keeps of `x`. */
  function S14(x: int): int {
    if -0x2000 <= x < 0x2000 then x else (x + 0x2000) % 0x4000 - 0x2000
  }

  /** Each keeps the number modulo its width, and the number itself where that fits. */
  lemma Congruent(x: int)
    ensures -0x2000 <= S14(x) < 0x2000 && (S14(x) - x) % 0x4000 == 0
    ensures -0x8000 <= S16(x) < 0x8000 && (S16(x) - x) % 0x1_0000 == 0
    ensures -0x8000_0000 <= S32(x) < 0x8000_0000 && (S32(x) - x) % 0x1_0000_0000 == 0
  {
    assert S14(x) - x == if -0x2000 <= x < 0x2000 then 0 else -0x4000 * ((x + 0x2000) / 0x4000);
    assert S16(x) - x == if -0x8000 <= x < 0x8000 then 0 else -0x1_0000 * ((x + 0x8000) / 0x1_0000);
    assert S32(x) - x == if IsLong(x) then 0 else -0x1_0000_0000 * ((x + 0x8000_0000) / 0x1_0000_0000);
  }

  function U8(x: int): nat {
    x % 0x100
  }

  function U16(x: int): nat {
    x % 0x1_0000
  }

  /** C division: the quotient is truncated toward zero. */
  function TruncDiv(a: int, b: int): int
    requires b != 0
  {
    if (a < 0) == (b < 0) || a == 0 then Abs(a) / Abs(b) else -(Abs(a) / Abs(b))
  }

  /** C remainder: it takes the sign of the dividend. */
  function TruncMod(a: int, b: int): int
    requires b != 0
  {
    a - b * TruncDiv(a, b)
  }

  function Abs(x: int): nat {
    if x < 0 then -x else x
  }

  function Min(a: int, b: int): int {
    if a < b then a else b
  }
}
