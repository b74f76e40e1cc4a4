/** Fixed-width two's complement arithmetic, written out on unbounded integers. */
module Machine {
  const I64_MAX: int := 0x7FFF_FFFF_FFFF_FFFF
  const U32_MAX: int := 0xFFFF_FFFF

  /** The value a 16-bit register holds after computing `x`. */
  function Wrap16(x: int): int {
    if -0x8000 <= x < 0x8000 then x else (x + 0x8000) % 0x1_0000 - 0x8000
  }

  function Wrap32(x: int): int {
    if -0x8000_0000 <= x < 0x8000_0000 then x else (x + 0x8000_0000) % 0x1_0000_0000 - 0x8000_0000
  }

  function Wrap64(x: int): int {
    if -0x8000_0000_0000_0000 <= x < 0x8000_0000_0000_0000 then x
    else (x + 0x8000_0000_0000_0000) % 0x1_0000_0000_0000_0000 - 0x8000_0000_0000_0000
  }

  /** Division as the source language does it: the quotient is cut toward zero. */
  function TruncDiv(a: int, b: int): int
    requires b > 0
  {
    if a >= 0 then a / b else -((-a) / b)
  }

  /** The remainder that goes with TruncDiv: it takes the sign of the dividend. */
  function TruncMod(a: int, b: int): int
    requires b > 0
  {
    a - b * TruncDiv(a, b)
  }

  /** A wrapped value is the one of its width that differs by a multiple of the range. */
  lemma WrapsAre(x: int)
    ensures -32_768 <= Wrap16(x) <= 32_767 && (x - Wrap16(x)) % 65_536 == 0
    ensures -2_147_483_648 <= Wrap32(x) <= 2_147_483_647 && (x - Wrap32(x)) % 4_294_967_296 == 0
    ensures -9_223_372_036_854_775_808 <= Wrap64(x) <= 9_223_372_036_854_775_807
    ensures (x - Wrap64(x)) % 18_446_744_073_709_551_616 == 0
  {}

  /** Quotient and remainder toward zero: they make up the dividend, whose sign the remainder takes. */
  lemma TruncIs(a: int, b: int)
    requires b > 0
    ensures b * TruncDiv(a, b) + TruncMod(a, b) == a && -b < TruncMod(a, b) < b
    ensures a >= 0 ==> TruncMod(a, b) >= 0
    ensures a <= 0 ==> TruncMod(a, b) <= 0
  {}
}
