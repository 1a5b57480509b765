/** Fixed-width integers, and the conventions in which the two chips differ. */
module Machine {
  datatype Chip = C3 | S3

  const U32: nat := 0x1_0000_0000

  function Signed16(x: nat): (r: int) {
    if x < 0x8000 then x else x - 0x1_0000
  }

  // A value cut to 16 bits and read as a signed one.
  function Short(x: int): (r: int)
    ensures -0x8000 <= r < 0x8000 && (x - r) % 0x1_0000 == 0
  {
    Signed16(x % 0x1_0000)
  }

  lemma ShortIsExact(x: int)
    requires -0x8000 <= x < 0x8000
    ensures Short(x) == x
  {
  }

  lemma Signed32IsExact(x: int)
    requires -0x8000_0000 <= x < 0x8000_0000
    ensures Signed32(x) == x
  {
  }

  function Signed32(x: int): (r: int) {
    if x % U32 < 0x8000_0000 then x % U32 else x % U32 - U32
  }

  // Division that truncates towards zero.
  function TruncatedQuotient(a: int, b: nat): (q: int)
    requires 0 < b
  {
    if 0 <= a then a / b else -(-a / b)
  }

  // The ESP32-S3 passes offsets in 16 bits and flags in 8.
  function OffsetArgument(chip: Chip, offset: int): (r: int)
    ensures if chip == S3 then -0x8000 <= r < 0x8000 && (offset - r) % 0x1_0000 == 0 else r == offset
  {
    if chip == S3 then Short(offset) else offset
  }

  predicate IsSet(chip: Chip, flag: nat) {
    if chip == S3 then flag % 256 != 0 else flag != 0
  }
}
