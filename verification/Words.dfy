/** Machine words, and the arithmetic on them that wraps around in the C++ source. */
module Words {
  const TWO16: int := 0x1_0000
  const TWO31: int := 0x8000_0000
  const TWO32: int := 0x1_0000_0000
  const TWO33: int := 0x2_0000_0000
  const TWO64: int := 0x1_0000_0000_0000_0000

  type byte = x: int | 0 <= x < 0x100
  type u16 = x: int | 0 <= x < 0x1_0000
  type u32 = x: int | 0 <= x < 0x1_0000_0000
  type u64 = x: int | 0 <= x < 0x1_0000_0000_0000_0000

  datatype Option<+T> = None | Some(value: T)

  /** `x` reduced to an unsigned 64-bit word (`size_t`, `uint64_t`). */
  function To64(x: int): u64 { x % TWO64 }

  /** `x` reduced to an unsigned 32-bit word (`unsigned int`). */
  function To32(x: int): u32 { x % TWO32 }

  function Min(a: int, b: int): int { if a < b then a else b }

  function Max(a: int, b: int): int { if a < b then b else a }

  function Count(b: bool): nat { if b then 1 else 0 }

  function Pow2(n: nat): (p: nat)
    ensures p > 0
  {
    if n == 0 then 1 else 2 * Pow2(n - 1)
  }
}
