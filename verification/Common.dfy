/** The fixed-width integers of the program and the optional value, shared by every module. */
module Common {
  const U32_LIMIT: int := 0x1_0000_0000
  const I64_LIMIT: int := 0x8000_0000_0000_0000
  const U64_LIMIT: int := 0x1_0000_0000_0000_0000
  const U128_LIMIT: int := 0x1_0000_0000_0000_0000_0000_0000_0000_0000

  type byte = x: int | 0 <= x < 0x100
  type u32 = x: int | 0 <= x < U32_LIMIT
  type u64 = x: int | 0 <= x < U64_LIMIT
  type i64 = x: int | -I64_LIMIT <= x < I64_LIMIT

  datatype Option<+T> = None | Some(value: T)

  /** The cast `x as u64` of a non-negative value: the low 64 bits are kept. */
  function AsU64(x: nat): u64 {
    x % U64_LIMIT
  }

  /** The cast `x as i64` of a u64: the same 64 bits read in two's complement. */
  function AsI64(x: u64): i64 {
    if x < I64_LIMIT then x else x - U64_LIMIT
  }

  function Max(a: int, b: int): int {
    if a < b then b else a
  }
}
