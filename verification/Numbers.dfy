/** The machine integers the profiler counts with, and their saturating arithmetic. */
module Numbers {
  const U64_MAX: int := 0xFFFF_FFFF_FFFF_FFFF

  type U64 = x: int | 0 <= x <= 0xFFFF_FFFF_FFFF_FFFF
  type U32 = x: int | 0 <= x <= 0xFFFF_FFFF

  function Min(a: int, b: int): int {
    if a <= b then a else b
  }

  function Max(a: int, b: int): int {
    if a >= b then a else b
  }

  function SatAdd(a: U64, b: U64): U64 {
    if a + b > U64_MAX then U64_MAX else a + b
  }

  function SatSub(a: U64, b: U64): U64 {
    if a >= b then a - b else 0
  }
}

module Options {
  datatype Option<+T> = None | Some(value: T)
}
