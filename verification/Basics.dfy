/**
  What several components share: an optional value, bytes, and the widths of machine integers.
 */
module Basics {

  datatype Option<+T> = None | Some(value: T)

  type byte = x: int | 0 <= x < 256

  const TWO_32: nat := 0x1_0000_0000
  const TWO_64: nat := 0x1_0000_0000_0000_0000

  type u32 = x: int | 0 <= x < 0x1_0000_0000

  const NO_ENTRY: nat := 0xFFFF_FFFF    // BFITNOENT
}
