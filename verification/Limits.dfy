/** The limits of the projected blocks, and arithmetic that stops at the ends of a machine word. */
module Limits {

  const MAX_BLOCK_WEIGHT: nat := 4_000_000
  const BLOCK_RESERVED_WEIGHT: nat := 4_000
  const MAX_BLOCKS: nat := 8

  const U64_MAX: nat := 0xFFFF_FFFF_FFFF_FFFF

  function SaturatingSub(x: nat, y: nat): nat {
    if x >= y then x - y else 0
  }

  function SaturatingMul(x: nat, y: nat): nat {
    if x * y <= U64_MAX then x * y else U64_MAX
  }
}
