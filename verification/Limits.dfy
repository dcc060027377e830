/** The ranges of the machine integers that the source computes with. */
module Limits {
  const MAX_INT32: int := 0x7fff_ffff
  const MAX_INT64: nat := 0x7fff_ffff_ffff_ffff
  const MIN_INT64: int := -0x8000_0000_0000_0000
  const MAX_UINT64: nat := 0xffff_ffff_ffff_ffff
}
