/** What several components share: the ranges of unsigned integers and optional results. */
module Common {

  const UINT32: nat := 0x1_0000_0000
  const UINT32_MAX: nat := 0xFFFF_FFFF
  const UINT64: nat := 0x1_0000_0000_0000_0000
  const UINT64_MAX: nat := 0xFFFF_FFFF_FFFF_FFFF

  datatype Option<T> = Some(value: T) | None
}
