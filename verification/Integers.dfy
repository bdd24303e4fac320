/** The widths of the source's integers. */
module Integers {
  const INT_MAX := 0x7fff_ffff
  const UINT_MAX := 0xffff_ffff
  const INT64_MAX := 0x7fff_ffff_ffff_ffff
  const SIZE_MAX := 0xffff_ffff_ffff_ffff

  type u8 = x: int | 0 <= x < 0x100
  type u16 = x: int | 0 <= x < 0x1_0000
  type u32 = x: int | 0 <= x <= UINT_MAX
  type i8 = x: int | -0x80 <= x < 0x80
  type i32 = x: int | -0x8000_0000 <= x <= INT_MAX
}
