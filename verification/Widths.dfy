/** Bytes, and the largest values of the C types that sizes and lengths are held in. */
module Widths {

  type Byte = x: int | 0 <= x < 256

  const SIZE_MAX := 0xFFFF_FFFF_FFFF_FFFF
  const INT_MAX := 0x7FFF_FFFF
}
