/** Types and limits of the C and C++ programs. */
module CTypes {

  /** An unsigned char. */
  type Byte = b: int | 0 <= b < 256

  const INT_MAX: nat := 0x7FFF_FFFF
}
