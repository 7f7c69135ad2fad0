/** 8-bit bytes. */
module Octets {

  type Byte = b: int | 0 <= b < 0x100
}
