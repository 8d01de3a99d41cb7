/** The contents of memory, one unsigned char at a time. */
module Octets {
  type byte = x: int | 0 <= x < 256
}
