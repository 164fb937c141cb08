/** The bytes that the parsers, buffers, memory and wire formats work on. */
module Bytes {
  type Byte = b: int | 0 <= b < 256
}
