/** Bytes as numbers, for the modules that compute with them. */
module Bytes {
  type Byte = b: int | 0 <= b < 256
}
