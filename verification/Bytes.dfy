/** Bytes as numbers. */
module Bytes {
  type Byte = x: nat | x < 0x100
}
