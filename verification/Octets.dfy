/** Bytes as numbers, for the code outside the ciphers. */
module Octets {
  type byte = x: int | 0 <= x < 256
}
