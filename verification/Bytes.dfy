/** Bytes, for the texts and the wire formats of the key proofs. */
module Bytes {
  type byte = b: int | 0 <= b < 256
}
