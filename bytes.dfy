/** Octets, as stored in buffers and carried in UTF-8 and percent-encoded text. */
module Bytes {
  newtype byte = x: int | 0 <= x < 256
}
