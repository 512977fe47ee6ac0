/** Octets, as held by Foundation's `Data`. */
module Bytes {

  type byte = b: int | 0 <= b < 256
}
