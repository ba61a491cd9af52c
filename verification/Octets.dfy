/** Bytes, as the elements of a Uint8Array. */
module Octets {

  newtype Byte = b: int | 0 <= b < 256

  type Bytes = seq<Byte>
}
