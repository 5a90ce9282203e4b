/** Bytes and strings of bytes, as they travel in records and in encoded messages. */
module Octets {
  type Byte = b: nat | b < 256
  type Bytes = seq<Byte>
}
