/** Bytes, as the codecs of crates/execution/src/live.rs and crates/execution/src/signing.rs see them. */
module Octets {
  type Byte = b: int | 0 <= b < 256
}
