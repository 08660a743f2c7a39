/** Octets, as Rust's `u8`. */
module Bytes {

  type byte = x: int | 0 <= x < 0x100
}
