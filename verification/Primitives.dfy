/** The machine types the modules below share. */
module Primitives {

  datatype Option<+T> = None | Some(value: T)

  /** Rust's `u64`: ticks, quantities, leverages and nonces. */
  type u64 = x: int | 0 <= x < 0x1_0000_0000_0000_0000

  type byte = x: int | 0 <= x < 0x100

  const ZERO_ADDRESS: seq<byte> := [0, 0, 0, 0, 0, 0, 0, 0, 0, 0, 0, 0, 0, 0, 0, 0, 0, 0, 0, 0]

  /** A trader's address. */
  type Address = a: seq<byte> | |a| == 20 witness ZERO_ADDRESS
}
