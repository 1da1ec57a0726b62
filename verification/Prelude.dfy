/** Shared value types: bytes, optional values and the fixed-width arithmetic of the relayer's Go code. */
module Prelude {
  type byte = x: int | 0 <= x < 256

  /** Byte slices and Go strings alike: a Go string is a sequence of bytes. */
  type bytes = seq<byte>

  datatype Option<+T> = None | Some(value: T)

  const TWO32: nat := 0x1_0000_0000
  const TWO64: nat := 0x1_0000_0000_0000_0000

  type uint32 = x: int | 0 <= x < 0x1_0000_0000
  type uint64 = x: int | 0 <= x < 0x1_0000_0000_0000_0000

  /** `a - b` on uint64: wraps below zero. */
  function Sub64(a: uint64, b: uint64): uint64 {
    (a - b) % TWO64
  }

  /** `a - b` on uint32: wraps below zero. */
  function Sub32(a: uint32, b: uint32): uint32 {
    (a - b) % TWO32
  }

  /** `a + b` on uint32. */
  function Add32(a: uint32, b: uint32): uint32 {
    (a + b) % TWO32
  }

  function Min(a: nat, b: nat): nat {
    if a <= b then a else b
  }

  /** 20-byte account addresses. */
  type Address = a: bytes | |a| == 20 witness seq(20, _ => 0)
}
