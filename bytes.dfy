/** Basic value types shared by the cache, the aggregator and the disk tester. */
module Bytes {

  /** One byte of device data or generator output (Rust `u8`). */
  newtype byte = x: int | 0 <= x < 0x100

  /** A Rust `u32`, used for consumer ids in the buffer cache. */
  newtype u32 = x: int | 0 <= x < 0x1_0000_0000

  /** Rust's `Result`: success with a value or failure with an error. */
  datatype Result<+T, +E> = Ok(value: T) | Err(error: E)

  /** Rust's `Option`. */
  datatype Option<+T> = None | Some(value: T)

  /** What a call that may `panic!` did: ran to completion, or panicked. */
  datatype Status = Done | Panicked

  function Min(a: nat, b: nat): nat
  {
    if a <= b then a else b
  }

  /** `n` zero bytes, as `vec![0; n]` creates them. */
  function Zeros(n: nat): (z: seq<byte>)
    ensures |z| == n && forall i :: 0 <= i < n ==> z[i] == 0
  {
    seq(n, _ => 0)
  }
}
