/** What every part shares: bytes, optional values and outcomes. */
module Basics {
  newtype byte = x: int | 0 <= x < 256

  datatype Option<+T> = None | Some(value: T)

  datatype Result<+T, +E> = Ok(value: T) | Err(error: E)

  function Min(a: nat, b: nat): nat { if a < b then a else b }

  function Max(a: nat, b: nat): nat { if a < b then b else a }

  function Zeros(n: nat): seq<byte> { seq(n, _ => 0) }
}
