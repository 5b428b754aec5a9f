/** Types shared by every module: bytes, optional values and the outcome of an operation that may raise. */
module Common {

  type byte = b: int | 0 <= b < 0x100

  datatype Option<+T> = None | Some(value: T)

  /** The value an operation returns, or the exception it raises. */
  datatype Result<+T, +E> = Ok(value: T) | Err(error: E)

  function Min(a: int, b: int): int {
    if a <= b then a else b
  }

  function Zeros(n: nat): seq<byte> {
    seq(n, _ => 0)
  }
}
