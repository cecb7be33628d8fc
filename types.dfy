/** Values shared by every part of the model: bytes, 32-bit words, optional
    values and the status codes the library reports at its C boundary. */
module Types {

  /** One unsigned byte (`unsigned char`, `std::byte`). */
  type byte = x: int | 0 <= x < 0x100

  /** An unsigned 32-bit word: the width of a chunk version. */
  type uint32 = x: int | 0 <= x < 0x1_0000_0000

  datatype Option<T> = None | Some(value: T)

  /** The closed set of failures the library reports: a bad call shape
      (negative size, a chunk already open, ...), a transport failure, a
      stream that holds no valid container, an absent chunk. */
  datatype Error = InvalidArgument | IoError | FormatError | NotFound

  /** The outcome of an operation that produces a value. */
  datatype Result<T> = Success(value: T) | Failure(error: Error) {
    predicate IsFailure() { Failure? }

    function PropagateFailure<U>(): Result<U>
      requires Failure?
    {
      Failure(error)
    }

    function Extract(): T
      requires Success?
    {
      value
    }
  }

  /** The outcome of an operation that produces no value (`rdfResultOk` or an error code). */
  datatype Status = Ok | Fail(error: Error)

  function Min(a: int, b: int): int
  {
    if a <= b then a else b
  }
}
