/** Option and Result, used for the JavaScript `undefined` values and thrown errors. */
module Wrappers {

  datatype Option<+T> = None | Some(value: T)

  /** A computation that either returns a value or throws an error. */
  datatype Result<+R, +E> = Success(value: R) | Failure(error: E)
}

/** Raw bytes as Node's `Buffer` holds them. */
module Buffers {

  newtype byte = x: int | 0 <= x < 256

  type Buffer = seq<byte>
}
