/** Shared vocabulary: optional values, results with an error, and Go's `byte`. */
module Common {

  /** A value that may be absent (a Go `nil` or a missing map entry). */
  datatype Option<T> = None | Some(value: T)

  /** A value or an error, in the place of Go's `(value, err)` pairs. */
  datatype Result<T, E> = Success(value: T) | Failure(error: E)

  /** A Go `byte`. */
  newtype Byte = x: int | 0 <= x < 256
}
