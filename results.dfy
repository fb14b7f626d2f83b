/** Failure-carrying values shared by the other modules. */
module Results {

  /** A value that may be absent (a TypeScript optional field or `undefined`). */
  datatype Option<+T> = None | Some(value: T)

  /** The outcome of a validation: a value, or the error that describes why there is none. */
  datatype Result<+T, +E> = Success(value: T) | Failure(error: E)
}
