/** Option and Result values: absent JavaScript fields and the error paths of the popup. */
module Results {

  datatype Option<+T> = None | Some(value: T)

  /** The outcome of an operation that either produces a value or stops with an error. */
  datatype Result<+T, +E> = Success(value: T) | Failure(error: E)
}
