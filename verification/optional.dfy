/** Failure-carrying value types shared by the controller model. */
module Optional {

  /** A value that may be missing: JavaScript's `null` becomes `None`. */
  datatype Option<+T> = None | Some(value: T)

  /** The outcome of a check that either accepts with a value or rejects with a reason. */
  datatype Result<+T, +E> = Success(value: T) | Failure(error: E)
}
