/** Failure-carrying values: a Java `null` becomes `None`, a thrown exception a `Failure` or a `Fail`. */
module Results {

  /** A value that may be absent (a nullable Java reference). */
  datatype Option<T> = None | Some(value: T)

  /** The outcome of an operation that produces a value or throws. */
  datatype Result<T, E> = Success(value: T) | Failure(error: E)

  /** The outcome of a `void` operation that returns normally or throws. */
  datatype Outcome<E> = Pass | Fail(error: E)
}
