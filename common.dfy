/** Optional values and results, used for JavaScript's null/undefined and for thrown errors. */
module Common {

  /** A value that may be absent (`null` or `undefined` in the source). */
  datatype Option<T> = None | Some(value: T)

  /** The outcome of an operation that either returns a value or throws an error. */
  datatype Result<T, E> = Success(value: T) | Failure(error: E)
}
