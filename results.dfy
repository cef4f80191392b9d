/** Optional values and tagged results, used in place of Go's `(value, error)` returns. */
module Results {

  /** A value that may be absent, e.g. the outcome of parsing a request parameter. */
  datatype Option<T> = None | Some(value: T)

  /** Either a value or one error out of a closed set of errors. */
  datatype Result<T, E> = Success(value: T) | Failure(error: E)
}
