/** Optional values and success/failure results, used for Python's `None` and for raised errors. */
module Base {

  datatype Option<T> = None | Some(value: T)

  datatype Result<T, E> = Success(value: T) | Failure(error: E)
}
