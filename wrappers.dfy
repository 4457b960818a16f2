/** Optional values and success-or-error results, used wherever the C++ code
    returns a std::optional or throws an exception. */
module Wrappers {
  datatype Option<T> = None | Some(value: T)

  datatype Result<T> = Success(value: T) | Failure(error: string)
  {
    predicate IsFailure() { Failure? }
  }
}
