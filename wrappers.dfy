/** The outcome of an operation that the source either completes or aborts with an exception. */
module Wrappers {
  datatype Result<T, E> = Ok(value: T) | Err(error: E)
}
