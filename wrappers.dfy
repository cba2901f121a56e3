/** Optional values and error outcomes, used wherever the source returns null or throws. */
module Wrappers {

  /** A value that may be absent (Java null). */
  datatype Option<+T> = None | Some(value: T)

  /** Either success or a failure carrying the exception the source would throw. */
  datatype Outcome<+E> = Pass | Fail(error: E)
}
