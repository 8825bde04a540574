/** Optional values and failure-carrying results, used for the source's
    `None` returns and its raised exceptions. */
module Wrappers {

  datatype Option<+T> = None | Some(value: T)

  datatype Result<+T, +E> = Ok(value: T) | Err(error: E)

  /** The result of a step that either completes or aborts with an error. */
  datatype Outcome<+E> = Pass | Fail(error: E)
}
