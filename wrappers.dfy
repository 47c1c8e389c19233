/** Optional values and results of calls that may raise. */
module Wrappers {

  datatype Option<+T> = None | Some(value: T)

  /** The value of a call, or the text of the exception it raised (Python's `str(e)`). */
  datatype Result<+T> = Ok(value: T) | Err(error: string)
}
