/** Optional values and results, standing for Python's `None` and for the
    exceptions the calendar script raises. */
module Outcomes {

  datatype Option<+T> = None | Some(value: T)

  datatype Result<+T, +E> = Ok(value: T) | Err(error: E)
}
