/** Optional values and Python-style failures shared by the model. */
module Wrappers {

  /** A value that may be absent (Python's `None`). */
  datatype Option<T> = None | Some(value: T)

  /** The Python exception classes the modelled code can raise. */
  datatype Exception = IndexError | ValueError | KeyError | ZeroDivisionError

  /** The outcome of a Python expression that may raise. */
  datatype Result<T> = Ok(value: T) | Raised(error: Exception)
}
