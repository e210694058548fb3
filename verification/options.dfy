/** Optional values and error-carrying results, used wherever the Python code
    returns `None` or raises an exception. */
module Options {

  /** A value that may be absent (Python's `None`). */
  datatype Option<+T> = None | Some(value: T) {

    /** The carried value, or `default` when absent (Python's `x or default`
        for a value whose only falsy form is `None`). */
    function GetOr(default: T): T {
      match this
      case Some(v) => v
      case None => default
    }
  }

  /** The outcome of an operation that can raise: a value, or the error raised. */
  datatype Result<+T, +E> = Ok(value: T) | Err(error: E)
}
