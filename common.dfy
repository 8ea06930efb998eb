/** Values shared by the modules of the agent: Python's `None`, and the
    exceptions the modelled code can raise, carried as data. */
module Common {

  datatype Option<+T> = None | Some(value: T)

  /** The Python exceptions that reach the caller of a modelled operation. */
  datatype Error =
    | IndexError         // an index past the end of a list, or `s[-1]` on an empty string
    | ValueError         // `int(...)` on a non-number, a failed tuple unpacking, an unknown log level
    | TypeError          // a string timeout handed to `timedelta(seconds=...)`
    | AssertionError     // a failed `assert`
    | UnboundLocalError  // a local variable read before its first assignment
    | ApiError           // the client library's exception, re-raised unchanged

  /** A value, or the exception raised instead of returning one. */
  datatype Result<+T> = Ok(value: T) | Err(error: Error)
}
