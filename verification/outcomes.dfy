/** Failure-compatible wrappers shared by the model: an optional value (Python's
    `None` or a value) and a result that either holds a value or names the
    Python exception the source raises on that path. */
module Outcomes {

  datatype Option<+T> = None | Some(value: T) {
    /** The wrapped value, or `default` for `None` (Python's `dict.get(key, default)`). */
    function GetOr(default: T): T {
      match this
      case Some(v) => v
      case None => default
    }
  }

  /** The exception classes the modelled code can raise. */
  datatype Error =
    | ValueError      // shape mismatch, `max` of an empty array
    | AssertionError  // a failed `assert` statement
    | TypeError       // subscripting `None`
    | AttributeError  // attribute access on `None`
    | IndexError      // list index out of range

  datatype Result<+T> = Ok(value: T) | Err(error: Error)
}
