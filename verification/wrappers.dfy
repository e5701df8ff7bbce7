/** Optional values and results with an error, as the configuration loader needs them. */
module Wrappers {

  /** A value that may be absent, such as a key missing from a TOML table. */
  datatype Option<+T> = None | Some(value: T) {
    /** The value, or `default` when absent (Python's `dict.get(key, default)`). */
    function GetOr(default: T): T {
      match this
      case Some(v) => v
      case None => default
    }
  }

  /** The outcome of a step that may stop the program with an error. */
  datatype Result<+T, +E> = Ok(value: T) | Err(error: E)
}
