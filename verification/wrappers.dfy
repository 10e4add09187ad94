/** Optional values: `None` stands for JavaScript's `undefined` / `null` / `NaN` results. */
module Wrappers {

  datatype Option<+T> = None | Some(value: T) {

    /** Returns the value inside `Some`, or `default` for `None`. */
    function GetOr(default: T): T {
      match this
      case Some(v) => v
      case None => default
    }
  }

  /** A point in time as the server reads it: `Date.now()` milliseconds and the matching ISO-8601 text. */
  datatype Instant = Instant(ms: int, iso: string)
}
