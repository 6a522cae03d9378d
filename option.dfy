/** A value that may be absent: SQL NULL, a missing form field, a search that finds nothing. */
module Opt {

  datatype Option<T> = None | Some(value: T) {

    /** The value, or `default` when absent (the `x ? x : y` fallbacks of the source). */
    function GetOr(default: T): T
    {
      match this
      case Some(v) => v
      case None => default
    }
  }
}
