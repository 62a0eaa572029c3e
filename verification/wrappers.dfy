/** Optional values: a JSON field that is missing or null, a spreadsheet cell
    that is empty, a selection that has not been made. */
module Wrappers {

  datatype Option<+T> = None | Some(value: T) {

    /** Returns the carried value, or `default` when there is none. */
    function GetOr(default: T): T {
      match this
      case Some(v) => v
      case None => default
    }
  }
}
