/** Option: the value of a lookup that may find nothing (a SQL `fetchone()` that
    returns None, a regular-expression search without a match). */
module Wrappers {

  datatype Option<+T> = None | Some(value: T) {

    /** The value, or `default` when there is none (Python's `x or default`
        for a possibly-None `x`). */
    function GetOr(default: T): T {
      match this
      case Some(v) => v
      case None => default
    }
  }
}
