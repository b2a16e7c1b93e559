/** Python's `None`-or-value and raise-or-pass results as datatypes. */
module Wrappers {

  datatype Option<+T> = None | Some(value: T) {
    /** `value or default`, as in `data.get(key) or 0`. */
    function GetOr(default: T): T {
      match this
      case Some(v) => v
      case None => default
    }
  }

  /** A validation step either passes or raises one error. */
  datatype Outcome<+E> = Pass | Fail(error: E)
}
