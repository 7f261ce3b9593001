/** The optional and two-way results that stand for Go's `value, ok` and `value, error` pairs. */
module Wrappers {
  datatype Option<+T> = None | Some(value: T) {
    function GetOrElse(default: T): T {
      if Some? then value else default
    }

    function Or(other: Option<T>): Option<T> {
      if Some? then this else other
    }
  }

  datatype Result<+T, +E> = Ok(value: T) | Err(error: E)
}
