/** Datatypes shared by several components. */
module Basics {
  datatype Option<+T> = None | Some(value: T) {
    /** The first value that is present, as Rust's `or` and `or_else`. */
    function Or(other: Option<T>): (r: Option<T>)
    {
      if Some? then this else other
    }
  }
}
