// Datatypes shared by the other modules.
module Basics {

  datatype Option<+T> = None | Some(value: T) {
    function GetOr(default: T): T {
      if Some? then value else default
    }
  }

  datatype Result<+T, +E> = Ok(value: T) | Err(error: E)

  /** A Python string that may be missing: false when absent or empty. */
  predicate Truthy(s: Option<string>) {
    s.Some? && s.value != ""
  }

  /** A Python set object: several frames of a recursion share it and add to it in place. */
  class MutableSet<T(==)> {
    var elems: set<T>

    constructor ()
      ensures elems == {}
    {
      elems := {};
    }
  }
}
