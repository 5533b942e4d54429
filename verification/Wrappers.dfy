/** Values that may be missing. */
module Wrappers {
  datatype Option<T> = None | Some(value: T) {
    function UnwrapOr(other: T): T {
      if Some? then value else other
    }
  }
}
