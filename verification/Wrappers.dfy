/** An optional value: the model's form of a pointer that may be nil. */
module Wrappers {

  datatype Option<+T> = None | Some(value: T) {

    /** The value, or the given default where there is none. */
    function GetOr(default: T): T {
      match this
      case Some(v) => v
      case None => default
    }

    /** This value where there is one, otherwise the other. */
    function OrElse(other: Option<T>): Option<T> {
      if Some? then this else other
    }
  }
}
