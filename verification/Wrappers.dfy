/** Types shared by the modules. */
module Wrappers {

  /** A value that may be missing, where the original uses `None`. */
  datatype Option<+T> = None | Some(value: T) {

    function GetOr(default: T): T {
      match this
      case Some(v) => v
      case None => default
    }
  }

  /** Some element of a nonempty set. */
  method AnyOf<T>(items: set<T>) returns (item: T)
    requires items != {}
    ensures item in items
  {
    item :| item in items;
  }
}
