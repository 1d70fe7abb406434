/** Option, the shape of Python's `Optional[...]` values (None or a value). */
module Wrappers {
  datatype Option<+T> = None | Some(value: T)
}
