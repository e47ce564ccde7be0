/** Option: a value that may be absent (a DOM lookup that returns null, a parse that yields NaN). */
module Wrappers {

  datatype Option<+T> = None | Some(value: T)
}
