/** The optional value shared by every module: JavaScript's `null`/`undefined`
    alternative, and a missing map entry. */
module Wrappers {
  datatype Option<T> = None | Some(value: T)
}
