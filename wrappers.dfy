/** Kotlin's nullable values (`T?`). */
module Wrappers {

  datatype Option<+T> = None | Some(value: T)
}
