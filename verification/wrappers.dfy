/** A value that may be absent: Kotlin's nullable types (`String?`, `Intent?`). */
module Wrappers {

  datatype Option<+T> = None | Some(value: T)
}
