/** Small helper types shared by the game modules. */
module Wrappers {

  /** A value that may be absent (JavaScript's null or undefined). */
  datatype Option<+T> = None | Some(value: T)
}
