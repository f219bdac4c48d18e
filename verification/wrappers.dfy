/** The optional value used for the application's nullable state. */
module Wrappers {

  /** A value that may be absent (`null` in the application's state). */
  datatype Option<T> = None | Some(value: T)
}
