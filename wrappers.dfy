/** The optional argument of `selectWatermark`, which callers may leave out. */
module Wrappers {

  /** A value that may be absent: JavaScript's `undefined` argument becomes `None`. */
  datatype Option<+T> = None | Some(value: T)
}
