/** Swift's optional (`T?`), written out as a datatype. */
module Wrappers {

  datatype Option<+T> = None | Some(value: T)
}
