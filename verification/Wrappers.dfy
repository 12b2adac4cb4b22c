/** The optional value used wherever the modelled code returns `None`, `nil` or a sentinel. */
module Wrappers {
  datatype Option<+T> = None | Some(value: T)
}
