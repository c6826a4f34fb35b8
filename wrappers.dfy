/** The optional results of the engine: Swift's `nil` is `None`. */
module Wrappers {
  datatype Option<+T> = None | Some(value: T)
}
