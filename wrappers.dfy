/** The optional-value wrapper the model uses for Swift's `T?`. */
module Wrappers {
  datatype Option<+T> = None | Some(value: T)
}
