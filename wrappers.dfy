/** The optional result of a lookup: Go returns `(nil, false)` where this model returns `None`. */
module Wrappers {
  datatype Option<+T> = None | Some(value: T)
}
