/** A nullable reference, as the comparer receives it. */
module Wrappers {
  datatype Option<+T> = None | Some(value: T)
}
