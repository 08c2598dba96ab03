/** Python's `None`-or-value, used for `leapt_from` and the motif window. */
module Wrappers {
  datatype Option<+T> = None | Some(value: T)
}
