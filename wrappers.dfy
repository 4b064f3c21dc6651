/** The Option datatype used for JavaScript values that may be `undefined`
    and for selectors that match no element. */
module Wrappers {
  datatype Option<+T> = None | Some(value: T)
}
