/** The optional-value type used by the matcher for "no match here". */
module Wrappers {
  datatype Option<+T> = None | Some(value: T)
}
