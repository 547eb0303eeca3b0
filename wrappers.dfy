/** The optional-value type used where the program returns "maybe nothing". */
module Wrappers {
  datatype Option<+T> = None | Some(value: T)
}
