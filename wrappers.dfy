/** The optional-value wrapper used across the model (JavaScript's `undefined` result). */
module Wrappers {
  datatype Option<+T> = None | Some(value: T)
}
