/** The optional-value type used throughout the model for JavaScript's
    `null`/`undefined`. */
module Wrappers {
  datatype Option<+T> = None | Some(value: T)
}
