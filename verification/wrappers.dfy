/** Optional values and pass/fail outcomes, used for Go's `(value, ok)` pairs and error returns. */
module Wrappers {

  datatype Option<+T> = None | Some(value: T)

  datatype Outcome<+E> = Pass | Fail(error: E)
}
