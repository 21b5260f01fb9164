/** Option and Result, used for the JavaScript values that may be absent
    (`null`, `undefined`) and for the one operation that can throw. */
module Wrappers {
  datatype Option<+T> = None | Some(value: T)

  datatype Result<+R, +E> = Success(value: R) | Failure(error: E)
}
