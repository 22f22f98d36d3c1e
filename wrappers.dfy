/** Option and Result, used for JavaScript's `undefined` and for the errors
    that the Lua helpers and `createRenderable` raise. */
module Wrappers {

  datatype Option<+T> = None | Some(value: T)

  datatype Result<+R, +E> = Success(value: R) | Failure(error: E)
}
