/** Option and Result, the shapes used for JavaScript's `undefined`/`null` results and thrown errors. */
module Wrappers {

  datatype Option<+T> = None | Some(value: T)

  /** A JavaScript call that either returns a value or throws. */
  datatype Result<+T, +E> = Ok(value: T) | Err(error: E)

  /** The errors the modelled JavaScript code throws. */
  datatype JsError =
    | TypeError(message: string)
    | Error(message: string)
}
