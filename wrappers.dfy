/** Option and Result, the two wrappers the model uses for JavaScript's
    `undefined`/`null` and for operations that can throw. */
module Wrappers {

  datatype Option<+T> = None | Some(value: T)

  datatype Result<+T> = Success(value: T) | Failure(message: string)
}
