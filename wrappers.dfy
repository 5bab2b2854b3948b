/** Failure-carrying values shared by every module of the model.

    Go reports failure through a trailing `error` result that is either
    `nil` or carries a message; `GoError` is that value, and `Result` pairs
    it with the value a successful call returns. */
module Wrappers {

  datatype Option<+T> = None | Some(value: T)

  /** A Go `error`: `Nil` or an error carrying its message. */
  datatype GoError = Nil | Error(msg: string)

  /** The `(value, error)` pair of a Go call whose value is meaningless on error. */
  datatype Result<+T> = Ok(value: T) | Err(msg: string)

  /** How a Go call ends: it returns, or it panics (including `log.Fatal`,
      which ends the process). */
  datatype Completion = Returned | Panicked(reason: string)
}
