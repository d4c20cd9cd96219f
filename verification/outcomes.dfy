/** Failure-carrying results shared by every module of the model.

    The program reports recoverable errors through `anyhow::Result`, and
    aborts through `unwrap`/`expect`/`unreachable!`. Both end the current
    operation, so both are values here: `Error` for the former, `Panic`
    for the latter. */
module Outcomes {

  datatype Option<+T> = None | Some(value: T)

  /** Why an operation stopped: a reported error or a panic. */
  datatype Failure = Error(message: string) | Panic(message: string)

  datatype Result<+T> = Ok(value: T) | Err(failure: Failure) {
    predicate IsFailure() {
      Err?
    }

    function PropagateFailure<U>(): Result<U>
      requires Err?
    {
      Err(failure)
    }

    function Extract(): T
      requires Ok?
    {
      value
    }
  }

  /** Message of `Option::unwrap` on `None`. */
  const UnwrapNone: string := "called `Option::unwrap()` on a `None` value"

  /** Message of `Result::unwrap` on `Err`. */
  const UnwrapErr: string := "called `Result::unwrap()` on an `Err` value"
}
