/** Option and Result, plus the panics of the shell written out as values. */
module Wrappers {

  datatype Option<+T> = None | Some(value: T)

  /** The ways the shell's code aborts: `todo!()`, `unreachable!()`, and the
      `panic!`s of backend selection. */
  datatype Panic =
    | Todo
    | Unreachable
    | NotSupported
    | UnsupportedDesktop(desktop: Option<string>)

  /** A computation that either returns a value or panics. */
  datatype Result<+R> = Success(value: R) | Failure(panic: Panic) {

    predicate IsFailure() {
      Failure?
    }

    function PropagateFailure<U>(): Result<U>
      requires Failure?
    {
      Failure(panic)
    }

    function Extract(): R
      requires Success?
    {
      value
    }
  }
}
