/** Failure-compatible wrappers shared by every module of the model.

    Go reports failure through a second `error` return value, and a few
    operations panic instead. The model turns both into values: a `Result`
    carries either the success value or an error, and an `Outcome` is the
    shape of a Go function whose only return value is an `error`. */
module Wrappers {

  /** A value that may be absent; stands for a Go `nil` pointer or interface. */
  datatype Option<+T> = None | Some(value: T) {
    predicate IsFailure() {
      None?
    }

    function PropagateFailure<U>(): Option<U>
      requires None?
    {
      None
    }

    function Extract(): T
      requires Some?
    {
      value
    }

    function GetOr(default: T): T {
      match this
      case Some(v) => v
      case None => default
    }
  }

  /** Either a success value or an error value. */
  datatype Result<+R, +E> = Ok(value: R) | Err(error: E) {
    predicate IsFailure() {
      Err?
    }

    function PropagateFailure<U>(): Result<U, E>
      requires Err?
    {
      Err(error)
    }

    function Extract(): R
      requires Ok?
    {
      value
    }
  }

  /** The result of a Go function returning only `error`: `Pass` is `nil`. */
  datatype Outcome<+E> = Pass | Fail(error: E) {
    predicate IsFailure() {
      Fail?
    }

    function PropagateFailure(): Outcome<E>
      requires Fail?
    {
      this
    }
  }
}
