/** Outcome of an operation that can raise one of the exceptions the core raises. */
module Wrappers {

  /** The exceptions Python's datetime raises on the paths of the core:
      ValueError from the datetime constructor (year or month out of range),
      OverflowError from datetime + timedelta past datetime.max. */
  datatype Error = ValueError | OverflowError

  /** Either a value or the exception that replaced it. */
  datatype Result<+T> = Success(value: T) | Failure(error: Error) {

    predicate IsFailure() {
      Failure?
    }

    function PropagateFailure<U>(): Result<U>
      requires Failure?
    {
      Failure(error)
    }

    function Extract(): T
      requires Success?
    {
      value
    }
  }
}
