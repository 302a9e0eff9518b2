/** Failure-compatible wrappers shared by every module of the model.
    `Option` stands for a Java reference that may be null or a Python value that may be None;
    `Result` stands for a computation that may raise, the error carrying the exception's message. */
module Wrappers {

  datatype Option<+T> = None | Some(value: T) {
    predicate IsFailure() { None? }

    function PropagateFailure<U>(): Option<U>
      requires None?
    {
      None
    }

    function Extract(): T
      requires Some?
    {
      value
    }

    function GetOr(default: T): T {
      match this
      case Some(v) => v
      case None => default
    }
  }

  datatype Result<+R> = Success(value: R) | Failure(error: string) {
    predicate IsFailure() { Failure? }

    function PropagateFailure<U>(): Result<U>
      requires Failure?
    {
      Failure(error)
    }

    function Extract(): R
      requires Success?
    {
      value
    }
  }

  /** Fails with `msg` unless `cond` holds. */
  function Need(cond: bool, msg: string): (r: Result<()>)
    ensures r.Success? <==> cond
  {
    if cond then Success(()) else Failure(msg)
  }
}
