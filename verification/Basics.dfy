/** Absence and failure, shared by all modules. A thrown error is a Failure: nothing has happened. */
module Basics {
  datatype Option<+T> = None | Some(value: T) {
    function GetOr(default: T): T { match this case Some(v) => v case None => default }
  }

  datatype Result<+T, +E> = Success(value: T) | Failure(error: E)

  function Min(a: real, b: real): real { if a <= b then a else b }

  function Max(a: real, b: real): real { if a >= b then a else b }
}
