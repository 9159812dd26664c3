/** Option and Result types shared by the model: `None` stands for a Java
    `null` return, `Failure` for an exception that leaves a method. */
module Wrappers {

  datatype Option<T> = None | Some(value: T) {
    function GetOr(default: T): T {
      match this
      case Some(v) => v
      case None => default
    }
  }

  /** The Java exceptions that the modelled code throws or catches. */
  datatype Exception =
    | FileNotFoundException
    | IOException
    | IndexOutOfBoundsException
    | IllegalArgumentException
    | NullPointerException
    | UserCancellationException

  datatype Result<T> = Success(value: T) | Failure(error: Exception)

  function Min(a: int, b: int): (m: int)
    ensures m <= a && m <= b && (m == a || m == b)
  {
    if a <= b then a else b
  }
}
