/** Nullable values, results and the errors the modelled code raises.

    A C# reference that may be null is an `Option`: `None` stands for null.
    A method that throws on bad input returns a `Result` (or an `Outcome`
    when it has nothing else to return) whose failure names the exception. */
module Basics {

  datatype Option<+T> = None | Some(value: T) {
    /** `x ?? other` in C#. */
    function OrElse(other: Option<T>): Option<T> {
      if Some? then this else other
    }
  }

  /** The exceptions raised by the modelled code. */
  datatype Error =
    | ArgumentNull(paramName: string)         // Assert.ArgumentNotNull
    | AssertionFailed(message: string)        // Assert.IsNotNullOrEmpty and friends
    | NotImplemented(message: string)         // NotImplementedException

  datatype Result<+R> = Success(value: R) | Failure(error: Error)

  datatype Outcome = Pass | Fail(error: Error)
}
