/** Kotlin's nullable values, exceptions and `Result<T>`, as the rest of the model uses them. */
module Outcomes {

  /** A Kotlin `T?`: `None` is `null`. */
  datatype Option<+T> = None | Some(value: T)

  /** A thrown `Exception`; its `message` may be `null`. */
  datatype Exception = Exception(message: Option<string>)

  /** Kotlin's `Result<T>`: `Result.success(value)` or `Result.failure(exception)`. */
  datatype Result<+T> = Success(value: T) | Failure(error: Exception)

  /** `error.message ?: fallback`, as the screens render a failure. */
  function MessageOr(e: Exception, fallback: string): (r: string)
    ensures e.message.Some? ==> r == e.message.value
    ensures e.message.None? ==> r == fallback
  {
    match e.message
    case Some(m) => m
    case None => fallback
  }

  /** An exception built with `Exception(text)`, whose message is never null. */
  function Raise(text: string): (e: Exception)
    ensures e.message == Some(text)
  {
    Exception(Some(text))
  }
}
