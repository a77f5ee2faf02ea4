/** Option, the exception value and kotlin.Result, shared by every module. */
module Wrappers {

  /** A nullable Kotlin value: `None` stands for `null`. */
  datatype Option<+T> = None | Some(value: T) {
    /** Kotlin's elvis operator `this ?: default`. */
    function GetOr(default: T): T {
      match this
      case Some(v) => v
      case None => default
    }
  }

  /** A thrown exception, reduced to its (nullable) message. */
  datatype Exception = Exception(message: Option<string>)

  /** kotlin.Result: a value or the exception that replaced it. */
  datatype Result<+T> = Success(value: T) | Failure(error: Exception)

  /** An exception raised by the app itself with a fixed text. */
  function Raise(text: string): Exception {
    Exception(Some(text))
  }
}
