/** Failure-carrying values shared by every module of the lindeb model:
    `Option` stands for Go's nil pointers and JavaScript's `undefined`,
    `Result` for Go's `(value, error)` pairs. */
module Wrappers {

  datatype Option<+T> = None | Some(value: T) {

    /** The value, or `default` when there is none. */
    function GetOr(default: T): T {
      match this
      case Some(v) => v
      case None => default
    }
  }

  datatype Result<+T> = Ok(value: T) | Err(error: string) {

    /** Drops the error message: Go's `x, _ := f()` idiom. */
    function ToOption(): Option<T> {
      match this
      case Ok(v) => Some(v)
      case Err(_) => None
    }
  }
}
