/** Optional values and success/failure results, plus the JavaScript notion of a
    "truthy" optional string that the application's guards use throughout. */
module Wrappers {

  /** A value that may be absent (`undefined` or `null` in the application). */
  datatype Option<+T> = None | Some(value: T) {
    function GetOr(default: T): T {
      match this
      case Some(v) => v
      case None => default
    }
  }

  /** The outcome of an operation that either produces a value or fails with an error. */
  datatype Result<+R, +E> = Ok(value: R) | Err(error: E)

  /** An optional string is truthy in JavaScript when it is present and not empty. */
  predicate Present(s: Option<string>) {
    s.Some? && s.value != ""
  }

  /** JavaScript's `a || b` on two strings: `a` when it is truthy, otherwise `b`. */
  function OrElse(a: string, b: string): (r: string)
    ensures r == a || r == b
    ensures a != "" ==> r == a
    ensures r == "" ==> a == "" && b == ""
  {
    if a != "" then a else b
  }
}
