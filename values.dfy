/** Optional and fallible values, and the JavaScript truthiness tests the
    server applies to them (`!x`, `x || fallback`). */
module Values {

  datatype Option<+T> = None | Some(value: T)

  datatype Result<+T, +E> = Ok(value: T) | Err(error: E)

  /** A JSON number is truthy when present and non-zero. */
  predicate NatTruthy(x: Option<nat>) {
    x.Some? && x.value != 0
  }

  /** A JSON string is truthy when present and non-empty. */
  predicate StringTruthy(x: Option<string>) {
    x.Some? && x.value != ""
  }

  /** `x || fallback` on an optional string. */
  function StringOr(x: Option<string>, fallback: string): (r: string)
    ensures StringTruthy(x) ==> r == x.value
    ensures !StringTruthy(x) ==> r == fallback
  {
    if x.Some? && x.value != "" then x.value else fallback
  }
}
