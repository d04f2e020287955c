/** Optional values and results with an error, used for JavaScript's `undefined`/`null`
    and for validators that either accept a value or report issues. */
module Wrappers {

  datatype Option<+T> = None | Some(value: T) {

    /** The wrapped value, or `default` when there is none. */
    function GetOr(default: T): T {
      match this
      case Some(v) => v
      case None => default
    }
  }

  datatype Result<+R, +E> = Success(value: R) | Failure(error: E)

  /** JavaScript's `s || fallback` for an optional string: both a missing value and the
      empty string (which is falsy) give the fallback. */
  function OrElse(s: Option<string>, fallback: string): string {
    if s.Some? && s.value != "" then s.value else fallback
  }

  /** JavaScript's `s || null` for a string: the empty string is sent as null. */
  function NullIfEmpty(s: string): (r: Option<string>)
    ensures r.None? <==> s == ""
    ensures r.Some? ==> r.value == s
  {
    if s == "" then None else Some(s)
  }

  /** JavaScript's `n || 0` for an optional number. */
  function OrZero(n: Option<int>): int {
    if n.Some? then n.value else 0
  }
}
