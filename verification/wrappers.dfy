/** Shared value types: optional values and the replies a request handler sends. */
module Wrappers {

  /** A JavaScript value that may be `null`/`undefined` (None) or present (Some). */
  datatype Option<+T> = None | Some(value: T) {
    function GetOr(default: T): T {
      match this
      case Some(v) => v
      case None => default
    }
  }

  /** What an Express handler does with `res`: a JSON reply with `success: false`,
      a JSON reply with `success: true` and a payload, or nothing at all (a catch
      block that only logs leaves the request without a response). */
  datatype Reply<+T> =
    | Failure(status: int, message: string)
    | Success(status: int, message: string, data: T)
    | Unanswered

  /** A request-body field that JSON can leave out, set to `null`, or set to a value. */
  datatype Input<+T> = Undefined | Null | Given(value: T)

  /** JavaScript truthiness of an optional string: present and non-empty. */
  predicate Present(s: Option<string>) {
    s.Some? && s.value != ""
  }
}
