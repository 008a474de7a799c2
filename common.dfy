/** Shared vocabulary of the ledger backend: optional request fields and the
    status-plus-payload shape every handler answers with. */
module Common {

  /** The id of a registered user, as resolved from the request's token. */
  type UserId = nat

  /** A request field that may be absent. `None` also stands for a supplied value
      that JavaScript treats as falsy where the handler tests it with `||` or `!`,
      unless the handler's own test distinguishes the two. */
  datatype Option<T> = None | Some(value: T) {
    function GetOr(default: T): T {
      match this
      case Some(v) => v
      case None => default
    }
  }

  /** The HTTP statuses the handlers answer with. */
  datatype Status = Ok | Created | BadRequest | NotFound | ServerError

  /** What a handler sends back: the status and the `data` field of the JSON
      envelope (message strings and the error/success flags are not modelled). */
  datatype Reply<T> = Reply(status: Status, data: Option<T>)

  /** `Math.abs` on integer amounts. */
  function Abs(x: int): int {
    if x < 0 then -x else x
  }
}
