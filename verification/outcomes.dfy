/** Optional values and the settled outcome of a call into the notes service. */
module Outcomes {

  /** A value that may be absent: JavaScript's `undefined` / `null` on one side, a value on the other. */
  datatype Option<+T> = None | Some(value: T) {

    /** The held value, or `default` when there is none. */
    function GetOr(default: T): T {
      match this
      case Some(v) => v
      case None => default
    }
  }

  /** How a promise returned by the notes service settles: fulfilled with a value, or
      rejected with an error whose `name` and `message` are those of the thrown object
      (the empty string standing for a missing or empty property). */
  datatype Outcome<+T> = Ok(value: T) | Err(name: string, message: string)

  /** The message a hook stores after a rejection, `err?.message || fallback`: the
      error's own message unless it is empty, the fixed fallback text otherwise. */
  function ErrorText(message: string, fallback: string): (r: string)
    ensures message != "" ==> r == message
    ensures message == "" ==> r == fallback
    ensures fallback != "" ==> r != ""
  {
    if message == "" then fallback else message
  }
}
