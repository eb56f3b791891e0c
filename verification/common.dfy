/** Shared vocabulary of the trip planner model: identifiers, optional values and
    the outcome of a service call. */
module Common {

  /** Record identifiers are strings (the services mint them from a clock reading). */
  type Id = string

  /** A value that may be absent (JavaScript's `undefined`). */
  datatype Option<+T> = None | Some(value: T) {

    /** The value, or `default` when absent (JavaScript's `x || default` for values that are never falsy). */
    function GetOr(default: T): T {
      match this
      case Some(v) => v
      case None => default
    }
  }

  /** The outcome of a call that can throw: the value, or the message of the thrown `Error`. */
  datatype Result<+T> = Ok(value: T) | Err(message: string)

  /** A successful service call: the store after the call and the value the call returned. */
  datatype Reply<+S, +T> = Reply(store: S, value: T)
}
