/** Option and Result, the two failure-carrying shapes the rest of the model uses
    for JavaScript's `undefined` and for thrown errors. */
module Wrappers {

  /** `None` stands for an absent value (JavaScript `undefined`). */
  datatype Option<+T> = None | Some(value: T) {

    /** The carried value, or `default` when there is none. */
    function GetOr(default: T): T {
      match this
      case Some(v) => v
      case None => default
    }
  }

  /** `Err` carries what a JavaScript `throw` would have carried. */
  datatype Result<+T, +E> = Ok(value: T) | Err(error: E)
}
