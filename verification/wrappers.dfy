/** Optional values and results for the error paths of the model. */
module Wrappers {

  /** A nullable column or an absent array key. */
  datatype Option<+T> = None | Some(value: T) {

    /** The value, or `default` when there is none (PHP's `??`). */
    function GetOr(default: T): T {
      match this
      case Some(v) => v
      case None => default
    }
  }

  /** The ways a request of the modelled core is turned away. */
  datatype Failure =
    | NotFound        // HTTP 404: unknown slug, wrong status, missing template or view
    | Invalid         // HTTP 422: a guest submission failed its validation rules
    | Rejected        // HTTP 500: the database refuses a row (a NOT NULL, enum or type violation)

  datatype Result<+T> = Ok(value: T) | Err(error: Failure)
}
