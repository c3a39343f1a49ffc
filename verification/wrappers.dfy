/** Failure-carrying wrappers shared by every module of the model. */
module Wrappers {

  /** A value that may be absent: an optional field of a JSON payload, a
      missing storage entry, a search that found nothing. */
  datatype Option<+T> = None | Some(value: T) {

    /** The wrapped value, or `default` when there is none. */
    function GetOr(default: T): T {
      match this
      case Some(v) => v
      case None => default
    }
  }

  /** The outcome of an upstream call: a payload, or the message of the
      error it threw. */
  datatype Result<+T> = Ok(value: T) | Err(error: string)
}
