/** Optional values and success-or-error results, shared by every module of the model. */
module Outcomes {

  /** A value that may be absent: an optional document field, or a request-body field that was not sent. */
  datatype Option<+T> = None | Some(value: T) {

    /** The value, or `default` when absent: how a Mongoose schema default is applied. */
    function GetOr(default: T): T {
      if Some? then value else default
    }
  }

  /** The outcome of a controller: the response payload, or the error that ended the request. */
  datatype Result<+T, +E> = Ok(value: T) | Err(error: E)
}
