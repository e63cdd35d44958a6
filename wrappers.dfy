/** Option and Result, and the error kinds a request can end with. */
module Wrappers {

  datatype Option<+T> = None | Some(value: T)

  /** How a request is refused.  Each carries the HTTP status the framework answers with. */
  datatype Error =
    | NotFound                    // 404: a bound id does not resolve, or firstOrFail found nothing
    | Forbidden                   // 403: the requester does not own the resource chain
    | Invalid(fields: set<string>) // 422: the fields whose validation rules failed
    | StorageError                // 500: the database refused the write (a NOT NULL column)
    | StartFailed                 // session creation caught an exception and redirected back

  datatype Result<+T> = Success(value: T) | Failure(error: Error)

  /** The Laravel `?? default` operator on an optional value. */
  function GetOr<T>(o: Option<T>, default: T): T
  {
    match o
    case Some(v) => v
    case None => default
  }
}
