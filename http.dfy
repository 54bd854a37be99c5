/** Request parameters, the shape of the routes' responses, and the header-only
    admin check. */
module Http {
  import opened Wrappers

  /** A document-store identifier; fresh ones come from a counter. */
  type ObjectId = nat

  /** A clock reading (`Date.now()`, `CURRENT_TIMESTAMP`), passed in by the caller. */
  type Time = nat

  /** A route's `:id` parameter as the document store reads it: text that casts to an
      ObjectId, or text that does not (the query then throws a CastError). */
  datatype IdParam = Cast(oid: ObjectId) | Uncastable

  /** The `error` string of an error response: a fixed message, or the message of a
      caught exception after a fixed prefix (the exception's own text is not modelled). */
  datatype ErrorText = Message(text: string) | Caught(prefix: string)

  /** A response: a status with a JSON body, or a status with `{error}`. */
  datatype Reply<+T> = Ok(status: nat, body: T) | Fail(status: nat, error: ErrorText)

  /** The body `{status: 'success'}`. */
  datatype Ack = Success

  /** The "simplified" middleware of the newspaper and advertisement routes: any
      non-empty Authorization header passes; its value is never inspected. */
  predicate HeaderPresent(authorization: Option<string>) {
    authorization.Some? && authorization.value != ""
  }

  /** The 401 reply of that middleware. */
  const Unauthorized: ErrorText := Message("Unauthorized")
}
