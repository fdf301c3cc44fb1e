/** The application-wide error handler: the reply for an error that a route passes on
    instead of answering itself. An application error carries its own status and message;
    any other error is answered by its `name` alone, so its message never reaches the
    client. */
module ErrorMiddleware {
  import opened Common

  /** An error that reaches the handler: an `AppError`, with the status it was raised
      with, or any other thrown error, known by its `name` and `message`. */
  datatype Failure = AppError(message: string, statusCode: int) | Thrown(name: string, message: string)

  const DatabaseErrorName: string := "PrismaClientKnownRequestError"
  const InvalidTokenName: string := "JsonWebTokenError"
  const ExpiredTokenName: string := "TokenExpiredError"

  /** `errorHandler`: the `{ error }` reply for `err`. */
  function Handle<T>(err: Failure): (r: Reply<T>)
    ensures r.Fail?
    ensures err.AppError? ==> r.status == err.statusCode && r.error == err.message
    ensures err.Thrown? ==> r.status in {400, 401, 500}
  {
    match err
    case AppError(message, statusCode) => Fail(statusCode, message)
    case Thrown(name, _) =>
      if name == DatabaseErrorName then Fail(400, "Database operation failed")
      else if name == InvalidTokenName then Fail(401, "Invalid token")
      else if name == ExpiredTokenName then Fail(401, "Token expired")
      else Fail(500, "Internal server error")
  }

  /** A thrown error's status tells its kind: 400 exactly for a known database error,
      401 exactly for a bad or an expired token, 500 for everything else. */
  lemma ThrownStatus<T>(name: string, message: string)
    ensures var r := Handle<T>(Thrown(name, message));
      && (r.status == 400 <==> name == DatabaseErrorName)
      && (r.status == 401 <==> name == InvalidTokenName || name == ExpiredTokenName)
      && (r.status == 500 <==> name != DatabaseErrorName && name != InvalidTokenName && name != ExpiredTokenName)
  {
  }

  /** What a thrown error says is never shown: two errors of the same name get the same
      reply, and that reply is one of four fixed texts. */
  lemma MessageHidden<T>(name: string, m1: string, m2: string)
    ensures Handle<T>(Thrown(name, m1)) == Handle<T>(Thrown(name, m2))
    ensures Handle<T>(Thrown(name, m1)).error in
      {"Database operation failed", "Invalid token", "Token expired", "Internal server error"}
  {
  }
}
