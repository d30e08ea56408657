// The response record shared by every service and controller, and the two
// small wrappers the rest of the model builds on.

module Common {

  datatype Option<T> = None | Some(value: T)

  /** The payload of a response or outcome that carries no data. */
  type Void = ()

  /** The double-quote character, which Java's exception messages put
    * around names. */
  const Quote: string := [34 as char]

  /** The outcome of a service method that either returns a value or throws a
    * runtime exception carrying a message. */
  datatype Except<T> = Value(v: T) | Throws(reason: string)

  /** Result<T>: a status code (a nullable Integer), a message and nullable data. */
  datatype Response<T> = Response(code: Option<int>, message: string, data: Option<T>)

  /** isSuccess: the code is present and equals 200. */
  predicate IsSuccess<T>(r: Response<T>) {
    r.code.Some? && r.code.value == 200
  }

  function SuccessWith<T>(data: Option<T>, message: string): (r: Response<T>)
    ensures IsSuccess(r)
    ensures r.data == data && r.message == message
  {
    Response(Some(200), message, data)
  }

  function Success<T>(data: Option<T>): (r: Response<T>)
    ensures IsSuccess(r)
    ensures r.data == data && r.message == "Operation successful"
  {
    SuccessWith(data, "Operation successful")
  }

  /** error(code, message): exactly that code and message, no data; it is a
    * success only when the caller passes 200 itself. */
  function Error<T>(code: int, message: string): (r: Response<T>)
    ensures r.code == Some(code) && r.message == message && r.data.None?
    ensures IsSuccess(r) <==> code == 200
  {
    Response(Some(code), message, None)
  }

  function ValidateFailed<T>(message: string): (r: Response<T>)
    ensures r.code == Some(400) && r.message == message && r.data.None?
    ensures !IsSuccess(r)
  {
    Error(400, message)
  }

  /** unauthorized(): error(401, ...). */
  function Unauthorized<T>(): (r: Response<T>)
  {
    Error(401, "Not logged in or token expired")
  }

  /** forbidden(): error(403, ...). */
  function Forbidden<T>(): (r: Response<T>)
  {
    Error(403, "No permission")
  }

  function ForbiddenWith<T>(message: string): (r: Response<T>)
    ensures r.code == Some(403) && r.message == message && r.data.None? && !IsSuccess(r)
  {
    Error(403, message)
  }

  /** notFound(): error(404, ...). */
  function NotFound<T>(): (r: Response<T>)
  {
    Error(404, "Requested resource does not exist")
  }

  /** serverError(): error(500, ...). */
  function ServerError<T>(): (r: Response<T>)
  {
    Error(500, "Internal server error")
  }

  /** unauthorized() is error(401, "Not logged in or token expired"): no data, never a success. */
  lemma UnauthorizedIs401<T>(r: Response<T>)
    requires r == Unauthorized<T>()
    ensures r.code == Some(401) && r.message == "Not logged in or token expired" && r.data.None? && !IsSuccess(r)
  {
  }

  /** forbidden() is error(403, "No permission"): no data, never a success. */
  lemma ForbiddenIs403<T>(r: Response<T>)
    requires r == Forbidden<T>()
    ensures r.code == Some(403) && r.message == "No permission" && r.data.None? && !IsSuccess(r)
  {
  }

  /** notFound() is error(404, "Requested resource does not exist"): no data, never a success. */
  lemma NotFoundIs404<T>(r: Response<T>)
    requires r == NotFound<T>()
    ensures r.code == Some(404) && r.message == "Requested resource does not exist" && r.data.None? && !IsSuccess(r)
  {
  }

  /** serverError() is error(500, "Internal server error"): no data, never a success. */
  lemma ServerErrorIs500<T>(r: Response<T>)
    requires r == ServerError<T>()
    ensures r.code == Some(500) && r.message == "Internal server error" && r.data.None? && !IsSuccess(r)
  {
  }

  /** Re-types a response that carries no data (Java's erased generics let the
    * same error object be returned from a method with another data type). */
  function Retype<T, U>(r: Response<T>): (q: Response<U>)
    requires r.data.None?
    ensures q.code == r.code && q.message == r.message && q.data.None?
    ensures IsSuccess(q) <==> IsSuccess(r)
  {
    Response(r.code, r.message, None)
  }

  /** A controller's catch block: a thrown exception becomes error(500, prefix + message). */
  function CatchAll<T>(outcome: Except<Response<T>>, prefix: string): (r: Response<T>)
    ensures outcome.Throws? ==> r.code == Some(500) && !IsSuccess(r)
    ensures outcome.Value? ==> r == outcome.v
  {
    match outcome
    case Value(v) => v
    case Throws(reason) => Error(500, prefix + reason)
  }
}
