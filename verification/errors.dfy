/** Error objects and their classification (src/util/error.util.ts).
    Classification reads nothing but the `name` field. */
module Errors {
  import opened Wrappers

  /** An opaque JavaScript value (`any`) carried by an error. */
  datatype Payload = Payload(id: nat)

  /** A thrown error: the `ExtendableError` fields `name` and `message`, plus
      the fields the subclasses add (`status` of an HTTP error, `error` of a
      server error) and the optional `data` the error handler forwards. */
  datatype Error = Error(
    name: string,
    message: string,
    status: Option<int>,
    data: Option<Payload>,
    cause: Option<Payload>)

  const HttpErrorName: string := "HttpError"
  const ServerErrorName: string := "ServerError"

  /** `new ExtendableError(name, message)`. */
  function ExtendableError(name: string, message: string): (e: Error)
    ensures e.name == name && e.message == message
    ensures e.status.None? && e.data.None? && e.cause.None?
  {
    Error(name, message, None, None, None)
  }

  /** `new HttpError(message, status)`. */
  function HttpError(message: string, status: int): (e: Error)
    ensures e.name == "HttpError" && e.message == message && e.status == Some(status)
  {
    Error(HttpErrorName, message, Some(status), None, None)
  }

  /** `new ServerError(message, error)`. */
  function ServerError(message: string, error: Payload): (e: Error)
    ensures e.name == "ServerError" && e.message == message && e.cause == Some(error)
  {
    Error(ServerErrorName, message, None, None, Some(error))
  }

  /** `isHttpError(error)`: decided by the name alone; a server error never
      passes. */
  predicate IsHttpError(e: Error): (b: bool)
    ensures b ==> e.name != ServerErrorName
  {
    e.name == HttpErrorName
  }

  /** `isServerError(error)`: decided by the name alone; an HTTP error never
      passes. */
  predicate IsServerError(e: Error): (b: bool)
    ensures b ==> e.name != HttpErrorName
  {
    e.name == ServerErrorName
  }

  /** Each constructor is recognised by its own guard and not by the other. */
  lemma ConstructorsClassify(message: string, status: int, error: Payload)
    ensures IsHttpError(HttpError(message, status)) && !IsServerError(HttpError(message, status))
    ensures IsServerError(ServerError(message, error)) && !IsHttpError(ServerError(message, error))
  {
  }

  /** The two guards never both hold. */
  lemma ClassesDisjoint(e: Error)
    ensures !(IsHttpError(e) && IsServerError(e))
  {
  }

  /** Only the name counts: any error named "HttpError" passes the guard,
      whatever else it carries, and errors agreeing on the name agree on it. */
  lemma ClassifiedByName(e: Error, f: Error, message: string)
    ensures IsHttpError(ExtendableError("HttpError", message))
    ensures e.name == f.name ==> (IsHttpError(e) <==> IsHttpError(f)) && (IsServerError(e) <==> IsServerError(f))
  {
  }
}
