/** The default HTTP error effect (packages/core/src/error/error.effect.ts):
    it answers every request that reaches it with the status of the thrown
    error and a body `{ error: { status, message, data } }`. */
module ErrorEffect {
  import opened Wrappers
  import opened Http
  import opened Errors
  import Routes

  /** `HttpStatus.INTERNAL_SERVER_ERROR`. */
  const InternalServerError: int := 500

  /** `{ status, message, data }`; the status is absent when an error named
      "HttpError" carries none. */
  datatype ErrorDetail = ErrorDetail(status: Option<int>, message: string, data: Option<Payload>)

  /** `{ error: { status, message, data } }`. */
  datatype ErrorBody = ErrorBody(error: ErrorDetail)

  /** `{ status, body }`. */
  datatype ErrorResponse = ErrorResponse(status: Option<int>, body: ErrorBody)

  /** The error effect in use: the caller's, or the default `error$`. */
  datatype ErrorEffectChoice = Custom(effect: Routes.EffectId) | DefaultErrorEffect

  /** `errorEffectProvider(customError$)`. */
  function ErrorEffectProvider(custom: Option<Routes.EffectId>): (c: ErrorEffectChoice)
    ensures custom.Some? ==> c == Custom(custom.value)
    ensures custom.None? ==> c == DefaultErrorEffect
  {
    match custom
    case Some(e) => Custom(e)
    case None => DefaultErrorEffect
  }

  /** `getStatusCode(error)`: the error's own status when it is classified as
      an HTTP error, 500 otherwise. */
  function GetStatusCode(e: Error): (s: Option<int>)
    ensures IsHttpError(e) ==> s == e.status
    ensures !IsHttpError(e) ==> s == Some(InternalServerError)
  {
    if IsHttpError(e) then e.status else Some(InternalServerError)
  }

  /** `errorFactory(message, status, data)`. */
  function ErrorFactory(message: string, status: Option<int>, data: Option<Payload>): (b: ErrorBody)
    ensures b.error.message == message && b.error.status == status && b.error.data == data
  {
    ErrorBody(ErrorDetail(status, message, data))
  }

  /** The response `error$` maps one request to. */
  function ErrorResponseFor(e: Error): (r: ErrorResponse)
    ensures r.status == r.body.error.status
    ensures r.status == GetStatusCode(e)
    ensures r.body.error.message == e.message && r.body.error.data == e.data
  {
    var status := GetStatusCode(e);
    ErrorResponse(status, ErrorFactory(e.message, status, e.data))
  }

  /** `error$(request$, _, error)`: one response per incoming request, the
      same for each, whatever the request holds. */
  function ErrorEffect(requests: seq<Request>, e: Error): (rs: seq<ErrorResponse>)
    ensures |rs| == |requests|
    ensures forall i :: 0 <= i < |rs| ==> rs[i] == ErrorResponseFor(e)
  {
    seq(|requests|, _ => ErrorResponseFor(e))
  }

  /** An HTTP error answers with its own status; a server error or a plain
      error with 500; an error merely named "HttpError" without a status
      answers with no status at all. */
  lemma StatusByKind(message: string, status: int, error: Payload)
    ensures ErrorResponseFor(HttpError(message, status)).status == Some(status)
    ensures ErrorResponseFor(ServerError(message, error)).status == Some(InternalServerError)
    ensures ErrorResponseFor(ExtendableError("Error", message)).status == Some(InternalServerError)
    ensures ErrorResponseFor(ExtendableError("HttpError", message)).status.None?
  {
  }

  /** The error effect ignores the requests' contents: two request streams of
      equal length get identical responses. */
  lemma ErrorEffectIgnoresRequests(a: seq<Request>, b: seq<Request>, e: Error)
    requires |a| == |b|
    ensures ErrorEffect(a, e) == ErrorEffect(b, e)
  {
  }
}
