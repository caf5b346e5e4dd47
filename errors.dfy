/** How one request's outcome becomes the client's result (`_request` in
    src/client.ts) and the fields of `BrawlStarsApiError`. */
module Errors {
  import opened Wrappers
  import opened Types

  const UnknownErrorMessage := "An unknown API error occurred"

  /** An HTTP response that came with an error; `data` is `None` when the
      response carried no body. */
  datatype HttpResponse = HttpResponse(status: int, data: Option<ClientError>)

  /** What the transport reports for one request. `E` is the type of values
      thrown by anything that is not the HTTP library. */
  datatype Outcome<E> =
    | Received(body: Json)
    | LibraryError(message: string, response: Option<HttpResponse>)
    | OtherError(thrown: E)

  /** The fields of a `BrawlStarsApiError`. */
  datatype ApiError = ApiError(message: string, statusCode: Option<int>, errorData: Option<ClientError>)

  /** What a failed call rejects with: a normalised error, or the original
      thrown value, unwrapped. */
  datatype Failure<E> = Api(apiError: ApiError) | Rethrown(thrown: E)

  /** The message fallback chain: the remote error message, then the
      transport's message, then a fixed text. An empty string counts as
      missing at every step, so the message is never empty. */
  function ErrorMessage(transportMessage: string, errorData: Option<ClientError>): (m: string)
    ensures m != ""
    ensures errorData.Some? && errorData.value.message != "" ==> m == errorData.value.message
    ensures (errorData.None? || errorData.value.message == "") && transportMessage != "" ==> m == transportMessage
    ensures (errorData.None? || errorData.value.message == "") && transportMessage == "" ==> m == UnknownErrorMessage
  {
    if errorData.Some? && errorData.value.message != "" then errorData.value.message
    else if transportMessage != "" then transportMessage
    else UnknownErrorMessage
  }

  /** `_request`'s case split on the transport outcome. */
  function Normalize<E>(o: Outcome<E>): (r: Result<Json, Failure<E>>)
    ensures r.Ok? <==> o.Received?
    ensures o.Received? ==> r.value == o.body
    ensures o.OtherError? ==> r == Err(Rethrown(o.thrown))
    ensures o.LibraryError? ==> r.Err? && r.error.Api?
    ensures o.LibraryError? ==> (r.error.apiError.statusCode.Some? <==> o.response.Some?)
    ensures o.LibraryError? && o.response.Some? ==>
      r.error.apiError.statusCode == Some(o.response.value.status) && r.error.apiError.errorData == o.response.value.data
    ensures o.LibraryError? && o.response.None? ==> r.error.apiError.errorData == None
    ensures o.LibraryError? ==> r.error.apiError.message == ErrorMessage(o.message, r.error.apiError.errorData)
  {
    match o
    case Received(body) => Ok(body)
    case LibraryError(message, response) =>
      var statusCode := if response.Some? then Some(response.value.status) else None;
      var errorData := if response.Some? then response.value.data else None;
      Err(Api(ApiError(ErrorMessage(message, errorData), statusCode, errorData)))
    case OtherError(thrown) => Err(Rethrown(thrown))
  }

  /** The not-found example: status 404 with the remote envelope gives an
      error with that status, that body and the remote message. */
  lemma ClubNotFoundExample(transportMessage: string)
    ensures
      var body := ClientError("notFound", "Club not found", "notFound", JObject([]));
      var r := Normalize<Json>(LibraryError(transportMessage, Some(HttpResponse(404, Some(body)))));
      r == Err(Api(ApiError("Club not found", Some(404), Some(body))))
  {
  }

  /** A transport failure with no response carries no status code and no
      body, and its message is the transport's own, or the fixed text. */
  lemma NoResponseExample(transportMessage: string)
    ensures
      var r := Normalize<Json>(LibraryError(transportMessage, None));
      r == Err(Api(ApiError(if transportMessage != "" then transportMessage else UnknownErrorMessage, None, None)))
  {
  }
}
