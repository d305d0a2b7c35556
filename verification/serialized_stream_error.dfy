/** The error taxonomy every encoder reports through, and its mapping to an
    HTTP status code, an HTTP error response and formatted text. */
module StreamError {
  import opened Streams

  /** The status code `500 Internal Server Error`. */
  const InternalServerError: int := 500

  const JsonContentType: string := "application/json"
  const GenericErrorBody: string := "{\"error\": \"Internal Server Error\"}"

  /** An error value of a foreign library (the JSON serialiser, the hex codec),
      seen through its two formatted forms. */
  datatype Failure = Failure(display: string, debug: string)

  /** The closed sum of what can go wrong in an encoded stream: the wrapped
      stream's own error, a serialisation failure, or a hex codec failure. */
  datatype SerializedStreamError<+E> =
    | SourceError(source: E)
    | SerdeError(serde: Failure)
    | HexError(hex: Failure)

  /** An HTTP response seen as its status, its optional content type and its
      optional body. */
  datatype HttpResponse = HttpResponse(status: int, contentType: Option<string>, body: Option<string>)

  /** What the wrapped error type `E` provides: its own status code and error
      response, and its Display and Debug output. */
  datatype SourceBehaviour<-E> = SourceBehaviour(
    statusCode: E -> int,
    errorResponse: E -> HttpResponse,
    display: E -> string,
    debug: E -> string)

  /** The generic JSON 500 response used for serialisation failures. */
  function JsonInternalServerErrorResponse(): (r: HttpResponse)
    ensures r.status == InternalServerError
    ensures r.contentType == Some(JsonContentType) && r.body == Some(GenericErrorBody)
  {
    HttpResponse(InternalServerError, Some(JsonContentType), Some(GenericErrorBody))
  }

  /** The status code of an error: the wrapped error's own for a source error,
      500 for both codec failures. */
  function StatusCode<E>(err: SerializedStreamError<E>, src: SourceBehaviour<E>): int
  {
    match err
    case SourceError(e) => src.statusCode(e)
    case SerdeError(_) => InternalServerError
    case HexError(_) => InternalServerError
  }

  /** The HTTP error response of an error. */
  function ErrorResponse<E>(err: SerializedStreamError<E>, src: SourceBehaviour<E>): HttpResponse
  {
    match err
    case SourceError(e) => src.errorResponse(e)
    case SerdeError(_) => JsonInternalServerErrorResponse()
    case HexError(_) => HttpResponse(StatusCode(err, src), None, None)
  }

  /** Display output: that of the wrapped value. */
  function Display<E>(err: SerializedStreamError<E>, src: SourceBehaviour<E>): string
  {
    match err
    case SourceError(e) => src.display(e)
    case SerdeError(f) => f.display
    case HexError(f) => f.display
  }

  /** Debug output: that of the wrapped value. */
  function Debug<E>(err: SerializedStreamError<E>, src: SourceBehaviour<E>): string
  {
    match err
    case SourceError(e) => src.debug(e)
    case SerdeError(f) => f.debug
    case HexError(f) => f.debug
  }

  /** The wrapped error decides the status of a source error; the two codec
      variants are always internal server errors. */
  lemma StatusCodeByVariant<E>(err: SerializedStreamError<E>, src: SourceBehaviour<E>)
    ensures err.SourceError? ==> StatusCode(err, src) == src.statusCode(err.source)
    ensures !err.SourceError? ==> StatusCode(err, src) == InternalServerError
  {
  }

  /** A serialisation failure answers the generic JSON 500; a hex failure a bare
      response with the variant's status and neither content type nor body; a
      source error whatever the wrapped error answers. */
  lemma ErrorResponseByVariant<E>(err: SerializedStreamError<E>, src: SourceBehaviour<E>)
    ensures err.SourceError? ==> ErrorResponse(err, src) == src.errorResponse(err.source)
    ensures err.SerdeError? ==>
      ErrorResponse(err, src) == HttpResponse(500, Some("application/json"), Some("{\"error\": \"Internal Server Error\"}"))
    ensures err.HexError? ==> ErrorResponse(err, src) == HttpResponse(500, None, None)
  {
  }

  /** When the wrapped error's response agrees with its own status code, the
      response of every variant agrees with `StatusCode`. */
  lemma ResponseAgreesWithStatus<E>(err: SerializedStreamError<E>, src: SourceBehaviour<E>)
    requires forall e :: src.errorResponse(e).status == src.statusCode(e)
    ensures ErrorResponse(err, src).status == StatusCode(err, src)
  {
  }
}
