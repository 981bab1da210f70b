/**
 * What a request handler of the book API answers, and how it reads the
 * answer of the upstream archive (Project Gutenberg).
 *
 * A handler either returns a JSON record (status 200) or raises an
 * HTTPException carrying a status code and a plain-text detail.
 */
module Http {

  datatype HttpError = HttpError(status: int, detail: string)

  /** The answer of a handler: a record, or a raised HTTPException. */
  datatype Outcome<T> = Ok(value: T) | Failure(error: HttpError)

  /** The HTTP status code the caller sees. */
  function StatusCode<T>(o: Outcome<T>): int {
    match o
    case Ok(_) => 200
    case Failure(e) => e.status
  }

  /**
   * What `requests.get` gave the handler: either it raised a
   * `RequestException` (timeout, connection or DNS failure), or it returned
   * a response with a status code, a decoded body and the final URL after
   * redirects.
   */
  datatype Fetched = TransportFailure | Response(status: int, text: string, url: string)

  /** Whether the handler goes on to build its record, or raises. */
  datatype StatusCheck = Proceed | Reject(error: HttpError)

  const InvalidRequestDetail := "Invalid request. Please check the book ID and try again."

  /**
   * The status test both handlers run on the upstream response before
   * reading it: 404 is passed on as 404 with the handler's own message,
   * every other status from 400 up becomes 400, and anything below 400
   * lets the handler proceed (`raise_for_status` raises only from 400 up,
   * so it never fires after these two tests).
   */
  function CheckUpstreamStatus(status: int, notFoundDetail: string): (r: StatusCheck)
    ensures r.Proceed? <==> status < 400
    ensures status == 404 ==> r == Reject(HttpError(404, notFoundDetail))
    ensures status >= 400 && status != 404 ==> r == Reject(HttpError(400, InvalidRequestDetail))
  {
    if status == 404 then Reject(HttpError(404, notFoundDetail))
    else if status >= 400 then Reject(HttpError(400, InvalidRequestDetail))
    else Proceed
  }
}
