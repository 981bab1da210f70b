/**
 * The two archive handlers of the book router: `GET /{book_id}` (paginated
 * book text) and `GET /metadata/{book_id}` (resolved metadata URL). The
 * outbound `requests.get` is the `Fetched` argument; the handler's answer
 * is a total function of it and of the query parameters.
 */
module BookApi {
  import opened Decimal
  import opened Http
  import opened Pagination

  /** The record of the metadata endpoint. */
  datatype BookMetadataRef = BookMetadataRef(bookId: int, metadata: string)

  /** f"Book with ID {book_id} not found.": the decimal id between two fixed phrases. */
  function BookNotFoundDetail(bookId: int): (d: string)
    ensures |d| > 24 && d[..13] == "Book with ID " && d[|d| - 11..] == " not found."
    ensures d[13..|d| - 11] == IntToString(bookId)
  {
    var d := "Book with ID " + IntToString(bookId) + " not found.";
    assert d[13..|d| - 11] == IntToString(bookId);
    d
  }

  /** f"No metadata found for Book with ID {book_id}.": the decimal id after a fixed phrase. */
  function MetadataNotFoundDetail(bookId: int): (d: string)
    ensures |d| > 36 && d[..35] == "No metadata found for Book with ID " && d[|d| - 1..] == "."
    ensures d[35..|d| - 1] == IntToString(bookId)
  {
    var d := "No metadata found for Book with ID " + IntToString(bookId) + ".";
    assert d[35..|d| - 1] == IntToString(bookId);
    d
  }

  const ContentTransportDetail := "Failed to connect to Project Gutenberg."
  const MetadataTransportDetail := "Something went wrong"

  /**
   * `fetch_book_content`. The query validators guarantee `page >= 1` and
   * `pageSize >= 1000` before the handler runs.
   */
  function FetchBookContent(bookId: int, fetched: Fetched, page: int, pageSize: int): (r: Outcome<BookContentPage>)
    requires page >= 1 && pageSize >= 1000
    ensures fetched.TransportFailure? ==> r == Failure(HttpError(500, ContentTransportDetail))
    ensures fetched.Response? && fetched.status == 404 ==> r == Failure(HttpError(404, BookNotFoundDetail(bookId)))
    ensures fetched.Response? && fetched.status >= 400 && fetched.status != 404 ==>
      r == Failure(HttpError(400, InvalidRequestDetail))
    ensures fetched.Response? && fetched.status < 400 ==> r == Paginate(bookId, fetched.text, page, pageSize)
  {
    match fetched
    case TransportFailure => Failure(HttpError(500, ContentTransportDetail))
    case Response(status, text, _) =>
      match CheckUpstreamStatus(status, BookNotFoundDetail(bookId))
      case Reject(e) => Failure(e)
      case Proceed => Paginate(bookId, text, page, pageSize)
  }

  /** `fetch_book_metadata`: on success it reports the URL the request was redirected to. */
  function FetchBookMetadata(bookId: int, fetched: Fetched): (r: Outcome<BookMetadataRef>)
    ensures fetched.TransportFailure? ==> r == Failure(HttpError(500, MetadataTransportDetail))
    ensures fetched.Response? && fetched.status == 404 ==> r == Failure(HttpError(404, MetadataNotFoundDetail(bookId)))
    ensures fetched.Response? && fetched.status >= 400 && fetched.status != 404 ==>
      r == Failure(HttpError(400, InvalidRequestDetail))
    ensures r.Ok? <==> fetched.Response? && fetched.status < 400
    ensures r.Ok? ==> r.value == BookMetadataRef(bookId, fetched.url)
  {
    match fetched
    case TransportFailure => Failure(HttpError(500, MetadataTransportDetail))
    case Response(status, _, url) =>
      match CheckUpstreamStatus(status, MetadataNotFoundDetail(bookId))
      case Reject(e) => Failure(e)
      case Proceed => Ok(BookMetadataRef(bookId, url))
  }

  /**
   * A content request succeeds exactly when the archive answered below 400
   * and the page number is within the page count of the text it sent.
   */
  lemma FetchBookContentSucceedsIff(bookId: int, fetched: Fetched, page: int, pageSize: int)
    requires page >= 1 && pageSize >= 1000
    ensures FetchBookContent(bookId, fetched, page, pageSize).Ok? <==>
      fetched.Response? && fetched.status < 400 && page <= TotalPages(|fetched.text|, pageSize)
  {
    if fetched.Response? && fetched.status < 400 {
      PaginateSucceedsIff(bookId, fetched.text, page, pageSize);
    }
  }

  /** The caller only ever sees 200, 400, 404 or 500 from either handler. */
  lemma StatusCodesAreKnown(bookId: int, fetched: Fetched, page: int, pageSize: int)
    requires page >= 1 && pageSize >= 1000
    ensures StatusCode(FetchBookContent(bookId, fetched, page, pageSize)) in {200, 400, 404, 500}
    ensures StatusCode(FetchBookMetadata(bookId, fetched)) in {200, 400, 404, 500}
  {
  }

  /**
   * When the archive fails or rejects the request, pagination is never
   * reached: the answer depends neither on the body nor on the page asked.
   */
  lemma RejectedFetchIgnoresBodyAndPage(bookId: int, status: int, text1: string, url1: string,
                                        text2: string, url2: string,
                                        page1: int, pageSize1: int, page2: int, pageSize2: int)
    requires status >= 400
    requires page1 >= 1 && pageSize1 >= 1000 && page2 >= 1 && pageSize2 >= 1000
    ensures FetchBookContent(bookId, Response(status, text1, url1), page1, pageSize1)
         == FetchBookContent(bookId, Response(status, text2, url2), page2, pageSize2)
    ensures FetchBookContent(bookId, TransportFailure, page1, pageSize1)
         == FetchBookContent(bookId, TransportFailure, page2, pageSize2)
  {
  }

  /** Both handlers map a failed or rejected fetch to the same status code. */
  lemma HandlersShareStatusMapping(bookId: int, fetched: Fetched, page: int, pageSize: int)
    requires page >= 1 && pageSize >= 1000
    requires fetched.TransportFailure? || fetched.status >= 400
    ensures StatusCode(FetchBookContent(bookId, fetched, page, pageSize)) == StatusCode(FetchBookMetadata(bookId, fetched))
  {
  }

  /** The "not found" message of the content endpoint names the book: different ids give different messages. */
  lemma BookNotFoundDetailNamesBook(a: int, b: int)
    ensures BookNotFoundDetail(a) == BookNotFoundDetail(b) <==> a == b
  {
    var prefix, suffix := "Book with ID ", " not found.";
    if BookNotFoundDetail(a) == BookNotFoundDetail(b) {
      var m, n := BookNotFoundDetail(a), BookNotFoundDetail(b);
      assert IntToString(a) == m[|prefix|..|m| - |suffix|];
      assert IntToString(b) == n[|prefix|..|n| - |suffix|];
      IntToStringInjective(a, b);
    }
  }

  /** The "not found" message of the metadata endpoint names the book too. */
  lemma MetadataNotFoundDetailNamesBook(a: int, b: int)
    ensures MetadataNotFoundDetail(a) == MetadataNotFoundDetail(b) <==> a == b
  {
    var prefix, suffix := "No metadata found for Book with ID ", ".";
    if MetadataNotFoundDetail(a) == MetadataNotFoundDetail(b) {
      var m, n := MetadataNotFoundDetail(a), MetadataNotFoundDetail(b);
      assert IntToString(a) == m[|prefix|..|m| - |suffix|];
      assert IntToString(b) == n[|prefix|..|n| - |suffix|];
      IntToStringInjective(a, b);
    }
  }

  /**
   * A content 404 tells its two causes apart by its detail: "Page not
   * found." exactly when the archive had the book.
   */
  lemma NotFoundCausesAreDistinct(bookId: int, fetched: Fetched, page: int, pageSize: int)
    requires page >= 1 && pageSize >= 1000
    requires StatusCode(FetchBookContent(bookId, fetched, page, pageSize)) == 404
    ensures fetched.Response?
    ensures FetchBookContent(bookId, fetched, page, pageSize).error.detail == PageNotFoundDetail <==> fetched.status < 400
  {
  }

  /** Archive 404 for book 999999: the caller gets 404 "Book with ID 999999 not found.". */
  lemma UnknownBookScenario(fetched: Fetched, page: int, pageSize: int)
    requires page >= 1 && pageSize >= 1000
    requires fetched.Response? && fetched.status == 404
    ensures FetchBookContent(999999, fetched, page, pageSize) == Failure(HttpError(404, "Book with ID 999999 not found."))
  {
    RenderSixNines();
    BookNotFoundDetailLayout(999999);
    assert "Book with ID " + "999999" + " not found." == "Book with ID 999999 not found.";
  }

  // Proof step for concrete ids: reassembles the message from the three parts its contract names.
  lemma BookNotFoundDetailLayout(bookId: int)
    ensures BookNotFoundDetail(bookId) == "Book with ID " + IntToString(bookId) + " not found."
  {
    var d := BookNotFoundDetail(bookId);
    assert d == d[..13] + d[13..|d| - 11] + d[|d| - 11..];
  }

  /** Book 1 whose text is 5000 characters, read with 15000-character pages: one page holding the whole text. */
  lemma WholeBookOnOnePageScenario(text: string, url: string)
    requires |text| == 5000
    ensures FetchBookContent(1, Response(200, text, url), 1, 15000) == Ok(BookContentPage(1, text, 1, 15000, 1))
  {
    PageLargerThanText(1, text, 15000);
  }
}
