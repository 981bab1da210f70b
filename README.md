# Project Gutenberg API: verified model of the book router

The book router proxies an external book archive (Project Gutenberg). This
model covers its two archive handlers:

- `GET /{book_id}?page&page_size` (`fetch_book_content`) fetches the plain
  text of a book. It maps the archive's status code to a local one. It then
  serves one character window of the text: page `page`, counted from 1,
  holding at most `page_size` characters (the last page may hold fewer).
- `GET /metadata/{book_id}` (`fetch_book_metadata`) fetches the book's
  metadata page. It applies the same status mapping and answers with the
  URL the archive redirected to.

Both handlers are modelled as functions that are total on the inputs the
query validators admit (`page >= 1`, `page_size >= 1000`). Their inputs are what the
outbound request produced (`Http.Fetched`: a transport failure, or a
response with status, body and final URL) and the query parameters. Their
output is an `Http.Outcome`: either the JSON record, or the status code and
detail of the raised `HTTPException`.

Modules:

- `Decimal`: Python's `str(int)`, used by the f-string messages that name
  the book id, with a parser proving the rendering is injective.
- `Http`: outcomes, the upstream response, and the status test shared by
  both handlers.
- `Pagination`: start and end offsets, Python slicing, the page count
  (ceiling division), the page record, and the tiling of a text by its pages.
- `BookApi`: the two handlers and the properties of their answers.

Where the documentation and the code disagree, the model follows the code:

- The `page_size` lower bound is 1000, as the query validator at
  `app/api/book.py:23` says. The docstring's "minimum is 100" is not used.
- A page is "not found" when its start offset is at or past the end of the
  text (`>=`, line 58), not only when it is past the end. The comment at
  line 57 says an empty result is returned; the code raises 404.
- The comment at line 37 says an exception is raised if the status code is
  not 200. The code lets every status below 400 through to the success path
  (lines 38-51), so 201-399 succeed too.
- Local 400 is raised for every upstream status of 400 or more other than
  404, whatever the body holds.

Integers are unbounded in Python and in Dafny, so no wrap-around is modelled.
Python's `//` on non-negative operands is Dafny's `/`.

## Model

| member | source | states |
|---|---|---|
| `Decimal.IntToString` | app/api/book.py:40 | the id in a message is written as Python's canonical `str(i)`: a decimal literal with a leading minus sign exactly for negative ids and no leading zeros (only 0 itself starts with '0') |
| `Decimal.ParseIntToString` | app/api/book.py:40 | reading back the written id gives the original integer |
| `Decimal.IntToStringInjective` | app/api/book.py:98 | two ids are written the same exactly when they are equal |
| `Http.CheckUpstreamStatus` | app/api/book.py:38-47 | the handler proceeds exactly when the upstream status is below 400; upstream 404 becomes local 404 with the handler's own message; any other status from 400 up becomes 400 "Invalid request…" |
| `Pagination.PySlice` | app/api/book.py:62 | Python's `s[i:j]` for non-negative bounds: its length is `min(j, len) - i` when `i < j` and `i < len`, else 0, and its k-th character is `s[i + k]` |
| `Pagination.TotalPages` | app/api/book.py:63-65 | `(len + page_size - 1) // page_size` pages hold the whole text (`len <= r * page_size`) and one page fewer would not |
| `Pagination.TotalPagesIsCeiling` | app/api/book.py:63-65 | any count satisfying those two bounds equals `TotalPages`, so it is the ceiling of `len / page_size` |
| `Pagination.StartIndex` | app/api/book.py:54 | the start offset `(page - 1) * page_size` is never negative and lies on a page boundary: it is a multiple of `page_size`, `page - 1` whole pages in |
| `Pagination.EndIndex` | app/api/book.py:55 | the end offset is `page_size` past the start offset and is exactly the start offset of page `page + 1` |
| `Pagination.Paginate` | app/api/book.py:53-73 | fails exactly when the start offset `(page - 1) * page_size` is at or past the end of the text, then with 404 "Page not found."; otherwise the page is `content[start .. min(start + page_size, len)]`, the text from the start offset, 1 to `page_size` characters long, full unless it reaches the end of the text; it echoes book id, page and page size and carries the page count |
| `Pagination.PaginateSucceedsIff` | app/api/book.py:54-65 | a page is returned exactly when `page <= total_pages` |
| `Pagination.EmptyContentHasNoPage` | app/api/book.py:58-59 | empty text fails with 404 "Page not found." for every page and has 0 pages |
| `Pagination.PagesFromSpell` | app/api/book.py:54-62 | the pages read from page `p` until the first 404 concatenate to the text from `min(start_p, len)` on |
| `Pagination.PagesFromCount` | app/api/book.py:58-65 | when page `p` starts inside the text or at its end, `total_pages - (p - 1)` pages are read before the first 404 |
| `Pagination.PagesFromShape` | app/api/book.py:54-62 | the pages read from page `p` on are numbered `p, p + 1, …`, and every one but the last holds exactly `page_size` characters |
| `Pagination.PagesFromTile` | app/api/book.py:54-65 | the pages read from page `p` until the first 404 spell out the text from page `p`'s start offset; there are `total_pages - (p - 1)` of them, numbered consecutively, all full except possibly the last |
| `Pagination.ReadingAllPagesReproducesContent` | app/api/book.py:54-65 | pages 1 to `total_pages`, concatenated in order, reproduce the text exactly; every page but the last has exactly `page_size` characters |
| `Pagination.FirstOfThreePages` | app/api/book.py:53-65 | a 2500-character text with 1000-character pages: page 1 is its first 1000 characters and there are 3 pages |
| `Pagination.PageLargerThanText` | app/api/book.py:53-65 | a non-empty text no longer than the page size is returned whole as page 1 of 1 |
| `BookApi.FetchBookContent` | app/api/book.py:21-81 | transport failure gives 500 "Failed to connect to Project Gutenberg."; upstream 404 gives 404 naming the book id; other upstream status of 400 or more gives 400; below 400, the answer is the pagination of the body |
| `BookApi.FetchBookMetadata` | app/api/book.py:84-116 | transport failure gives 500 "Something went wrong"; upstream 404 gives 404 naming the book id; other status of 400 or more gives 400; succeeds exactly below 400, with the book id and the final URL |
| `BookApi.FetchBookContentSucceedsIff` | app/api/book.py:38-65 | a content request succeeds exactly when the archive answered below 400 and `page <= total_pages` of the body |
| `BookApi.StatusCodesAreKnown` | app/api/book.py:38-116 | both handlers answer only 200, 400, 404 or 500 |
| `BookApi.RejectedFetchIgnoresBodyAndPage` | app/api/book.py:38-59 | after a rejected or failed fetch the answer depends neither on the body nor on page and page size, so pagination is never reached |
| `BookApi.HandlersShareStatusMapping` | app/api/book.py:96-116 | for a failed or rejected fetch, the metadata handler answers the same status code as the content handler |
| `BookApi.BookNotFoundDetail` | app/api/book.py:40 | the content handler's message is "Book with ID ", then the id written as `str(book_id)`, then " not found." |
| `BookApi.MetadataNotFoundDetail` | app/api/book.py:98 | the metadata handler's message is "No metadata found for Book with ID ", then the id written as `str(book_id)`, then "." |
| `Decimal.RenderSixNines` | app/api/book.py:40 | the id 999999 is written "999999" |
| `BookApi.BookNotFoundDetailNamesBook` | app/api/book.py:38-41 | the content handler's "Book with ID … not found." messages for two ids are equal exactly when the ids are |
| `BookApi.MetadataNotFoundDetailNamesBook` | app/api/book.py:96-99 | the same holds for the metadata handler's "No metadata found …" message |
| `BookApi.NotFoundCausesAreDistinct` | app/api/book.py:38-59 | a content 404 comes from an archive response, and its detail is "Page not found." exactly when the archive answered below 400 |
| `BookApi.UnknownBookScenario` | app/api/book.py:38-41 | an archive 404 for book 999999 gives 404 "Book with ID 999999 not found." |
| `BookApi.WholeBookOnOnePageScenario` | app/api/book.py:53-73 | book 1 with a 5000-character text, page 1 of size 15000: the whole text, `total_pages` 1 |

## Left out

- The outbound HTTP calls (`requests.get` with its 10-second timeout) are network I/O. The archive URLs are built from the environment's base URL. Both are replaced by the `Fetched` argument.
- `raise_for_status` (lines 50 and 108) is not modelled. After the two status tests it sees only statuses below 400, so it never raises.
- Redirect resolution (`response.url`) and body decoding (`response.text`) are done by the HTTP library. They arrive as the `url` and `text` fields of the response.
- The query defaults (`page = 1`, `page_size = 15000`, line 23) are not modelled. Every call to `BookApi.FetchBookContent` passes both values explicitly.
- The query validation of `page >= 1` and `page_size >= 1000` (line 23) is done by the framework and answers 422 on its own. It appears only as preconditions of `BookApi.FetchBookContent`.
- `book_text_analysis` (lines 119-155) only formats five prompts and awaits five calls to an external LLM client. `app/services/groq_service.py` wraps that client. Neither has logic of its own to state.
- `app/main.py` (app construction, CORS, router prefix) and `app/core/config.py` (settings loaded from the environment) are framework glue. They are not part of this model.
- Async execution is not modelled. Each handler's answer is a function of its inputs.
- Python's `len` counts code points, and Dafny's `char` is a Unicode scalar value. A body holding a lone surrogate code point cannot be represented.
- JSON serialisation of the records is not modelled.
