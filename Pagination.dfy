/**
 * The character-window pagination of the book-content endpoint: page
 * `page` (counted from 1) of a text is the window of `pageSize` characters
 * starting at `(page - 1) * pageSize`, cut short by the end of the text; a
 * window that would start at or past the end is "Page not found." (404).
 */
module Pagination {
  import opened Http

  function Min(a: int, b: int): int {
    if a <= b then a else b
  }

  /**
   * Python's slice `s[i:j]` for non-negative bounds: both bounds are
   * clamped to the length of `s`, and a window whose upper bound is not
   * above its lower bound is empty.
   */
  function PySlice(s: string, i: nat, j: nat): (r: string)
    ensures |r| == if i < j && i < |s| then Min(j, |s|) - i else 0
    ensures forall k :: 0 <= k < |r| ==> r[k] == s[i + k]
  {
    var lo := Min(i, |s|);
    var hi := Min(j, |s|);
    if lo < hi then s[lo..hi] else []
  }

  /**
   * Offset of the first character of a page: it is never negative, and it
   * sits on a page boundary, `page - 1` whole pages into the text.
   */
  function StartIndex(page: int, pageSize: int): (r: nat)
    requires page >= 1 && pageSize >= 1
    ensures r % pageSize == 0 && r / pageSize == page - 1
  {
    ExactDivision(page - 1, pageSize);
    (page - 1) * pageSize
  }

  /** Dividing a multiple of `n` by `n` is exact. */
  lemma ExactDivision(q: nat, n: int)
    requires n >= 1
    ensures (q * n) % n == 0 && (q * n) / n == q
  {
    var x := q * n;
    var d, m := x / n, x % n;
    assert x == d * n + m && 0 <= m < n;
    assert (q - d) * n == m;
    if q > d {
      MulMonotone(1, q - d, n);
    }
  }

  /**
   * Offset just past the last character a page may hold: a window of
   * `pageSize` characters, ending where the next page starts.
   */
  function EndIndex(page: int, pageSize: int): (r: nat)
    requires page >= 1 && pageSize >= 1
    ensures r - StartIndex(page, pageSize) == pageSize
    ensures r == StartIndex(page + 1, pageSize)
  {
    StartIndex(page, pageSize) + pageSize
  }

  /**
   * `(length + pageSize - 1) // pageSize`: on non-negative operands Python's
   * floor division and Dafny's `/` agree. The result is the least number of
   * pages of `pageSize` characters that hold `length` characters.
   */
  function TotalPages(length: nat, pageSize: int): (r: nat)
    requires pageSize >= 1
    ensures length <= r * pageSize
    ensures r == 0 || (r - 1) * pageSize < length
  {
    var n := length + pageSize - 1;
    var q := n / pageSize;
    assert n == q * pageSize + n % pageSize;
    assert (q - 1) * pageSize == q * pageSize - pageSize;
    q
  }

  /** The page record of the book-content endpoint. */
  datatype BookContentPage = BookContentPage(
    bookId: int,
    content: string,
    page: int,
    pageSize: int,
    totalPages: nat)

  const PageNotFoundDetail := "Page not found."

  /**
   * Page `page` of `content`: the slice from its start offset, at most
   * `pageSize` characters long, or 404 when the start offset is not inside
   * the text.
   */
  function Paginate(bookId: int, content: string, page: int, pageSize: int): (r: Outcome<BookContentPage>)
    requires page >= 1 && pageSize >= 1
    ensures r.Failure? <==> StartIndex(page, pageSize) >= |content|
    ensures r.Failure? ==> r.error == HttpError(404, PageNotFoundDetail)
    ensures r.Ok? ==> r.value.bookId == bookId && r.value.page == page && r.value.pageSize == pageSize
    ensures r.Ok? ==> r.value.content == content[StartIndex(page, pageSize)..Min(EndIndex(page, pageSize), |content|)]
    ensures r.Ok? ==> 0 < |r.value.content| <= pageSize
    ensures r.Ok? ==> StartIndex(page, pageSize) + |r.value.content| <= |content|
    ensures r.Ok? ==> r.value.content == content[StartIndex(page, pageSize)..StartIndex(page, pageSize) + |r.value.content|]
    ensures r.Ok? ==> |r.value.content| == pageSize || StartIndex(page, pageSize) + |r.value.content| == |content|
    ensures r.Ok? ==> r.value.totalPages == TotalPages(|content|, pageSize)
  {
    var start := StartIndex(page, pageSize);
    var end := EndIndex(page, pageSize);
    if start >= |content| then
      Failure(HttpError(404, PageNotFoundDetail))
    else
      Ok(BookContentPage(bookId, PySlice(content, start, end), page, pageSize, TotalPages(|content|, pageSize)))
  }

  /** `TotalPages` is the ceiling: no other count satisfies its two bounds. */
  lemma TotalPagesIsCeiling(length: nat, pageSize: int, n: nat)
    requires pageSize >= 1
    requires length <= n * pageSize
    requires n == 0 || (n - 1) * pageSize < length
    ensures n == TotalPages(length, pageSize)
  {
    var t := TotalPages(length, pageSize);
    if n < t {
      MulMonotone(n, t - 1, pageSize);
    } else if t < n {
      MulMonotone(t, n - 1, pageSize);
    }
  }

  lemma MulMonotone(a: nat, b: nat, c: nat)
    requires a <= b
    ensures a * c <= b * c
  {
  }

  /** A page exists exactly when its number is between 1 and the page count. */
  lemma PaginateSucceedsIff(bookId: int, content: string, page: int, pageSize: int)
    requires page >= 1 && pageSize >= 1
    ensures Paginate(bookId, content, page, pageSize).Ok? <==> page <= TotalPages(|content|, pageSize)
  {
    var t := TotalPages(|content|, pageSize);
    if page <= t {
      MulMonotone(page - 1, t - 1, pageSize);
    } else {
      MulMonotone(t, page - 1, pageSize);
    }
  }

  /** Empty text has no pages at all. */
  lemma EmptyContentHasNoPage(bookId: int, page: int, pageSize: int)
    requires page >= 1 && pageSize >= 1
    ensures Paginate(bookId, [], page, pageSize) == Failure(HttpError(404, PageNotFoundDetail))
    ensures TotalPages(0, pageSize) == 0
  {
  }

  /**
   * The pages a client receives when it asks for pages `page`,
   * `page + 1`, … in turn, stopping at the first "Page not found.".
   */
  function PagesFrom(bookId: int, content: string, page: int, pageSize: int): seq<BookContentPage>
    requires page >= 1 && pageSize >= 1
    decreases |content| - StartIndex(page, pageSize)
  {
    match Paginate(bookId, content, page, pageSize)
    case Failure(_) => []
    case Ok(p) => [p] + PagesFrom(bookId, content, page + 1, pageSize)
  }

  /** The text spelled out by a sequence of pages, in order. */
  function Concat(pages: seq<BookContentPage>): string {
    if pages == [] then [] else pages[0].content + Concat(pages[1..])
  }

  /** The pages read from `page` on spell out the rest of the text from its start offset. */
  lemma {:induction false} PagesFromSpell(bookId: int, content: string, page: int, pageSize: int)
    requires page >= 1 && pageSize >= 1
    ensures Concat(PagesFrom(bookId, content, page, pageSize)) == content[Min(StartIndex(page, pageSize), |content|)..]
    decreases |content| - StartIndex(page, pageSize)
  {
    var start := StartIndex(page, pageSize);
    if start < |content| {
      var p := Paginate(bookId, content, page, pageSize).value;
      var rest := PagesFrom(bookId, content, page + 1, pageSize);
      var mid := Min(EndIndex(page, pageSize), |content|);
      assert PagesFrom(bookId, content, page, pageSize) == [p] + rest;
      assert ([p] + rest)[1..] == rest;
      PagesFromSpell(bookId, content, page + 1, pageSize);
      assert content[start..] == content[start..mid] + content[mid..];
    }
  }

  /** From a start offset inside the text (or at its end), `total_pages - (page - 1)` pages remain. */
  lemma {:induction false} PagesFromCount(bookId: int, content: string, page: int, pageSize: int)
    requires page >= 1 && pageSize >= 1
    requires StartIndex(page, pageSize) <= |content|
    ensures |PagesFrom(bookId, content, page, pageSize)| == TotalPages(|content|, pageSize) - (page - 1)
    decreases |content| - StartIndex(page, pageSize)
  {
    var start := StartIndex(page, pageSize);
    PaginateSucceedsIff(bookId, content, page, pageSize);
    if start == |content| {
      TotalPagesIsCeiling(|content|, pageSize, page - 1);
    } else {
      var p := Paginate(bookId, content, page, pageSize).value;
      var rest := PagesFrom(bookId, content, page + 1, pageSize);
      assert PagesFrom(bookId, content, page, pageSize) == [p] + rest;
      PaginateSucceedsIff(bookId, content, page + 1, pageSize);
      if EndIndex(page, pageSize) < |content| {
        PagesFromCount(bookId, content, page + 1, pageSize);
      }
    }
  }

  /** The pages read from `page` on are numbered consecutively and all are full but the last. */
  lemma {:induction false} PagesFromShape(bookId: int, content: string, page: int, pageSize: int)
    requires page >= 1 && pageSize >= 1
    ensures forall i :: 0 <= i < |PagesFrom(bookId, content, page, pageSize)| ==>
      PagesFrom(bookId, content, page, pageSize)[i].page == page + i
    ensures forall i :: 0 <= i < |PagesFrom(bookId, content, page, pageSize)| - 1 ==>
      |PagesFrom(bookId, content, page, pageSize)[i].content| == pageSize
    decreases |content| - StartIndex(page, pageSize)
  {
    if StartIndex(page, pageSize) < |content| {
      var p := Paginate(bookId, content, page, pageSize).value;
      var rest := PagesFrom(bookId, content, page + 1, pageSize);
      var pages := [p] + rest;
      assert PagesFrom(bookId, content, page, pageSize) == pages;
      PagesFromShape(bookId, content, page + 1, pageSize);
      if rest != [] {
        assert EndIndex(page, pageSize) < |content|;
        assert |p.content| == pageSize;
      }
      assert forall i :: 1 <= i < |pages| ==> pages[i] == rest[i - 1];
    }
  }

  lemma PagesFromTile(bookId: int, content: string, page: int, pageSize: int)
    requires page >= 1 && pageSize >= 1
    requires StartIndex(page, pageSize) <= |content|
    ensures Concat(PagesFrom(bookId, content, page, pageSize)) == content[StartIndex(page, pageSize)..]
    ensures |PagesFrom(bookId, content, page, pageSize)| == TotalPages(|content|, pageSize) - (page - 1)
    ensures forall i :: 0 <= i < |PagesFrom(bookId, content, page, pageSize)| ==>
      PagesFrom(bookId, content, page, pageSize)[i].page == page + i
    ensures forall i :: 0 <= i < |PagesFrom(bookId, content, page, pageSize)| - 1 ==>
      |PagesFrom(bookId, content, page, pageSize)[i].content| == pageSize
  {
    PagesFromSpell(bookId, content, page, pageSize);
    PagesFromCount(bookId, content, page, pageSize);
    PagesFromShape(bookId, content, page, pageSize);
  }

  /**
   * Reading pages 1, 2, … until the first 404 yields exactly `TotalPages`
   * pages, numbered 1 to `TotalPages`, all full except possibly the last,
   * and together they spell out the whole text.
   */
  lemma ReadingAllPagesReproducesContent(bookId: int, content: string, pageSize: int)
    requires pageSize >= 1
    ensures Concat(PagesFrom(bookId, content, 1, pageSize)) == content
    ensures |PagesFrom(bookId, content, 1, pageSize)| == TotalPages(|content|, pageSize)
    ensures forall i :: 0 <= i < |PagesFrom(bookId, content, 1, pageSize)| ==>
      PagesFrom(bookId, content, 1, pageSize)[i].page == i + 1
    ensures forall i :: 0 <= i < |PagesFrom(bookId, content, 1, pageSize)| - 1 ==>
      |PagesFrom(bookId, content, 1, pageSize)[i].content| == pageSize
  {
    PagesFromTile(bookId, content, 1, pageSize);
  }

  /** With 1000-character pages, a 2500-character text has 3 pages, the first of 1000 characters. */
  lemma FirstOfThreePages(bookId: int, content: string)
    requires |content| == 2500
    ensures Paginate(bookId, content, 1, 1000).Ok?
    ensures Paginate(bookId, content, 1, 1000).value.content == content[..1000]
    ensures Paginate(bookId, content, 1, 1000).value.totalPages == 3
  {
  }

  /** A page larger than the text returns the whole text as its only page. */
  lemma PageLargerThanText(bookId: int, content: string, pageSize: int)
    requires 0 < |content| <= pageSize
    ensures Paginate(bookId, content, 1, pageSize).Ok?
    ensures Paginate(bookId, content, 1, pageSize).value.content == content
    ensures Paginate(bookId, content, 1, pageSize).value.totalPages == 1
  {
    TotalPagesIsCeiling(|content|, pageSize, 1);
  }
}
