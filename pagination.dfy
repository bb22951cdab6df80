/**
  The paginated listing protocol of the backup's request helper: pages
  1, 2, 3, ... are requested with a fixed page size of 100 and concatenated,
  until a page comes back empty, a page comes back shorter than the page size
  (it is still included), or a request fails (the records gathered so far are
  kept and nothing is raised).

  A listing endpoint is modelled by the finite sequence of answers the server
  gives for pages 1..|pages|; every page past the end answers with an empty
  page, as the server does.
 */
module Pagination {

  /** The `per_page` parameter of every request. */
  const PER_PAGE: nat := 100

  /** What one page request yields: the decoded JSON array, or a failed request
      (connection error or non-2xx status). */
  datatype PageResult<R> = Page(records: seq<R>) | RequestError

  /** The query parameters of one page request. */
  datatype Request = Request(page: nat, perPage: nat)

  /** The server's answer to the request for page `page` (pages count from 1). */
  function Answer<R>(pages: seq<PageResult<R>>, page: nat): PageResult<R> {
    if 1 <= page <= |pages| then pages[page - 1] else Page([])
  }

  /** A page after which no further page is requested: a failed request, an
      empty page, or a page shorter than the page size. */
  predicate Terminal<R>(r: PageResult<R>) {
    r.RequestError? || |r.records| < PER_PAGE
  }

  /** The records a page contributes to the result (none for a failed request). */
  function RecordsOf<R>(r: PageResult<R>): seq<R> {
    if r.Page? then r.records else []
  }

  /** The concatenation, in order, of the records of the given pages. */
  function Flatten<R>(pages: seq<PageResult<R>>): seq<R> {
    if pages == [] then [] else RecordsOf(pages[0]) + Flatten(pages[1..])
  }

  /** The records the request helper returns for an endpoint (the specification
      of `GitLabBackup.MakeRequest`). */
  function Fetch<R>(pages: seq<PageResult<R>>): seq<R> {
    if pages == [] then []
    else match pages[0]
      case RequestError => []
      case Page(data) => if |data| < PER_PAGE then data else data + Fetch(pages[1..])
  }

  /** The helper returns a prefix of everything the endpoint serves, in the
      server's order: it never reorders, repeats or invents records. */
  lemma {:induction false} FetchIsPrefix<R>(pages: seq<PageResult<R>>)
    ensures Fetch(pages) <= Flatten(pages)
  {
    if pages != [] && pages[0].Page? && |pages[0].records| >= PER_PAGE {
      var data, rest := pages[0].records, Fetch(pages[1..]);
      FetchIsPrefix(pages[1..]);
      assert Flatten(pages) == data + Flatten(pages[1..]);
      assert data + rest == (data + Flatten(pages[1..]))[..|data| + |rest|];
    }
  }

  /** The number of page requests the helper sends: the index of the first
      terminal page (see RequestCountIsFirstTerminal). */
  function RequestCount<R>(pages: seq<PageResult<R>>): (n: nat)
    ensures 1 <= n <= |pages| + 1
    ensures Terminal(Answer(pages, n))
  {
    if pages == [] || Terminal(pages[0]) then 1
    else
      var n := 1 + RequestCount(pages[1..]);
      assert Answer(pages, n) == Answer(pages[1..], n - 1);
      n
  }

  /** No page before the last one requested is terminal. */
  lemma {:induction false} RequestCountIsFirstTerminal<R>(pages: seq<PageResult<R>>)
    ensures forall p :: 1 <= p < RequestCount(pages) ==> !Terminal(Answer(pages, p))
  {
    if pages != [] && !Terminal(pages[0]) {
      RequestCountIsFirstTerminal(pages[1..]);
      assert forall p :: 2 <= p <= |pages| ==> Answer(pages, p) == Answer(pages[1..], p - 1);
    }
  }

  /** One step of the scan from page `page` on: a terminal page ends both the
      result and the requests; any other page is followed by the rest. */
  lemma ScanFrom<R>(pages: seq<PageResult<R>>, page: nat)
    requires 1 <= page <= |pages| + 1
    ensures Terminal(Answer(pages, page)) ==>
      && Fetch(pages[page - 1..]) == RecordsOf(Answer(pages, page))
      && RequestCount(pages[page - 1..]) == 1
    ensures !Terminal(Answer(pages, page)) ==>
      && page <= |pages|
      && Fetch(pages[page - 1..]) == Answer(pages, page).records + Fetch(pages[page..])
      && RequestCount(pages[page - 1..]) == 1 + RequestCount(pages[page..])
  {
    if page <= |pages| {
      assert pages[page - 1..][1..] == pages[page..];
    }
  }

  /** The result is the concatenation of pages 1..n-1, where n is the first
      terminal page, followed by page n itself when it is a (short or empty)
      page rather than a failed request. */
  lemma {:induction false} FetchIsPagesBeforeTerminal<R>(pages: seq<PageResult<R>>)
    ensures Fetch(pages) == Flatten(pages[..RequestCount(pages) - 1])
                            + RecordsOf(Answer(pages, RequestCount(pages)))
  {
    if pages != [] && !Terminal(pages[0]) {
      var n := RequestCount(pages);
      var m := RequestCount(pages[1..]);
      FetchIsPagesBeforeTerminal(pages[1..]);
      FetchUnfold(pages);
      FlattenUnfold(pages, n);
      assert Answer(pages, n) == Answer(pages[1..], m);
    }
  }

  /** A page that is not terminal is followed by the fetch of the rest. */
  lemma FetchUnfold<R>(pages: seq<PageResult<R>>)
    requires pages != [] && !Terminal(pages[0])
    ensures RequestCount(pages) == RequestCount(pages[1..]) + 1
    ensures Fetch(pages) == RecordsOf(pages[0]) + Fetch(pages[1..])
  {
  }

  /** Flattening the first n - 1 pages is the first page followed by the
      flattening of the next n - 2. */
  lemma FlattenUnfold<R>(pages: seq<PageResult<R>>, n: nat)
    requires 2 <= n <= |pages| + 1
    ensures Flatten(pages[..n - 1]) == RecordsOf(pages[0]) + Flatten(pages[1..][..n - 2])
  {
    assert pages[..n - 1] == [pages[0]] + pages[1..][..n - 2];
    assert pages[..n - 1][1..] == pages[1..][..n - 2];
  }

  /** A failed request stops the scan: exactly the records of the pages before
      it are returned, and it is the last request sent. */
  lemma {:induction false} FailedRequestKeepsEarlierPages<R>(pages: seq<PageResult<R>>, j: nat)
    requires j < |pages| && pages[j].RequestError?
    requires forall i :: 0 <= i < j ==> !Terminal(pages[i])
    ensures Fetch(pages) == Flatten(pages[..j])
    ensures RequestCount(pages) == j + 1
  {
    if j > 0 {
      FailedRequestKeepsEarlierPages(pages[1..], j - 1);
      assert pages[..j][1..] == pages[1..][..j - 1];
    }
  }

  /** A server that serves `listing` in pages of exactly PER_PAGE records (the
      last page possibly shorter; nothing past it). */
  function PagesOf<R>(listing: seq<R>): (pages: seq<PageResult<R>>)
    decreases |listing|
  {
    if listing == [] then []
    else if |listing| <= PER_PAGE then [Page(listing)]
    else [Page(listing[..PER_PAGE])] + PagesOf(listing[PER_PAGE..])
  }

  /** Pagination completeness: a listing served in pages of PER_PAGE records is
      returned whole and in order, using |listing| / PER_PAGE + 1 requests. */
  lemma {:induction false} PagedListingFetchedWhole<R>(listing: seq<R>)
    ensures Fetch(PagesOf(listing)) == listing
    ensures RequestCount(PagesOf(listing)) == |listing| / PER_PAGE + 1
    decreases |listing|
  {
    if |listing| > PER_PAGE {
      PagedListingFetchedWhole(listing[PER_PAGE..]);
      assert listing[..PER_PAGE] + listing[PER_PAGE..] == listing;
    }
  }

  /** The boundary case: a listing of exactly k full pages takes k + 1 requests,
      and the last one is answered with an empty page. */
  lemma {:induction false} ExactMultipleNeedsEmptyPage<R>(listing: seq<R>, k: nat)
    requires |listing| == PER_PAGE * k
    ensures RequestCount(PagesOf(listing)) == k + 1
    ensures Answer(PagesOf(listing), k + 1) == Page([])
    decreases k
  {
    PagedListingFetchedWhole(listing);
    if k > 0 {
      ExactMultipleNeedsEmptyPage(listing[PER_PAGE..], k - 1);
      if k > 1 {
        assert |PagesOf(listing)| == 1 + |PagesOf(listing[PER_PAGE..])|;
      }
    }
  }
}
