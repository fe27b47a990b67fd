/**
 * The record fetcher (`fetch_dns_records`): list calls for pages 1, 2, ...
 * until a page reports that it is the last one, concatenating the pages'
 * records; a page without `success` aborts the whole fetch.
 *
 * The API is an oracle from list request (zone and query) to reply. One
 * fetch fixes the zone and the record type, so the pagination is stated
 * over `Client`, the oracle seen as a function of the page number.
 */
module CfFetch {
  import opened Wrappers
  import opened CfApi

  /** `client.list_dns_records(zone, record_type=recordType, page=page)`, as a function of `page`. */
  function Client(api: ListRequest -> ListResponse, zone: string, recordType: Option<string>): int -> ListResponse {
    (page: int) => api(ListRequest(zone, PageQuery(page, recordType)))
  }

  /** The requests sent for `pages`, in order. */
  function Requests(zone: string, recordType: Option<string>, pages: seq<int>): (rs: seq<ListRequest>)
    ensures |rs| == |pages|
    decreases |pages|
  {
    if pages == [] then []
    else Requests(zone, recordType, pages[..|pages| - 1]) + [ListRequest(zone, PageQuery(pages[|pages| - 1], recordType))]
  }

  lemma RequestsSnoc(zone: string, recordType: Option<string>, pages: seq<int>, page: int)
    ensures Requests(zone, recordType, pages + [page]) == Requests(zone, recordType, pages) + [ListRequest(zone, PageQuery(page, recordType))]
  {
    assert (pages + [page])[..|pages|] == pages;
  }

  /** The i-th request goes to the fetch's zone, with the query for the i-th page and the fetch's record type. */
  lemma {:induction false} RequestsAt(zone: string, recordType: Option<string>, pages: seq<int>, i: int)
    requires 0 <= i < |pages|
    ensures Requests(zone, recordType, pages)[i] == ListRequest(zone, PageQuery(pages[i], recordType))
    decreases |pages|
  {
    if i < |pages| - 1 {
      RequestsAt(zone, recordType, pages[..|pages| - 1], i);
    }
  }

  /** `result_info.get("total_pages", 0)`, with a missing `result_info` read as {}. */
  function TotalPages(resp: ListResponse): int {
    if resp.totalPages.Some? then resp.totalPages.value else 0
  }

  /** The loop leaves after requesting `page` and getting `resp`: by raising, or because `page >= total_pages`. */
  predicate LastPage(resp: ListResponse, page: int) {
    !resp.success || page >= TotalPages(resp)
  }

  /**
   * Page `stop` would end the loop. The fetch terminates only for an API
   * that reports such a page; the ghost parameter `stop` names one.
   */
  predicate EndsAt(list: int -> ListResponse, stop: int) {
    stop >= 1 && LastPage(list(stop), stop)
  }

  /** The pages requested from `page` on, in order. */
  function PagesFrom(list: int -> ListResponse, page: int, stop: int): seq<int>
    requires 1 <= page <= stop && EndsAt(list, stop)
    decreases stop - page
  {
    if LastPage(list(page), page) then [page] else [page] + PagesFrom(list, page + 1, stop)
  }

  /** What the fetch yields from `page` on: the records of those pages, or the error of a failing page. */
  function FetchFrom(list: int -> ListResponse, page: int, stop: int): Result<seq<Record>, ApiError>
    requires 1 <= page <= stop && EndsAt(list, stop)
    decreases stop - page
  {
    var resp := list(page);
    if !resp.success then Failure(ApiError(resp.errors))
    else if page >= TotalPages(resp) then Success(resp.result)
    else Prepend(resp.result, FetchFrom(list, page + 1, stop))
  }

  function Prepend(front: seq<Record>, r: Result<seq<Record>, ApiError>): Result<seq<Record>, ApiError> {
    match r
    case Success(rest) => Success(front + rest)
    case Failure(e) => Failure(e)
  }

  lemma PrependNothing(r: Result<seq<Record>, ApiError>)
    ensures Prepend([], r) == r
  {
    if r.Success? {
      assert [] + r.value == r.value;
    }
  }

  lemma PrependTwice(a: seq<Record>, b: seq<Record>, r: Result<seq<Record>, ApiError>)
    ensures Prepend(a, Prepend(b, r)) == Prepend(a + b, r)
  {
    if r.Success? {
      assert a + (b + r.value) == (a + b) + r.value;
    }
  }

  /** The records of `pages`, page after page. */
  function Concat(list: int -> ListResponse, pages: seq<int>): seq<Record> {
    if pages == [] then [] else list(pages[0]).result + Concat(list, pages[1..])
  }

  /**
   * `fetch_dns_records`: returns what the fetch yields, and the requests it
   * sent, one per page it asked for.
   */
  method FetchDnsRecords(api: ListRequest -> ListResponse, zone: string, recordType: Option<string>, ghost stop: int)
    returns (result: Result<seq<Record>, ApiError>, calls: seq<ListRequest>)
    requires EndsAt(Client(api, zone, recordType), stop)
    ensures result == FetchFrom(Client(api, zone, recordType), 1, stop)
    ensures calls == Requests(zone, recordType, PagesFrom(Client(api, zone, recordType), 1, stop))
  {
    var list := Client(api, zone, recordType);
    var page := 1;
    var records: seq<Record> := [];
    ghost var pages: seq<int> := [];
    calls := [];
    PrependNothing(FetchFrom(list, 1, stop));
    assert [] + PagesFrom(list, 1, stop) == PagesFrom(list, 1, stop);
    while true
      invariant 1 <= page <= stop
      invariant pages + PagesFrom(list, page, stop) == PagesFrom(list, 1, stop)
      invariant calls == Requests(zone, recordType, pages)
      invariant Prepend(records, FetchFrom(list, page, stop)) == FetchFrom(list, 1, stop)
      decreases stop - page
    {
      var request := ListRequest(zone, PageQuery(page, recordType));
      var resp := list(page);
      RequestsSnoc(zone, recordType, pages, page);
      calls := calls + [request];
      if !resp.success || page >= TotalPages(resp) {
        FetchLast(list, page, stop, pages, records);
        pages := pages + [page];
        if !resp.success {
          result := Failure(ApiError(resp.errors));
          return;
        }
        records := records + resp.result;
        break;
      }
      FetchStep(list, page, stop, pages, records);
      pages := pages + [page];
      records := records + resp.result;
      page := page + 1;
    }
    result := Success(records);
  }

  /** The loop's invariants carry over from a page that asks for another one to the next page. */
  lemma FetchStep(list: int -> ListResponse, page: int, stop: int, pages: seq<int>, records: seq<Record>)
    requires 1 <= page <= stop && EndsAt(list, stop) && !LastPage(list(page), page)
    requires pages + PagesFrom(list, page, stop) == PagesFrom(list, 1, stop)
    requires Prepend(records, FetchFrom(list, page, stop)) == FetchFrom(list, 1, stop)
    ensures page + 1 <= stop
    ensures (pages + [page]) + PagesFrom(list, page + 1, stop) == PagesFrom(list, 1, stop)
    ensures Prepend(records + list(page).result, FetchFrom(list, page + 1, stop)) == FetchFrom(list, 1, stop)
  {
    assert PagesFrom(list, page, stop) == [page] + PagesFrom(list, page + 1, stop);
    assert (pages + [page]) + PagesFrom(list, page + 1, stop) == pages + PagesFrom(list, page, stop);
    PrependTwice(records, list(page).result, FetchFrom(list, page + 1, stop));
  }

  /** At a last page the loop has requested every page, and the fetch's outcome is that page's. */
  lemma FetchLast(list: int -> ListResponse, page: int, stop: int, pages: seq<int>, records: seq<Record>)
    requires 1 <= page <= stop && EndsAt(list, stop) && LastPage(list(page), page)
    requires pages + PagesFrom(list, page, stop) == PagesFrom(list, 1, stop)
    requires Prepend(records, FetchFrom(list, page, stop)) == FetchFrom(list, 1, stop)
    ensures pages + [page] == PagesFrom(list, 1, stop)
    ensures !list(page).success ==> FetchFrom(list, 1, stop) == Failure(ApiError(list(page).errors))
    ensures list(page).success ==> FetchFrom(list, 1, stop) == Success(records + list(page).result)
  {
    assert PagesFrom(list, page, stop) == [page];
  }

  /**
   * The requested pages are 1, 2, ..., n for some n >= 1: every page but the
   * last asked for another one, and the last did not.
   */
  lemma {:induction false} PagesAreConsecutive(list: int -> ListResponse, page: int, stop: int)
    requires 1 <= page <= stop && EndsAt(list, stop)
    ensures var ps := PagesFrom(list, page, stop);
      && |ps| >= 1
      && (forall i :: 0 <= i < |ps| ==> ps[i] == page + i)
      && (forall i :: 0 <= i < |ps| - 1 ==> !LastPage(list(ps[i]), ps[i]))
      && LastPage(list(ps[|ps| - 1]), ps[|ps| - 1])
    decreases stop - page
  {
    var ps := PagesFrom(list, page, stop);
    if !LastPage(list(page), page) {
      var rest := PagesFrom(list, page + 1, stop);
      PagesAreConsecutive(list, page + 1, stop);
      assert ps == [page] + rest;
      assert ps[|ps| - 1] == rest[|rest| - 1];
      forall i | 0 < i < |ps|
        ensures ps[i] == rest[i - 1]
      {
      }
    } else {
      assert ps == [page];
    }
  }

  /**
   * The fetch succeeds exactly when the last requested page succeeds, and
   * then yields the concatenation of the requested pages' records in page
   * order; otherwise it yields that page's error and no records.
   */
  lemma {:induction false} FetchIsConcatenation(list: int -> ListResponse, page: int, stop: int)
    requires 1 <= page <= stop && EndsAt(list, stop)
    ensures var ps := PagesFrom(list, page, stop);
      var last := list(ps[|ps| - 1]);
      FetchFrom(list, page, stop) == if last.success then Success(Concat(list, ps)) else Failure(ApiError(last.errors))
    decreases stop - page
  {
    var ps := PagesFrom(list, page, stop);
    if !LastPage(list(page), page) {
      FetchIsConcatenation(list, page + 1, stop);
      assert ps[1..] == PagesFrom(list, page + 1, stop);
    } else {
      assert ps[1..] == [];
      assert Concat(list, ps) == list(page).result + Concat(list, []);
      assert list(page).result + [] == list(page).result;
    }
  }

  function Max(a: int, b: int): int {
    if a < b then b else a
  }

  /**
   * With every page succeeding and reporting the same total `t` (a missing
   * total counts as 0), the fetch issues exactly max(1, t) list calls, for
   * pages 1 .. max(1, t), and yields their records.
   */
  lemma StableTotal(list: int -> ListResponse, stop: int, t: int)
    requires EndsAt(list, stop)
    requires forall p :: 1 <= p <= Max(1, t) ==> list(p).success && TotalPages(list(p)) == t
    ensures |PagesFrom(list, 1, stop)| == Max(1, t)
    ensures forall i :: 0 <= i < Max(1, t) ==> PagesFrom(list, 1, stop)[i] == i + 1
    ensures FetchFrom(list, 1, stop) == Success(Concat(list, PagesFrom(list, 1, stop)))
  {
    StableTotalFrom(list, 1, stop, t);
    PagesAreConsecutive(list, 1, stop);
    FetchIsConcatenation(list, 1, stop);
  }

  lemma {:induction false} StableTotalFrom(list: int -> ListResponse, page: int, stop: int, t: int)
    requires 1 <= page <= Max(1, t) && EndsAt(list, stop)
    requires forall p :: 1 <= p <= Max(1, t) ==> list(p).success && TotalPages(list(p)) == t
    ensures page <= stop
    ensures |PagesFrom(list, page, stop)| == Max(1, t) - page + 1
    decreases Max(1, t) - page
  {
    if page < Max(1, t) {
      StableTotalFrom(list, page + 1, stop, t);
    } else if page > stop {
      assert false;
    }
  }

  /** A first page that fails, or reports at most one page in total (or none), is the only page requested. */
  lemma SinglePage(list: int -> ListResponse, stop: int)
    requires EndsAt(list, stop)
    requires !list(1).success || TotalPages(list(1)) <= 1
    ensures PagesFrom(list, 1, stop) == [1]
  {
  }
}
