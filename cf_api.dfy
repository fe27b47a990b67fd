/**
 * The data the Cloudflare client exchanges with the REST API, and the one
 * piece of request building that is logic rather than transport: dropping
 * query parameters whose value is None.
 */
module CfApi {
  import opened Wrappers

  /** Records requested per list call (`PAGE_SIZE`). */
  const PageSize: int := 100

  /**
   * One DNS record. A field the API left out reads as "", as the source's
   * `str(record.get(key, ""))` does.
   */
  datatype Record = Record(id: string, name: string, rtype: string, content: string)

  /**
   * The envelope of one `GET /zones/{zone}/dns_records` reply: a missing
   * `success` reads as false, a missing `result` as [], and `totalPages` is
   * None when `result_info` or its `total_pages` is missing. A list call
   * that raises `CloudflareAPIError` is read as a reply without `success`.
   */
  datatype ListResponse = ListResponse(success: bool, result: seq<Record>, totalPages: Option<int>, errors: string)

  /** What one `DELETE` call produced: the client raised `CloudflareAPIError`, or the API replied. */
  datatype DeleteReply = Raised(message: string) | Replied(success: bool, errors: string)

  datatype ApiError = ApiError(message: string)

  /** A query parameter value: the page numbers and the record type. */
  datatype Param = IntParam(n: int) | StrParam(s: string)

  /** The `{k: v for k, v in params.items() if v is not None}` step of `request`. */
  function DropNone<K, V>(params: seq<(K, Option<V>)>): seq<(K, V)> {
    if params == [] then []
    else (if params[0].1.Some? then [(params[0].0, params[0].1.value)] else []) + DropNone(params[1..])
  }

  /** The parameters `list_dns_records` hands to `request`, before None values are dropped. */
  function ListParams(page: int, recordType: Option<string>): seq<(string, Option<Param>)> {
    [("per_page", Some(IntParam(PageSize))),
     ("page", Some(IntParam(page))),
     ("type", if recordType.Some? then Some(StrParam(recordType.value)) else None)]
  }

  /** The query string of a list call for `page`: its parameters once None values are dropped. */
  function PageQuery(page: int, recordType: Option<string>): seq<(string, Param)> {
    DropNone(ListParams(page, recordType))
  }

  /** One list call as sent: the zone in the path `/zones/{zone}/dns_records`, and the query. */
  datatype ListRequest = ListRequest(zone: string, query: seq<(string, Param)>)

  /** Exactly the pairs whose value is present survive, with the value unwrapped. */
  lemma {:induction false} DropNoneMembers<K, V>(params: seq<(K, Option<V>)>, k: K, v: V)
    ensures (k, v) in DropNone(params) <==> (k, Some(v)) in params
  {
    if params != [] {
      DropNoneMembers(params[1..], k, v);
      assert params == [params[0]] + params[1..];
    }
  }

  /** Dropping is done pair by pair, so the surviving pairs keep their order. */
  lemma {:induction false} DropNoneAppend<K, V>(a: seq<(K, Option<V>)>, b: seq<(K, Option<V>)>)
    ensures DropNone(a + b) == DropNone(a) + DropNone(b)
  {
    if a == [] {
      assert a + b == b;
    } else {
      var front := if a[0].1.Some? then [(a[0].0, a[0].1.value)] else [];
      assert (a + b)[0] == a[0];
      assert (a + b)[1..] == a[1..] + b;
      assert DropNone(a + b) == front + DropNone(a[1..] + b);
      assert DropNone(a) == front + DropNone(a[1..]);
      DropNoneAppend(a[1..], b);
    }
  }

  /** A list call without a record type sends only `per_page` and `page`; with one it sends `type` too, even when it is "". */
  lemma ListQuery(page: int, recordType: Option<string>)
    ensures recordType == None ==>
      PageQuery(page, recordType) == [("per_page", IntParam(100)), ("page", IntParam(page))]
    ensures recordType.Some? ==>
      PageQuery(page, recordType) ==
        [("per_page", IntParam(100)), ("page", IntParam(page)), ("type", StrParam(recordType.value))]
  {
    var ps := ListParams(page, recordType);
    var tail := DropNone(ps[2..]);
    assert ps[1..][1..] == ps[2..] && ps[2..][1..] == [];
    assert tail == (if recordType.Some? then [("type", StrParam(recordType.value))] else []) + DropNone([]);
    assert DropNone(ps) == [("per_page", IntParam(100))] + ([("page", IntParam(page))] + tail);
  }

  /** The `type` parameter a list call sends is the record type given, and there is none without one. */
  lemma QueryCarriesType(page: int, recordType: Option<string>, t: string)
    ensures ("type", StrParam(t)) in PageQuery(page, recordType) <==> recordType == Some(t)
  {
    DropNoneMembers(ListParams(page, recordType), "type", StrParam(t));
  }
}
