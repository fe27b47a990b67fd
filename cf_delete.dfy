/**
 * The deleter (`delete_records`): one DELETE call per record with a
 * non-empty id, in input order; a record without an id is skipped, and a
 * call that raises or reports failure is logged and the loop moves on.
 *
 * The client is an oracle `delete` from (number of calls made so far,
 * record id) to reply, so a reply may depend on what happened before it.
 */
module CfDelete {
  import opened CfApi

  /** What the loop reports for one record. */
  datatype Report =
    | Skipped(record: Record)
    | CallFailed(record: Record, message: string)
    | Rejected(record: Record, errors: string)
    | Deleted(record: Record)

  /** The ids sent to the API, one per record with a non-empty id, in input order. */
  function DeleteCalls(records: seq<Record>): seq<string>
    decreases |records|
  {
    if records == [] then []
    else
      var last := records[|records| - 1];
      DeleteCalls(records[..|records| - 1]) + (if last.id != "" then [last.id] else [])
  }

  /** How a reply to the DELETE call for `r` is reported: a raise, `success` false, or success. */
  function Outcome(r: Record, reply: DeleteReply): Report {
    match reply
    case Raised(message) => CallFailed(r, message)
    case Replied(success, errors) => if success then Deleted(r) else Rejected(r, errors)
  }

  /**
   * The report for `records[i]`: skipped without an id, otherwise decided by
   * the reply to its own call, the one made after the calls for the
   * records before it.
   */
  function ReportFor(records: seq<Record>, i: int, delete: (nat, string) -> DeleteReply): Report
    requires 0 <= i < |records|
  {
    var r := records[i];
    if r.id == "" then Skipped(r) else Outcome(r, delete(|DeleteCalls(records[..i])|, r.id))
  }

  method DeleteRecords(records: seq<Record>, delete: (nat, string) -> DeleteReply)
    returns (calls: seq<string>, reports: seq<Report>)
    ensures calls == DeleteCalls(records)
    ensures |reports| == |records|
    ensures forall i :: 0 <= i < |records| ==> reports[i] == ReportFor(records, i, delete)
  {
    calls := [];
    reports := [];
    for i := 0 to |records|
      invariant calls == DeleteCalls(records[..i])
      invariant |reports| == i
      invariant forall j :: 0 <= j < i ==> reports[j] == ReportFor(records, j, delete)
    {
      assert records[..i + 1][..i] == records[..i];
      var record := records[i];
      if record.id == "" {
        reports := reports + [Skipped(record)];
        continue;
      }
      var reply := delete(|calls|, record.id);
      calls := calls + [record.id];
      match reply {
        case Raised(message) =>
          reports := reports + [CallFailed(record, message)];
          continue;
        case Replied(success, errors) =>
          if !success {
            reports := reports + [Rejected(record, errors)];
            continue;
          }
      }
      reports := reports + [Deleted(record)];
    }
    assert records[..|records|] == records;
  }

  /** Calls are made record by record, so the calls for a batch are those of its parts in order. */
  lemma {:induction false} DeleteCallsAppend(a: seq<Record>, b: seq<Record>)
    ensures DeleteCalls(a + b) == DeleteCalls(a) + DeleteCalls(b)
    decreases |b|
  {
    if b == [] {
      assert a + b == a;
    } else {
      var init := b[..|b| - 1];
      assert (a + b)[..|a + b| - 1] == a + init;
      DeleteCallsAppend(a, init);
    }
  }

  /**
   * Every record with an id gets its own call, the one numbered by the calls
   * of the records before it; records without an id get none, so the empty
   * id is never sent.
   */
  lemma {:induction false} OneCallPerRecord(records: seq<Record>, i: int)
    requires 0 <= i < |records|
    ensures var before := |DeleteCalls(records[..i])|;
      if records[i].id == "" then DeleteCalls(records[..i + 1]) == DeleteCalls(records[..i])
      else before < |DeleteCalls(records)| && DeleteCalls(records)[before] == records[i].id
  {
    assert records[..i + 1][..i] == records[..i];
    DeleteCallsAppend(records[..i + 1], records[i + 1..]);
    assert records[..i + 1] + records[i + 1..] == records;
  }

  /** An id is sent exactly when some record carries it and it is not empty. */
  lemma {:induction false} DeleteCallsMembers(records: seq<Record>, id: string)
    ensures id in DeleteCalls(records) <==> id != "" && exists r :: r in records && r.id == id
    decreases |records|
  {
    if records != [] {
      var init := records[..|records| - 1];
      DeleteCallsMembers(init, id);
      assert records == init + [records[|records| - 1]];
    }
  }

  /** The number of calls: the records minus those without an id. */
  lemma {:induction false} DeleteCallCount(records: seq<Record>)
    ensures |DeleteCalls(records)| == |records| - |SkippedOf(records)|
    decreases |records|
  {
    if records != [] {
      DeleteCallCount(records[..|records| - 1]);
    }
  }

  /** The records without an id, in order. */
  function SkippedOf(records: seq<Record>): seq<Record>
    decreases |records|
  {
    if records == [] then []
    else
      var last := records[|records| - 1];
      SkippedOf(records[..|records| - 1]) + (if last.id == "" then [last] else [])
  }
}
