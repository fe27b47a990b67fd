/**
 * The record filter (`filter_records`): case-folded exact-name membership
 * AND case-folded substring match, keeping the input order and duplicates.
 */
module CfFilter {
  import opened Wrappers
  import opened Text
  import opened CfApi

  /** `{name.lower() for name in exact_names or []}`; None and [] are the same here. */
  function ExactSet(exactNames: seq<string>): set<string> {
    set n | n in exactNames :: Lower(n)
  }

  /** `contains.lower() if contains else None`, with "" standing for None: a falsy needle filters nothing. */
  function Needle(contains: Option<string>): string {
    if contains.Some? && contains.value != "" then Lower(contains.value) else ""
  }

  /** The record survives both `continue` tests of the loop body. */
  predicate Keeps(exact: set<string>, needle: string, r: Record) {
    var name := Lower(r.name);
    (exact == {} || name in exact) && (needle == "" || Contains(name, needle))
  }

  /** The records kept, in input order. */
  function Selected(records: seq<Record>, exact: set<string>, needle: string): seq<Record>
    decreases |records|
  {
    if records == [] then []
    else
      var last := records[|records| - 1];
      Selected(records[..|records| - 1], exact, needle) + (if Keeps(exact, needle, last) then [last] else [])
  }

  /** `a` is `b` with some elements left out, the rest in their order. */
  predicate IsSubsequence(a: seq<Record>, b: seq<Record>)
    decreases |b|
  {
    a == [] ||
    (b != [] &&
     ((a[|a| - 1] == b[|b| - 1] && IsSubsequence(a[..|a| - 1], b[..|b| - 1])) || IsSubsequence(a, b[..|b| - 1])))
  }

  method FilterRecords(records: seq<Record>, exactNames: seq<string>, contains: Option<string>)
    returns (filtered: seq<Record>)
    ensures filtered == Selected(records, ExactSet(exactNames), Needle(contains))
  {
    var exact := ExactSet(exactNames);
    var needle := Needle(contains);
    filtered := [];
    for i := 0 to |records|
      invariant filtered == Selected(records[..i], exact, needle)
    {
      var record := records[i];
      assert records[..i + 1][..i] == records[..i];
      var name := Lower(record.name);
      if exact != {} && name !in exact {
        continue;
      }
      if needle != "" && !Contains(name, needle) {
        continue;
      }
      filtered := filtered + [record];
    }
    assert records[..|records|] == records;
  }

  /** With no exact names and no substring every record is kept, in the same order. */
  lemma {:induction false} SelectedNoCriteria(records: seq<Record>)
    ensures Selected(records, {}, "") == records
    decreases |records|
  {
    if records != [] {
      SelectedNoCriteria(records[..|records| - 1]);
    }
  }

  /** No deduplication: a kept record occurs as often as in the input, a dropped one not at all. */
  lemma {:induction false} SelectedCount(records: seq<Record>, exact: set<string>, needle: string, r: Record)
    ensures multiset(Selected(records, exact, needle))[r] == if Keeps(exact, needle, r) then multiset(records)[r] else 0
    decreases |records|
  {
    if records != [] {
      var init := records[..|records| - 1];
      SelectedCount(init, exact, needle, r);
      assert records == init + [records[|records| - 1]];
    }
  }

  /** A record is in the output exactly when it is in the input and its name passes both tests. */
  lemma SelectedMembers(records: seq<Record>, exact: set<string>, needle: string, r: Record)
    ensures r in Selected(records, exact, needle) <==> r in records && Keeps(exact, needle, r)
  {
    SelectedCount(records, exact, needle, r);
  }

  /** The output is an order-preserving subsequence of the input. */
  lemma {:induction false} SelectedIsSubsequence(records: seq<Record>, exact: set<string>, needle: string)
    ensures IsSubsequence(Selected(records, exact, needle), records)
    decreases |records|
  {
    if records != [] {
      var init := records[..|records| - 1];
      var last := records[|records| - 1];
      var s := Selected(init, exact, needle);
      SelectedIsSubsequence(init, exact, needle);
      if Keeps(exact, needle, last) {
        assert (s + [last])[..|s|] == s;
      } else {
        assert s + [] == s;
        SubsequenceNonEmpty(s, init);
      }
    }
  }

  lemma SubsequenceNonEmpty(a: seq<Record>, b: seq<Record>)
    requires IsSubsequence(a, b)
    ensures a != [] ==> b != []
  {
  }

  /**
   * The keep test in the caller's terms: the folded name equals some folded
   * exact name (when any are given), and the folded substring, when given
   * and non-empty, occurs in the folded name.
   */
  lemma KeepsCriteria(exactNames: seq<string>, contains: Option<string>, r: Record)
    ensures Keeps(ExactSet(exactNames), Needle(contains), r) <==>
      && (exactNames == [] || exists n :: n in exactNames && Lower(n) == Lower(r.name))
      && (contains == None || contains.value == "" ||
          exists i :: OccursAt(Lower(r.name), Lower(contains.value), i))
  {
    if exactNames != [] {
      assert Lower(exactNames[0]) in ExactSet(exactNames);
    }
    ContainsOccurrence(Lower(r.name), Needle(contains));
  }
}
