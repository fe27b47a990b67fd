# Cloudflare DNS bulk delete and to-do list, modelled in Dafny

This project models the decision logic of two small command-line tools and
proves properties of it.

`cf_bulk_delete_dns.py` deletes DNS records from a Cloudflare zone. It lists
the zone's records page by page, filters them by exact name and/or
substring (both case-folded), shows them and asks for confirmation, then
sends one DELETE per record. The network client is an oracle:

- the list API, from list request (zone and query string) to list reply;
- `delete`, from (call number, record id) to delete reply.

Everything else the tool reads from outside is a parameter: the names file's
lines, the `CLOUDFLARE_API_TOKEN` variable and the line typed at the prompt
(None when standard input is at end of input).
The modules follow the tool's components:

- `CfApi` (`cf_api.dfy`): records, reply envelopes, query parameters.
- `CfFetch` (`cf_fetch.dfy`): the pagination loop.
- `CfFilter` (`cf_filter.dfy`): the record filter.
- `CfConfirm` (`cf_confirm.dfy`): the confirmation gate.
- `CfNames` (`cf_names.dfy`): the names-file line filter.
- `CfDelete` (`cf_delete.dfy`): the deletion loop.
- `CfMain` (`cf_main.dfy`): `main`'s exit codes and control flow.

`Text` (`text.dfy`) gives ASCII models of Python's `lower`, `strip`,
`startswith` and substring `in`. `Wrappers` (`wrappers.dfy`) holds Option
and Result.

`todo.py` keeps a to-do list in a JSON file. `Todo` (`todo.dfy`) models it
as a class `TaskList` with a `seq<Task>` field and one method per command:

- add a task;
- mark a task done by its 1-based index;
- delete a task by its 1-based index;
- list all tasks or only the pending ones.

The index goes through Python list indexing (`tasks[index - 1]`). Only an
`IndexError` means "no such task". So index 0 and negative indices down to
`1 - len` wrap to the end of the list: `done 0` marks the last task.
`Todo.Position` models this and every operation uses it.

Two details of the code decide how the run ends:

- The fetch loop stops at the first page whose own counter `page` is at
  least the reply's `total_pages` (cf_bulk_delete_dns.py:166). A missing
  `total_pages` counts as 0.
- An unreadable names file (cf_bulk_delete_dns.py:141) or a missing token
  (cf_bulk_delete_dns.py:148) raises `SystemExit(message)`. That exits with
  status 1, before any client call.

## Model

| member | source | states |
|---|---|---|
| `CfApi.DropNoneMembers` | cf_bulk_delete_dns.py:41 | a query parameter is sent, with its value unwrapped, exactly when its value is not None |
| `CfApi.DropNoneAppend` | cf_bulk_delete_dns.py:41 | dropping works pair by pair, so the parameters that are sent keep their order |
| `CfApi.ListQuery` | cf_bulk_delete_dns.py:71-78 | a list call sends `per_page=100` and `page`, plus `type` only when a record type was given (an empty type is still sent) |
| `CfApi.QueryCarriesType` | cf_bulk_delete_dns.py:71-78 | a list call's query carries `type=t` exactly when the record type given is `t`, and no `type` at all without one |
| `CfFetch.RequestsAt` | cf_bulk_delete_dns.py:161 | the i-th list request goes to the fetch's zone, with the query for the i-th page requested and the fetch's record type |
| `CfFetch.FetchDnsRecords` | cf_bulk_delete_dns.py:155-169 | returns what `FetchFrom` yields, and sends exactly one request per page `PagesFrom` lists, in order, each to the given zone with the given record type |
| `CfFetch.PagesAreConsecutive` | cf_bulk_delete_dns.py:158-168 | the pages requested are 1, 2, ..., n with n >= 1; every page before the last succeeded and was below its `total_pages`; the last failed or reached it |
| `CfFetch.FetchIsConcatenation` | cf_bulk_delete_dns.py:160-167 | the fetch succeeds exactly when the last page requested succeeds, and then yields every requested page's `result` joined in page order; otherwise it yields that page's error and no records |
| `CfFetch.StableTotal` | cf_bulk_delete_dns.py:158-168 | when every page succeeds and reports the same total T (a missing total counts as 0), exactly max(1, T) list calls are made, for pages 1..max(1, T) |
| `CfFetch.SinglePage` | cf_bulk_delete_dns.py:162-167 | a first page that fails, or reports a missing, zero or one-page total, is the only page requested |
| `CfFilter.FilterRecords` | cf_bulk_delete_dns.py:172-189 | the loop returns, in input order, the records whose folded name passes the exact-name test and the substring test |
| `CfFilter.SelectedNoCriteria` | cf_bulk_delete_dns.py:178-189 | with no exact names and no (or an empty) substring, the input comes back unchanged and in the same order |
| `CfFilter.SelectedCount` | cf_bulk_delete_dns.py:181-189 | no deduplication: a kept record occurs in the output as often as in the input, and a dropped record does not occur at all |
| `CfFilter.SelectedMembers` | cf_bulk_delete_dns.py:182-188 | a record is in the output iff it is in the input and passes both tests |
| `CfFilter.SelectedIsSubsequence` | cf_bulk_delete_dns.py:181-189 | the output is an order-preserving subsequence of the input |
| `CfFilter.KeepsCriteria` | cf_bulk_delete_dns.py:178-188 | a record is kept iff (no exact names are given, or its folded name equals some folded exact name) and (no non-empty substring is given, or the folded substring occurs in its folded name); a missing name counts as "" |
| `Text.ContainsOccurrence` | cf_bulk_delete_dns.py:186 | the substring test holds exactly when the needle occurs at some position of the name |
| `Text.TrimStart` | cf_bulk_delete_dns.py:137 | removes only leading whitespace, and leaves a suffix that is empty or starts with a non-space |
| `Text.TrimEnd` | cf_bulk_delete_dns.py:137 | removes only trailing whitespace, and leaves a prefix that is empty or ends with a non-space |
| `Text.Strip` | cf_bulk_delete_dns.py:137 | the stripped text has no whitespace at either end |
| `Text.StripIsInfix` | cf_bulk_delete_dns.py:137 | the stripped text is an infix of the input, and the parts removed on either side are all whitespace |
| `Text.StripIgnoresPadding` | cf_bulk_delete_dns.py:210 | adding whitespace around a text does not change its strip |
| `Text.LowerStrip` | cf_bulk_delete_dns.py:210 | lower-casing and stripping commute |
| `CfConfirm.Confirm` | cf_bulk_delete_dns.py:192-211 | no records: no, and no prompt, whatever `assume_yes` says; records with `assume_yes`: yes without a prompt; otherwise the prompt is shown and the answer decides, or reading it at end of input raises `EOFError` |
| `CfConfirm.AffirmativeIgnoresPaddingAndCase` | cf_bulk_delete_dns.py:210-211 | whitespace around the answer and its letter case never change the decision |
| `CfConfirm.AffirmativeTokens` | cf_bulk_delete_dns.py:210-211 | an answer agrees iff its stripped form is "y" or "yes" in any mix of cases |
| `CfConfirm.BlankAnswerDeclines` | cf_bulk_delete_dns.py:210-211 | an empty or all-whitespace answer declines |
| `CfConfirm.YesAgrees` | cf_bulk_delete_dns.py:210-211 | "Yes" with any whitespace around it agrees |
| `CfConfirm.NoDeclines` | cf_bulk_delete_dns.py:211 | "no" declines |
| `CfNames.LoadNames` | cf_bulk_delete_dns.py:132-142 | the loop yields exactly the names of the file's lines, in line order |
| `CfNames.NamesOfAppend` | cf_bulk_delete_dns.py:136-139 | the names of a file are its parts' names joined in order |
| `CfNames.NamesOfMembers` | cf_bulk_delete_dns.py:136-139 | a name is yielded iff some line, once stripped, is that name and is neither blank nor starts with '#'; every name is non-empty, unpadded and does not start with '#' |
| `CfNames.NameLineKept` | cf_bulk_delete_dns.py:137-139 | a line holding a name and trailing whitespace is kept as the bare name |
| `CfNames.BlankLineDropped` | cf_bulk_delete_dns.py:138 | an all-whitespace line is dropped |
| `CfNames.CommentLineDropped` | cf_bulk_delete_dns.py:138 | a line starting with '#' is dropped |
| `CfNames.NameBlankComment` | cf_bulk_delete_dns.py:136-139 | a name line, a blank line and a comment line yield only the name, whatever whitespace ends the lines |
| `CfNames.NamesFileExample` | cf_bulk_delete_dns.py:136-139 | "www.example.com", a blank line and "# comment" yield just "www.example.com" |
| `CfDelete.DeleteRecords` | cf_bulk_delete_dns.py:214-235 | one call per record with a non-empty id, in input order; every record gets its own report: skipped when it has no id, otherwise the outcome of its own call; a raise or `success: false` on one record does not stop later calls |
| `CfDelete.DeleteCallsAppend` | cf_bulk_delete_dns.py:217-224 | the calls for a batch are the calls for its parts, in order |
| `CfDelete.OneCallPerRecord` | cf_bulk_delete_dns.py:217-224 | a record without an id adds no call; a record with an id is sent as the call numbered by the calls made for the records before it |
| `CfDelete.DeleteCallsMembers` | cf_bulk_delete_dns.py:218-224 | an id is sent iff some record carries it and it is non-empty, so the empty id is never sent |
| `CfDelete.DeleteCallCount` | cf_bulk_delete_dns.py:217-222 | the number of calls is the number of records minus the skipped ones |
| `CfMain.ResolveToken` | cf_bulk_delete_dns.py:145-152 | the `--token` value wins when it is non-empty; otherwise the environment's value is used when it is non-empty; with neither there is no token |
| `CfMain.EmptyNamesFileSelectsAll` | cf_bulk_delete_dns.py:245-258 | a names file that yields no names leaves no exact-name filter, so without a substring every fetched record is chosen |
| `CfMain.RunBulkDelete` | cf_bulk_delete_dns.py:238-269 | for any API, both `--name` and `--names-file` give 2 before any client call; an unreadable names file or a missing token gives 1 before any client call; the list calls go to `--zone-id` with `--type` for the pages the fetch asks for; a fetch error gives 1 with no delete calls; a dry run gives 0 with neither a prompt nor a delete call; end of input at the prompt gives 1 with no delete calls; otherwise the filtered records are deleted exactly when the confirmation agrees, and the code is 0 |
| `Todo.Position` | todo.py:47-51 | `tasks[index - 1]` succeeds exactly when `1 - len <= index <= len`, and then selects the element at `(index - 1) mod len`, so non-positive indices wrap from the end |
| `Todo.TaskList.Add` | todo.py:27-31 | exactly one pending task with the given description is appended |
| `Todo.TaskList.Complete` | todo.py:45-54 | `saved` is true exactly for an accepted index, and the list becomes the result of completing that index |
| `Todo.TaskList.Delete` | todo.py:57-66 | `saved` is true exactly for an accepted index, and the list becomes the result of removing the task at that index |
| `Todo.TaskList.List` | todo.py:34-42 | an empty list prints "No tasks found."; otherwise the listing numbers the shown tasks by their position in the whole list |
| `Todo.ZeroSelectsLast` | todo.py:48 | index 0 selects the last task, and `done 0` marks the last task done |
| `Todo.CompletedEffect` | todo.py:46-53 | an accepted index sets `done` on that task only, keeping its description, the length and every other task; a rejected index changes nothing |
| `Todo.CompletedIdempotent` | todo.py:52 | completing the same index twice gives the same list as completing it once |
| `Todo.RemovedEffect` | todo.py:58-65 | an accepted index removes exactly that task: the length drops by one, the others keep their order, and the multiset loses just that task; a rejected index changes nothing |
| `Todo.VisibleLinesNumbered` | todo.py:39-42 | every shown line carries the task at its position in the whole list, in pending mode too; that number is an index `done` and `delete` accept for that task; numbers increase; pending mode shows no done task |
| `Todo.VisibleLinesComplete` | todo.py:39-42 | a task is shown iff the listing shows all tasks or the task is pending |

## Left out

- HTTP transport in `CloudflareClient.request` is not modelled: URL building, headers, the `urllib` call, mapping `HTTPError`/`URLError` to `CloudflareAPIError`, and JSON decoding. This is network I/O and a foreign library. The two client oracles stand in for it.
- A list call that raises `CloudflareAPIError` (cf_bulk_delete_dns.py:56-69) has no case of its own in `ListResponse`. It is modelled as a reply with `success` false. Both end the fetch with an error, and `main` then exits with 1 (cf_bulk_delete_dns.py:254-256).
- A delete call that raises anything other than `CloudflareAPIError` is not modelled. `delete_records` catches only that error (cf_bulk_delete_dns.py:225), so any other exception ends the whole run. One example is an `AttributeError` from `payload.get` (cf_bulk_delete_dns.py:228) when the reply is not a JSON object. `Raised` stands only for a caught `CloudflareAPIError`.
- Argument parsing (`parse_args`, and the subcommand dispatch in `todo.main`) is not modelled. It is library glue; the parsed arguments are a datatype.
- The environment lookup in `get_auth_token` is not modelled. It is an OS call, so the variable's value is a parameter.
- Console output is not modelled: the fixed-width preview table, the skip/failure/success messages and the `input()` prompt. The model returns `prompted`, the per-record reports and the listing lines instead of printing them.
- File reading and writing in `load_names_from_file`, `load_tasks` and `save_tasks` is not modelled, including the JSON round trip. The names file is its lines, already split; the to-do list is the `TaskList` object; `saved` says whether an operation writes the list back.
- `hello.py` is not part of this model. It formats the wall-clock time.
- Text handling is ASCII only. `lower` folds only A-Z, and `strip` removes only the ASCII characters Python treats as whitespace. Python's full Unicode case mapping and whitespace are not modelled.
- `CfFetch.FetchDnsRecords` requires the API to report, at some page, that the fetch is over. This is the ghost `stop` argument. The Python loop never ends otherwise. `CfMain.RunBulkDelete` requires this only for runs that reach the fetch.
- `CfFetch.FetchDnsRecords` does not model a reply whose `result` is present but null (`records.extend(None)` raises `TypeError`, cf_bulk_delete_dns.py:164), whose `result_info` is present but null (`None.get` raises `AttributeError`, cf_bulk_delete_dns.py:165), or whose `total_pages` is present but null or not a number (`TypeError`, cf_bulk_delete_dns.py:166). Each ends the run with an uncaught exception and exit status 1; the model reads a missing field only.
- Record fields that are not strings (the source's `str(...)` conversion) are not modelled. A record's fields are strings, and a missing field is "".
- `CfMain.RunBulkDelete`: `main` passes `args.zone_id` to `delete_records` unchanged; the `delete` oracle is the client for that zone, so the zone of a DELETE call is not part of the model.
- `CfMain.RunBulkDelete`: other exceptions at the prompt, such as `KeyboardInterrupt`, are not modelled. End of input is: `EOFError` is uncaught, so the run exits with status 1 and nothing is deleted.
- `CfMain.RunBulkDelete`: in a dry run the source still calls `confirm`, but only for the preview it prints. The model skips that call, since its result is ignored. The deletion reports are computed but not returned.
- A stored task without a `description` or `done` key is not modelled. In the source it raises `KeyError`.
