/**
 * The control flow of `main` in cf_bulk_delete_dns.py, from parsed
 * arguments to exit code: conflicting name options, reading the names file,
 * the token, the fetch, the filter, the dry run, the confirmation and the
 * deletions.
 *
 * What the outside world supplies is a parameter: the names file's lines
 * (None when it cannot be read), the CLOUDFLARE_API_TOKEN variable, the two
 * API oracles and the line typed at the prompt (None at end of input).
 */
module CfMain {
  import opened Wrappers
  import opened CfApi
  import opened CfFetch
  import opened CfFilter
  import opened CfConfirm
  import opened CfNames
  import opened CfDelete

  /** The parsed command line; an option that was not given is None (or [] for `--name`). */
  datatype Args = Args(
    token: Option<string>,
    zoneId: string,
    names: seq<string>,
    namesFile: Option<string>,
    contains: Option<string>,
    recordType: Option<string>,
    dryRun: bool,
    yes: bool)

  /** `args.names_file` is truthy: given and not "". */
  predicate HasNamesFile(args: Args) {
    args.namesFile.Some? && args.namesFile.value != ""
  }

  /** `args.name and args.names_file`. */
  predicate Conflicting(args: Args) {
    args.names != [] && HasNamesFile(args)
  }

  /** `args.token or os.getenv(...)`, then `if not token`: None means the run stops. */
  function ResolveToken(argToken: Option<string>, envToken: Option<string>): (t: Option<string>)
    ensures t.Some? ==> t.value != ""
    ensures t.Some? <==> (argToken.Some? && argToken.value != "") || (envToken.Some? && envToken.value != "")
    ensures argToken.Some? && argToken.value != "" ==> t == argToken
    ensures !(argToken.Some? && argToken.value != "") && envToken.Some? && envToken.value != "" ==> t == envToken
  {
    if argToken.Some? && argToken.value != "" then argToken
    else if envToken.Some? && envToken.value != "" then envToken
    else None
  }

  /** Everything before the first API call succeeds: no conflict, a readable names file when one is named, a token. */
  predicate ReadyToFetch(args: Args, envToken: Option<string>, fileLines: Option<seq<string>>) {
    && !Conflicting(args)
    && (HasNamesFile(args) ==> fileLines.Some?)
    && ResolveToken(args.token, envToken).Some?
  }

  /** `names = list(args.name)`, extended by the names file when one is named. */
  function NamesFor(args: Args, fileLines: Option<seq<string>>): seq<string>
    requires HasNamesFile(args) ==> fileLines.Some?
  {
    args.names + if HasNamesFile(args) then NamesOf(fileLines.value) else []
  }

  /**
   * One run of the tool. Returns the exit code, the list requests sent, the
   * ids deleted and whether the prompt was shown. A `SystemExit` with a
   * message (unreadable names file, missing token) exits with status 1, and
   * so does the uncaught `EOFError` of a prompt at end of input.
   */
  method RunBulkDelete(
    args: Args,
    envToken: Option<string>,
    fileLines: Option<seq<string>>,
    listApi: ListRequest -> ListResponse,
    ghost stop: int,
    delete: (nat, string) -> DeleteReply,
    answer: Option<string>)
    returns (code: int, listCalls: seq<ListRequest>, deleteCalls: seq<string>, prompted: bool)
    requires ReadyToFetch(args, envToken, fileLines) ==> EndsAt(Client(listApi, args.zoneId, args.recordType), stop)
    // conflicting name options: usage error before any client call
    ensures Conflicting(args) ==> code == 2 && listCalls == [] && deleteCalls == [] && !prompted
    // the names file or the token is missing: exit 1, still before any client call
    ensures !Conflicting(args) && !ReadyToFetch(args, envToken, fileLines) ==>
      code == 1 && listCalls == [] && deleteCalls == [] && !prompted
    // the list calls go to the given zone, with the given record type, for the pages the fetch asks for
    ensures ReadyToFetch(args, envToken, fileLines) ==>
      var list := Client(listApi, args.zoneId, args.recordType);
      && listCalls == Requests(args.zoneId, args.recordType, PagesFrom(list, 1, stop))
      && match FetchFrom(list, 1, stop)
         // a failed fetch: exit 1 and nothing deleted
         case Failure(_) => code == 1 && deleteCalls == [] && !prompted
         case Success(records) =>
           var chosen := Selected(records, ExactSet(NamesFor(args, fileLines)), Needle(args.contains));
           var d := Confirm(chosen, args.yes, answer);
           // a dry run shows the preview and never deletes
           && (args.dryRun ==> code == 0 && deleteCalls == [] && !prompted)
           // end of input at the prompt: the run dies with exit 1 and nothing deleted
           && (!args.dryRun && d.EndOfInput? ==> code == 1 && prompted && deleteCalls == [])
           && (!args.dryRun && d.Decision? ==>
                 && code == 0
                 && prompted == d.prompted
                 && deleteCalls == if d.proceed then DeleteCalls(chosen) else [])
  {
    listCalls, deleteCalls, prompted := [], [], false;
    if Conflicting(args) {
      code := 2;
      return;
    }
    var names := args.names;
    if HasNamesFile(args) {
      if fileLines.None? {
        code := 1;
        return;
      }
      var loaded := LoadNames(fileLines.value);
      names := names + loaded;
    }
    assert names == NamesFor(args, fileLines);
    var token := ResolveToken(args.token, envToken);
    if token.None? {
      code := 1;
      return;
    }
    var fetched;
    fetched, listCalls := FetchDnsRecords(listApi, args.zoneId, args.recordType, stop);
    if fetched.Failure? {
      code := 1;
      return;
    }
    var chosen := FilterRecords(fetched.value, names, args.contains);
    if args.dryRun {
      code := 0;
      return;
    }
    var d := Confirm(chosen, args.yes, answer);
    assert d == Confirm(Selected(fetched.value, ExactSet(NamesFor(args, fileLines)), Needle(args.contains)), args.yes, answer);
    if d.EndOfInput? {
      code, prompted := 1, true;
      return;
    }
    prompted := d.prompted;
    if !d.proceed {
      code := 0;
      return;
    }
    var reports;
    deleteCalls, reports := DeleteRecords(chosen, delete);
    code := 0;
  }

  /**
   * A names file that yields no names leaves no exact-name filter
   * (`names or None`), so without a substring every fetched record is
   * chosen, and with `--yes` every one of them is deleted.
   */
  lemma EmptyNamesFileSelectsAll(args: Args, fileLines: Option<seq<string>>, records: seq<Record>)
    requires args.names == [] && HasNamesFile(args) && fileLines.Some?
    requires NamesOf(fileLines.value) == []
    requires args.contains == None || args.contains == Some("")
    ensures Selected(records, ExactSet(NamesFor(args, fileLines)), Needle(args.contains)) == records
  {
    assert NamesFor(args, fileLines) == [];
    assert ExactSet([]) == {};
    SelectedNoCriteria(records);
  }
}
