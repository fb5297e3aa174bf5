/** `DiscordSearcher` (scraper.py, lines 34-224): a searcher is built from
    its arguments, works out where its output goes, builds its search URL,
    and then pages through the results, appending them to the output file.

    The world the searcher acts on is part of its state: the files and
    directories on disk, the responses the server will give, the URLs
    requested and the sleeps taken. */
module Searcher {
  import opened Wrappers
  import opened Strings
  import opened Snowflake
  import opened Query
  import opened Output
  import opened Transport
  import opened Pagination

  /** The `ValueError`s the constructor raises. */
  datatype ArgError =
    | MissingToken              // "Token is required"
    | MissingGuild              // "Guild ID is required"
    | InvalidAfter(after: string)    // "Invalid snowflake: {after}"
    | InvalidBefore(before: string)

  /** Python truthiness of an optional string: neither `None` nor empty. */
  predicate Truthy(s: Option<string>) {
    s.Some? && s.value != []
  }

  /** The checks `__init__` makes before it sets any field, in its order:
      the token (falling back on the `DISCORD_TOKEN` environment variable),
      the guild id, then `after` and `before`, each checked only when
      truthy. On success, the token to use. */
  function CheckArgs(guildId: string, token: Option<string>, envToken: Option<string>,
                     after: Option<string>, before: Option<string>): Result<string, ArgError>
  {
    var chosen := if Truthy(token) then token else envToken;
    if !Truthy(chosen) then Err(MissingToken)
    else if guildId == [] then Err(MissingGuild)
    else if Truthy(after) && !IsSnowflake(after.value) then Err(InvalidAfter(after.value))
    else if Truthy(before) && !IsSnowflake(before.value) then Err(InvalidBefore(before.value))
    else Ok(chosen.value)
  }

  /** A bound passes when it is absent, empty, or a snowflake. */
  predicate BoundAccepted(bound: Option<string>) {
    !Truthy(bound) || IsSnowflake(bound.value)
  }

  /** Construction succeeds exactly when there is a token, a guild id and
      acceptable bounds; the explicit token wins over the environment. */
  lemma CheckArgsAccepts(guildId: string, token: Option<string>, envToken: Option<string>,
                         after: Option<string>, before: Option<string>)
    ensures var r := CheckArgs(guildId, token, envToken, after, before);
      && (r.Ok? <==> (Truthy(token) || Truthy(envToken)) && guildId != []
                     && BoundAccepted(after) && BoundAccepted(before))
      && (r.Ok? ==> r.value == (if Truthy(token) then token.value else envToken.value) && r.value != [])
  {
  }

  /** The first failing check is the one reported: a missing token hides
      every other problem, a missing guild id hides bad bounds, and a bad
      `after` hides a bad `before`. */
  lemma CheckArgsOrder(guildId: string, token: Option<string>, envToken: Option<string>,
                       after: Option<string>, before: Option<string>)
    ensures var r := CheckArgs(guildId, token, envToken, after, before);
      && (r == Err(MissingToken) <==> !Truthy(token) && !Truthy(envToken))
      && (r == Err(MissingGuild) <==> (Truthy(token) || Truthy(envToken)) && guildId == [])
      && (r.Err? && r.error.InvalidAfter? <==>
            (Truthy(token) || Truthy(envToken)) && guildId != [] && !BoundAccepted(after))
      && (r.Err? && r.error.InvalidBefore? <==>
            (Truthy(token) || Truthy(envToken)) && guildId != [] && BoundAccepted(after) && !BoundAccepted(before))
  {
  }

  /** An empty `after` is falsy, so it is not checked. */
  lemma EmptyBoundPasses(guildId: string, token: string)
    requires guildId != [] && token != []
    ensures CheckArgs(guildId, Some(token), None, Some(""), Some("")) == Ok(token)
  {
  }

  /** Whether `os.path.exists(path)`. */
  predicate Exists(files: map<string, string>, dirs: set<string>, path: string) {
    path in files || path in dirs
  }

  /** The directories after `set_output`: the target's directory is created
      when it does not exist. */
  function DirsAfter(files: map<string, string>, dirs: set<string>, t: Target): set<string> {
    if t.directory.Some? && !Exists(files, dirs, t.directory.value) then dirs + {t.directory.value}
    else dirs
  }

  /** The text of a file before `open(path, "a")` appends to it. */
  function TextOf(files: map<string, string>, path: string): string {
    if path in files then files[path] else []
  }

  /** The parameter dictionary of `form_search_query`, filled entry by
      entry: the fixed entries, then each filter that is not `None`. */
  method BuildParams(content: Option<string>, channelId: Option<string>,
                     after: Option<string>, before: Option<string>) returns (params: seq<Param>)
    ensures params == SearchParams(content, channelId, after, before)
  {
    params := FixedParams();
    if content.Some? {
      params := params + [Param("content", content.value)];
    }
    assert params == FixedParams() + Optional("content", content);
    if channelId.Some? {
      params := params + [Param("channel_id", channelId.value)];
    }
    assert params == FixedParams() + Optional("content", content) + Optional("channel_id", channelId);
    if after.Some? {
      params := params + [Param("min_id", after.value)];
    }
    assert params == FixedParams() + Optional("content", content) + Optional("channel_id", channelId)
      + Optional("min_id", after);
    if before.Some? {
      params := params + [Param("max_id", before.value)];
    }
  }

  /** The settings a searcher keeps as they were given. */
  datatype Settings = Settings(token: string, guildId: string, channelId: Option<string>,
                               after: Option<string>, before: Option<string>)

  /** `DiscordSearcher(...)`: the argument checks of `__init__`, raising
      the first `ValueError` that applies; then the assignments, the
      output resolved against the clock reading `now`, and the search URL. */
  method Create(guildId: string, token: Option<string>, envToken: Option<string>,
                query: Option<string>, output: Option<string>, channelId: Option<string>,
                after: Option<string>, before: Option<string>, now: DateTime,
                files: map<string, string>, dirs: set<string>, script: seq<Event>)
    returns (r: Result<DiscordSearcher, ArgError>)
    requires ValidDateTime(now)
    ensures var checked := CheckArgs(guildId, token, envToken, after, before);
      && (r.Err? <==> checked.Err?)
      && (r.Err? ==> r.error == checked.error)
    ensures r.Ok? ==>
      && fresh(r.value) && r.value.Valid()
      && r.value.Config() == Settings(CheckArgs(guildId, token, envToken, after, before).value,
                                      guildId, channelId, after, before)
      && r.value.query == Some(SearchUrl(guildId, query, channelId, after, before))
      && r.value.SearchState() == State(0, script, [], []) && r.value.files == files
      && var t := ResolveOutput(output, FileName(guildId, query, Stamp(now)));
         r.value.output == Some(t.path) && r.value.dirs == DirsAfter(files, dirs, t)
  {
    var checked := CheckArgs(guildId, token, envToken, after, before);
    if checked.Err? {
      return Err(checked.error);
    }
    CheckArgsAccepts(guildId, token, envToken, after, before);
    var searcher := new DiscordSearcher(guildId, checked.value, query, output, channelId, after, before,
                                        files, dirs, script);
    searcher.SetOutput(output, now);
    assert searcher.Config() == Settings(checked.value, guildId, channelId, after, before);
    assert searcher.SearchState() == State(0, script, [], []) && searcher.files == files;
    var built := searcher.FormSearchQuery(guildId, query, channelId, after, before);
    return Ok(searcher);
  }

  class DiscordSearcher {
    var token: string
    var guildId: string
    var query: Option<string>
    var output: Option<string>
    var channelId: Option<string>
    var after: Option<string>
    var before: Option<string>
    var errorCount: int

    // The world the searcher acts on.
    var files: map<string, string>
    var dirs: set<string>
    var script: seq<Event>
    var sent: seq<string>
    var sleeps: seq<real>

    /** After construction the output path is always set. */
    predicate Valid()
      reads this
    {
      output.Some?
    }

    function Config(): Settings
      reads this
    {
      Settings(token, guildId, channelId, after, before)
    }

    /** The part of the state `search` works on. */
    function SearchState(): State
      reads this
    {
      State(errorCount, script, sent, sleeps)
    }

    /** The assignments of `__init__`: every argument as given, no errors
        counted yet. */
    constructor (guildId: string, token: string, query: Option<string>, output: Option<string>,
                 channelId: Option<string>, after: Option<string>, before: Option<string>,
                 files: map<string, string>, dirs: set<string>, script: seq<Event>)
      ensures Config() == Settings(token, guildId, channelId, after, before)
      ensures this.query == query && this.output == output && this.errorCount == 0
      ensures this.files == files && this.dirs == dirs && this.script == script && this.sent == [] && this.sleeps == []
    {
      this.token := token;
      this.guildId := guildId;
      this.query := query;
      this.output := output;
      this.channelId := channelId;
      this.after := after;
      this.before := before;
      this.errorCount := 0;
      this.files := files;
      this.dirs := dirs;
      this.script := script;
      this.sent := [];
      this.sleeps := [];
    }

    /** `generate_filename`, reading the clock as `now`. The name starts
        with the guild id and `_`, ends with `_`, the fifteen-character stamp
        and `.jsonl`, holds the query's words joined by `_` in between, and
        has no whitespace unless the guild id brings some. */
    method GenerateFilename(now: DateTime) returns (name: string)
      requires ValidDateTime(now)
      ensures |name| == |guildId| + |SanitizedQuery(query)| + 23
      ensures name[..|guildId| + 1] == guildId + "_"
      ensures name[|guildId| + 1..|name| - 22] == SanitizedQuery(query)
      ensures name[|name| - 22..] == "_" + Stamp(now) + ".jsonl"
      ensures NoSpace(guildId) ==> NoSpace(name)
      ensures name == FileName(guildId, query, Stamp(now))
    {
      var words := if query.Some? && query.value != [] then Join("_", Words(query.value)) else "";
      name := guildId + "_" + words + "_" + Stamp(now) + ".jsonl";
      StampShape(now);
      FileNameParts(guildId, query, Stamp(now));
      if NoSpace(guildId) {
        StampNoSpace(now);
        FileNameNoSpace(guildId, query, Stamp(now));
      }
    }

    /** `set_output`: the generated name, that name inside the directory
        given, or the path given, creating the directory when needed. */
    method SetOutput(output: Option<string>, now: DateTime)
      requires ValidDateTime(now)
      modifies this`output, this`dirs
      ensures Valid()
      ensures var t := ResolveOutput(output, FileName(guildId, query, Stamp(now)));
        this.output == Some(t.path) && dirs == DirsAfter(files, old(dirs), t)
    {
      if output.None? || output.value == [] {
        var name := GenerateFilename(now);
        this.output := Some(name);
      } else if EndsWithSlash(output.value) {
        var name := GenerateFilename(now);
        this.output := Some(PathJoin(output.value, name));
        if !Exists(files, dirs, output.value) {
          dirs := dirs + {output.value};
        }
      } else {
        this.output := output;
      }
    }

    /** `form_search_query`: fill the parameter dictionary entry by entry
        and store the URL `requests` prepares from it. An empty guild id
        raises and leaves the query as it was. */
    method FormSearchQuery(guildId: string, content: Option<string>, channelId: Option<string>,
                           after: Option<string>, before: Option<string>) returns (r: Result<(), ArgError>)
      modifies this`query
      ensures r.Err? <==> guildId == []
      ensures r.Err? ==> r.error == MissingGuild && query == old(query)
      ensures r.Ok? ==> query == Some(SearchUrl(guildId, content, channelId, after, before))
    {
      if guildId == [] {
        return Err(MissingGuild);
      }
      var params := BuildParams(content, channelId, after, before);
      query := Some(SearchEndpoint(guildId) + UrlEncode(params));
      r := Ok(());
    }

    /** `append_message`: one line per message group, appended to the
        output file, which is created when missing. */
    method AppendMessage(page: Page)
      requires Valid()
      modifies this`files
      ensures files == old(files)[output.value := TextOf(old(files), output.value) + PageText(page.groups)]
    {
      var written := "";
      var i := 0;
      while i < |page.groups|
        invariant 0 <= i <= |page.groups|
        invariant files == old(files)
        invariant written == PageText(page.groups[..i])
      {
        AppendLine(page.groups[..i], page.groups[i]);
        assert page.groups[..i + 1] == page.groups[..i] + [page.groups[i]];
        written := written + (Dumps(page.groups[i]) + "\n");
        i := i + 1;
      }
      assert page.groups[..i] == page.groups;
      files := files[output.value := TextOf(files, output.value) + written];
    }

    /** `search(url)`: request until a 200 arrives, backing off after a 429
        and after errors, and counting errors against the budget. */
    method Search(url: string) returns (r: Result<Page, Fault>)
      modifies this`errorCount, this`script, this`sent, this`sleeps
      ensures SearchResult(r, SearchState()) == Transport.Search(old(SearchState()), url)
    {
      while true
        invariant Transport.Search(SearchState(), url) == Transport.Search(old(SearchState()), url)
        decreases |script|
      {
        if script == [] {
          return Err(ConnectionLost);
        }
        var event := script[0];
        script := script[1..];
        sent := sent + [url];
        match event
        case Interrupt =>
          return Err(KeyboardInterrupt);
        case Reply(status, retryAfter, body) =>
          if status == StatusTooManyRequests {
            sleeps := sleeps + [retryAfter];
          } else if status == StatusOk {
            return Ok(body);
          } else {
            errorCount := errorCount + 1;
            if errorCount == MaxError {
              return Err(MaxErrorsReached);
            }
            sleeps := sleeps + [ErrorDelay];
          }
      }
    }

    /** `_update_query_params(anchor)`: re-anchor the stored query. */
    method UpdateQueryParams(anchor: string) returns (r: Result<(), QueryError>)
      modifies this`query
      ensures Reanchor(old(query), anchor).Ok? ==> r.Ok? && query == Some(Reanchor(old(query), anchor).value)
      ensures Reanchor(old(query), anchor).Err? ==> r == Err(Reanchor(old(query), anchor).error) && query == old(query)
    {
      if query.None? {
        return Err(QueryError.NoQuerySet);
      }
      var q := query.value;
      if Contains(q, "min_id") {
        var start := FindFirst(q, "min_id=");
        if start.None? {
          return Err(CursorNotAssigned);
        }
        var minId := q[start.value + 7..];
        query := Some(ReplaceAll(q, minId, anchor));
      } else {
        query := Some(q + "&min_id=" + anchor);
      }
      r := Ok(());
    }

    /** `retrieve_query_results`: search once, then write each page and
        fetch the next one until a page comes back empty or something
        fails; `total` is the `total_request_count` printed at the end. */
    method RetrieveQueryResults() returns (outcome: Retrieval, total: nat)
      requires Valid()
      modifies this`query, this`files, this`errorCount, this`script, this`sent, this`sleeps
      ensures outcome == Retrieve(old(SearchState()), old(query))
      ensures outcome.Raised? ==> SearchState() == outcome.state && query == old(query) && files == old(files)
      ensures outcome.Ran? ==>
        && SearchState() == outcome.run.state
        && query == Some(outcome.run.query)
        && total == TotalRequests(outcome.run)
        && files == old(files)[output.value := TextOf(old(files), output.value) + JsonLines(AllLines(outcome.run.pages))]
    {
      total := 0;
      if query.None? {
        return Raised(Fault.NoQuerySet, SearchState()), total;
      }
      var first := Search(query.value);
      if first.Err? {
        return Raised(first.error, SearchState()), total;
      }
      var page := first.value;
      var requestCount := 1;
      total := 1;
      var pages: seq<Page> := [];
      var fetches: seq<Fetch> := [];
      ghost var target := Paginate(SearchState(), query.value, page, 1, pages, fetches);
      assert Retrieve(old(SearchState()), old(query)) == Ran(target);
      ghost var path := output.value;
      ghost var before := TextOf(files, path);
      ghost var text := before;
      while true
        invariant query.Some?
        invariant 1 <= requestCount <= OffsetLimit
        invariant |pages| == |fetches| && total == 1 + |fetches|
        invariant Paginate(SearchState(), query.value, page, requestCount, pages, fetches) == target
        invariant text == before + JsonLines(AllLines(pages))
        invariant files == if pages == [] then old(files) else old(files)[path := text]
        decreases |script|
      {
        ghost var now := files;
        var step := Turn(page, requestCount);
        AppendPage(before, pages, page);
        UpdateTwice(old(files), now, path, text, text + PageText(page.groups));
        text := text + PageText(page.groups);
        if step.Finish? {
          var last := if step.fetched.Some? then [step.fetched.value] else [];
          outcome, total := Ran(Run(SearchState(), query.value, pages + [page], fetches + last, step.stop)), total + |last|;
          break;
        }
        pages, fetches := pages + [page], fetches + [step.fetch];
        page, requestCount, total := step.next, step.count, total + 1;
      }
    }

    /** One pass of the loop of `retrieve_query_results`: write `page`
        out, stop on an empty page, re-anchor once `OffsetLimit` requests
        of the window are done, then count the request and fetch the next
        page. */
    method Turn(page: Page, requestCount: int) returns (step: Advance)
      requires Valid() && query.Some? && 1 <= requestCount <= OffsetLimit
      modifies this`query, this`files, this`errorCount, this`script, this`sent, this`sleeps
      ensures step == Step(old(SearchState()), old(query.value), page, requestCount)
      ensures SearchState() == step.state
      ensures query == Some(if step.Finish? then step.query else step.fetch.query)
      ensures files == old(files)[output.value := TextOf(old(files), output.value) + PageText(page.groups)]
    {
      AppendMessage(page);
      if page.groups == [] {
        return Finish(Exhausted, SearchState(), query.value, None);
      }
      var count := requestCount;
      if count >= OffsetLimit {
        var last := page.groups[|page.groups| - 1];
        if last == [] {
          return Finish(AnchorFailed(EmptyLastGroup), SearchState(), query.value, None);
        }
        var anchored := UpdateQueryParams(last[0].id);
        if anchored.Err? {
          return Finish(AnchorFailed(CursorUnassigned), SearchState(), query.value, None);
        }
        count := 0;
      }
      count := count + 1;
      var f := Fetch(query.value, (count - 1) * PageSize);
      var next := Search(FetchUrl(f));
      if next.Err? {
        return Finish(FetchFailed(next.error), SearchState(), query.value, Some(f));
      }
      return Continue(SearchState(), f, next.value, count);
    }
  }

  /** Appending to a file twice is appending once to the original map. */
  lemma UpdateTwice(original: map<string, string>, files: map<string, string>, path: string, text: string, more: string)
    requires files == original || files == original[path := text]
    requires TextOf(files, path) == text
    ensures files[path := more] == original[path := more]
  {
  }

  lemma AppendLine(done: seq<Group>, g: Group)
    ensures PageText(done + [g]) == PageText(done) + (Dumps(g) + "\n")
  {
    assert Lines(done + [g]) == Lines(done) + [Dumps(g) + "\n"];
    ConcatAppend(Lines(done), [Dumps(g) + "\n"]);
  }
}
