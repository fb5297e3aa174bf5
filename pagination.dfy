/** The paging loop of `retrieve_query_results` (scraper.py, lines 185-224):
    each page is written out, an empty page ends the run, and every
    `OffsetLimit` requests the query is re-anchored on the first message
    of the page's last group so that the offset can start again from zero. */
module Pagination {
  import opened Wrappers
  import opened Strings
  import opened Query
  import opened Output
  import opened Transport

  /** `self.DISCORD_API_OFFSET_LIMIT`. */
  const OffsetLimit: int := 400

  /** Results per page of the search endpoint. */
  const PageSize: int := 25

  /** One request of the loop: the query it extends and its offset. */
  datatype Fetch = Fetch(query: string, offset: int)

  /** `f"{query}&offset={offset}"`. */
  function FetchUrl(f: Fetch): string {
    f.query + "&offset=" + Show(f.offset)
  }

  /** Why the loop ended. `Exhausted` is the empty page; the other two are
      exceptions the `try` turns into a quiet stop. */
  datatype Stop = Exhausted | AnchorFailed(fault: Fault) | FetchFailed(fault: Fault)

  /** What a run of the loop produced: the final search state and query,
      every page received (the first one included) and every request the
      loop made after the first. */
  datatype Run = Run(state: State, query: string, pages: seq<Page>, fetches: seq<Fetch>, stop: Stop)

  /** `self._update_query_params(result["messages"][-1][0]["id"])`: the
      first message of the last group is the new lower bound. */
  function NextAnchor(query: string, page: Page): Result<string, Fault>
    requires page.groups != []
  {
    var last := page.groups[|page.groups| - 1];
    if last == [] then Err(EmptyLastGroup)
    else match Reanchor(Some(query), last[0].id)
      case Ok(q) => Ok(q)
      case Err(_) => Err(CursorUnassigned)
  }

  /** The outcome of one iteration of the loop. */
  datatype Advance =
    | Finish(stop: Stop, state: State, query: string, fetched: Option<Fetch>)
    | Continue(state: State, fetch: Fetch, next: Page, count: int)

  /** The request an iteration made, if it made one. */
  function Fetched(a: Advance): Option<Fetch> {
    if a.Continue? then Some(a.fetch) else a.fetched
  }

  /** One iteration, with `page` just written out and `requestCount`
      requests of the current window done: stop on an empty page;
      re-anchor once the window is full; then count the request and fetch
      the next offset. */
  function Step(st: State, query: string, page: Page, requestCount: int): (a: Advance)
    ensures a.Continue? ==> |a.state.script| < |st.script| && page.groups != []
    ensures a.Finish? ==> (a.stop.Exhausted? <==> page.groups == [])
    ensures a.Finish? ==> (a.fetched.Some? <==> a.stop.FetchFailed?)
    ensures Fetched(a).None? ==> a.Finish? && a.query == query && a.state == st
    ensures 1 <= requestCount <= OffsetLimit && Fetched(a).Some? ==>
      var f := Fetched(a).value;
      && page.groups != []
      && f.offset == WindowOffset(requestCount, 0)
      && (f.offset == 0 ==> NextAnchor(query, page) == Ok(f.query))
      && (f.offset != 0 ==> f.query == query)
      && (a.Continue? ==> a.count == requestCount % OffsetLimit + 1 && 1 <= a.count <= OffsetLimit)
  {
    if page.groups == [] then Finish(Exhausted, st, query, None)
    else
      var anchored := if requestCount >= OffsetLimit then NextAnchor(query, page) else Ok(query);
      match anchored
      case Err(fault) => Finish(AnchorFailed(fault), st, query, None)
      case Ok(q) =>
        var count := (if requestCount >= OffsetLimit then 0 else requestCount) + 1;
        var f := Fetch(q, (count - 1) * PageSize);
        var r := Search(st, FetchUrl(f));
        match r.result
        case Err(fault) => Finish(FetchFailed(fault), r.state, q, Some(f))
        case Ok(next) => Continue(r.state, f, next, count)
  }

  /** The offset of the request made `j` requests after a window position
      of `requestCount`. */
  function WindowOffset(requestCount: int, j: int): int {
    PageSize * ((requestCount + j) % OffsetLimit)
  }

  /** The loop from the point where `page` has just arrived and
      `requestCount` requests of the current window are done. `pages` and
      `fetches` are what earlier iterations produced. */
  function Paginate(st: State, query: string, page: Page, requestCount: int,
                    pages: seq<Page>, fetches: seq<Fetch>): Run
    decreases |st.script|
  {
    match Step(st, query, page, requestCount)
    case Finish(stop, st1, q, fetched) =>
      Run(st1, q, pages + [page], fetches + (if fetched.Some? then [fetched.value] else []), stop)
    case Continue(st1, f, next, count) =>
      Paginate(st1, f.query, next, count, pages + [page], fetches + [f])
  }

  /** How `retrieve_query_results` ends: an exception it lets escape, or
      a run of its loop. */
  datatype Retrieval = Raised(fault: Fault, state: State) | Ran(run: Run)

  /** `retrieve_query_results`: no query raises; the first search runs
      outside the `try`, so its failure escapes; after it the loop runs
      with one request done. */
  function Retrieve(st: State, query: Option<string>): Retrieval {
    if query.None? then Raised(Fault.NoQuerySet, st)
    else
      var r := Search(st, query.value);
      match r.result
      case Err(fault) => Raised(fault, r.state)
      case Ok(page) => Ran(Paginate(r.state, query.value, page, 1, [], []))
  }

  /** `total_request_count` at the end of a run: the first request and
      one per fetch. */
  function TotalRequests(run: Run): nat {
    1 + |run.fetches|
  }

  /** Every line the run writes, page after page. */
  function AllLines(pages: seq<Page>): seq<string>
    decreases |pages|
  {
    if pages == [] then [] else AllLines(pages[..|pages| - 1]) + Dumped(pages[|pages| - 1].groups)
  }

  // ---------------------------------------------------------------------
  // What a run keeps from the earlier iterations
  // ---------------------------------------------------------------------

  /** The loop only ever adds: earlier pages and fetches stay as they were,
      and there is one fetch per page but the last, plus one for a failed
      request. */
  lemma {:induction false} PaginateExtends(st: State, query: string, page: Page, requestCount: int,
                                           pages: seq<Page>, fetches: seq<Fetch>)
    requires |pages| == |fetches|
    ensures var r := Paginate(st, query, page, requestCount, pages, fetches);
      && |r.pages| > |pages| && r.pages[..|pages| + 1] == pages + [page]
      && |r.fetches| >= |fetches| && r.fetches[..|fetches|] == fetches
      && |r.pages| == |r.fetches| + (if r.stop.FetchFailed? then 0 else 1)
    decreases |st.script|
  {
    var a := Step(st, query, page, requestCount);
    if a.Continue? {
      var pages1, fetches1 := pages + [page], fetches + [a.fetch];
      PaginateExtends(a.state, a.fetch.query, a.next, a.count, pages1, fetches1);
      var run := Paginate(st, query, page, requestCount, pages, fetches);
      assert run.pages[..|pages| + 1] == run.pages[..|pages1| + 1][..|pages| + 1];
      assert run.fetches[..|fetches|] == run.fetches[..|fetches1|][..|fetches|];
    }
  }

  /** From index `from` on, every page of `r` but the last had messages,
      and the run ended as exhausted exactly when the last page was empty. */
  predicate StopsAtEmpty(r: Run, from: nat) {
    && |r.pages| > from
    && (forall i :: from <= i < |r.pages| - 1 ==> r.pages[i].groups != [])
    && (r.stop.Exhausted? <==> r.pages[|r.pages| - 1].groups == [])
  }

  /** The loop stops at the first empty page: every page before the last
      had messages, and the run ended as exhausted exactly when the last
      page was empty. */
  lemma {:induction false} StopsAtFirstEmptyPage(st: State, query: string, page: Page, requestCount: int,
                                                 pages: seq<Page>, fetches: seq<Fetch>)
    requires |pages| == |fetches|
    ensures StopsAtEmpty(Paginate(st, query, page, requestCount, pages, fetches), |pages|)
    decreases |st.script|
  {
    var a := Step(st, query, page, requestCount);
    var run := Paginate(st, query, page, requestCount, pages, fetches);
    if a.Continue? {
      var pages1, fetches1 := pages + [page], fetches + [a.fetch];
      var rest := Paginate(a.state, a.fetch.query, a.next, a.count, pages1, fetches1);
      assert run == rest;
      StopsAtFirstEmptyPage(a.state, a.fetch.query, a.next, a.count, pages1, fetches1);
      PaginateExtends(a.state, a.fetch.query, a.next, a.count, pages1, fetches1);
      forall i | |pages| <= i < |rest.pages| - 1 ensures rest.pages[i].groups != [] {
        if i == |pages| {
          assert rest.pages[..|pages1| + 1][i] == page;
        }
      }
    } else {
      assert run.pages == pages + [page];
    }
  }

  // ---------------------------------------------------------------------
  // The offset window
  // ---------------------------------------------------------------------

  /** The fetches of `r` from index `from` on climb by one page per
      request from window position `requestCount`, wrapping to zero every
      `OffsetLimit` requests. */
  predicate FollowsWindow(r: Run, from: nat, requestCount: int) {
    forall j :: from <= j < |r.fetches| ==> r.fetches[j].offset == WindowOffset(requestCount, j - from)
  }

  /** Inside a run the offsets climb by one page per request and wrap to
      zero every `OffsetLimit` requests: the `j`-th fetch of the loop uses
      offset `25 * ((requestCount + j) % 400)`. */
  lemma {:induction false} OffsetsFollowWindow(st: State, query: string, page: Page, requestCount: int,
                                               pages: seq<Page>, fetches: seq<Fetch>)
    requires |pages| == |fetches|
    requires 1 <= requestCount <= OffsetLimit
    ensures FollowsWindow(Paginate(st, query, page, requestCount, pages, fetches), |fetches|, requestCount)
    decreases |st.script|
  {
    PaginateExtends(st, query, page, requestCount, pages, fetches);
    var a := Step(st, query, page, requestCount);
    var run := Paginate(st, query, page, requestCount, pages, fetches);
    if a.Continue? {
      var pages1, fetches1 := pages + [page], fetches + [a.fetch];
      OffsetsFollowWindow(a.state, a.fetch.query, a.next, a.count, pages1, fetches1);
      PaginateExtends(a.state, a.fetch.query, a.next, a.count, pages1, fetches1);
      forall j | |fetches| <= j < |run.fetches|
        ensures run.fetches[j].offset == WindowOffset(requestCount, j - |fetches|)
      {
        if j == |fetches| {
          assert run.fetches[j] == run.fetches[..|fetches1|][j];
        } else {
          WrapShift(requestCount, j - |fetches|);
        }
      }
    }
  }

  lemma WrapShift(requestCount: int, k: int)
    requires 1 <= requestCount <= OffsetLimit && k >= 1
    ensures WindowOffset(requestCount % OffsetLimit + 1, k - 1) == WindowOffset(requestCount, k)
  {
    if requestCount == OffsetLimit {
      assert requestCount + k == k + OffsetLimit;
    }
  }

  /** Every offset is a whole number of pages from 0 up to 9975, the last
      one the window allows. */
  lemma OffsetBounds(requestCount: int, j: int)
    ensures 0 <= WindowOffset(requestCount, j) <= PageSize * (OffsetLimit - 1)
    ensures WindowOffset(requestCount, j) % PageSize == 0
  {
  }

  predicate OffsetsBounded(r: Run) {
    forall j :: 0 <= j < |r.fetches| ==> 0 <= r.fetches[j].offset <= 9975
  }

  /** A run of the loop: the `j`-th fetch uses offset `25 * ((j + 1) % 400)`,
      so the first uses 25, the one after every 400 requests goes back to
      0, and none goes past 9975. */
  lemma RetrieveOffsets(st: State, query: string)
    ensures Retrieve(st, Some(query)).Ran? ==> FollowsWindow(Retrieve(st, Some(query)).run, 0, 1)
    ensures Retrieve(st, Some(query)).Ran? ==> OffsetsBounded(Retrieve(st, Some(query)).run)
  {
    var s := Search(st, query);
    if s.result.Ok? {
      var noPages: seq<Page>, noFetches: seq<Fetch> := [], [];
      OffsetsFollowWindow(s.state, query, s.result.value, 1, noPages, noFetches);
      var run := Paginate(s.state, query, s.result.value, 1, noPages, noFetches);
      assert Retrieve(st, Some(query)) == Ran(run);
      forall j | 0 <= j < |run.fetches|
        ensures 0 <= run.fetches[j].offset <= 9975
      {
        OffsetBounds(1, j);
      }
    }
  }

  // ---------------------------------------------------------------------
  // Re-anchoring
  // ---------------------------------------------------------------------

  /** The query the `j`-th fetch of `r` started from: `query` for the
      first, the previous fetch's query after that. */
  function QueryBefore(r: Run, j: int, query: string): string
    requires 0 <= j <= |r.fetches|
  {
    if j == 0 then query else r.fetches[j - 1].query
  }

  /** The `j`-th fetch of `r` follows a page with messages; at offset 0 it
      carries the query re-anchored on that page, at any other offset the
      query of the fetch before. */
  predicate AnchoredAt(r: Run, j: nat, query: string)
    requires j < |r.fetches|
  {
    && j < |r.pages|
    && r.pages[j].groups != []
    && (r.fetches[j].offset == 0 ==> NextAnchor(QueryBefore(r, j, query), r.pages[j]) == Ok(r.fetches[j].query))
    && (r.fetches[j].offset != 0 ==> r.fetches[j].query == QueryBefore(r, j, query))
  }

  /** From index `from` on, every fetch of `r` is anchored as above. */
  predicate AnchorsAtWindowStart(r: Run, from: nat, query: string) {
    forall j: nat :: from <= j < |r.fetches| ==> AnchoredAt(r, j, query)
  }

  /** The fetch at index `n` extends the property from `n + 1` down to `n`
      when it follows a page with messages and carries that page's anchor
      or the query before it. */
  lemma AnchorsExtend(run: Run, n: nat, query: string)
    requires n < |run.fetches|
    requires n > 0 ==> run.fetches[n - 1].query == query
    requires AnchoredAt(run, n, query)
    requires AnchorsAtWindowStart(run, n + 1, run.fetches[n].query)
    ensures AnchorsAtWindowStart(run, n, query)
  {
    forall j: nat | n < j < |run.fetches| ensures AnchoredAt(run, j, query) {
      assert AnchoredAt(run, j, run.fetches[n].query);
      assert QueryBefore(run, j, query) == QueryBefore(run, j, run.fetches[n].query);
    }
  }

  /** A fetch at offset 0 follows a re-anchoring on the first message of
      the last group of the page before it; any other fetch keeps the
      query of the one before. */
  lemma {:induction false} ReanchorsAtWindowStart(st: State, query: string, page: Page, requestCount: int,
                                                  pages: seq<Page>, fetches: seq<Fetch>)
    requires |pages| == |fetches|
    requires fetches != [] ==> query == fetches[|fetches| - 1].query
    requires 1 <= requestCount <= OffsetLimit
    ensures AnchorsAtWindowStart(Paginate(st, query, page, requestCount, pages, fetches), |fetches|, query)
    decreases |st.script|
  {
    var a := Step(st, query, page, requestCount);
    var run := Paginate(st, query, page, requestCount, pages, fetches);
    var n := |fetches|;
    if a.Continue? {
      var pages1, fetches1 := pages + [page], fetches + [a.fetch];
      assert Fetched(a) == Some(a.fetch);
      assert run == Paginate(a.state, a.fetch.query, a.next, a.count, pages1, fetches1);
      ReanchorsAtWindowStart(a.state, a.fetch.query, a.next, a.count, pages1, fetches1);
      PaginateExtends(a.state, a.fetch.query, a.next, a.count, pages1, fetches1);
      assert run.pages[..n + 1] == run.pages[..n + 2][..n + 1];
      AnchoredNext(run, pages, fetches, page, a.fetch, query);
      AnchorsExtend(run, n, query);
    } else if a.fetched.Some? {
      assert run == Run(a.state, a.query, pages + [page], fetches + [a.fetched.value], a.stop);
      assert run.pages[..n + 1] == run.pages && run.fetches[..n + 1] == run.fetches;
      AnchoredNext(run, pages, fetches, page, a.fetched.value, query);
    } else {
      assert run.fetches == fetches;
    }
  }

  /** The fetch made after `page`, recorded at index `|fetches|`, is
      anchored when the step that made it was. */
  lemma AnchoredNext(run: Run, pages: seq<Page>, fetches: seq<Fetch>, page: Page, f: Fetch, query: string)
    requires |pages| == |fetches|
    requires |run.pages| > |pages| && run.pages[..|pages| + 1] == pages + [page]
    requires |run.fetches| > |fetches| && run.fetches[..|fetches| + 1] == fetches + [f]
    requires fetches != [] ==> query == fetches[|fetches| - 1].query
    requires page.groups != []
    requires f.offset == 0 ==> NextAnchor(query, page) == Ok(f.query)
    requires f.offset != 0 ==> f.query == query
    ensures AnchoredAt(run, |fetches|, query)
    ensures |fetches| > 0 ==> run.fetches[|fetches| - 1].query == query
  {
    var n := |fetches|;
    assert run.pages[n] == run.pages[..n + 1][n];
    assert run.fetches[n] == run.fetches[..n + 1][n];
    if n > 0 {
      assert run.fetches[n - 1] == run.fetches[..n + 1][n - 1];
    }
    assert QueryBefore(run, n, query) == query;
  }

  // ---------------------------------------------------------------------
  // The error budget over a run
  // ---------------------------------------------------------------------

  /** A step that made a request made it through one search, from the
      state the step started in; the step continues with that search's page
      or finishes with its fault. */
  lemma StepSearch(st: State, query: string, page: Page, requestCount: int)
    ensures var a := Step(st, query, page, requestCount);
      Fetched(a).Some? ==>
        var r := Search(st, FetchUrl(Fetched(a).value));
        && a.state == r.state
        && (a.Continue? ==> r.result == Ok(a.next))
        && (a.Finish? ==> r.result == Err(a.stop.fault))
  {
  }

  /** `error_count` is set once, in `__init__`, and never reset: over a
      whole run it grows by exactly the error responses consumed by all
      the searches together, and the run leaves a suffix of the responses. */
  lemma {:induction false} PaginateCountsErrors(st: State, query: string, page: Page, requestCount: int,
                                                pages: seq<Page>, fetches: seq<Fetch>)
    ensures Consumed(st, Paginate(st, query, page, requestCount, pages, fetches).state)
    decreases |st.script|
  {
    var a := Step(st, query, page, requestCount);
    StepSearch(st, query, page, requestCount);
    if Fetched(a).Some? {
      SearchConsumes(st, FetchUrl(Fetched(a).value));
    } else {
      ConsumedNothing(st);
    }
    if a.Continue? {
      var pages1, fetches1 := pages + [page], fetches + [a.fetch];
      var run := Paginate(a.state, a.fetch.query, a.next, a.count, pages1, fetches1);
      assert Paginate(st, query, page, requestCount, pages, fetches) == run;
      PaginateCountsErrors(a.state, a.fetch.query, a.next, a.count, pages1, fetches1);
      ConsumedCompose(st, a.state, run.state);
    }
  }

  /** The error budget holds over a whole run, not just one search: from a
      count below `MaxError` the count never passes it, and it reaches it
      exactly when the run stops on `Max errors reached`. Errors on
      different pages add up toward that one budget. */
  lemma {:induction false} PaginateKeepsBudget(st: State, query: string, page: Page, requestCount: int,
                                               pages: seq<Page>, fetches: seq<Fetch>)
    requires st.errorCount < MaxError
    ensures var r := Paginate(st, query, page, requestCount, pages, fetches);
      && st.errorCount <= r.state.errorCount <= MaxError
      && (r.state.errorCount == MaxError <==> r.stop == FetchFailed(MaxErrorsReached))
    decreases |st.script|
  {
    var a := Step(st, query, page, requestCount);
    StepSearch(st, query, page, requestCount);
    if Fetched(a).Some? {
      SearchKeepsBudget(st, FetchUrl(Fetched(a).value));
    }
    if a.Continue? {
      var pages1, fetches1 := pages + [page], fetches + [a.fetch];
      assert Paginate(st, query, page, requestCount, pages, fetches)
          == Paginate(a.state, a.fetch.query, a.next, a.count, pages1, fetches1);
      PaginateKeepsBudget(a.state, a.fetch.query, a.next, a.count, pages1, fetches1);
    }
  }

  /** The transport state `retrieve_query_results` leaves behind, whether
      it raised or ran its loop. */
  function FinalState(r: Retrieval): State {
    if r.Raised? then r.state else r.run.state
  }

  /** Whether `retrieve_query_results` ended on `Max errors reached`,
      escaping from the first search or caught inside the loop. */
  predicate EndedOnMaxErrors(r: Retrieval) {
    if r.Raised? then r.fault == MaxErrorsReached else r.run.stop == FetchFailed(MaxErrorsReached)
  }

  /** Over a whole `retrieve_query_results` call, the first search
      included, the error count grows by the error responses consumed by
      every search, and the responses left are a suffix of those given. */
  lemma RetrieveCountsErrors(st: State, query: Option<string>)
    ensures Consumed(st, FinalState(Retrieve(st, query)))
  {
    if query.None? {
      ConsumedNothing(st);
    } else {
      var r := Search(st, query.value);
      SearchConsumes(st, query.value);
      if r.result.Ok? {
        var run := Paginate(r.state, query.value, r.result.value, 1, [], []);
        PaginateCountsErrors(r.state, query.value, r.result.value, 1, [], []);
        ConsumedCompose(st, r.state, run.state);
      }
    }
  }

  /** The budget over a whole `retrieve_query_results` call: starting
      below `MaxError`, the count ends at most at `MaxError`, and at it
      exactly when the call ended on `Max errors reached`. */
  lemma RetrieveKeepsBudget(st: State, query: Option<string>)
    requires st.errorCount < MaxError
    ensures var r := Retrieve(st, query);
      && st.errorCount <= FinalState(r).errorCount <= MaxError
      && (FinalState(r).errorCount == MaxError <==> EndedOnMaxErrors(r))
  {
    if query.Some? {
      var r := Search(st, query.value);
      SearchKeepsBudget(st, query.value);
      if r.result.Ok? {
        PaginateKeepsBudget(r.state, query.value, r.result.value, 1, [], []);
      }
    }
  }

  // ---------------------------------------------------------------------
  // The output file
  // ---------------------------------------------------------------------

  lemma AllLinesSnoc(pages: seq<Page>, page: Page)
    ensures AllLines(pages + [page]) == AllLines(pages) + Dumped(page.groups)
  {
    assert (pages + [page])[..|pages|] == pages;
  }

  /** Each page adds its lines after the ones already written. */
  lemma AppendPage(before: string, pages: seq<Page>, page: Page)
    ensures before + JsonLines(AllLines(pages)) + PageText(page.groups)
         == before + JsonLines(AllLines(pages + [page]))
  {
    AllLinesSnoc(pages, page);
    JsonLinesAppend(AllLines(pages), Dumped(page.groups));
    PageTextIsJsonLines(page.groups);
  }

  predicate PagesOneLine(pages: seq<Page>) {
    forall i :: 0 <= i < |pages| ==> MessagesOneLine(pages[i].groups)
  }

  lemma {:induction false} AllLinesOneLine(pages: seq<Page>)
    requires PagesOneLine(pages)
    ensures forall i :: 0 <= i < |AllLines(pages)| ==> OneLine(AllLines(pages)[i])
    decreases |pages|
  {
    if pages != [] {
      var init, last := pages[..|pages| - 1], pages[|pages| - 1];
      assert PagesOneLine(init) by {
        forall i | 0 <= i < |init| ensures MessagesOneLine(init[i].groups) {
          assert init[i] == pages[i];
        }
      }
      AllLinesOneLine(init);
      var dumped := Dumped(last.groups);
      forall i | 0 <= i < |dumped| ensures OneLine(dumped[i]) {
        DumpsOneLine(last.groups[i]);
      }
    }
  }

  /** A file that held JSON lines still holds them after a run, followed
      by one line per message group of every page received, in order. */
  lemma RunKeepsJsonLines(before: seq<string>, pages: seq<Page>)
    requires forall i :: 0 <= i < |before| ==> OneLine(before[i])
    requires PagesOneLine(pages)
    ensures SplitLines(JsonLines(before) + JsonLines(AllLines(pages))) == before + AllLines(pages)
  {
    AllLinesOneLine(pages);
    JsonLinesAppend(before, AllLines(pages));
    JsonLinesReadBack(before + AllLines(pages));
  }
}
