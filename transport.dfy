/** The retry loop of `DiscordSearcher.search` (scraper.py, lines 140-173)
    over a scripted network: the responses the server would give, in
    order, stand for `requests.get`. */
module Transport {
  import opened Wrappers
  import opened Output

  /** `self.MAX_ERROR`. */
  const MaxError: int := 5

  /** The fixed back-off after an error status, in seconds. */
  const ErrorDelay: real := 5.0

  const StatusOk: int := 200
  const StatusTooManyRequests: int := 429

  /** What one `requests.get` call yields: a response with its status, the
      `retry_after` of a 429 body and the decoded body of a 200, or a
      `KeyboardInterrupt` while waiting. */
  datatype Event = Reply(status: int, retryAfter: real, body: Page) | Interrupt

  /** Why a search did not return a page. */
  datatype Fault =
    | MaxErrorsReached   // `raise Exception("Max errors reached")`
    | ConnectionLost     // no response left: `requests` raises
    | KeyboardInterrupt
    | NoQuerySet         // `ValueError("No query set")`
    | EmptyLastGroup     // `result["messages"][-1][0]` raises `IndexError`
    | CursorUnassigned   // `query.index("min_id=")` raises `ValueError`

  /** The searcher's error budget together with the world it talks to: the
      responses still to come, the URLs requested so far and the sleeps
      taken so far. */
  datatype State = State(errorCount: int, script: seq<Event>, sent: seq<string>, sleeps: seq<real>)

  datatype SearchResult = SearchResult(result: Result<Page, Fault>, state: State)

  function Repeat(url: string, n: nat): (r: seq<string>)
    ensures |r| == n && forall i :: 0 <= i < n ==> r[i] == url
  {
    seq(n, i => url)
  }

  /** `search(url)`: request until a 200 arrives. A 429 sleeps for its
      `retry_after` and retries without counting; any other status counts
      one error, raises once the count equals `MaxError`, and otherwise
      sleeps five seconds and retries. */
  function Search(st: State, url: string): (r: SearchResult)
    ensures |r.state.script| <= |st.script|
    ensures r.result.Ok? ==> |r.state.script| < |st.script|
    decreases |st.script|
  {
    if st.script == [] then SearchResult(Err(ConnectionLost), st)
    else
      var next := st.(script := st.script[1..], sent := st.sent + [url]);
      match st.script[0]
      case Interrupt => SearchResult(Err(KeyboardInterrupt), next)
      case Reply(status, retryAfter, body) =>
        if status == StatusTooManyRequests then
          Search(next.(sleeps := st.sleeps + [retryAfter]), url)
        else if status == StatusOk then
          SearchResult(Ok(body), next)
        else if st.errorCount + 1 == MaxError then
          SearchResult(Err(MaxErrorsReached), next.(errorCount := st.errorCount + 1))
        else
          Search(next.(errorCount := st.errorCount + 1, sleeps := st.sleeps + [ErrorDelay]), url)
  }

  /** A search consumes responses from the front of the script and sends
      one request per response consumed. */
  lemma {:induction false} SearchFrame(st: State, url: string)
    ensures var r := Search(st, url);
      && r.state.script == st.script[|st.script| - |r.state.script|..]
      && r.state.sent == st.sent + Repeat(url, |st.script| - |r.state.script|)
    decreases |st.script|
  {
    if st.script != [] {
      var next := st.(script := st.script[1..], sent := st.sent + [url]);
      match st.script[0]
      case Interrupt =>
      case Reply(status, retryAfter, body) =>
        if status == StatusTooManyRequests {
          var st1 := next.(sleeps := st.sleeps + [retryAfter]);
          SearchFrame(st1, url);
          assert st.sent + Repeat(url, |st.script| - |Search(st, url).state.script|)
              == st1.sent + Repeat(url, |st1.script| - |Search(st1, url).state.script|);
        } else if status != StatusOk && st.errorCount + 1 != MaxError {
          var st1 := next.(errorCount := st.errorCount + 1, sleeps := st.sleeps + [ErrorDelay]);
          SearchFrame(st1, url);
          assert st.sent + Repeat(url, |st.script| - |Search(st, url).state.script|)
              == st1.sent + Repeat(url, |st1.script| - |Search(st1, url).state.script|);
        } else {
          assert Repeat(url, 1) == [url];
        }
    }
  }

  /** The responses a search consumed, in order. */
  function Taken(st: State, url: string): (taken: seq<Event>)
    ensures |taken| <= |st.script| && taken == st.script[..|taken|]
    ensures Search(st, url).state.script == st.script[|taken|..]
  {
    SearchFrame(st, url);
    st.script[..|st.script| - |Search(st, url).state.script|]
  }

  /** A response that counts against the error budget. */
  predicate IsError(e: Event) {
    e.Reply? && e.status != StatusOk && e.status != StatusTooManyRequests
  }

  function CountErrors(events: seq<Event>): (n: nat)
    ensures n <= |events|
  {
    if events == [] then 0 else (if IsError(events[0]) then 1 else 0) + CountErrors(events[1..])
  }

  /** The pause after a retried response: its `retry_after` for a 429,
      five seconds for an error. */
  function BackOff(e: Event): real
    requires e.Reply?
  {
    if e.status == StatusTooManyRequests then e.retryAfter else ErrorDelay
  }

  /** The search state after the first scripted response, when that
      response is retried. */
  function Retry(st: State, url: string): State
    requires st.script != [] && st.script[0].Reply?
  {
    var e := st.script[0];
    var next := st.(script := st.script[1..], sent := st.sent + [url]);
    if e.status == StatusTooManyRequests then next.(sleeps := st.sleeps + [e.retryAfter])
    else next.(errorCount := st.errorCount + 1, sleeps := st.sleeps + [ErrorDelay])
  }

  predicate Retried(st: State) {
    st.script != [] && st.script[0].Reply?
    && (st.script[0].status == StatusTooManyRequests
        || (st.script[0].status != StatusOk && st.errorCount + 1 != MaxError))
  }

  lemma RetryStep(st: State, url: string)
    requires Retried(st)
    ensures Search(st, url) == Search(Retry(st, url), url)
    ensures Taken(st, url) == [st.script[0]] + Taken(Retry(st, url), url)
  {
    var st1 := Retry(st, url);
    var k := |Taken(st1, url)|;
    assert st.script[..k + 1] == [st.script[0]] + st1.script[..k];
  }

  lemma StopStep(st: State, url: string)
    requires st.script != [] && !Retried(st)
    ensures Taken(st, url) == [st.script[0]]
  {
  }

  /** 429s leave the error count alone; every other non-200 a search
      consumed adds exactly one. */
  lemma {:induction false} SearchCountsErrors(st: State, url: string)
    ensures Search(st, url).state.errorCount == st.errorCount + CountErrors(Taken(st, url))
    decreases |st.script|
  {
    if Retried(st) {
      RetryStep(st, url);
      SearchCountsErrors(Retry(st, url), url);
    } else if st.script != [] {
      StopStep(st, url);
      assert [st.script[0]][1..] == [];
    }
  }

  /** Every response a search consumed except the last was a non-200 that
      was retried; the result is the body of that last response when it is
      a 200, and says why no 200 came otherwise. */
  lemma {:induction false} SearchReturnsFirstSuccess(st: State, url: string)
    ensures var r := Search(st, url); var taken := Taken(st, url);
      && (forall i :: 0 <= i < |taken| - 1 ==> taken[i].Reply? && taken[i].status != StatusOk)
      && (r.result.Ok? <==> taken != [] && taken[|taken| - 1].Reply? && taken[|taken| - 1].status == StatusOk)
      && (r.result.Ok? ==> r.result.value == taken[|taken| - 1].body)
      && (r.result == Err(KeyboardInterrupt) <==> taken != [] && taken[|taken| - 1].Interrupt?)
      && (r.result == Err(ConnectionLost) ==> r.state.script == [])
      && (r.result.Err? ==> r.result.error in {MaxErrorsReached, ConnectionLost, KeyboardInterrupt})
    decreases |st.script|
  {
    if Retried(st) {
      var st1 := Retry(st, url);
      RetryStep(st, url);
      SearchReturnsFirstSuccess(st1, url);
      var taken1 := Taken(st1, url);
      assert Search(st1, url).result.Ok? ==> taken1 != [];
      assert Search(st1, url).result == Err(KeyboardInterrupt) ==> taken1 != [];
    } else if st.script != [] {
      StopStep(st, url);
    }
  }

  /** Each retried response is followed by its back-off, in order, and
      nothing else is slept. */
  lemma {:induction false} SearchSleeps(st: State, url: string)
    ensures var r := Search(st, url); var taken := Taken(st, url);
      && |st.sleeps| <= |r.state.sleeps| <= |st.sleeps| + |taken|
      && r.state.sleeps[..|st.sleeps|] == st.sleeps
      && (r.result.Ok? ==> |r.state.sleeps| == |st.sleeps| + |taken| - 1)
      && (forall i :: 0 <= i < |r.state.sleeps| - |st.sleeps| ==>
            taken[i].Reply? && r.state.sleeps[|st.sleeps| + i] == BackOff(taken[i]))
    decreases |st.script|
  {
    if Retried(st) {
      var st1 := Retry(st, url);
      RetryStep(st, url);
      SearchSleeps(st1, url);
      var r := Search(st, url);
      var taken := Taken(st, url);
      assert r.state.sleeps[..|st1.sleeps|] == st1.sleeps;
      forall i | 0 <= i < |r.state.sleeps| - |st.sleeps|
        ensures taken[i].Reply? && r.state.sleeps[|st.sleeps| + i] == BackOff(taken[i])
      {
        if i == 0 {
          assert r.state.sleeps[|st.sleeps|] == st1.sleeps[|st.sleeps|];
        } else {
          assert taken[i] == Taken(st1, url)[i - 1];
        }
      }
    } else if st.script != [] {
      StopStep(st, url);
    }
  }

  /** Counting errors is additive over consecutive stretches of responses. */
  lemma {:induction false} CountErrorsAppend(a: seq<Event>, b: seq<Event>)
    ensures CountErrors(a + b) == CountErrors(a) + CountErrors(b)
    decreases |a|
  {
    if a == [] {
      assert a + b == b;
    } else {
      assert (a + b)[0] == a[0] && (a + b)[1..] == a[1..] + b;
      CountErrorsAppend(a[1..], b);
    }
  }

  /** `after` is `before` with some responses consumed from the front of
      the script, and the error count grown by exactly the errors among
      them. */
  predicate Consumed(before: State, after: State) {
    var k := |before.script| - |after.script|;
    && 0 <= k
    && after.script == before.script[k..]
    && after.errorCount == before.errorCount + CountErrors(before.script[..k])
  }

  lemma ConsumedNothing(st: State)
    ensures Consumed(st, st)
  {
    assert st.script[..0] == [];
  }

  /** Two stretches of consumption in a row make one: the errors add up. */
  lemma ConsumedCompose(s0: State, s1: State, s2: State)
    requires Consumed(s0, s1) && Consumed(s1, s2)
    ensures Consumed(s0, s2)
  {
    var k1, k2 := |s0.script| - |s1.script|, |s1.script| - |s2.script|;
    assert s0.script[..k1 + k2] == s0.script[..k1] + s1.script[..k2];
    CountErrorsAppend(s0.script[..k1], s1.script[..k2]);
  }

  /** A search leaves a suffix of the responses, and its error count grows
      by the errors among the responses it consumed. */
  lemma SearchConsumes(st: State, url: string)
    ensures Consumed(st, Search(st, url).state)
  {
    var taken := Taken(st, url);
    SearchCountsErrors(st, url);
  }

  /** The error budget: starting below `MaxError`, a search never takes the
      count past it, and it raises exactly when the count reaches it. */
  lemma {:induction false} SearchKeepsBudget(st: State, url: string)
    requires st.errorCount < MaxError
    ensures var r := Search(st, url);
      && st.errorCount <= r.state.errorCount <= MaxError
      && (r.state.errorCount == MaxError <==> r.result == Err(MaxErrorsReached))
    decreases |st.script|
  {
    if Retried(st) {
      RetryStep(st, url);
      SearchKeepsBudget(Retry(st, url), url);
    }
  }

  /** The budget is never reset and the check is an equality, so once a
      searcher has spent it, later searches count errors past `MaxError`
      and never raise for them. */
  lemma {:induction false} SpentBudgetNeverRaises(st: State, url: string)
    requires st.errorCount >= MaxError
    ensures Search(st, url).result != Err(MaxErrorsReached)
    decreases |st.script|
  {
    if Retried(st) {
      RetryStep(st, url);
      SpentBudgetNeverRaises(Retry(st, url), url);
    }
  }

  predicate AllErrors(events: seq<Event>) {
    forall i :: 0 <= i < |events| ==> IsError(events[i])
  }

  /** Errors in a row use up the rest of the budget: the search raises on
      the response that brings the count to `MaxError`, having requested
      exactly that many. */
  lemma {:induction false} ErrorsExhaustBudget(st: State, url: string)
    requires st.errorCount < MaxError
    requires |st.script| >= MaxError - st.errorCount && AllErrors(st.script)
    ensures var r := Search(st, url);
      && r.result == Err(MaxErrorsReached)
      && r.state.errorCount == MaxError
      && |Taken(st, url)| == MaxError - st.errorCount
    decreases |st.script|
  {
    assert IsError(st.script[0]);
    if Retried(st) {
      var st1 := Retry(st, url);
      assert AllErrors(st1.script) by {
        forall i | 0 <= i < |st1.script| ensures IsError(st1.script[i]) {
          assert st1.script[i] == st.script[i + 1];
        }
      }
      RetryStep(st, url);
      ErrorsExhaustBudget(st1, url);
    } else {
      StopStep(st, url);
    }
  }
}
