# DiscordSearchScraper in Dafny

A model of `scraper.py`, the Discord message-search scraper. The model covers
`DiscordSearcher` and the three module-level snowflake helpers.

- A searcher is built from a guild id, a token (falling back on the
  `DISCORD_TOKEN` environment variable), an optional search text, channel,
  output path and `after`/`before` snowflake bounds.
- It works out its output file and builds its search URL.
- It then pages through the search results, appending one JSON line per
  message group to the output file.
- It offsets through the results 25 at a time. Every 400 requests it moves
  the query's `min_id` lower bound to the id of the first message of the
  last group on the page and starts the offset again from 0.

The Dafny modules follow that structure:

| file | module | what it holds |
|---|---|---|
| `wrappers.dfy` | `Wrappers` | `Option` and `Result` |
| `strings.dfy` | `Strings` | the string built-ins the code relies on: `in`, `str.index`, `str.replace` (empty pattern included), `str.join`, decimal `str`/`int` |
| `snowflake.dfy` | `Snowflake` | `is_snowflake`, `to_datetime`, `to_snowflake` |
| `query.dfy` | `Query` | the parameter dictionary of `form_search_query`, the URL encoding `requests` applies to it, and the string surgery of `_update_query_params` |
| `output.dfy` | `Output` | `str.split`, `generate_filename`, the output-path decision of `set_output`, and the JSON-lines text `append_message` writes |
| `transport.dfy` | `Transport` | the retry loop of `search` over a scripted sequence of server responses |
| `pagination.dfy` | `Pagination` | the paging loop of `retrieve_query_results` as a function of the responses, with its offset window and re-anchoring |
| `searcher.dfy` | `Searcher` | the class `DiscordSearcher`, whose methods update its fields in place and are proved against the functions above |

The world the searcher acts on is part of the `DiscordSearcher` object. It
holds:

- the files on disk (a map from path to text) and the directories;
- the responses `requests.get` will give, in order;
- the URLs requested;
- the sleeps taken.

## Model

| member | source | states |
|---|---|---|
| Snowflake.IsSnowflake | scraper.py:29-32 | `re.match(r"^\d{17,19}$", s)` holds exactly for 17 to 19 ASCII digits, or for 17 to 19 digits followed by one final `"\n"`, which `$` lets through |
| Snowflake.DigitsAreSnowflake | scraper.py:29-32 | any run of 17 to 19 digits is accepted, with or without one trailing line break |
| Snowflake.IsSnowflakeRejectsLength | scraper.py:29-32 | 16 digits, 20 digits and the empty string are refused |
| Snowflake.IsSnowflakeRejectsLetters | scraper.py:29-32 | the test suite's strings with a letter, `1234567890123456a` and `abcd12345678901234`, are refused (the general fact is `IsSnowflake`'s contract) |
| Snowflake.IsSnowflakeRejectsPunctuation | scraper.py:29-32 | the test suite's strings with punctuation, `12345678901234567!` and `123-45678901234567`, are refused (the general fact is `IsSnowflake`'s contract) |
| Snowflake.IsSnowflakeAcceptsFinalNewline | scraper.py:29-32 | 18 digits and a trailing `"\n"` are accepted |
| Snowflake.SnowflakeToMillis | scraper.py:17-18 | the creation time in Unix milliseconds: the snowflake shifted right by 22 bits, flooring, plus the epoch |
| Snowflake.MillisToSnowflake | scraper.py:23-25 | the smallest snowflake of a millisecond: the milliseconds since the Discord epoch shifted left by 22 bits |
| Snowflake.DecodeEncode | scraper.py:15-26 | decoding the snowflake `to_snowflake` makes for a millisecond gives that millisecond back |
| Snowflake.EncodeDecode | scraper.py:15-26 | re-encoding a decoded snowflake clears its low 22 bits and nothing else |
| Snowflake.LowBitsIgnored | scraper.py:15-18 | the worker, process and increment bits do not change the decoded time |
| Snowflake.DecodeMonotone | scraper.py:15-18 | a larger snowflake never decodes to an earlier time |
| Snowflake.DecodeAtOrAfterEpoch | scraper.py:15-18 | a non-negative snowflake decodes to the epoch or later, and any snowflake below 2^22 decodes to the epoch itself |
| Snowflake.ToDatetimeMillis | scraper.py:15-18 | `int(snowflake)` failing is the only error; otherwise the snowflake lies in the 2^22-wide window of the millisecond returned, a non-empty run of digits always decodes to the epoch or later, and one below 2^22 decodes to the epoch itself |
| Snowflake.ToSnowflake | scraper.py:21-26 | `to_snowflake` on Unix milliseconds: the decimal text of the encoded millisecond |
| Snowflake.ToDatetimeToSnowflake | scraper.py:15-26 | the string round trip: `to_datetime(to_snowflake(t))` is `t`, to the millisecond |
| Snowflake.ZeroIsTheEpoch | scraper.py:12-26 | snowflake `"0"` is the epoch given, and the Discord epoch encodes to `"0"` |
| Snowflake.ToSnowflakeDigits | scraper.py:21-26 | from the Discord epoch on, `to_snowflake` yields plain digits |
| Query.QuotePlus | scraper.py:137 | `quote_plus` as `urlencode` applies it: each character quoted on its own, a space as `+`, UTF-8 bytes of reserved characters as `%XX` |
| Query.QuotePlusEncoded | scraper.py:137 | every character of an encoded value is unreserved or part of a `%XX` escape |
| Query.QuotePlusConcat | scraper.py:137 | encoding works character by character, so it distributes over concatenation |
| Query.QuotePlusUnreserved | scraper.py:137 | letters, digits and `-._~` pass through encoding unchanged |
| Query.SearchParams | scraper.py:122-135 | the parameter dictionary in insertion order: the three fixed entries, then `content`, `channel_id`, `min_id`, `max_id` for each argument that is not `None` |
| Query.UrlEncode | scraper.py:137 | `urlencode`: each key and value quoted, joined by `=`, and the pairs joined by `&` |
| Query.SearchUrl | scraper.py:121-138 | the stored URL: the guild's search endpoint ending in `?`, then the encoded dictionary |
| Query.LookupSearchParams | scraper.py:119-135 | looking up any key in the dictionary gives the fixed entry, or else the filter argument when it is not `None` |
| Query.SearchParamsLookup | scraper.py:119-135 | the dictionary holds `include_nsfw=true`, `sort_by=timestamp` and `sort_order=asc`, plus exactly the filters given |
| Query.EncodeSearchParams | scraper.py:119-137 | the encoded pairs are the fixed pairs followed by one `key=value` pair per filter given, in insertion order |
| Query.SearchUrlSegments | scraper.py:117-138 | the stored URL is the `&`-joined sequence of the endpoint and first pair, then the remaining pairs |
| Query.UnboundedUrl | scraper.py:117-138 | without bounds the URL ends after the text and channel filters |
| Query.LowerBoundedUrl | scraper.py:117-138 | an `after` bound adds exactly `&min_id=<after>` to the unbounded URL |
| Query.BoundedUrl | scraper.py:117-138 | both bounds add `&min_id=<after>&max_id=<before>`, in that order |
| Query.UnboundedUrlHasNoCursor | scraper.py:117-138 | without bounds, and with no `=` in the guild id, the URL contains neither `min_id=` nor `max_id=` |
| Query.Reanchor | scraper.py:175-183 | `_update_query_params` on the query text: no query is an error; a query mentioning `min_id` has every occurrence of the text after its first `min_id=` replaced by the anchor, or fails when there is no `min_id=`; any other query gets `&min_id=<anchor>` appended |
| Query.ReanchorErrors | scraper.py:175-183 | `_update_query_params` raises exactly when there is no query, or when the query mentions `min_id` but not `min_id=`; a missing query is `No query set` |
| Query.ReanchorAppendsCursor | scraper.py:179-183 | a query without `min_id` gets `&min_id=<anchor>` appended, and that `min_id=` is the first one in the result |
| Query.ReanchorAppendsSegment | scraper.py:182-183 | the appended bound is one more `&`-separated `min_id` pair |
| Query.ReanchorReplacesTail | scraper.py:179-181 | when the text after the first `min_id=` occurs nowhere earlier, it is replaced by the anchor |
| Query.ReanchorTwice | scraper.py:175-183 | re-anchoring a query twice gives the query with the second anchor only |
| Query.ReanchorAddsAfter | scraper.py:175-183 | re-anchoring an unbounded search URL gives the search URL with `after` set to the anchor |
| Query.ReanchorReplacesAfter | scraper.py:175-183 | re-anchoring a URL with a digit `after` bound gives the URL with the anchor as its bound |
| Query.ReanchorLowerBound | scraper.py:179-181 | a trailing `min_id=<digits>` pair, whose digits occur nowhere earlier, has its value replaced by the anchor |
| Query.ReanchorBothBounds | scraper.py:179-181 | with `min_id` followed by `max_id`, everything after `min_id=` is replaced, so the `max_id` pair is lost |
| Query.ReanchorDropsBefore | scraper.py:175-183 | re-anchoring a URL with both bounds gives the URL with the anchor as `after` and no `before` at all |
| Query.ReanchorEmptyCursor | scraper.py:179-181 | when nothing follows `min_id=`, `str.replace("", anchor)` puts the anchor before every character and after the last |
| Query.ReanchorEmptyBound | scraper.py:179-181 | the same for a trailing empty `min_id=` pair: the result's length and its leading anchor |
| Query.ReanchorEmptyAfter | scraper.py:175-183 | an empty `after`, which passes validation, yields `min_id=` with nothing after it, and re-anchoring that URL scatters the anchor through the whole URL |
| Query.ContentSegmentMentionsCursor | scraper.py:137 | a search text containing `min_id` still contains it after encoding |
| Query.ReanchorRejectsCursorWord | scraper.py:175-183 | a search text containing `min_id`, with no bounds, makes re-anchoring raise |
| Query.ReplaceAroundCursor | scraper.py:181 | `replace` on a query ending in `&min_id=<digits>`: the bound becomes the anchor, and every earlier occurrence of the digits is replaced as well |
| Query.ReanchorRewritesEarlier | scraper.py:179-181 | re-anchoring a query without `min_id` followed by a digit bound gives the query with every occurrence of those digits rewritten, then `&min_id=<anchor>` |
| Query.ReanchorCorruptsId | scraper.py:179-181 | an id ending in the old bound's digits is rewritten along with the bound: `channel_id=142&min_id=42` re-anchored on `7` becomes `channel_id=17&min_id=7` |
| Output.WordAt | scraper.py:98 | the leading word is the longest whitespace-free prefix |
| Output.Words | scraper.py:98 | `str.split()` yields only non-empty, whitespace-free words; where it splits is fixed by `Output.WordsCharacterised` |
| Output.WordsKeepText | scraper.py:98 | the words, concatenated, are the text with its whitespace removed |
| Output.WordsLayout | scraper.py:98 | every text is whitespace gaps around its words, with at least one whitespace character between two words |
| Output.LayoutWords | scraper.py:98 | any such layout of a text around non-empty whitespace-free words has exactly the words `str.split()` returns |
| Output.WordsCharacterised | scraper.py:98 | a list of words is the split of a text exactly when the text is laid out around those words |
| Output.SingleWord | scraper.py:98 | a non-empty text without whitespace splits into itself alone |
| Output.SanitizedQuery | scraper.py:98 | the query part of the file name: empty for no query or an empty one, otherwise its words joined by `_` |
| Output.SanitizedQueryShape | scraper.py:98 | the query part of the file name has no whitespace, and a whitespace-free query is kept as it is |
| Output.Stamp | scraper.py:99 | `strftime("%Y%m%d_%H%M%S")` of the clock reading, each field zero-padded |
| Output.StampShape | scraper.py:99 | `strftime("%Y%m%d_%H%M%S")` is 15 characters: 8 digits, `_`, 6 digits |
| Output.StampNoSpace | scraper.py:99 | the stamp holds no whitespace |
| Output.FileName | scraper.py:95-101 | `f"{guild_id}_{query}_{timestamp}.jsonl"` with the sanitised query |
| Output.FileNameParts | scraper.py:95-101 | the file name is the guild id, `_`, the sanitised query, `_`, the stamp and `.jsonl`, and each part can be read back from it |
| Output.FileNameNoSpace | scraper.py:95-101 | the name has no whitespace when the guild id and stamp have none |
| Output.PathJoin | scraper.py:88 | POSIX `os.path.join` of two parts: an absolute second part replaces the first, otherwise one `/` goes between them |
| Output.ResolveOutput | scraper.py:81-93 | the output path `set_output` chooses, and the directory it creates when missing |
| Output.ResolveOutputCases | scraper.py:81-93 | no output gives the generated name; a path ending in `/` gives the generated name inside that directory, which is created when missing; any other path is used as it is |
| Output.AbsoluteGuildEscapesDirectory | scraper.py:86-88 | `os.path.join` discards the directory when the generated name starts with `/`, which a guild id starting with `/` causes |
| Output.Dumps | scraper.py:107 | `json.dumps` of a group: the messages' JSON texts, joined by `, `, in brackets |
| Output.PageText | scraper.py:103-107 | the text one `append_message` call writes: each group's dump followed by a line break, in order |
| Output.SplitLinesCons | scraper.py:103-107 | reading lines back: a line without a break, then a break, is read as that line |
| Output.PageTextReadsBack | scraper.py:103-107 | the text written for one page reads back, line by line, as one `json.dumps` per group |
| Output.JsonLinesAppend | scraper.py:103-107 | appending lines to a file appends their text |
| Output.JsonLinesReadBack | scraper.py:103-107 | lines without breaks, written one per line, read back as the same lines |
| Transport.Search | scraper.py:140-173 | a search only consumes responses, and a page returned consumes at least one |
| Transport.SearchFrame | scraper.py:140-173 | the responses left are a suffix of those given, and the URL is requested once per response consumed |
| Transport.SearchCountsErrors | scraper.py:169-172 | the error count grows by exactly the number of error statuses consumed |
| Transport.SearchReturnsFirstSuccess | scraper.py:142-173 | every response before the last consumed was a 429 or an error; the search returns the body of a 200 exactly when the last one was a 200; an interrupt ends it; otherwise it raises |
| Transport.SearchSleeps | scraper.py:160-173 | one sleep per response before the last: `retry_after` after a 429 and 5 seconds after an error |
| Transport.SearchKeepsBudget | scraper.py:169-172 | below the budget, the count never passes `MAX_ERROR`, and reaching it is exactly `Max errors reached` |
| Transport.SpentBudgetNeverRaises | scraper.py:171-172 | once the count has passed `MAX_ERROR`, the `==` test never fires again |
| Transport.ErrorsExhaustBudget | scraper.py:169-173 | errors in a row raise after exactly the number of requests left in the budget |
| Transport.CountErrorsAppend | scraper.py:168-169 | the error replies counted over two runs of replies add up |
| Transport.ConsumedCompose | scraper.py:169 | two consumptions of replies in a row are one: the script loses both prefixes and `error_count` grows by the error replies of both |
| Transport.SearchConsumes | scraper.py:142-173 | a `search` consumes a prefix of the replies and adds exactly the number of error replies in it to `error_count` |
| Pagination.NextAnchor | scraper.py:210-212 | the query re-anchored on the id of the first message of the page's last group; an empty last group or a failing re-anchor is a fault |
| Pagination.Step | scraper.py:202-217 | one pass of the loop: stop on an empty page, re-anchor on a full window, then fetch the next offset in the window; it ends as exhausted exactly on an empty page |
| Pagination.Paginate | scraper.py:201-217 | the loop as repeated steps from a page just received, until a step finishes |
| Pagination.Retrieve | scraper.py:185-224 | `retrieve_query_results`: no query or a failing first search raises; otherwise the loop runs from the first page with one request done |
| Pagination.PaginateExtends | scraper.py:201-224 | earlier pages and requests stay as they were; one request per page but the last, plus one for a failed request |
| Pagination.StopsAtFirstEmptyPage | scraper.py:206-208 | every page but the last had messages, and the loop ended as exhausted exactly when the last was empty |
| Pagination.OffsetsFollowWindow | scraper.py:210-217 | the `j`-th request after a window position `n` uses offset `25 * ((n + j) % 400)` |
| Pagination.RetrieveOffsets | scraper.py:193-217 | in a run the offsets are 25, 50, … , 9975, 0, 25, …: never past 9975, back to 0 after every 400 requests |
| Pagination.ReanchorsAtWindowStart | scraper.py:210-217 | a request at offset 0 follows a re-anchoring on the first message of the last group of the page before it, and any other request keeps the query of the one before |
| Pagination.StepSearch | scraper.py:210-217 | a loop step that sends a request makes exactly one `search`: its state is that search's, a continuing step goes on with the page returned and a finishing one stops on the search's fault |
| Pagination.PaginateCountsErrors | scraper.py:201-217 | over the whole loop, `error_count` grows by exactly the number of error replies consumed |
| Pagination.PaginateKeepsBudget | scraper.py:201-222 | from below `MAX_ERROR`, the loop never lowers the count or passes `MAX_ERROR`, and it ends with the count at `MAX_ERROR` exactly when it stops on `Max errors reached` |
| Pagination.RetrieveCountsErrors | scraper.py:185-224 | over a whole `retrieve_query_results`, first search included, `error_count` grows by exactly the number of error replies consumed |
| Pagination.RetrieveKeepsBudget | scraper.py:185-224 | over a whole run from below `MAX_ERROR`, errors accumulate across pages: the count stays within `MAX_ERROR` and reaches it exactly when the run ends on `Max errors reached`, raised by the first search or caught in the loop |
| Pagination.AppendPage | scraper.py:203 | each page's text comes after the lines of the pages before it |
| Pagination.AllLinesOneLine | scraper.py:203 | when no message's JSON holds a line break, neither does any written line |
| Pagination.RunKeepsJsonLines | scraper.py:201-224 | what a run appends to a JSON-lines file reads back as the lines before, then every group of every page in order |
| Searcher.CheckArgs | scraper.py:50-60 | the checks `__init__` makes, in order, and the token it keeps |
| Searcher.CheckArgsAccepts | scraper.py:49-60 | construction succeeds exactly with a token (given or from the environment), a guild id, and bounds that are absent, empty or snowflakes; the explicit token wins |
| Searcher.CheckArgsOrder | scraper.py:49-60 | the first failing check is the one raised: token, then guild id, then `after`, then `before` |
| Searcher.EmptyBoundPasses | scraper.py:56-59 | empty bounds are falsy and are not checked |
| Searcher.BuildParams | scraper.py:119-135 | the dictionary filled entry by entry is the search parameter list |
| Searcher.Create | scraper.py:39-79 | `DiscordSearcher(...)` raises the argument error of the checks, or returns a new searcher with the chosen token, its output resolved, its search URL built and no errors counted; files, responses, requests and sleeps are untouched, and the output directory is added to the directories when `set_output` creates it |
| Searcher.DiscordSearcher.constructor | scraper.py:61-70 | the assignments: every argument kept as given, no errors counted |
| Searcher.DiscordSearcher.GenerateFilename | scraper.py:95-101 | the name starts with the guild id and `_`, ends with `_`, the 15-character stamp and `.jsonl`, has the query's words joined by `_` in between, and holds no whitespace unless the guild id does |
| Searcher.DiscordSearcher.SetOutput | scraper.py:81-93 | the output path becomes the resolved target, and the directory is added when it did not exist |
| Searcher.DiscordSearcher.FormSearchQuery | scraper.py:109-138 | an empty guild id raises and leaves the query alone; otherwise the query becomes the search URL |
| Searcher.DiscordSearcher.AppendMessage | scraper.py:103-107 | the output file, created when missing, gains one JSON line per group and nothing else changes on disk |
| Searcher.DiscordSearcher.Search | scraper.py:140-173 | the loop's result and its new error count, responses, requests and sleeps are those of the search specification |
| Searcher.DiscordSearcher.UpdateQueryParams | scraper.py:175-183 | the query becomes the re-anchored query, or the method raises and leaves the query unchanged |
| Searcher.DiscordSearcher.Turn | scraper.py:203-217 | one pass of the loop body does what one step of the paging specification says, and appends the page to the output |
| Searcher.DiscordSearcher.RetrieveQueryResults | scraper.py:185-224 | no query or a failing first search raises with nothing written; otherwise the run is that of the paging specification, the output file gains the lines of every page received, and the printed total is one plus the requests of the loop |
| Strings.FindFirst | scraper.py:180 | `str.index`: the first occurrence, or none where Python raises `ValueError` |
| Strings.ReplaceAll | scraper.py:181 | `str.replace`: every non-overlapping occurrence, left to right, replaced; an empty pattern puts the replacement before every character and after the last |
| Strings.ReplaceConcat | scraper.py:181 | when no occurrence of the pattern straddles the boundary, `replace` on a concatenation is `replace` on each part |
| Strings.ReplaceAbsent | scraper.py:181 | `replace` leaves a text without the pattern's first character unchanged |
| Strings.ReplaceAfterAbsent | scraper.py:181 | in `x` followed by the pattern, with `x` free of the pattern's first character, only that final pattern is replaced |
| Strings.Join | scraper.py:98 | `str.join`: the parts with the separator between neighbours |
| Strings.ParseInt | scraper.py:17 | `int()` on an optional sign and ASCII digits, or none where Python raises `ValueError` |
| Strings.Show | scraper.py:26 | `str()` of an integer: a `-` for negatives, then the decimal digits without leading zeros |

## Left out

- `KeyboardInterrupt` is modelled only as a scripted `Interrupt` event in place of a response. An interrupt during a sleep, or between two of `append_message`'s per-message writes, which leaves part of a page on disk, is not modelled: a page is written whole.
- `requests.get` is a scripted sequence of responses. Running out of responses stands for `requests` raising, and is reported as a lost connection.
- The public-IP lookup at the start of `retrieve_query_results` is not modelled. It is a network call made before the `try`, so it can raise before the first search; the model does not make that request or its failure, and its result only feeds the log.
- Response bodies are assumed well formed: a `Reply` carries a decoded page and a delay. A 429 body without `retry_after` raises `KeyError` (scraper.py:161-162). A body that is not JSON makes `response.json()` raise (scraper.py:161 and 167). A negative `retry_after` makes `time.sleep` raise `ValueError` (scraper.py:164); the model records it as slept. A page without `messages` raises `KeyError` inside the loop (scraper.py:203-211), where `except Exception` ends the run. None of these failures is modelled.
- HTTP headers and the token's use as `authorization` are not modelled.
- `time.sleep` is recorded as a list of delays; no time passes.
- `logging` calls and the final `print` are not modelled. The printed total is the method's second result.
- `result["total_results"]`, the `math.ceil` of it, and the `KeyError` when it is missing are not modelled, because they only feed the log.
- `datetime` values are integer milliseconds since the Unix epoch. Float seconds, the local time zone and `fromtimestamp`'s range limits are not modelled.
- `datetime.datetime.now()` is a `DateTime` parameter of the methods that read the clock.
- `os.getenv("DISCORD_TOKEN")` is a parameter.
- Snowflake.ToDatetimeMillis: `int()` also accepts surrounding whitespace and `_` between digits; the model accepts only an optional sign and ASCII digits.
- Snowflake.IsSnowflake: `\d` is modelled as the ASCII digits only. Python's `re` also accepts other Unicode decimal digits there.
- `json.dumps` of a message is opaque: each message carries its JSON text, and a group is dumped as `[` + the texts joined by `, ` + `]`.
- `requests`' URL preparation is modelled as `quote_plus` on keys and values, joined with `=` and `&`. `requote_uri` normalisation and IDNA host encoding are not modelled. The guild id is spliced into the path as given (`Query.SearchEndpoint`): the percent-encoding of the path, the removal of dot segments, and a `?` or `#` in the guild id moving the start of the query or fragment are not modelled.
- `os.makedirs` is modelled as adding the one directory. Missing parent directories and failures to create directories or open files are not modelled.
- A dictionary is a list of entries in insertion order.
- The command-line entry point (`__main__`) and `jsonl-to-csv.py` are not part of this model.
- Searcher.DiscordSearcher.RetrieveQueryResults: the loop body is a separate method, `Turn`, so that the loop and one pass are proved apart; the behaviour is the same.
- Searcher.Create: the constructor checks are a method returning a `Result`, since a Dafny constructor cannot fail. The assignments are the constructor, and `set_output` and `form_search_query` run right after it, as in `__init__`.
