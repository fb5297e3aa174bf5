/** The search query: the parameter dictionary `form_search_query` fills
    (scraper.py, lines 109-138), its serialisation into a URL the way
    `requests` prepares it, and the cursor re-anchoring of
    `_update_query_params` (lines 175-183), which edits that URL as text. */
module Query {
  import opened Wrappers
  import opened Strings

  // ---------------------------------------------------------------------
  // Percent-encoding of parameter keys and values (`quote_plus`)
  // ---------------------------------------------------------------------

  /** Characters `quote_plus` leaves as they are: ASCII letters and digits and `_.-~`. */
  predicate IsUnreserved(c: char) {
    ('A' <= c <= 'Z') || ('a' <= c <= 'z') || ('0' <= c <= '9')
    || c == '_' || c == '.' || c == '-' || c == '~'
  }

  predicate AllUnreserved(s: string) {
    forall i :: 0 <= i < |s| ==> IsUnreserved(s[i])
  }

  /** Characters that can appear in the output of `quote_plus`. */
  predicate IsEncodedChar(c: char) {
    IsUnreserved(c) || c == '+' || c == '%'
  }

  predicate AllEncoded(s: string) {
    forall i :: 0 <= i < |s| ==> IsEncodedChar(s[i])
  }

  lemma EncodedConcat(a: string, b: string)
    requires AllEncoded(a) && AllEncoded(b)
    ensures AllEncoded(a + b)
  {
    forall i | 0 <= i < |a + b| ensures IsEncodedChar((a + b)[i]) {
      if i < |a| {
        assert (a + b)[i] == a[i];
      } else {
        assert (a + b)[i] == b[i - |a|];
      }
    }
  }

  /** Upper-case hexadecimal digit, as `quote` writes them. */
  function HexDigit(d: nat): (c: char)
    requires d < 16
    ensures IsEncodedChar(c)
  {
    if d < 10 then ('0' as int + d) as char else ('A' as int + (d - 10)) as char
  }

  /** The UTF-8 bytes of a character. */
  function Utf8(c: char): (bytes: seq<nat>)
    ensures 1 <= |bytes| <= 4
    ensures forall i :: 0 <= i < |bytes| ==> bytes[i] < 256
  {
    var n := c as int;
    if n < 0x80 then [n]
    else if n < 0x800 then [0xC0 + n / 0x40, 0x80 + n % 0x40]
    else if n < 0x10000 then [0xE0 + n / 0x1000, 0x80 + (n / 0x40) % 0x40, 0x80 + n % 0x40]
    else [0xF0 + n / 0x40000, 0x80 + (n / 0x1000) % 0x40, 0x80 + (n / 0x40) % 0x40, 0x80 + n % 0x40]
  }

  /** `%XX` for each of the (at most four) bytes of one character. */
  function PercentBytes(bytes: seq<nat>): (r: string)
    requires 1 <= |bytes| <= 4
    requires forall i :: 0 <= i < |bytes| ==> bytes[i] < 256
    ensures |r| == 3 * |bytes|
    ensures AllEncoded(r)
  {
    var b0 := bytes[0];
    var first := ['%', HexDigit(b0 / 16), HexDigit(b0 % 16)];
    if |bytes| == 1 then first
    else
      var b1 := bytes[1];
      var second := first + ['%', HexDigit(b1 / 16), HexDigit(b1 % 16)];
      if |bytes| == 2 then second
      else
        var b2 := bytes[2];
        var third := second + ['%', HexDigit(b2 / 16), HexDigit(b2 % 16)];
        if |bytes| == 3 then third
        else
          var b3 := bytes[3];
          third + ['%', HexDigit(b3 / 16), HexDigit(b3 % 16)]
  }

  function QuoteChar(c: char): (r: string)
    ensures AllEncoded(r)
  {
    if IsUnreserved(c) then [c]
    else if c == ' ' then "+"
    else PercentBytes(Utf8(c))
  }

  lemma {:induction false} ConcatEncoded(parts: seq<string>)
    requires forall i :: 0 <= i < |parts| ==> AllEncoded(parts[i])
    ensures AllEncoded(Concat(parts))
    decreases |parts|
  {
    if parts != [] {
      ConcatEncoded(parts[1..]);
      EncodedConcat(parts[0], Concat(parts[1..]));
    }
  }

  /** The quoted form of each character of `s`. */
  function QuotedChars(s: string): seq<string>
  {
    seq(|s|, i requires 0 <= i < |s| => QuoteChar(s[i]))
  }

  /** `urllib.parse.quote_plus(s, safe='')`, as `urlencode` applies it to every
      key and value: each character quoted on its own. Its output never
      contains `=` or `&`, so the pairs it builds cannot be confused with one
      another. */
  function QuotePlus(s: string): string
  {
    Concat(QuotedChars(s))
  }

  /** Everything `quote_plus` emits is an unreserved character, `+` or `%`. */
  lemma QuotePlusEncoded(s: string)
    ensures AllEncoded(QuotePlus(s))
  {
    ConcatEncoded(QuotedChars(s));
  }

  /** Quoting works character by character. */
  lemma QuotePlusConcat(x: string, y: string)
    ensures QuotePlus(x + y) == QuotePlus(x) + QuotePlus(y)
  {
    assert QuotedChars(x + y) == QuotedChars(x) + QuotedChars(y);
    ConcatAppend(QuotedChars(x), QuotedChars(y));
  }

  lemma {:induction false} ConcatSingletons(s: string, parts: seq<string>)
    requires |parts| == |s|
    requires forall i :: 0 <= i < |s| ==> parts[i] == [s[i]]
    ensures Concat(parts) == s
    decreases |s|
  {
    if s != [] {
      ConcatSingletons(s[1..], parts[1..]);
      assert s == [s[0]] + s[1..];
    }
  }

  /** Text of unreserved characters, snowflakes among them, is sent as it is. */
  lemma QuotePlusUnreserved(s: string)
    requires AllUnreserved(s)
    ensures QuotePlus(s) == s
  {
    ConcatSingletons(s, QuotedChars(s));
  }

  lemma QuotePlusEmpty()
    ensures QuotePlus("") == ""
  {
    assert QuotedChars("") == [];
  }

  // ---------------------------------------------------------------------
  // The parameter dictionary and the URL
  // ---------------------------------------------------------------------

  datatype Param = Param(key: string, value: string)

  function Optional(key: string, value: Option<string>): seq<Param> {
    if value.Some? then [Param(key, value.value)] else []
  }

  /** The three entries every query starts with. */
  function FixedParams(): seq<Param> {
    [Param("include_nsfw", "true"), Param("sort_by", "timestamp"), Param("sort_order", "asc")]
  }

  /** The dictionary `form_search_query` builds, in insertion order: three
      fixed entries, then each optional filter whose argument is not `None`. */
  function SearchParams(content: Option<string>, channelId: Option<string>,
                        after: Option<string>, before: Option<string>): seq<Param>
  {
    FixedParams()
    + Optional("content", content) + Optional("channel_id", channelId)
    + Optional("min_id", after) + Optional("max_id", before)
  }

  /** `d.get(key)` on an ordered list of entries: the first entry with that key. */
  function Lookup(ps: seq<Param>, key: string): Option<string>
    decreases |ps|
  {
    if ps == [] then None
    else if ps[0].key == key then Some(ps[0].value)
    else Lookup(ps[1..], key)
  }

  lemma {:induction false} LookupAppend(xs: seq<Param>, ys: seq<Param>, key: string)
    ensures Lookup(xs + ys, key) == if Lookup(xs, key).Some? then Lookup(xs, key) else Lookup(ys, key)
    decreases |xs|
  {
    if xs == [] {
      assert xs + ys == ys;
    } else {
      assert (xs + ys)[0] == xs[0] && (xs + ys)[1..] == xs[1..] + ys;
      LookupAppend(xs[1..], ys, key);
    }
  }

  lemma LookupOptional(key: string, value: Option<string>, other: string)
    ensures Lookup(Optional(key, value), key) == value
    ensures other != key ==> Lookup(Optional(key, value), other) == None
  {
  }

  lemma LookupFixed(key: string)
    ensures Lookup(FixedParams(), key)
         == if key == "include_nsfw" then Some("true")
            else if key == "sort_by" then Some("timestamp")
            else if key == "sort_order" then Some("asc")
            else None
  {
    var f := FixedParams();
    assert f[1..] == [Param("sort_by", "timestamp"), Param("sort_order", "asc")];
    assert f[1..][1..] == [Param("sort_order", "asc")];
    assert f[1..][1..][1..] == [];
  }

  /** Looking a key up in the dictionary looks through its four parts in order. */
  lemma LookupSearchParams(content: Option<string>, channelId: Option<string>,
                           after: Option<string>, before: Option<string>, key: string)
    ensures Lookup(SearchParams(content, channelId, after, before), key)
         == if Lookup(FixedParams(), key).Some? then Lookup(FixedParams(), key)
            else if key == "content" && content.Some? then content
            else if key == "channel_id" && channelId.Some? then channelId
            else if key == "min_id" && after.Some? then after
            else if key == "max_id" then before
            else None
  {
    var f := FixedParams();
    var c, ch, a, b := Optional("content", content), Optional("channel_id", channelId),
                       Optional("min_id", after), Optional("max_id", before);
    LookupAppend(f + c + ch + a, b, key);
    LookupAppend(f + c + ch, a, key);
    LookupAppend(f + c, ch, key);
    LookupAppend(f, c, key);
    LookupOptional("content", content, key);
    LookupOptional("channel_id", channelId, key);
    LookupOptional("min_id", after, key);
    LookupOptional("max_id", before, key);
  }

  /** The fixed entries are always there, and each optional filter is there
      exactly when its argument is not `None`, with that argument's value. */
  lemma SearchParamsLookup(content: Option<string>, channelId: Option<string>,
                           after: Option<string>, before: Option<string>)
    ensures var ps := SearchParams(content, channelId, after, before);
      && Lookup(ps, "include_nsfw") == Some("true")
      && Lookup(ps, "sort_by") == Some("timestamp")
      && Lookup(ps, "sort_order") == Some("asc")
      && Lookup(ps, "content") == content
      && Lookup(ps, "channel_id") == channelId
      && Lookup(ps, "min_id") == after
      && Lookup(ps, "max_id") == before
  {
    LookupFixed("include_nsfw");
    LookupFixed("sort_by");
    LookupFixed("sort_order");
    LookupFixed("content");
    LookupFixed("channel_id");
    LookupFixed("min_id");
    LookupFixed("max_id");
    LookupSearchParams(content, channelId, after, before, "include_nsfw");
    LookupSearchParams(content, channelId, after, before, "sort_by");
    LookupSearchParams(content, channelId, after, before, "sort_order");
    LookupSearchParams(content, channelId, after, before, "content");
    LookupSearchParams(content, channelId, after, before, "channel_id");
    LookupSearchParams(content, channelId, after, before, "min_id");
    LookupSearchParams(content, channelId, after, before, "max_id");
  }

  /** `key=value`. */
  function Pair(key: string, value: string): string {
    key + "=" + value
  }

  /** `quote_plus(key) + "=" + quote_plus(value)`. */
  function EncodePair(p: Param): string {
    Pair(QuotePlus(p.key), QuotePlus(p.value))
  }

  function EncodePairs(ps: seq<Param>): seq<string>
    decreases |ps|
  {
    if ps == [] then [] else [EncodePair(ps[0])] + EncodePairs(ps[1..])
  }

  /** `urlencode(params)`: the encoded pairs joined by `&`. */
  function UrlEncode(ps: seq<Param>): string {
    Join("&", EncodePairs(ps))
  }

  /** The base URL of `form_search_query`, ending in `?` with an empty query. */
  function SearchEndpoint(guildId: string): string {
    "https://discord.com/api/v9/guilds/" + guildId + "/messages/search?"
  }

  /** The URL `form_search_query` stores in `self.query`: `requests` puts the
      encoded parameters after the base URL's empty query. */
  function SearchUrl(guildId: string, content: Option<string>, channelId: Option<string>,
                     after: Option<string>, before: Option<string>): string
  {
    SearchEndpoint(guildId) + UrlEncode(SearchParams(content, channelId, after, before))
  }

  // ---------------------------------------------------------------------
  // The URL as `&`-separated segments
  // ---------------------------------------------------------------------

  /** The three fixed pairs, encoded. */
  function FixedPairs(): seq<string> {
    [Pair("include_nsfw", "true"), Pair("sort_by", "timestamp"), Pair("sort_order", "asc")]
  }

  /** The fixed pairs with the endpoint in front of the first. */
  function FixedSegments(guildId: string): seq<string> {
    [SearchEndpoint(guildId) + Pair("include_nsfw", "true"), Pair("sort_by", "timestamp"), Pair("sort_order", "asc")]
  }

  function OptionalSegment(key: string, value: Option<string>): seq<string> {
    if value.Some? then [Pair(key, QuotePlus(value.value))] else []
  }

  /** The segments before any cursor: the endpoint with the first pair, then
      the other fixed pairs, then the text and channel filters. */
  function FrontSegments(guildId: string, content: Option<string>, channelId: Option<string>): seq<string> {
    FixedSegments(guildId) + OptionalSegment("content", content) + OptionalSegment("channel_id", channelId)
  }

  function Segments(guildId: string, content: Option<string>, channelId: Option<string>,
                    after: Option<string>, before: Option<string>): seq<string> {
    FrontSegments(guildId, content, channelId)
    + OptionalSegment("min_id", after) + OptionalSegment("max_id", before)
  }

  lemma {:induction false} EncodePairsAppend(xs: seq<Param>, ys: seq<Param>)
    ensures EncodePairs(xs + ys) == EncodePairs(xs) + EncodePairs(ys)
    decreases |xs|
  {
    if xs == [] {
      assert xs + ys == ys;
    } else {
      assert (xs + ys)[0] == xs[0] && (xs + ys)[1..] == xs[1..] + ys;
      EncodePairsAppend(xs[1..], ys);
    }
  }

  /** Every key and fixed value `form_search_query` uses is made of
      unreserved characters. */
  lemma NamesUnreserved()
    ensures AllUnreserved("include_nsfw") && AllUnreserved("true")
    ensures AllUnreserved("sort_by") && AllUnreserved("timestamp")
    ensures AllUnreserved("sort_order") && AllUnreserved("asc")
    ensures AllUnreserved("content") && AllUnreserved("channel_id")
    ensures AllUnreserved("min_id") && AllUnreserved("max_id")
  {
  }

  /** ... so quoting leaves them unchanged. */
  lemma NamesUnquoted()
    ensures QuotePlus("include_nsfw") == "include_nsfw" && QuotePlus("true") == "true"
    ensures QuotePlus("sort_by") == "sort_by" && QuotePlus("timestamp") == "timestamp"
    ensures QuotePlus("sort_order") == "sort_order" && QuotePlus("asc") == "asc"
    ensures QuotePlus("content") == "content" && QuotePlus("channel_id") == "channel_id"
    ensures QuotePlus("min_id") == "min_id" && QuotePlus("max_id") == "max_id"
  {
    NamesUnreserved();
    QuotePlusUnreserved("include_nsfw");
    QuotePlusUnreserved("true");
    QuotePlusUnreserved("sort_by");
    QuotePlusUnreserved("timestamp");
    QuotePlusUnreserved("sort_order");
    QuotePlusUnreserved("asc");
    QuotePlusUnreserved("content");
    QuotePlusUnreserved("channel_id");
    QuotePlusUnreserved("min_id");
    QuotePlusUnreserved("max_id");
  }

  lemma EncodeOptional(key: string, value: Option<string>)
    requires QuotePlus(key) == key
    ensures EncodePairs(Optional(key, value)) == OptionalSegment(key, value)
  {
  }

  lemma EncodeFixed()
    ensures EncodePairs(FixedParams()) == FixedPairs()
  {
    NamesUnquoted();
    var f := FixedParams();
    assert f[1..] == [Param("sort_by", "timestamp"), Param("sort_order", "asc")];
    assert f[1..][1..] == [Param("sort_order", "asc")];
    assert f[1..][1..][1..] == [];
  }

  /** The encoded pairs of the dictionary, entry by entry. */
  lemma EncodeSearchParams(content: Option<string>, channelId: Option<string>,
                           after: Option<string>, before: Option<string>)
    ensures EncodePairs(SearchParams(content, channelId, after, before))
         == FixedPairs() + OptionalSegment("content", content) + OptionalSegment("channel_id", channelId)
            + OptionalSegment("min_id", after) + OptionalSegment("max_id", before)
  {
    var f := FixedParams();
    var c, ch, a, b := Optional("content", content), Optional("channel_id", channelId),
                       Optional("min_id", after), Optional("max_id", before);
    EncodePairsAppend(f + c + ch + a, b);
    EncodePairsAppend(f + c + ch, a);
    EncodePairsAppend(f + c, ch);
    EncodePairsAppend(f, c);
    EncodeFixed();
    NamesUnquoted();
    EncodeOptional("content", content);
    EncodeOptional("channel_id", channelId);
    EncodeOptional("min_id", after);
    EncodeOptional("max_id", before);
  }

  lemma JoinPrepend(sep: string, x: string, parts: seq<string>)
    requires |parts| > 0
    ensures x + Join(sep, parts) == Join(sep, [x + parts[0]] + parts[1..])
  {
    var ys := [x + parts[0]] + parts[1..];
    assert ys[1..] == parts[1..];
  }

  lemma PrependFirst(e: string, a: string, b: string, c: string, rest: seq<string>)
    ensures [e + ([a, b, c] + rest)[0]] + ([a, b, c] + rest)[1..] == [e + a, b, c] + rest
  {
    assert ([a, b, c] + rest)[1..] == [b, c] + rest;
  }

  lemma Associate(f: seq<string>, c: seq<string>, ch: seq<string>, a: seq<string>, b: seq<string>)
    ensures f + (c + ch + a + b) == f + c + ch + a + b
  {
  }

  /** Putting the endpoint in front of the first encoded pair. */
  lemma EndpointBeforeFirstPair(guildId: string, rest: seq<string>)
    ensures SearchEndpoint(guildId) + Join("&", FixedPairs() + rest) == Join("&", FixedSegments(guildId) + rest)
  {
    var e := SearchEndpoint(guildId);
    JoinPrepend("&", e, FixedPairs() + rest);
    PrependFirst(e, Pair("include_nsfw", "true"), Pair("sort_by", "timestamp"), Pair("sort_order", "asc"), rest);
  }

  /** The URL is its segments joined by `&`. */
  lemma SearchUrlSegments(guildId: string, content: Option<string>, channelId: Option<string>,
                          after: Option<string>, before: Option<string>)
    ensures SearchUrl(guildId, content, channelId, after, before)
         == Join("&", Segments(guildId, content, channelId, after, before))
  {
    var c, ch := OptionalSegment("content", content), OptionalSegment("channel_id", channelId);
    var a, b := OptionalSegment("min_id", after), OptionalSegment("max_id", before);
    EncodeSearchParams(content, channelId, after, before);
    Associate(FixedPairs(), c, ch, a, b);
    Associate(FixedSegments(guildId), c, ch, a, b);
    EndpointBeforeFirstPair(guildId, c + ch + a + b);
  }

  /** No part of `parts` contains `pat`. */
  predicate NoneContain(parts: seq<string>, pat: string) {
    forall i :: 0 <= i < |parts| ==> !Contains(parts[i], pat)
  }

  lemma NoneContainConcat(a: seq<string>, b: seq<string>, pat: string)
    requires NoneContain(a, pat) && NoneContain(b, pat)
    ensures NoneContain(a + b, pat)
  {
    forall i | 0 <= i < |a + b| ensures !Contains((a + b)[i], pat) {
      if i < |a| {
        assert (a + b)[i] == a[i];
      } else {
        assert (a + b)[i] == b[i - |a|];
      }
    }
  }

  /** A non-empty pattern without `&` that occurs in no part does not occur
      in the parts joined by `&` either. */
  lemma {:induction false} JoinAvoids(parts: seq<string>, pat: string)
    requires pat != [] && '&' !in pat
    requires NoneContain(parts, pat)
    ensures !Contains(Join("&", parts), pat)
    decreases |parts|
  {
    if |parts| == 0 {
      assert Join("&", parts) == [];
    } else if |parts| == 1 {
      assert !Contains(parts[0], pat);
    } else {
      assert NoneContain(parts[1..], pat) by {
        forall i | 0 <= i < |parts[1..]| ensures !Contains(parts[1..][i], pat) {
          assert parts[1..][i] == parts[i + 1];
        }
      }
      JoinAvoids(parts[1..], pat);
      assert !Contains(parts[0], pat);
      var rest := Join("&", parts[1..]);
      var s := Join("&", parts);
      assert s == parts[0] + ['&'] + rest;
      forall j: nat | j <= |s| ensures !OccursAt(s, pat, j) {
        if OccursAt(s, pat, j) {
          OccursAcross(parts[0], '&', rest, pat, j);
        }
      }
    }
  }

  /** In `k=v`, where neither side holds `=`, a pattern `w=` can only match
      at the one `=`, so it occurs exactly when `k` ends with `w`. */
  lemma SegmentMatch(k: string, v: string, w: string, j: nat)
    requires '=' !in k && '=' !in v && '=' !in w
    requires OccursAt(k + "=" + v, w + "=", j)
    ensures j + |w| == |k| && k[j..] == w
  {
    var s := k + "=" + v;
    var p := j + |w|;
    CharOfOccurrence(s, w + "=", j, p);
    assert s[j..p + 1][..|w|] == w;
    assert s[j..|k|] == k[j..];
  }

  /** A segment whose key does not end with `w` does not contain `w=`. */
  lemma SegmentAvoids(k: string, v: string, w: string)
    requires '=' !in k && '=' !in v && '=' !in w
    requires |k| < |w| || k[|k| - |w|..] != w
    ensures !Contains(k + "=" + v, w + "=")
  {
    forall j: nat | j <= |k + "=" + v| ensures !OccursAt(k + "=" + v, w + "=", j) {
      if OccursAt(k + "=" + v, w + "=", j) {
        SegmentMatch(k, v, w, j);
      }
    }
  }

  lemma EncodedHasNoSeparators(s: string)
    ensures '=' !in QuotePlus(s) && '&' !in QuotePlus(s)
  {
    QuotePlusEncoded(s);
    var r := QuotePlus(s);
    assert forall i | 0 <= i < |r| :: IsEncodedChar(r[i]);
  }

  lemma SuffixOfConcat(x: string, y: string, n: nat)
    requires n <= |y|
    ensures (x + y)[|x + y| - n..] == y[|y| - n..]
  {
  }

  /** The endpoint with the first pair holds neither `min_id=` nor `max_id=`. */
  lemma FirstSegmentAvoids(guildId: string, w: string)
    requires '=' !in guildId
    requires w == "min_id" || w == "max_id"
    ensures !Contains(SearchEndpoint(guildId) + Pair("include_nsfw", "true"), w + "=")
  {
    var e := SearchEndpoint(guildId);
    var first := e + "include_nsfw";
    assert '=' !in e;
    SuffixOfConcat(e, "include_nsfw", 6);
    SegmentAvoids(first, "true", w);
    assert e + Pair("include_nsfw", "true") == first + "=" + "true";
  }

  /** The fixed segments hold neither `min_id=` nor `max_id=`. */
  lemma FixedSegmentsAvoid(guildId: string, w: string)
    requires '=' !in guildId
    requires w == "min_id" || w == "max_id"
    ensures NoneContain(FixedSegments(guildId), w + "=")
  {
    FirstSegmentAvoids(guildId, w);
    SegmentAvoids("sort_by", "timestamp", w);
    SegmentAvoids("sort_order", "asc", w);
  }

  lemma OptionalSegmentAvoids(key: string, value: Option<string>, w: string)
    requires '=' !in key && '=' !in w
    requires |key| < |w| || key[|key| - |w|..] != w
    ensures NoneContain(OptionalSegment(key, value), w + "=")
  {
    if value.Some? {
      EncodedHasNoSeparators(value.value);
      SegmentAvoids(key, QuotePlus(value.value), w);
    }
  }

  /** No segment before the cursor holds `min_id=` or `max_id=`, provided the
      guild id has no `=`. */
  lemma FrontAvoidsBounds(guildId: string, content: Option<string>, channelId: Option<string>, w: string)
    requires '=' !in guildId
    requires w == "min_id" || w == "max_id"
    ensures !Contains(Join("&", FrontSegments(guildId, content, channelId)), w + "=")
  {
    FixedSegmentsAvoid(guildId, w);
    OptionalSegmentAvoids("content", content, w);
    OptionalSegmentAvoids("channel_id", channelId, w);
    var fixed := FixedSegments(guildId);
    NoneContainConcat(fixed, OptionalSegment("content", content), w + "=");
    NoneContainConcat(fixed + OptionalSegment("content", content), OptionalSegment("channel_id", channelId), w + "=");
    JoinAvoids(FrontSegments(guildId, content, channelId), w + "=");
  }

  // ---------------------------------------------------------------------
  // Re-anchoring the cursor: _update_query_params
  // ---------------------------------------------------------------------

  datatype QueryError =
    | NoQuerySet           // `self.query is None`: ValueError("No query set")
    | CursorNotAssigned    // "min_id" occurs but "min_id=" does not: `str.index` raises ValueError

  /** `_update_query_params(anchor)` as a function of `self.query`. When the
      text `min_id` occurs, everything after the first `min_id=` is taken as
      the old value and every occurrence of that text is replaced by the
      anchor; otherwise `&min_id=<anchor>` is appended. */
  function Reanchor(query: Option<string>, anchor: string): (r: Result<string, QueryError>)
  {
    match query
    case None => Err(NoQuerySet)
    case Some(q) =>
      if Contains(q, "min_id") then
        match FindFirst(q, "min_id=")
        case None => Err(CursorNotAssigned)
        case Some(i) => Ok(ReplaceAll(q, q[i + 7..], anchor))
      else
        CursorImpliesKey(q);
        Ok(q + "&min_id=" + anchor)
  }

  /** Re-anchoring fails exactly when there is no query, which raises
      `ValueError("No query set")`, or when the query mentions `min_id` but
      never `min_id=`, where `str.index` raises `ValueError`. */
  lemma ReanchorErrors(query: Option<string>, anchor: string)
    ensures var r := Reanchor(query, anchor);
      && (r.Err? <==> query.None? || (Contains(query.value, "min_id") && !Contains(query.value, "min_id=")))
      && (query.None? <==> r == Err(NoQuerySet))
  {
    if query.Some? {
      CursorImpliesKey(query.value);
    }
  }

  lemma CursorImpliesKey(q: string)
    ensures Contains(q, "min_id=") ==> Contains(q, "min_id")
  {
    if Contains(q, "min_id=") {
      var i: nat :| i <= |q| && OccursAt(q, "min_id=", i);
      assert q[i..i + 7][..6] == q[i..i + 6];
      assert OccursAt(q, "min_id", i);
    }
  }

  /** In a query without `min_id=`, the first `min_id=` of the query with a
      cursor appended is that cursor. */
  lemma AppendedCursorIsFirst(q: string, tail: string)
    requires !Contains(q, "min_id=")
    ensures FindFirst(q + "&min_id=" + tail, "min_id=") == Some(|q| + 1)
  {
    var s := q + "&min_id=" + tail;
    assert s == q + ['&'] + ("min_id=" + tail);
    assert s[|q| + 1..|q| + 8] == "min_id=";
    assert OccursAt(s, "min_id=", |q| + 1);
    forall j: nat | j < |q| + 1 ensures !OccursAt(s, "min_id=", j) {
      if OccursAt(s, "min_id=", j) {
        OccursAcross(q, '&', "min_id=" + tail, "min_id=", j);
      }
    }
  }

  /** Without a cursor, re-anchoring appends one, and that new cursor is the
      first `min_id=` of the result: a later re-anchor edits exactly it. */
  lemma ReanchorAppendsCursor(q: string, anchor: string)
    requires !Contains(q, "min_id")
    ensures Reanchor(Some(q), anchor) == Ok(q + "&min_id=" + anchor)
    ensures FindFirst(q + "&min_id=" + anchor, "min_id=") == Some(|q| + 1)
  {
    CursorImpliesKey(q);
    AppendedCursorIsFirst(q, anchor);
  }

  /** When the cursor value `v` after the first `min_id=` occurs nowhere
      earlier, the re-anchor rewrites exactly that tail: the result is the
      query up to and including `min_id=`, then the anchor. Whatever
      followed the cursor in the old query is gone. */
  lemma ReanchorReplacesTail(x: string, v: string, anchor: string)
    requires |x| >= 7 && FindFirst(x + v, "min_id=") == Some(|x| - 7)
    requires v != []
    requires forall j: nat :: j < |x| ==> !OccursAt(x + v, v, j)
    ensures Reanchor(Some(x + v), anchor) == Ok(x + anchor)
  {
    CursorImpliesKey(x + v);
    assert (x + v)[|x|..] == v;
    ReplaceTail(x, v, anchor);
  }

  /** A digit string that does not occur in `q` occurs in `q&min_id=<digits>`
      only at its end. */
  lemma AppendedDigitsOnlyAtEnd(q: string, digits: string)
    requires digits != [] && AllDigits(digits) && !Contains(q, digits)
    ensures forall j: nat :: j < |q + "&min_id="| ==> !OccursAt(q + "&min_id=" + digits, digits, j)
  {
    var mark := "&min_id=";
    var x := q + mark;
    var s := x + digits;
    assert forall k :: 0 <= k < |mark| ==> !IsDigit(mark[k]);
    forall j: nat | j < |x| ensures !OccursAt(s, digits, j) {
      if OccursAt(s, digits, j) {
        if j + |digits| <= |q| {
          assert s == q + (mark + digits);
          OccursBackInPrefix(q, mark + digits, digits, j);
        } else {
          var p := if j < |q| then |q| else j;
          CharOfOccurrence(s, digits, j, p);
        }
      }
    }
  }

  /** Re-anchoring twice with a snowflake is the same as re-anchoring once
      with the second anchor, as long as the first anchor's digits occur
      nowhere in the original query. */
  lemma ReanchorTwice(q: string, first: string, second: string)
    requires !Contains(q, "min_id")
    requires first != [] && AllDigits(first) && !Contains(q, first)
    ensures Reanchor(Some(q), first) == Ok(q + "&min_id=" + first)
    ensures Reanchor(Some(q + "&min_id=" + first), second) == Ok(q + "&min_id=" + second)
  {
    ReanchorAppendsCursor(q, first);
    AppendedDigitsOnlyAtEnd(q, first);
    var x := q + "&min_id=";
    assert x + first == q + "&min_id=" + first;
    ReanchorReplacesTail(x, first, second);
  }

  /** `str.replace` on a query ending in `&min_id=<v>`, for a non-empty digit
      string `v`: no digit is part of `&min_id=`, so no occurrence of `v`
      crosses into it; the cursor value becomes the anchor and every
      occurrence of `v` in the part before is rewritten as well. */
  lemma ReplaceAroundCursor(p: string, v: string, anchor: string)
    requires v != [] && AllDigits(v)
    ensures ReplaceAll(p + "&min_id=" + v, v, anchor) == ReplaceAll(p, v, anchor) + "&min_id=" + anchor
  {
    var mark := "&min_id=";
    MarkHasNoDigit(v);
    NoStraddleBeforeMark(p, v);
    assert p + mark + v == p + (mark + v);
    ReplaceConcat(p, mark + v, v, anchor);
    ReplaceAfterAbsent(mark, v, anchor);
  }

  /** The first character of a digit string is not in `&min_id=`. */
  lemma MarkHasNoDigit(v: string)
    requires v != [] && AllDigits(v)
    ensures v[0] !in "&min_id="
  {
    assert IsDigit(v[0]);
  }

  /** No occurrence of a digit string crosses the end of `p` into `&min_id=<v>`. */
  lemma NoStraddleBeforeMark(p: string, v: string)
    requires v != [] && AllDigits(v)
    ensures forall j: nat :: j < |p| < j + |v| ==> !OccursAt(p + ("&min_id=" + v), v, j)
  {
    var s := p + ("&min_id=" + v);
    assert s[|p|] == '&';
    forall j: nat | j < |p| < j + |v| ensures !OccursAt(s, v, j) {
      if OccursAt(s, v, j) {
        assert IsDigit(v[|p| - j]);
        CharOfOccurrence(s, v, j, |p|);
      }
    }
  }

  /** Re-anchoring a query without a cursor bound that ends in a lower bound
      of digits `v`: the new bound is the anchor, and every earlier
      occurrence of `v` in the query, inside a guild id, channel id or
      content, is rewritten into the anchor too. */
  lemma ReanchorRewritesEarlier(p: string, v: string, anchor: string)
    requires !Contains(p, "min_id")
    requires v != [] && AllDigits(v)
    ensures Reanchor(Some(p + "&min_id=" + v), anchor) == Ok(ReplaceAll(p, v, anchor) + "&min_id=" + anchor)
  {
    CursorImpliesKey(p);
    AppendedCursorIsFirst(p, v);
    var q := p + "&min_id=" + v;
    assert q[|p| + 8..] == v;
    assert q[|p| + 1..|p| + 7] == "min_id";
    assert OccursAt(q, "min_id", |p| + 1);
    ReplaceAroundCursor(p, v, anchor);
  }

  /** An id that ends in the old lower bound is corrupted by the
      re-anchor: with `pre` = `channel_id=1` and `v` = `42`, the query
      `channel_id=142&min_id=42` re-anchored on `7` becomes
      `channel_id=17&min_id=7`, searching another channel. */
  lemma ReanchorCorruptsId(pre: string, v: string, anchor: string)
    requires 'm' !in pre
    requires v != [] && AllDigits(v) && v[0] !in pre
    ensures Reanchor(Some(pre + v + "&min_id=" + v), anchor) == Ok(pre + anchor + "&min_id=" + anchor)
  {
    var p := pre + v;
    forall c | c in v ensures c != 'm' {
      var k :| 0 <= k < |v| && v[k] == c;
      assert IsDigit(v[k]);
    }
    assert 'm' !in p;
    FirstCharAbsent(p, "min_id");
    ReanchorRewritesEarlier(p, v, anchor);
    ReplaceAfterAbsent(pre, v, anchor);
  }

  /** An empty cursor value, as a query built with `after == ""` ends with,
      makes `replace("", anchor)` insert the anchor into every gap of the
      URL: before its first character, and so before `https://`. */
  lemma ReanchorEmptyCursor(q: string, anchor: string)
    requires |q| >= 7 && FindFirst(q, "min_id=") == Some(|q| - 7)
    ensures Reanchor(Some(q), anchor) == Ok(ReplaceAll(q, "", anchor))
    ensures |ReplaceAll(q, "", anchor)| == |q| + (|q| + 1) * |anchor|
    ensures ReplaceAll(q, "", anchor)[..|anchor|] == anchor
  {
    CursorImpliesKey(q);
    assert q[|q|..] == [];
    ReplaceEmptyLength(q, anchor);
  }

  // ---------------------------------------------------------------------
  // Re-anchoring the URL form_search_query builds
  // ---------------------------------------------------------------------

  /** The URL built without cursor bounds: the segments before any cursor. */
  lemma UnboundedUrl(guildId: string, content: Option<string>, channelId: Option<string>)
    ensures SearchUrl(guildId, content, channelId, None, None) == Join("&", FrontSegments(guildId, content, channelId))
  {
    SearchUrlSegments(guildId, content, channelId, None, None);
    var front := FrontSegments(guildId, content, channelId);
    assert front + [] + [] == front;
  }

  /** The URL built with only a lower bound: the cursor is the last segment. */
  lemma LowerBoundedUrl(guildId: string, content: Option<string>, channelId: Option<string>, after: string)
    ensures SearchUrl(guildId, content, channelId, Some(after), None)
         == SearchUrl(guildId, content, channelId, None, None) + "&" + Pair("min_id", QuotePlus(after))
  {
    UnboundedUrl(guildId, content, channelId);
    SearchUrlSegments(guildId, content, channelId, Some(after), None);
    var front := FrontSegments(guildId, content, channelId);
    var m := Pair("min_id", QuotePlus(after));
    assert front + [m] + [] == front + [m];
    JoinSnoc("&", front, m);
  }

  /** The URL built with both bounds: the two cursors are the last two segments. */
  lemma BoundedUrl(guildId: string, content: Option<string>, channelId: Option<string>, after: string, before: string)
    ensures SearchUrl(guildId, content, channelId, Some(after), Some(before))
         == SearchUrl(guildId, content, channelId, None, None)
            + "&" + Pair("min_id", QuotePlus(after)) + "&" + Pair("max_id", QuotePlus(before))
  {
    UnboundedUrl(guildId, content, channelId);
    SearchUrlSegments(guildId, content, channelId, Some(after), Some(before));
    var front := FrontSegments(guildId, content, channelId);
    var m, x := Pair("min_id", QuotePlus(after)), Pair("max_id", QuotePlus(before));
    JoinSnoc("&", front, m);
    JoinSnoc("&", front + [m], x);
  }

  /** The URL built without bounds holds no cursor assignment. */
  lemma UnboundedUrlHasNoCursor(guildId: string, content: Option<string>, channelId: Option<string>)
    requires '=' !in guildId
    ensures !Contains(SearchUrl(guildId, content, channelId, None, None), "min_id=")
    ensures !Contains(SearchUrl(guildId, content, channelId, None, None), "max_id=")
  {
    UnboundedUrl(guildId, content, channelId);
    FrontAvoidsBounds(guildId, content, channelId, "min_id");
    FrontAvoidsBounds(guildId, content, channelId, "max_id");
    assert "min_id" + "=" == "min_id=" && "max_id" + "=" == "max_id=";
  }

  lemma CursorSuffix(p: string, e: string)
    ensures p + "&" + Pair("min_id", e) == p + "&min_id=" + e
  {
    assert "&" + ("min_id" + "=") == "&min_id=";
  }

  /** Re-anchoring a query whose text never mentions `min_id` appends the
      cursor as a new last segment. */
  lemma ReanchorAppendsSegment(p: string, anchor: string)
    requires !Contains(p, "min_id")
    ensures Reanchor(Some(p), anchor) == Ok(p + "&" + Pair("min_id", anchor))
  {
    ReanchorAppendsCursor(p, anchor);
    CursorSuffix(p, anchor);
  }

  /** Re-anchoring a URL built without `after`, whose text never mentions
      `min_id`, gives the URL built with `after` set to the anchor. */
  lemma ReanchorAddsAfter(guildId: string, content: Option<string>, channelId: Option<string>, anchor: string)
    requires !Contains(SearchUrl(guildId, content, channelId, None, None), "min_id")
    requires AllUnreserved(anchor)
    ensures Reanchor(Some(SearchUrl(guildId, content, channelId, None, None)), anchor)
         == Ok(SearchUrl(guildId, content, channelId, Some(anchor), None))
  {
    ReanchorAppendsSegment(SearchUrl(guildId, content, channelId, None, None), anchor);
    LowerBoundedUrl(guildId, content, channelId, anchor);
    QuotePlusUnreserved(anchor);
  }

  /** After a query free of cursors, `max_id=` occurs only where the upper
      bound is assigned. */
  lemma UpperBoundOnlyAtItsSegment(p: string, ea: string, eb: string, j: nat)
    requires !Contains(p, "max_id=")
    requires '=' !in ea && '=' !in eb
    requires OccursAt(p + "&" + Pair("min_id", ea) + "&" + Pair("max_id", eb), "max_id=", j)
    ensures j == |p| + 1 + |Pair("min_id", ea)| + 1
  {
    var m, x := Pair("min_id", ea), Pair("max_id", eb);
    var r := m + ['&'] + x;
    assert p + "&" + m + "&" + x == p + ['&'] + r;
    assert "max_id" + "=" == "max_id=";
    OccursAcross(p, '&', r, "max_id=", j);
    var j1 := j - |p| - 1;
    OccursAcross(m, '&', x, "max_id=", j1);
    if j1 + 7 <= |m| {
      SegmentMatch("min_id", ea, "max_id", j1);
    } else {
      SegmentMatch("max_id", eb, "max_id", j1 - |m| - 1);
    }
  }

  /** An occurrence of `pat` inside an occurrence of `v` is an occurrence in `s`. */
  lemma OccursWithin(s: string, v: string, pat: string, j: nat, k: nat)
    requires OccursAt(s, v, j) && OccursAt(v, pat, k)
    ensures OccursAt(s, pat, j + k)
  {
    forall t | 0 <= t < |pat| ensures s[j + k + t] == pat[t] {
      assert s[j..j + |v|][k + t] == s[j + k + t];
      assert v[k..k + |pat|][t] == v[k + t];
    }
    assert s[j + k..j + k + |pat|] == pat;
  }

  lemma OccursMiddle(x: string, w: string, y: string)
    ensures OccursAt(x + w + y, w, |x|)
  {
    assert (x + w + y)[|x|..|x| + |w|] == w;
  }

  lemma BothBoundsShape(p: string, ea: string, eb: string)
    ensures p + "&" + Pair("min_id", ea) + "&" + Pair("max_id", eb)
         == (p + "&min_id=") + (ea + "&" + Pair("max_id", eb))
    ensures OccursAt(ea + "&" + Pair("max_id", eb), "max_id=", |ea| + 1)
  {
    assert "&" + ("min_id" + "=") == "&min_id=";
    assert ea + "&" + Pair("max_id", eb) == (ea + "&") + "max_id=" + eb;
    OccursMiddle(ea + "&", "max_id=", eb);
  }

  /** With both bounds present, the text after the first `min_id=` occurs
      only there. */
  lemma BoundsValueOnlyAtEnd(p: string, ea: string, eb: string)
    requires !Contains(p, "max_id=")
    requires '=' !in ea && '=' !in eb
    ensures var v := ea + "&" + Pair("max_id", eb);
      forall j: nat :: j < |p + "&min_id="| ==> !OccursAt((p + "&min_id=") + v, v, j)
  {
    var u := p + "&" + Pair("min_id", ea) + "&" + Pair("max_id", eb);
    var x := p + "&min_id=";
    var v := ea + "&" + Pair("max_id", eb);
    BothBoundsShape(p, ea, eb);
    forall j: nat | j < |x| ensures !OccursAt(x + v, v, j) {
      if OccursAt(x + v, v, j) {
        OccursWithin(u, v, "max_id=", j, |ea| + 1);
        UpperBoundOnlyAtItsSegment(p, ea, eb, j + |ea| + 1);
      }
    }
  }

  /** Re-anchoring a query that ends in a lower and an upper bound replaces
      both by the anchor: the upper bound is lost. */
  lemma ReanchorBothBounds(p: string, ea: string, eb: string, anchor: string)
    requires !Contains(p, "min_id=") && !Contains(p, "max_id=")
    requires '=' !in ea && '=' !in eb
    ensures Reanchor(Some(p + "&" + Pair("min_id", ea) + "&" + Pair("max_id", eb)), anchor)
         == Ok(p + "&" + Pair("min_id", anchor))
  {
    var x := p + "&min_id=";
    var v := ea + "&" + Pair("max_id", eb);
    BothBoundsShape(p, ea, eb);
    AppendedCursorIsFirst(p, v);
    assert p + "&min_id=" + v == x + v;
    BoundsValueOnlyAtEnd(p, ea, eb);
    ReanchorReplacesTail(x, v, anchor);
    CursorSuffix(p, anchor);
  }

  /** The first re-anchor of a URL built with both `after` and `before`
      replaces everything after `min_id=` by the anchor, and the upper
      bound `max_id` goes with it: the result is the URL built with `after`
      set to the anchor and no `before`. */
  lemma ReanchorDropsBefore(guildId: string, content: Option<string>, channelId: Option<string>,
                            after: string, before: string, anchor: string)
    requires '=' !in guildId
    requires AllUnreserved(anchor)
    ensures Reanchor(Some(SearchUrl(guildId, content, channelId, Some(after), Some(before))), anchor)
         == Ok(SearchUrl(guildId, content, channelId, Some(anchor), None))
  {
    EncodedHasNoSeparators(after);
    EncodedHasNoSeparators(before);
    UnboundedUrlHasNoCursor(guildId, content, channelId);
    BoundedUrl(guildId, content, channelId, after, before);
    ReanchorBothBounds(SearchUrl(guildId, content, channelId, None, None), QuotePlus(after), QuotePlus(before), anchor);
    LowerBoundedUrl(guildId, content, channelId, anchor);
    QuotePlusUnreserved(anchor);
  }

  /** Re-anchoring a query that ends in a lower bound of digits found
      nowhere else in it replaces that bound by the anchor. */
  lemma ReanchorLowerBound(p: string, digits: string, anchor: string)
    requires !Contains(p, "min_id=")
    requires digits != [] && AllDigits(digits) && !Contains(p, digits)
    ensures Reanchor(Some(p + "&" + Pair("min_id", digits)), anchor) == Ok(p + "&" + Pair("min_id", anchor))
  {
    CursorSuffix(p, digits);
    CursorSuffix(p, anchor);
    AppendedCursorIsFirst(p, digits);
    AppendedDigitsOnlyAtEnd(p, digits);
    var x := p + "&min_id=";
    assert x + digits == p + "&min_id=" + digits;
    ReanchorReplacesTail(x, digits, anchor);
  }

  /** A lower bound of digits that occur nowhere else in the URL is
      replaced by the anchor. */
  lemma ReanchorReplacesAfter(guildId: string, content: Option<string>, channelId: Option<string>,
                              after: string, anchor: string)
    requires '=' !in guildId
    requires after != [] && AllDigits(after)
    requires !Contains(SearchUrl(guildId, content, channelId, None, None), after)
    requires AllUnreserved(anchor)
    ensures Reanchor(Some(SearchUrl(guildId, content, channelId, Some(after), None)), anchor)
         == Ok(SearchUrl(guildId, content, channelId, Some(anchor), None))
  {
    UnboundedUrlHasNoCursor(guildId, content, channelId);
    QuotePlusUnreserved(after);
    QuotePlusUnreserved(anchor);
    LowerBoundedUrl(guildId, content, channelId, after);
    LowerBoundedUrl(guildId, content, channelId, anchor);
    ReanchorLowerBound(SearchUrl(guildId, content, channelId, None, None), after, anchor);
  }

  /** An empty lower bound: re-anchoring inserts the anchor into every gap of
      the query, in front of its first character too. */
  lemma ReanchorEmptyBound(p: string, anchor: string)
    requires !Contains(p, "min_id=")
    ensures var u := p + "&" + Pair("min_id", "");
      && Reanchor(Some(u), anchor) == Ok(ReplaceAll(u, "", anchor))
      && |ReplaceAll(u, "", anchor)| == |u| + (|u| + 1) * |anchor|
      && ReplaceAll(u, "", anchor)[..|anchor|] == anchor
  {
    CursorSuffix(p, "");
    AppendedCursorIsFirst(p, "");
    var u := p + "&" + Pair("min_id", "");
    assert u == p + "&min_id=" + "";
    ReanchorEmptyCursor(u, anchor);
  }

  /** With `after == ""` the cursor value is empty, and re-anchoring inserts
      the anchor into every gap of the URL, in front of `https://` too. */
  lemma ReanchorEmptyAfter(guildId: string, content: Option<string>, channelId: Option<string>, anchor: string)
    requires '=' !in guildId
    ensures var u := SearchUrl(guildId, content, channelId, Some(""), None);
      && Reanchor(Some(u), anchor) == Ok(ReplaceAll(u, "", anchor))
      && |ReplaceAll(u, "", anchor)| == |u| + (|u| + 1) * |anchor|
      && ReplaceAll(u, "", anchor)[..|anchor|] == anchor
  {
    var p := SearchUrl(guildId, content, channelId, None, None);
    assert SearchUrl(guildId, content, channelId, Some(""), None) == p + "&" + Pair("min_id", "") by {
      LowerBoundedUrl(guildId, content, channelId, "");
      QuotePlusEmpty();
    }
    UnboundedUrlHasNoCursor(guildId, content, channelId);
    ReanchorEmptyBound(p, anchor);
  }

  lemma {:induction false} JoinContains(parts: seq<string>, i: nat, pat: string)
    requires i < |parts| && Contains(parts[i], pat)
    ensures Contains(Join("&", parts), pat)
    decreases |parts|
  {
    if |parts| > 1 {
      var rest := Join("&", parts[1..]);
      assert Join("&", parts) == parts[0] + ("&" + rest);
      if i == 0 {
        var k: nat :| k <= |parts[0]| && OccursAt(parts[0], pat, k);
        OccursInPrefix(parts[0], "&" + rest, pat, k);
      } else {
        assert parts[1..][i - 1] == parts[i];
        JoinContains(parts[1..], i - 1, pat);
        assert Join("&", parts) == (parts[0] + "&") + rest;
        var k: nat :| k <= |rest| && OccursAt(rest, pat, k);
        OccursInSuffix(parts[0] + "&", rest, pat, k);
      }
    }
  }

  lemma QuoteAround(pre: string, w: string, post: string)
    requires QuotePlus(w) == w
    ensures QuotePlus(pre + w + post) == QuotePlus(pre) + w + QuotePlus(post)
  {
    QuotePlusConcat(pre + w, post);
    QuotePlusConcat(pre, w);
  }

  lemma MinIdUnquoted()
    ensures QuotePlus("min_id") == "min_id"
  {
    assert AllUnreserved("min_id");
    QuotePlusUnreserved("min_id");
  }

  /** A word that quoting leaves alone, mentioned in the search text, is
      still mentioned in the `content` parameter. */
  lemma ContentSegmentMentions(content: string, w: string)
    requires QuotePlus(w) == w && Contains(content, w)
    ensures Contains(Pair("content", QuotePlus(content)), w)
  {
    var k: nat :| k <= |content| && OccursAt(content, w, k);
    var pre, post := content[..k], content[k + |w|..];
    assert content == pre + w + post;
    QuoteAround(pre, w, post);
    var head := "content" + "=" + QuotePlus(pre);
    assert Pair("content", QuotePlus(content)) == head + w + QuotePlus(post);
    OccursMiddle(head, w, QuotePlus(post));
  }

  /** Search text that mentions `min_id` still mentions it once quoted. */
  lemma ContentSegmentMentionsCursor(content: string)
    requires Contains(content, "min_id")
    ensures Contains(Pair("content", QuotePlus(content)), "min_id")
  {
    MinIdUnquoted();
    ContentSegmentMentions(content, "min_id");
  }

  /** Search text that mentions `min_id` makes the first re-anchor of a
      URL built without `after` raise: the text `min_id` is there, but no
      `min_id=` follows it. */
  lemma ReanchorRejectsCursorWord(guildId: string, content: string, channelId: Option<string>, anchor: string)
    requires '=' !in guildId
    requires Contains(content, "min_id")
    ensures Reanchor(Some(SearchUrl(guildId, Some(content), channelId, None, None)), anchor) == Err(CursorNotAssigned)
  {
    UnboundedUrlHasNoCursor(guildId, Some(content), channelId);
    UnboundedUrl(guildId, Some(content), channelId);
    ContentSegmentMentionsCursor(content);
    var front := FrontSegments(guildId, Some(content), channelId);
    assert front[3] == Pair("content", QuotePlus(content));
    JoinContains(front, 3, "min_id");
  }
}
