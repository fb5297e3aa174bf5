/** Where the results go: the output path chosen by `set_output` and
    `generate_filename` (scraper.py, lines 81-101), and the JSON Lines text
    `append_message` writes (lines 103-107). */
module Output {
  import opened Wrappers
  import opened Strings

  // ---------------------------------------------------------------------
  // str.split() and the query part of the file name
  // ---------------------------------------------------------------------

  /** The characters Python's `str.split()` splits on (`str.isspace`). */
  predicate IsSpace(c: char) {
    c == ' ' || ('\U{9}' <= c <= '\U{D}') || ('\U{1C}' <= c <= '\U{1F}')
    || c == '\U{85}' || c == '\U{A0}' || c == '\U{1680}'
    || ('\U{2000}' <= c <= '\U{200A}') || c == '\U{2028}' || c == '\U{2029}'
    || c == '\U{202F}' || c == '\U{205F}' || c == '\U{3000}'
  }

  predicate NoSpace(s: string) {
    forall i :: 0 <= i < |s| ==> !IsSpace(s[i])
  }

  /** The run of non-whitespace characters `s` starts with. */
  function WordAt(s: string): (w: string)
    ensures |w| <= |s| && w == s[..|w|]
    ensures NoSpace(w)
    ensures |w| < |s| ==> IsSpace(s[|w|])
    decreases |s|
  {
    if s == [] || IsSpace(s[0]) then [] else [s[0]] + WordAt(s[1..])
  }

  /** `s.split()`: the maximal runs of non-whitespace characters, in order. */
  function Words(s: string): (ws: seq<string>)
    ensures forall i :: 0 <= i < |ws| ==> ws[i] != [] && NoSpace(ws[i])
    decreases |s|
  {
    if s == [] then []
    else if IsSpace(s[0]) then Words(s[1..])
    else
      var w := WordAt(s);
      [w] + Words(s[|w|..])
  }

  /** `s` with its whitespace removed: the reference the words are checked against. */
  function Unspaced(s: string): string
    decreases |s|
  {
    if s == [] then []
    else if IsSpace(s[0]) then Unspaced(s[1..])
    else [s[0]] + Unspaced(s[1..])
  }

  lemma {:induction false} UnspacedPrefix(s: string, k: nat)
    requires k <= |s| && NoSpace(s[..k])
    ensures Unspaced(s) == s[..k] + Unspaced(s[k..])
    decreases k
  {
    if k > 0 {
      assert !IsSpace(s[..k][0]);
      assert s[1..][..k - 1] == s[..k][1..];
      UnspacedPrefix(s[1..], k - 1);
      assert s[1..][k - 1..] == s[k..];
      assert s[..k] == [s[0]] + s[1..][..k - 1];
    }
  }

  /** Splitting loses only whitespace: the words, put back together, are
      the text without its whitespace. */
  lemma {:induction false} WordsKeepText(s: string)
    ensures Concat(Words(s)) == Unspaced(s)
    decreases |s|
  {
    if s != [] {
      if IsSpace(s[0]) {
        WordsKeepText(s[1..]);
      } else {
        var w := WordAt(s);
        var rest := Words(s[|w|..]);
        WordsKeepText(s[|w|..]);
        assert Words(s) == [w] + rest;
        assert ([w] + rest)[1..] == rest;
        UnspacedPrefix(s, |w|);
      }
    }
  }

  predicate AllSpace(g: string) {
    forall i :: 0 <= i < |g| ==> IsSpace(g[i])
  }

  /** `gaps[0] + ws[0] + gaps[1] + ... + ws[n-1] + gaps[n]`. */
  function Interleave(gaps: seq<string>, ws: seq<string>): string
    requires |gaps| == |ws| + 1
    decreases |ws|
  {
    if ws == [] then gaps[0] else gaps[0] + ws[0] + Interleave(gaps[1..], ws[1..])
  }

  /** `s` is laid out as whitespace gaps around the words `ws`: the words
      are non-empty and whitespace-free, and every gap between two words
      holds at least one whitespace character. This is what `str.split()`
      promises, independently of how it scans. */
  predicate Layout(s: string, gaps: seq<string>, ws: seq<string>) {
    && |gaps| == |ws| + 1
    && (forall i :: 0 <= i < |ws| ==> ws[i] != [] && NoSpace(ws[i]))
    && (forall i :: 0 <= i < |gaps| ==> AllSpace(gaps[i]))
    && (forall i :: 0 < i < |ws| ==> gaps[i] != [])
    && s == Interleave(gaps, ws)
  }

  lemma InterleaveGrowFirst(c: char, gaps: seq<string>, gaps': seq<string>, ws: seq<string>)
    requires |gaps| == |ws| + 1 && |gaps'| == |gaps|
    requires gaps'[0] == [c] + gaps[0] && gaps'[1..] == gaps[1..]
    ensures [c] + Interleave(gaps, ws) == Interleave(gaps', ws)
  {
    if ws != [] {
      var g, w, x := gaps[0], ws[0], Interleave(gaps[1..], ws[1..]);
      assert Interleave(gaps, ws) == g + w + x;
      assert Interleave(gaps', ws) == ([c] + g) + w + x;
      SeqAssoc(c, g, w, x);
    }
  }

  lemma SeqAssoc(c: char, g: string, w: string, x: string)
    ensures [c] + (g + w + x) == ([c] + g) + w + x
  {
  }

  /** A whitespace character in front of a layout joins its first gap. */
  lemma LayoutSpaceCons(c: char, t: string, gaps: seq<string>, ws: seq<string>)
    requires IsSpace(c) && Layout(t, gaps, ws)
    ensures Layout([c] + t, [[c] + gaps[0]] + gaps[1..], ws)
  {
    var gaps' := [[c] + gaps[0]] + gaps[1..];
    assert gaps'[1..] == gaps[1..];
    InterleaveGrowFirst(c, gaps, gaps', ws);
    assert forall i :: 0 < i < |gaps'| ==> gaps'[i] == gaps[i];
    assert AllSpace(gaps'[0]) by {
      assert forall i :: 0 < i < |gaps'[0]| ==> gaps'[0][i] == gaps[0][i - 1];
    }
  }

  /** A word in front of a layout that starts with whitespace, or of an
      empty text, becomes its first word, after an empty gap. */
  lemma LayoutWordCons(w: string, t: string, gaps: seq<string>, ws: seq<string>)
    requires w != [] && NoSpace(w) && Layout(t, gaps, ws)
    requires t == [] || IsSpace(t[0])
    ensures Layout(w + t, [[]] + gaps, [w] + ws)
  {
    var gaps', ws' := [[]] + gaps, [w] + ws;
    assert ws'[1..] == ws && gaps'[1..] == gaps;
    assert Interleave(gaps', ws') == w + t;
    if ws != [] {
      assert t == gaps[0] + (ws[0] + Interleave(gaps[1..], ws[1..]));
      assert ws[0] != [] && !IsSpace(ws[0][0]);
      assert gaps[0] != [];
    }
  }

  /** Every text is laid out around its words. */
  lemma {:induction false} WordsLayout(s: string)
    ensures exists gaps :: Layout(s, gaps, Words(s))
    decreases |s|
  {
    if s == [] {
      assert Layout(s, [[]], Words(s));
    } else if IsSpace(s[0]) {
      WordsLayout(s[1..]);
      var gaps :| Layout(s[1..], gaps, Words(s[1..]));
      LayoutSpaceCons(s[0], s[1..], gaps, Words(s[1..]));
      assert [s[0]] + s[1..] == s;
      assert Words(s) == Words(s[1..]);
      assert Layout(s, [[s[0]] + gaps[0]] + gaps[1..], Words(s));
    } else {
      var w := WordAt(s);
      var rest := s[|w|..];
      WordsLayout(rest);
      var gaps :| Layout(rest, gaps, Words(rest));
      LayoutWordCons(w, rest, gaps, Words(rest));
      assert w + rest == s;
      assert Words(s) == [w] + Words(rest);
      assert Layout(s, [[]] + gaps, Words(s));
    }
  }

  /** The text after the first word of a layout is laid out around the
      remaining words, and starts with whitespace unless it is empty. */
  lemma LayoutTail(s: string, gaps: seq<string>, ws: seq<string>)
    requires Layout(s, gaps, ws) && ws != []
    ensures var r := Interleave(gaps[1..], ws[1..]);
      && s == gaps[0] + (ws[0] + r)
      && Layout(r, gaps[1..], ws[1..])
      && (r == [] || IsSpace(r[0]))
  {
    var r := Interleave(gaps[1..], ws[1..]);
    if ws[1..] != [] {
      assert gaps[1] != [];
      assert r == gaps[1] + (ws[1..][0] + Interleave(gaps[1..][1..], ws[1..][1..]));
      assert r[0] == gaps[1][0];
    } else {
      assert r == gaps[1];
    }
  }

  lemma {:induction false} WordsAfterSpace(g: string, t: string)
    requires AllSpace(g)
    ensures Words(g + t) == Words(t)
    decreases |g|
  {
    if g == [] {
      assert g + t == t;
    } else {
      assert (g + t)[0] == g[0] && IsSpace(g[0]);
      assert (g + t)[1..] == g[1..] + t;
      WordsAfterSpace(g[1..], t);
    }
  }

  lemma {:induction false} WordAtBeforeSpace(w: string, r: string)
    requires NoSpace(w)
    requires r == [] || IsSpace(r[0])
    ensures WordAt(w + r) == w
    decreases |w|
  {
    if w == [] {
      assert w + r == r;
    } else {
      assert (w + r)[1..] == w[1..] + r;
      WordAtBeforeSpace(w[1..], r);
    }
  }

  /** Any layout of `s` around some words is the one `str.split()` finds:
      the words are exactly `Words(s)`, so the split points are fixed. */
  lemma {:induction false} LayoutWords(s: string, gaps: seq<string>, ws: seq<string>)
    requires Layout(s, gaps, ws)
    ensures ws == Words(s)
    decreases |ws|
  {
    if ws == [] {
      assert s == gaps[0] + [];
      WordsAfterSpace(gaps[0], []);
    } else {
      var w := ws[0];
      var r := Interleave(gaps[1..], ws[1..]);
      LayoutTail(s, gaps, ws);
      WordsAfterSpace(gaps[0], w + r);
      WordAtBeforeSpace(w, r);
      LayoutWords(r, gaps[1..], ws[1..]);
      var t := w + r;
      assert t[0] == w[0] && !IsSpace(t[0]);
      assert t[|w|..] == r;
      assert Words(t) == [w] + Words(r);
    }
  }

  /** `ws` is the split of `s` exactly when `s` is laid out around `ws`. */
  lemma WordsCharacterised(s: string, ws: seq<string>)
    ensures ws == Words(s) <==> exists gaps :: Layout(s, gaps, ws)
  {
    if ws == Words(s) {
      WordsLayout(s);
    }
    if gaps :| Layout(s, gaps, ws) {
      LayoutWords(s, gaps, ws);
    }
  }

  /** A non-empty text without whitespace is one word. */
  lemma {:induction false} SingleWord(s: string)
    requires s != [] && NoSpace(s)
    ensures Words(s) == [s]
  {
    WordAtWhole(s);
    assert s[|s|..] == [];
  }

  lemma {:induction false} WordAtWhole(s: string)
    requires NoSpace(s)
    ensures WordAt(s) == s
    decreases |s|
  {
    if s != [] {
      WordAtWhole(s[1..]);
    }
  }

  /** `"_".join(query.split()) if query else ""`. */
  function SanitizedQuery(query: Option<string>): string {
    if query.None? || query.value == [] then [] else Join("_", Words(query.value))
  }

  lemma {:induction false} JoinNoSpace(sep: string, parts: seq<string>)
    requires NoSpace(sep)
    requires forall i :: 0 <= i < |parts| ==> NoSpace(parts[i])
    ensures NoSpace(Join(sep, parts))
    decreases |parts|
  {
    if |parts| > 1 {
      JoinNoSpace(sep, parts[1..]);
      var s := Join(sep, parts);
      var rest := Join(sep, parts[1..]);
      assert s == parts[0] + sep + rest;
      forall i | 0 <= i < |s| ensures !IsSpace(s[i]) {
        if i < |parts[0]| {
          assert s[i] == parts[0][i];
        } else if i < |parts[0]| + |sep| {
          assert s[i] == sep[i - |parts[0]|];
        } else {
          assert s[i] == rest[i - |parts[0]| - |sep|];
        }
      }
    }
  }

  /** The query part of the file name holds no whitespace; a query that is
      a single word is used as it is. */
  lemma SanitizedQueryShape(query: Option<string>)
    ensures NoSpace(SanitizedQuery(query))
    ensures query.Some? && query.value != [] && NoSpace(query.value) ==> SanitizedQuery(query) == query.value
  {
    if query.Some? && query.value != [] {
      assert NoSpace("_");
      JoinNoSpace("_", Words(query.value));
      if NoSpace(query.value) {
        SingleWord(query.value);
      }
    }
  }

  // ---------------------------------------------------------------------
  // The time stamp: strftime("%Y%m%d_%H%M%S")
  // ---------------------------------------------------------------------

  /** A local date and time as `datetime.now()` gives it. */
  datatype DateTime = DateTime(year: nat, month: nat, day: nat, hour: nat, minute: nat, second: nat)

  predicate ValidDateTime(t: DateTime) {
    1000 <= t.year <= 9999 && 1 <= t.month <= 12 && 1 <= t.day <= 31
    && t.hour < 24 && t.minute < 60 && t.second < 60
  }

  /** `n` in two decimal digits, zero-padded. */
  function Pad2(n: nat): (r: string)
    requires n < 100
    ensures |r| == 2 && AllDigits(r)
  {
    [DigitChar(n / 10), DigitChar(n % 10)]
  }

  function Pad4(n: nat): (r: string)
    requires n < 10000
    ensures |r| == 4 && AllDigits(r)
  {
    Pad2(n / 100) + Pad2(n % 100)
  }

  /** `strftime("%Y%m%d_%H%M%S")`. */
  function Stamp(t: DateTime): string
    requires ValidDateTime(t)
  {
    Pad4(t.year) + Pad2(t.month) + Pad2(t.day) + "_" + Pad2(t.hour) + Pad2(t.minute) + Pad2(t.second)
  }

  /** The stamp is always fifteen characters: eight digits of date, `_`,
      six digits of time. */
  lemma StampShape(t: DateTime)
    requires ValidDateTime(t)
    ensures var s := Stamp(t);
      |s| == 15 && s[8] == '_' && AllDigits(s[..8]) && AllDigits(s[9..])
  {
    var s := Stamp(t);
    var date := Pad4(t.year) + Pad2(t.month) + Pad2(t.day);
    var time := Pad2(t.hour) + Pad2(t.minute) + Pad2(t.second);
    assert s == date + "_" + time;
    assert s[..8] == date;
    assert s[9..] == time;
  }

  /** A stamp holds no whitespace. */
  lemma StampNoSpace(t: DateTime)
    requires ValidDateTime(t)
    ensures NoSpace(Stamp(t))
  {
    var s := Stamp(t);
    StampShape(t);
    forall i | 0 <= i < |s| ensures !IsSpace(s[i]) {
      if i < 8 {
        assert s[i] == s[..8][i];
      } else if i > 8 {
        assert s[i] == s[9..][i - 9];
      }
    }
  }

  // ---------------------------------------------------------------------
  // generate_filename and set_output
  // ---------------------------------------------------------------------

  /** `generate_filename`: `{guild_id}_{query}_{stamp}.jsonl`. */
  function FileName(guildId: string, query: Option<string>, stamp: string): string {
    guildId + "_" + SanitizedQuery(query) + "_" + stamp + ".jsonl"
  }

  /** The name starts with the guild id and `_`, ends with `_`, the stamp
      and `.jsonl`, and has the sanitised query in between. */
  lemma FileNameParts(guildId: string, query: Option<string>, stamp: string)
    ensures var name := FileName(guildId, query, stamp);
      && |name| == |guildId| + |SanitizedQuery(query)| + |stamp| + 8
      && name[..|guildId| + 1] == guildId + "_"
      && name[|name| - |stamp| - 7..] == "_" + stamp + ".jsonl"
      && name[|guildId| + 1..|name| - |stamp| - 7] == SanitizedQuery(query)
  {
    var q := SanitizedQuery(query);
    var name := FileName(guildId, query, stamp);
    assert name == (guildId + "_") + q + ("_" + stamp + ".jsonl");
  }

  /** A file name built from a guild id and a stamp without whitespace has none. */
  lemma FileNameNoSpace(guildId: string, query: Option<string>, stamp: string)
    requires NoSpace(guildId) && NoSpace(stamp)
    ensures NoSpace(FileName(guildId, query, stamp))
  {
    SanitizedQueryShape(query);
    var name := FileName(guildId, query, stamp);
    var parts := [guildId, SanitizedQuery(query), stamp + ".jsonl"];
    assert NoSpace(stamp + ".jsonl") by {
      assert forall i :: 0 <= i < |".jsonl"| ==> !IsSpace(".jsonl"[i]);
      var s := stamp + ".jsonl";
      forall i | 0 <= i < |s| ensures !IsSpace(s[i]) {
        if i >= |stamp| {
          assert s[i] == ".jsonl"[i - |stamp|];
        }
      }
    }
    assert NoSpace("_");
    JoinNoSpace("_", parts);
    assert parts[1..][1..] == [stamp + ".jsonl"];
    assert Join("_", parts[1..]) == SanitizedQuery(query) + "_" + (stamp + ".jsonl");
    assert Join("_", parts) == guildId + "_" + Join("_", parts[1..]);
    assert Join("_", parts) == name;
  }

  /** `os.path.join(a, b)` on POSIX: an absolute `b` replaces `a`; otherwise
      a `/` is put between them unless `a` is empty or already ends in one. */
  function PathJoin(a: string, b: string): string {
    if b != [] && b[0] == '/' then b
    else if a == [] || a[|a| - 1] == '/' then a + b
    else a + "/" + b
  }

  predicate EndsWithSlash(s: string) {
    s != [] && s[|s| - 1] == '/'
  }

  /** The output file, and the directory to create when it does not exist. */
  datatype Target = Target(path: string, directory: Option<string>)

  /** `set_output(output)`: no output (or an empty one) means the generated
      name; an output ending in `/` is a directory the generated name is
      joined to; anything else is the file itself. */
  function ResolveOutput(output: Option<string>, fileName: string): Target {
    if output.None? || output.value == [] then Target(fileName, None)
    else if EndsWithSlash(output.value) then Target(PathJoin(output.value, fileName), Some(output.value))
    else Target(output.value, None)
  }

  /** Exactly one of three things happens, and in the directory case the
      file goes inside that directory unless the generated name is an
      absolute path. */
  lemma ResolveOutputCases(output: Option<string>, fileName: string)
    ensures var t := ResolveOutput(output, fileName);
      && (t.directory.Some? <==> output.Some? && EndsWithSlash(output.value))
      && (output.None? || output.value == [] ==> t.path == fileName)
      && (output.Some? && output.value != [] && !EndsWithSlash(output.value) ==> t.path == output.value)
      && (t.directory.Some? && (fileName == [] || fileName[0] != '/') ==> t.path == t.directory.value + fileName)
      && (t.directory.Some? && fileName != [] && fileName[0] == '/' ==> t.path == fileName)
  {
  }

  /** The generated name starts with the guild id, so a guild id that starts
      with `/` makes `os.path.join` drop the directory. */
  lemma AbsoluteGuildEscapesDirectory(dir: string, guildId: string, query: Option<string>, stamp: string)
    requires EndsWithSlash(dir)
    requires guildId != [] && guildId[0] == '/'
    ensures ResolveOutput(Some(dir), FileName(guildId, query, stamp)).path == FileName(guildId, query, stamp)
  {
    FileNameParts(guildId, query, stamp);
    var name := FileName(guildId, query, stamp);
    assert name[0] == (guildId + "_")[0];
  }

  // ---------------------------------------------------------------------
  // append_message: one JSON array per line
  // ---------------------------------------------------------------------

  /** A message as the search endpoint returns it: its id and the text
      `json.dumps` produces for the whole message object. */
  datatype Message = Message(id: string, json: string)

  /** A hit with its surrounding messages, as one entry of `"messages"`. */
  type Group = seq<Message>

  /** A decoded 200 response: `total_results` and `messages`. */
  datatype Page = Page(totalResults: int, groups: seq<Group>)

  /** `json.dumps` never writes a raw line break without `indent`. */
  predicate OneLine(s: string) {
    '\n' !in s
  }

  predicate MessagesOneLine(groups: seq<Group>) {
    forall i, j :: 0 <= i < |groups| && 0 <= j < |groups[i]| ==> OneLine(groups[i][j].json)
  }

  function MessageTexts(g: Group): (r: seq<string>)
    ensures |r| == |g| && forall j :: 0 <= j < |g| ==> r[j] == g[j].json
  {
    seq(|g|, j requires 0 <= j < |g| => g[j].json)
  }

  /** `json.dumps(group)`: the messages' texts in a JSON array. */
  function Dumps(g: Group): string {
    "[" + Join(", ", MessageTexts(g)) + "]"
  }

  /** The lines `append_message` writes for one page: one per group. */
  function Lines(groups: seq<Group>): (r: seq<string>)
    ensures |r| == |groups| && forall i :: 0 <= i < |groups| ==> r[i] == Dumps(groups[i]) + "\n"
  {
    seq(|groups|, i requires 0 <= i < |groups| => Dumps(groups[i]) + "\n")
  }

  /** The text appended to the output file for one page. */
  function PageText(groups: seq<Group>): string {
    Concat(Lines(groups))
  }

  /** The lines of a text, each without its line break; a final line
      without a break counts too. */
  function SplitLines(text: string): seq<string>
    decreases |text|
  {
    if text == [] then []
    else match FindFirst(text, "\n")
      case None => [text]
      case Some(k) => [text[..k]] + SplitLines(text[k + 1..])
  }

  lemma SplitLinesCons(line: string, rest: string)
    requires OneLine(line)
    ensures SplitLines(line + "\n" + rest) == [line] + SplitLines(rest)
  {
    var text := line + "\n" + rest;
    assert OccursAt(text, "\n", |line|);
    forall j: nat | j < |line| ensures !OccursAt(text, "\n", j) {
      if OccursAt(text, "\n", j) {
        CharOfOccurrence(text, "\n", j, j);
      }
    }
    assert FindFirst(text, "\n") == Some(|line|);
    assert text[..|line|] == line;
    assert text[|line| + 1..] == rest;
  }

  lemma {:induction false} JoinOneLine(sep: string, parts: seq<string>)
    requires OneLine(sep)
    requires forall i :: 0 <= i < |parts| ==> OneLine(parts[i])
    ensures OneLine(Join(sep, parts))
    decreases |parts|
  {
    if |parts| > 1 {
      JoinOneLine(sep, parts[1..]);
      assert Join(sep, parts) == parts[0] + sep + Join(sep, parts[1..]);
    }
  }

  lemma DumpsOneLine(g: Group)
    requires forall j :: 0 <= j < |g| ==> OneLine(g[j].json)
    ensures OneLine(Dumps(g))
  {
    JoinOneLine(", ", MessageTexts(g));
  }

  /** The arrays `json.dumps` writes for the groups, one per group. */
  function Dumped(groups: seq<Group>): (r: seq<string>)
    ensures |r| == |groups| && forall i :: 0 <= i < |groups| ==> r[i] == Dumps(groups[i])
  {
    seq(|groups|, i requires 0 <= i < |groups| => Dumps(groups[i]))
  }

  /** Each line followed by its line break. */
  function Terminated(lines: seq<string>): (r: seq<string>)
    ensures |r| == |lines| && forall i :: 0 <= i < |lines| ==> r[i] == lines[i] + "\n"
  {
    seq(|lines|, i requires 0 <= i < |lines| => lines[i] + "\n")
  }

  lemma TerminatedCons(lines: seq<string>)
    requires lines != []
    ensures Concat(Terminated(lines)) == lines[0] + "\n" + Concat(Terminated(lines[1..]))
  {
    assert Terminated(lines)[1..] == Terminated(lines[1..]);
  }

  /** Splitting a text made of terminated lines gives the lines back. */
  lemma {:induction false} TerminatedReadsBack(lines: seq<string>, rest: string)
    requires forall i :: 0 <= i < |lines| ==> OneLine(lines[i])
    ensures SplitLines(Concat(Terminated(lines)) + rest) == lines + SplitLines(rest)
    decreases |lines|
  {
    if lines == [] {
      assert Concat(Terminated(lines)) + rest == rest;
    } else {
      var first, tail := lines[0], lines[1..];
      var after := Concat(Terminated(tail)) + rest;
      assert Concat(Terminated(lines)) + rest == first + "\n" + after by {
        TerminatedCons(lines);
      }
      assert SplitLines(after) == tail + SplitLines(rest) by {
        TerminatedReadsBack(tail, rest);
      }
      calc {
        SplitLines(Concat(Terminated(lines)) + rest);
        SplitLines(first + "\n" + after);
        { SplitLinesCons(first, after); }
        [first] + SplitLines(after);
        [first] + (tail + SplitLines(rest));
        { assert lines == [first] + tail; }
        lines + SplitLines(rest);
      }
    }
  }

  /** Reading the appended text back line by line gives one JSON array per
      group, in order, and then whatever followed: the output is valid
      JSON Lines. */
  lemma PageTextReadsBack(groups: seq<Group>, rest: string)
    requires MessagesOneLine(groups)
    ensures SplitLines(PageText(groups) + rest) == Dumped(groups) + SplitLines(rest)
  {
    var dumped := Dumped(groups);
    forall i | 0 <= i < |dumped| ensures OneLine(dumped[i]) {
      DumpsOneLine(groups[i]);
    }
    assert Lines(groups) == Terminated(dumped);
    TerminatedReadsBack(dumped, rest);
  }

  /** The text of a JSON Lines file holding `lines`. */
  function JsonLines(lines: seq<string>): string {
    Concat(Terminated(lines))
  }

  /** Appending lines to a file appends their text. */
  lemma JsonLinesAppend(lines: seq<string>, more: seq<string>)
    ensures JsonLines(lines + more) == JsonLines(lines) + JsonLines(more)
  {
    assert Terminated(lines + more) == Terminated(lines) + Terminated(more);
    ConcatAppend(Terminated(lines), Terminated(more));
  }

  /** What `append_message` writes for a page is the JSON Lines text of
      one array per group. */
  lemma PageTextIsJsonLines(groups: seq<Group>)
    ensures PageText(groups) == JsonLines(Dumped(groups))
  {
    assert Lines(groups) == Terminated(Dumped(groups));
  }

  /** A JSON Lines text reads back as the lines it was written from. */
  lemma JsonLinesReadBack(lines: seq<string>)
    requires forall i :: 0 <= i < |lines| ==> OneLine(lines[i])
    ensures SplitLines(JsonLines(lines)) == lines
  {
    TerminatedReadsBack(lines, "");
    assert JsonLines(lines) + "" == JsonLines(lines);
    assert lines + [] == lines;
  }
}
