/** Snowflake identifiers: the syntactic check `is_snowflake` and the integer
    heart of `to_datetime` / `to_snowflake` (scraper.py, lines 12-32).

    A snowflake carries milliseconds since the platform epoch in its bits
    above bit 22; the low 22 bits hold worker, process and sequence numbers.
    The calendar conversions are done in floating point in the source; here
    times are integer milliseconds since the Unix epoch. */
module Snowflake {
  import opened Wrappers
  import opened Strings

  /** 2015-01-01T00:00:00.000Z in Unix milliseconds. */
  const DiscordEpoch: int := 1420070400000

  /** `1 << 22`: shifting by 22 bits multiplies or floor-divides by this. */
  const TimestampUnit: int := 4194304

  // ---------------------------------------------------------------------
  // is_snowflake: re.match(r"^\d{17,19}$", s)
  // ---------------------------------------------------------------------

  /** Does `\d{lo,hi}` followed by the end of input match all of `s`? The
      digit class is ASCII only. */
  function MatchDigitRun(s: string, lo: nat, hi: nat): (b: bool)
    ensures b <==> lo <= |s| <= hi && AllDigits(s)
    decreases |s|
  {
    if s == [] then lo == 0
    else hi > 0 && IsDigit(s[0]) && MatchDigitRun(s[1..], if lo == 0 then 0 else lo - 1, hi - 1)
  }

  /** `is_snowflake`. Python's `$` also matches just before a final newline,
      so 17 to 19 digits followed by one `"\n"` are accepted as well. */
  function IsSnowflake(s: string): (b: bool)
    ensures b <==> ((17 <= |s| <= 19 && AllDigits(s))
                    || (18 <= |s| <= 20 && s[|s| - 1] == '\n' && AllDigits(s[..|s| - 1])))
  {
    MatchDigitRun(s, 17, 19)
    || (s != [] && s[|s| - 1] == '\n' && MatchDigitRun(s[..|s| - 1], 17, 19))
  }

  /** Any 17 to 19 ASCII digits form a snowflake, with or without one
      trailing newline. */
  lemma DigitsAreSnowflake(s: string)
    requires 17 <= |s| <= 19 && AllDigits(s)
    ensures IsSnowflake(s) && IsSnowflake(s + "\n")
  {
    assert (s + "\n")[..|s|] == s;
  }

  /** Accepted by the validator's test suite: 17 digits. */
  lemma IsSnowflakeAccepts17()
    ensures IsSnowflake("12345678901234567")
  {
    DigitsAreSnowflake("12345678901234567");
  }

  /** Accepted by the validator's test suite: 19 digits. */
  lemma IsSnowflakeAccepts19()
    ensures IsSnowflake("1234567890123456789")
  {
    DigitsAreSnowflake("1234567890123456789");
  }

  /** Through Python's `$`, a snowflake followed by a final newline passes. */
  lemma IsSnowflakeAcceptsFinalNewline()
    ensures IsSnowflake("123456789012345678\n")
  {
    var digits := "123456789012345678";
    assert AllDigits(digits);
    assert "123456789012345678\n" == digits + "\n";
    DigitsAreSnowflake(digits);
  }

  /** The rejected cases of the validator's test suite: 16 and 20 digits and
      the empty string. */
  lemma IsSnowflakeRejectsLength()
    ensures !IsSnowflake("1234567890123456")
    ensures !IsSnowflake("12345678901234567890")
    ensures !IsSnowflake("")
  {
  }

  /** The rejected cases of the validator's test suite: a letter, `!` or `-`. */
  lemma IsSnowflakeRejectsLetters()
    ensures !IsSnowflake("1234567890123456a")
    ensures !IsSnowflake("abcd12345678901234")
  {
    assert !IsDigit("1234567890123456a"[16]);
    assert !IsDigit("abcd12345678901234"[0]);
  }

  lemma IsSnowflakeRejectsPunctuation()
    ensures !IsSnowflake("12345678901234567!")
    ensures !IsSnowflake("123-45678901234567")
  {
    assert !IsDigit("12345678901234567!"[17]);
    assert !IsDigit("123-45678901234567"[3]);
  }

  // ---------------------------------------------------------------------
  // The codec on integers
  // ---------------------------------------------------------------------

  /** `(snowflake >> 22) + epoch`: the creation time in Unix milliseconds.
      Python's `>>` floors, and so does Dafny's `/` by a positive divisor. */
  function SnowflakeToMillis(snowflake: int, epoch: int): int {
    snowflake / TimestampUnit + epoch
  }

  /** `(ms - DISCORD_EPOCH) << 22`: the smallest snowflake of that millisecond.
      The source hard-codes the epoch here rather than taking a parameter. */
  function MillisToSnowflake(ms: int): int {
    (ms - DiscordEpoch) * TimestampUnit
  }

  /** Encoding a time and decoding it again gives the same time. */
  lemma DecodeEncode(ms: int)
    ensures SnowflakeToMillis(MillisToSnowflake(ms), DiscordEpoch) == ms
  {
    DivMulCancel(ms - DiscordEpoch);
  }

  /** Decoding a snowflake and encoding the time again keeps the snowflake
      except for its low 22 bits, which are cleared. */
  lemma EncodeDecode(s: int)
    ensures MillisToSnowflake(SnowflakeToMillis(s, DiscordEpoch)) == s - s % TimestampUnit
    ensures 0 <= s - MillisToSnowflake(SnowflakeToMillis(s, DiscordEpoch)) < TimestampUnit
  {
    assert s == (s / TimestampUnit) * TimestampUnit + s % TimestampUnit;
  }

  /** Two snowflakes of the same millisecond decode to the same time, whatever
      their low bits. */
  lemma LowBitsIgnored(s: int, low: int, epoch: int)
    requires 0 <= low < TimestampUnit && s % TimestampUnit == 0
    ensures SnowflakeToMillis(s + low, epoch) == SnowflakeToMillis(s, epoch)
  {
    var q := s / TimestampUnit;
    assert s == q * TimestampUnit;
    DivOfMulPlus(q, low);
  }

  /** Decoding is monotone: a later snowflake never decodes to an earlier time. */
  lemma DecodeMonotone(s1: int, s2: int, epoch: int)
    requires s1 <= s2
    ensures SnowflakeToMillis(s1, epoch) <= SnowflakeToMillis(s2, epoch)
  {
  }

  /** No non-negative snowflake decodes to a time before the epoch, and
      snowflake 0 is the epoch itself. */
  lemma DecodeAtOrAfterEpoch(s: int, epoch: int)
    requires s >= 0
    ensures SnowflakeToMillis(s, epoch) >= epoch
    ensures s < TimestampUnit ==> SnowflakeToMillis(s, epoch) == epoch
  {
  }

  lemma DivMulCancel(q: int)
    ensures (q * TimestampUnit) / TimestampUnit == q
  {
    DivOfMulPlus(q, 0);
  }

  lemma DivOfMulPlus(q: int, low: int)
    requires 0 <= low < TimestampUnit
    ensures (q * TimestampUnit + low) / TimestampUnit == q
  {
    var n := q * TimestampUnit + low;
    var d, m := n / TimestampUnit, n % TimestampUnit;
    assert n == d * TimestampUnit + m;
    assert (q - d) * TimestampUnit == m - low;
  }

  // ---------------------------------------------------------------------
  // The codec on strings
  // ---------------------------------------------------------------------

  datatype CodecError = NotAnInteger(text: string)

  /** `to_datetime(snowflake, epoch)` in Unix milliseconds; `int()` raising
      `ValueError` becomes an error. The snowflake lies in the 2^22-wide
      window of the millisecond returned, so a non-empty run of digits
      always decodes, to the epoch or later, and any snowflake below 2^22
      decodes to the epoch itself. */
  function ToDatetimeMillis(snowflake: string, epoch: int): (r: Result<int, CodecError>)
    ensures r.Err? <==> ParseInt(snowflake).None?
    ensures r.Err? ==> r.error == NotAnInteger(snowflake)
    ensures r.Ok? ==> var n := ParseInt(snowflake).value;
      (r.value - epoch) * TimestampUnit <= n < (r.value - epoch + 1) * TimestampUnit
    ensures snowflake != [] && AllDigits(snowflake) ==> r.Ok? && r.value >= epoch
    ensures snowflake != [] && AllDigits(snowflake) && ParseInt(snowflake).value < TimestampUnit ==> r == Ok(epoch)
  {
    match ParseInt(snowflake)
    case None => Err(NotAnInteger(snowflake))
    case Some(n) => Ok(SnowflakeToMillis(n, epoch))
  }

  /** `to_snowflake` on a time given in Unix milliseconds. */
  function ToSnowflake(ms: int): string {
    Show(MillisToSnowflake(ms))
  }

  /** The string codec round-trips on time: `to_datetime(to_snowflake(t)) == t`. */
  lemma ToDatetimeToSnowflake(ms: int)
    ensures ToDatetimeMillis(ToSnowflake(ms), DiscordEpoch) == Ok(ms)
  {
    ParseShow(MillisToSnowflake(ms));
    DecodeEncode(ms);
  }

  /** Snowflake `"0"` decodes to exactly the epoch it is decoded against, and
      the platform epoch encodes to `"0"`. */
  lemma ZeroIsTheEpoch(epoch: int)
    ensures ToDatetimeMillis("0", epoch) == Ok(epoch)
    ensures ToSnowflake(DiscordEpoch) == "0"
  {
    assert "0"[..0] == [];
  }

  /** A time at or after the epoch encodes to a plain string of digits, so it
      passes as a `min_id`/`max_id` value without escaping. */
  lemma ToSnowflakeDigits(ms: int)
    requires ms >= DiscordEpoch
    ensures AllDigits(ToSnowflake(ms)) && ToSnowflake(ms) != []
  {
  }
}
