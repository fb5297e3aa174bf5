/** The Python string operations the searcher relies on: `pat in s`,
    `s.index(pat)`, `s.replace(a, b)`, `sep.join(parts)`, and the decimal
    conversions `str(n)` and `int(s)`. */
module Strings {
  import opened Wrappers

  // ---------------------------------------------------------------------
  // Substring search
  // ---------------------------------------------------------------------

  /** `pat` occurs in `s` starting at index `i`. */
  predicate OccursAt(s: string, pat: string, i: nat) {
    i + |pat| <= |s| && s[i..i + |pat|] == pat
  }

  /** Python's `pat in s`. */
  predicate Contains(s: string, pat: string) {
    exists i: nat | i <= |s| :: OccursAt(s, pat, i)
  }

  /** The first occurrence of `pat` in `s` at or after index `k`. */
  function FindFrom(s: string, pat: string, k: nat): (r: Option<nat>)
    requires k <= |s|
    ensures r.Some? ==> k <= r.value && OccursAt(s, pat, r.value)
    ensures forall j: nat :: k <= j && (r.None? || j < r.value) ==> !OccursAt(s, pat, j)
    decreases |s| - k
  {
    if OccursAt(s, pat, k) then Some(k)
    else if k == |s| then None
    else FindFrom(s, pat, k + 1)
  }

  /** Python's `s.index(pat)`: the first occurrence, or `None` where Python
      raises `ValueError`. */
  function FindFirst(s: string, pat: string): (r: Option<nat>)
    ensures r.Some? ==> OccursAt(s, pat, r.value)
    ensures r.Some? ==> forall j: nat :: j < r.value ==> !OccursAt(s, pat, j)
    ensures r.None? <==> !Contains(s, pat)
  {
    FindFrom(s, pat, 0)
  }

  /** An occurrence inside a suffix is an occurrence in the whole string. */
  lemma OccursInSuffix(x: string, s: string, pat: string, j: nat)
    requires OccursAt(s, pat, j)
    ensures OccursAt(x + s, pat, |x| + j)
  {
    assert (x + s)[|x| + j..|x| + j + |pat|] == s[j..j + |pat|];
  }

  /** An occurrence inside a prefix is an occurrence in the whole string. */
  lemma OccursInPrefix(s: string, y: string, pat: string, j: nat)
    requires OccursAt(s, pat, j)
    ensures OccursAt(s + y, pat, j)
  {
    assert (s + y)[j..j + |pat|] == s[j..j + |pat|];
  }

  /** An occurrence that does not reach the end of a prefix lies in it. */
  lemma OccursBackInPrefix(s: string, y: string, pat: string, j: nat)
    requires OccursAt(s + y, pat, j) && j + |pat| <= |s|
    ensures OccursAt(s, pat, j)
  {
    assert (s + y)[j..j + |pat|] == s[j..j + |pat|];
  }

  /** An occurrence that starts after a prefix lies in the suffix. */
  lemma OccursBackInSuffix(x: string, s: string, pat: string, j: nat)
    requires OccursAt(x + s, pat, j) && |x| <= j
    ensures OccursAt(s, pat, j - |x|)
  {
    assert (x + s)[j..j + |pat|] == s[j - |x|..j - |x| + |pat|];
  }

  /** Each character of an occurrence is the matching character of `pat`. */
  lemma CharOfOccurrence(s: string, pat: string, j: nat, k: nat)
    requires OccursAt(s, pat, j) && j <= k < j + |pat|
    ensures s[k] == pat[k - j]
  {
    assert s[j..j + |pat|][k - j] == s[k];
  }

  /** A pattern without the character `c` cannot straddle a `c` that joins two
      strings: each occurrence lies wholly on one side. */
  lemma {:induction false} OccursAcross(a: string, c: char, b: string, pat: string, j: nat)
    requires c !in pat
    requires OccursAt(a + [c] + b, pat, j)
    ensures (j + |pat| <= |a| && OccursAt(a, pat, j))
         || (|a| + 1 <= j && OccursAt(b, pat, j - |a| - 1))
  {
    var s := a + [c] + b;
    if j + |pat| <= |a| {
      OccursBackInPrefix(a, [c] + b, pat, j);
      assert a + [c] + b == a + ([c] + b);
    } else if |a| + 1 <= j {
      assert s == (a + [c]) + b;
      OccursBackInSuffix(a + [c], b, pat, j);
      assert OccursAt(b, pat, j - |a| - 1);
    } else {
      CharOfOccurrence(s, pat, j, |a|);
      assert false;
    }
  }

  // ---------------------------------------------------------------------
  // Replacement
  // ---------------------------------------------------------------------

  /** Python's `s.replace(target, replacement)`: occurrences of `target` are found
      left to right without overlapping and each is replaced by `replacement`; an
      empty `target` matches before every character and at the very end. */
  function ReplaceAll(s: string, target: string, replacement: string): string
    decreases |s|
  {
    if target == [] then
      if s == [] then replacement else replacement + [s[0]] + ReplaceAll(s[1..], target, replacement)
    else if OccursAt(s, target, 0) then replacement + ReplaceAll(s[|target|..], target, replacement)
    else if s == [] then []
    else [s[0]] + ReplaceAll(s[1..], target, replacement)
  }

  /** When the only place `target` starts in `x + target` is its end, the
      replacement rewrites exactly that tail. */
  lemma {:induction false} ReplaceTail(x: string, target: string, replacement: string)
    requires target != []
    requires forall j: nat :: j < |x| ==> !OccursAt(x + target, target, j)
    ensures ReplaceAll(x + target, target, replacement) == x + replacement
    decreases |x|
  {
    var s := x + target;
    if x == [] {
      assert s == target && OccursAt(s, target, 0);
      assert s[|target|..] == [];
    } else {
      var rest := x[1..] + target;
      assert s == [x[0]] + rest;
      assert !OccursAt(s, target, 0);
      assert ReplaceAll(s, target, replacement) == [x[0]] + ReplaceAll(rest, target, replacement);
      forall j: nat | j < |x[1..]| ensures !OccursAt(rest, target, j) {
        if OccursAt(rest, target, j) {
          OccursInSuffix([x[0]], rest, target, j);
        }
      }
      ReplaceTail(x[1..], target, replacement);
      assert x == [x[0]] + x[1..];
    }
  }

  /** A text without the first character of `target` has nothing to replace. */
  lemma {:induction false} ReplaceAbsent(s: string, target: string, replacement: string)
    requires target != [] && target[0] !in s
    ensures ReplaceAll(s, target, replacement) == s
    decreases |s|
  {
    if s != [] {
      assert s[0] in s;
      assert forall c :: c in s[1..] ==> c in s;
      ReplaceAbsent(s[1..], target, replacement);
      assert s == [s[0]] + s[1..];
    }
  }

  /** When `x` holds no first character of `target`, the only occurrence
      the scan meets in `x + target` is the final one. */
  lemma ReplaceAfterAbsent(x: string, target: string, replacement: string)
    requires target != [] && target[0] !in x
    ensures ReplaceAll(x + target, target, replacement) == x + replacement
  {
    forall j: nat | j < |x| < j + |target| ensures !OccursAt(x + target, target, j) {
      if OccursAt(x + target, target, j) {
        assert (x + target)[j] == x[j];
        CharOfOccurrence(x + target, target, j, j);
      }
    }
    ReplaceConcat(x, target, target, replacement);
    ReplaceAbsent(x, target, replacement);
    assert [] + target == target;
    ReplaceTail([], target, replacement);
  }

  /** A text without the first character of `pat` does not contain it. */
  lemma FirstCharAbsent(s: string, pat: string)
    requires pat != [] && pat[0] !in s
    ensures !Contains(s, pat)
  {
    forall i: nat | i <= |s| ensures !OccursAt(s, pat, i) {
      if OccursAt(s, pat, i) {
        CharOfOccurrence(s, pat, i, i);
      }
    }
  }

  /** When no occurrence of `target` in `x + y` straddles the boundary, the
      left-to-right scan finishes `x` exactly at its end, so replacing in the
      concatenation is replacing in each part. */
  lemma {:induction false} ReplaceConcat(x: string, y: string, target: string, replacement: string)
    requires target != []
    requires forall j: nat :: j < |x| < j + |target| ==> !OccursAt(x + y, target, j)
    ensures ReplaceAll(x + y, target, replacement)
         == ReplaceAll(x, target, replacement) + ReplaceAll(y, target, replacement)
    decreases |x|
  {
    if x == [] {
      assert x + y == y;
    } else {
      var n := if OccursAt(x + y, target, 0) then |target| else 1;
      if OccursAt(x + y, target, 0) {
        OccursBackInPrefix(x, y, target, 0);
      } else if OccursAt(x, target, 0) {
        OccursInPrefix(x, y, target, 0);
      }
      var rest := x[n..];
      ConcatAfter(x, y, n);
      StraddleFreeAfter(x[..n], rest, y, target);
      ReplaceConcat(rest, y, target, replacement);
    }
  }

  /** Dropping the first `n` characters of `x + y` leaves the rest of `x`, then `y`. */
  lemma ConcatAfter(x: string, y: string, n: nat)
    requires n <= |x|
    ensures x == x[..n] + x[n..] && (x + y)[n..] == x[n..] + y
  {
  }

  /** An occurrence straddling the end of `rest` in `rest + y` is one
      straddling the end of `h + rest` in `h + rest + y`. */
  lemma StraddleFreeAfter(h: string, rest: string, y: string, target: string)
    requires forall j: nat :: j < |h + rest| < j + |target| ==> !OccursAt(h + rest + y, target, j)
    ensures forall j: nat :: j < |rest| < j + |target| ==> !OccursAt(rest + y, target, j)
  {
    assert h + rest + y == h + (rest + y);
    forall j: nat | j < |rest| < j + |target| ensures !OccursAt(rest + y, target, j) {
      if OccursAt(rest + y, target, j) {
        OccursInSuffix(h, rest + y, target, j);
        assert false;
      }
    }
  }

  /** Replacing the empty string inserts `replacement` into every gap of `s`: before
      each character and once more at the end. */
  lemma {:induction false} ReplaceEmptyLength(s: string, replacement: string)
    ensures |ReplaceAll(s, [], replacement)| == |s| + (|s| + 1) * |replacement|
    decreases |s|
  {
    if s != [] {
      ReplaceEmptyLength(s[1..], replacement);
      calc {
        |ReplaceAll(s, [], replacement)|;
        |replacement| + 1 + |ReplaceAll(s[1..], [], replacement)|;
        |replacement| + 1 + (|s| - 1) + |s| * |replacement|;
        { assert (|s| + 1) * |replacement| == |s| * |replacement| + |replacement|; }
        |s| + (|s| + 1) * |replacement|;
      }
    }
  }

  // ---------------------------------------------------------------------
  // Joining
  // ---------------------------------------------------------------------

  /** Python's `sep.join(parts)`. */
  function Join(sep: string, parts: seq<string>): string
    decreases |parts|
  {
    if |parts| == 0 then []
    else if |parts| == 1 then parts[0]
    else parts[0] + sep + Join(sep, parts[1..])
  }

  /** Joining one more part adds a separator and the part at the end. */
  lemma {:induction false} JoinSnoc(sep: string, parts: seq<string>, x: string)
    requires |parts| > 0
    ensures Join(sep, parts + [x]) == Join(sep, parts) + sep + x
    decreases |parts|
  {
    if |parts| > 1 {
      assert (parts + [x])[1..] == parts[1..] + [x];
      JoinSnoc(sep, parts[1..], x);
    }
  }

  /** The concatenation of a sequence of strings. */
  function Concat(parts: seq<string>): string
    decreases |parts|
  {
    if parts == [] then [] else parts[0] + Concat(parts[1..])
  }

  lemma {:induction false} ConcatAppend(xs: seq<string>, ys: seq<string>)
    ensures Concat(xs + ys) == Concat(xs) + Concat(ys)
    decreases |xs|
  {
    if xs == [] {
      assert xs + ys == ys;
    } else {
      assert (xs + ys)[0] == xs[0] && (xs + ys)[1..] == xs[1..] + ys;
      ConcatAppend(xs[1..], ys);
    }
  }

  // ---------------------------------------------------------------------
  // Decimal numbers
  // ---------------------------------------------------------------------

  /** An ASCII decimal digit. */
  predicate IsDigit(c: char) {
    '0' <= c <= '9'
  }

  predicate AllDigits(s: string) {
    forall i :: 0 <= i < |s| ==> IsDigit(s[i])
  }

  function DigitValue(c: char): nat
    requires IsDigit(c)
  {
    c as int - '0' as int
  }

  function DigitChar(d: nat): (c: char)
    requires d < 10
    ensures IsDigit(c) && DigitValue(c) == d
  {
    ('0' as int + d) as char
  }

  /** The decimal digits of `n`, most significant first, no leading zero. */
  function ShowNat(n: nat): (r: string)
    ensures r != [] && AllDigits(r)
    ensures n >= 10 ==> r[0] != '0'
    decreases n
  {
    if n < 10 then [DigitChar(n)] else ShowNat(n / 10) + [DigitChar(n % 10)]
  }

  /** Python's `str(n)` for an `int`. */
  function Show(n: int): string {
    if n < 0 then "-" + ShowNat(-n) else ShowNat(n)
  }

  /** The value of a string of decimal digits, read left to right. */
  function DigitsValue(s: string): nat
    requires AllDigits(s)
    decreases |s|
  {
    if s == [] then 0 else DigitsValue(s[..|s| - 1]) * 10 + DigitValue(s[|s| - 1])
  }

  /** Python's `int(s)` on an optional sign followed by ASCII digits; `None`
      where Python raises `ValueError`. */
  function ParseInt(s: string): Option<int> {
    if s != [] && (s[0] == '-' || s[0] == '+') then
      if |s| > 1 && AllDigits(s[1..]) then
        var magnitude: int := DigitsValue(s[1..]);
        Some(if s[0] == '-' then -magnitude else magnitude)
      else None
    else if s != [] && AllDigits(s) then Some(DigitsValue(s))
    else None
  }

  /** Reading back the digits of `n` gives `n`. */
  lemma {:induction false} ShowNatValue(n: nat)
    ensures DigitsValue(ShowNat(n)) == n
    decreases n
  {
    if n >= 10 {
      var s := ShowNat(n);
      assert s[..|s| - 1] == ShowNat(n / 10);
      ShowNatValue(n / 10);
    }
  }

  /** `int(str(n)) == n` for every integer. */
  lemma ParseShow(n: int)
    ensures ParseInt(Show(n)) == Some(n)
  {
    if n < 0 {
      var digits := ShowNat(-n);
      assert Show(n) == "-" + digits;
      assert ("-" + digits)[0] == '-' && ("-" + digits)[1..] == digits;
      ShowNatValue(-n);
    } else {
      var digits := ShowNat(n);
      assert IsDigit(digits[0]);
      ShowNatValue(n);
    }
  }
}
