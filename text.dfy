/**
 * The string primitives the handlers rely on, on `seq<char>`:
 * Rust's `str::split`, `str::split_once`, `str::lines`, `str::trim`,
 * `i32::from_str` and decimal formatting of a page number.
 */
module Text {
  import opened Wrappers

  /** `\w` restricted to ASCII: letters, digits and underscore. */
  predicate IsWordChar(c: char) {
    ('a' <= c <= 'z') || ('A' <= c <= 'Z') || ('0' <= c <= '9') || c == '_'
  }

  /** `\d` restricted to ASCII. */
  predicate IsDigit(c: char) {
    '0' <= c <= '9'
  }

  predicate AllWordChars(s: string) {
    forall i :: 0 <= i < |s| ==> IsWordChar(s[i])
  }

  predicate AllDigits(s: string) {
    forall i :: 0 <= i < |s| ==> IsDigit(s[i])
  }

  /** The Unicode White_Space property, which is what `char::is_whitespace` tests. */
  predicate IsWhitespace(c: char) {
    var n := c as int;
    (9 <= n <= 13) || n == 32 || n == 0x85 || n == 0xA0 || n == 0x1680
    || (0x2000 <= n <= 0x200A) || n == 0x2028 || n == 0x2029 || n == 0x202F
    || n == 0x205F || n == 0x3000
  }

  predicate WhitespaceBetween(s: string, i: nat, j: nat)
    requires i <= j <= |s|
  {
    forall k :: i <= k < j ==> IsWhitespace(s[k])
  }

  /** Index of the first character of `s` that is in `cs`. */
  function FindFirst(s: string, cs: set<char>): (r: Option<nat>)
    ensures r.None? <==> forall i :: 0 <= i < |s| ==> s[i] !in cs
    ensures r.Some? ==> r.value < |s| && s[r.value] in cs
    ensures r.Some? ==> forall i :: 0 <= i < r.value ==> s[i] !in cs
    decreases |s|
  {
    if s == [] then None
    else if s[0] in cs then Some(0)
    else
      match FindFirst(s[1..], cs)
      case None => None
      case Some(k) => Some(k + 1)
  }

  /** `s.split(c)`: the pieces between occurrences of `c`; never empty. */
  function Split(s: string, c: char): (r: seq<string>)
    ensures |r| >= 1
    ensures forall i :: 0 <= i < |r| ==> c !in r[i]
    decreases |s|
  {
    match FindFirst(s, {c})
    case None => [s]
    case Some(k) => [s[..k]] + Split(s[k + 1..], c)
  }

  /** The first piece of a split is the text up to the first separator, or all of it. */
  lemma SplitHead(s: string, c: char)
    ensures var h := Split(s, c)[0];
      |h| <= |s| && s[..|h|] == h && (|h| < |s| ==> s[|h|] == c)
  {
    match FindFirst(s, {c})
    case None =>
    case Some(k) =>
  }

  /** The inverse of `Split`: the pieces glued back together with `c`. */
  function Join(parts: seq<string>, c: char): string
    decreases |parts|
  {
    if parts == [] then []
    else if |parts| == 1 then parts[0]
    else parts[0] + [c] + Join(parts[1..], c)
  }

  lemma {:induction false} JoinSplit(s: string, c: char)
    ensures Join(Split(s, c), c) == s
    decreases |s|
  {
    match FindFirst(s, {c})
    case None =>
    case Some(k) =>
      var rest := Split(s[k + 1..], c);
      var parts := Split(s, c);
      assert parts == [s[..k]] + rest;
      assert parts[1..] == rest;
      assert Join(parts, c) == s[..k] + [c] + Join(rest, c);
      JoinSplit(s[k + 1..], c);
      assert s == s[..k] + [c] + s[k + 1..];
  }

  lemma {:induction false} SplitJoin(parts: seq<string>, c: char)
    requires |parts| >= 1
    requires forall i :: 0 <= i < |parts| ==> c !in parts[i]
    ensures Split(Join(parts, c), c) == parts
    decreases |parts|
  {
    if |parts| == 1 {
      assert FindFirst(parts[0], {c}).None?;
    } else {
      var s := Join(parts, c);
      var k := |parts[0]|;
      assert s == parts[0] + [c] + Join(parts[1..], c);
      assert s[k] == c;
      assert forall i :: 0 <= i < k ==> s[i] == parts[0][i] && s[i] !in {c};
      assert FindFirst(s, {c}) == Some(k);
      assert s[..k] == parts[0];
      assert s[k + 1..] == Join(parts[1..], c);
      SplitJoin(parts[1..], c);
    }
  }

  /** `s.split_once(seps)`: the text before and after the first separator. */
  function SplitOnce(s: string, seps: set<char>): (r: Option<(string, string)>)
    ensures r.None? <==> forall i :: 0 <= i < |s| ==> s[i] !in seps
    ensures r.Some? ==>
      var (before, after) := r.value;
      && |before| < |s| && s[|before|] in seps
      && s == before + [s[|before|]] + after
      && forall i :: 0 <= i < |before| ==> before[i] !in seps
  {
    match FindFirst(s, seps)
    case None => None
    case Some(k) =>
      assert s == s[..k] + [s[k]] + s[k + 1..];
      Some((s[..k], s[k + 1..]))
  }

  /** A trailing carriage return dropped, as `lines` does before a line feed. */
  function StripCarriageReturn(line: string): string {
    if |line| > 0 && line[|line| - 1] == '\r' then line[..|line| - 1] else line
  }

  /**
   * `s.lines()`: split at `\n`, a `\r` before the `\n` removed, and no
   * empty last line after a final `\n`.
   */
  function Lines(s: string): (r: seq<string>)
    ensures forall i :: 0 <= i < |r| ==> '\n' !in r[i]
    ensures s == [] <==> r == []
    decreases |s|
  {
    if s == [] then []
    else
      match FindFirst(s, {'\n'})
      case None => [s]
      case Some(k) =>
        assert forall i :: 0 <= i < k ==> s[..k][i] != '\n';
        [StripCarriageReturn(s[..k])] + Lines(s[k + 1..])
  }

  /** `s` without its final line feed, if it has one. */
  function DropFinalNewline(s: string): string {
    if |s| > 0 && s[|s| - 1] == '\n' then s[..|s| - 1] else s
  }

  /**
   * Without carriage returns, `lines` is `split('\n')` of the text less its
   * final line feed.
   */
  lemma {:induction false} LinesAsSplit(s: string)
    requires s != [] && '\r' !in s
    ensures Lines(s) == Split(DropFinalNewline(s), '\n')
    decreases |s|
  {
    var t := DropFinalNewline(s);
    match FindFirst(s, {'\n'})
    case None =>
      assert t == s;
    case Some(k) =>
      var rest := s[k + 1..];
      assert StripCarriageReturn(s[..k]) == s[..k] by {
        assert k > 0 ==> s[..k][k - 1] == s[k - 1];
      }
      assert Lines(s) == [s[..k]] + Lines(rest);
      if rest == [] {
        assert t == s[..k];
        assert Split(t, '\n') == [s[..k]];
      } else {
        LinesAsSplit(rest);
        DropFinalNewlineAfter(s, k);
        FindFirstIs(t, {'\n'}, k);
        assert t[..k] == s[..k] && t[k + 1..] == DropFinalNewline(rest);
      }
  }

  /** Dropping the final line feed of a text leaves what comes before the first one alone. */
  lemma DropFinalNewlineAfter(s: string, k: nat)
    requires k + 1 < |s| && s[k] == '\n'
    ensures DropFinalNewline(s) == s[..k] + ['\n'] + DropFinalNewline(s[k + 1..])
  {
    assert s == s[..k] + ['\n'] + s[k + 1..];
  }

  /** `FindFirst` is the first position holding one of `cs`. */
  lemma FindFirstIs(t: string, cs: set<char>, k: nat)
    requires k < |t| && t[k] in cs && forall i :: 0 <= i < k ==> t[i] !in cs
    ensures FindFirst(t, cs) == Some(k)
  {
  }

  /** Without carriage returns, the lines joined by line feeds give the text back, less a final line feed. */
  lemma LinesJoin(s: string)
    requires '\r' !in s
    ensures Join(Lines(s), '\n') == DropFinalNewline(s)
  {
    if s != [] {
      LinesAsSplit(s);
      JoinSplit(DropFinalNewline(s), '\n');
    }
  }

  /** The end of the run of white space starting at `i` (`trim_start`'s cut). */
  function WhitespaceRun(s: string, i: nat): (j: nat)
    requires i <= |s|
    ensures i <= j <= |s| && WhitespaceBetween(s, i, j)
    ensures j == |s| || !IsWhitespace(s[j])
    decreases |s| - i
  {
    if i < |s| && IsWhitespace(s[i]) then WhitespaceRun(s, i + 1) else i
  }

  /** The start of the run of white space ending at `j`, going no lower than `lo` (`trim_end`'s cut). */
  function WhitespaceBack(s: string, lo: nat, j: nat): (i: nat)
    requires lo <= j <= |s|
    ensures lo <= i <= j && WhitespaceBetween(s, i, j)
    ensures i == lo || !IsWhitespace(s[i - 1])
    decreases j
  {
    if j > lo && IsWhitespace(s[j - 1]) then WhitespaceBack(s, lo, j - 1) else j
  }

  /** `s.trim()`: leading white space cut, then trailing white space cut from what is left. */
  function Trim(s: string): (r: string)
    ensures r == [] || (!IsWhitespace(r[0]) && !IsWhitespace(r[|r| - 1]))
  {
    var i := WhitespaceRun(s, 0);
    var j := WhitespaceBack(s, i, |s|);
    assert j > i ==> i < |s| && !IsWhitespace(s[i]);
    s[i..j]
  }

  /** The trimmed text is a slice of the original with only white space around it. */
  lemma TrimSlice(s: string)
    ensures exists i :: 0 <= i && i + |Trim(s)| <= |s| && s[i..i + |Trim(s)|] == Trim(s)
                        && WhitespaceBetween(s, 0, i) && WhitespaceBetween(s, i + |Trim(s)|, |s|)
  {
    var i := WhitespaceRun(s, 0);
    var j := WhitespaceBack(s, i, |s|);
    assert Trim(s) == s[i..j];
    assert WhitespaceBetween(s, j, |s|);
  }

  function DigitChar(d: nat): (c: char)
    requires d < 10
    ensures IsDigit(c)
  {
    ('0' as int + d) as char
  }

  function DigitValue(c: char): nat
    requires IsDigit(c)
  {
    c as int - '0' as int
  }

  /** The decimal digits of `n`, as `format!("{}", n)` writes them. */
  function NatToString(n: nat): (r: string)
    ensures |r| >= 1 && AllDigits(r)
    decreases n
  {
    if n < 10 then [DigitChar(n)] else NatToString(n / 10) + [DigitChar(n % 10)]
  }

  /** The number a string of decimal digits denotes. */
  function DigitsValue(s: string): nat
    requires AllDigits(s)
    decreases |s|
  {
    if s == [] then 0 else DigitsValue(s[..|s| - 1]) * 10 + DigitValue(s[|s| - 1])
  }

  lemma {:induction false} DigitsValueOfNatToString(n: nat)
    ensures DigitsValue(NatToString(n)) == n
    decreases n
  {
    if n >= 10 {
      var s := NatToString(n);
      assert s[..|s| - 1] == NatToString(n / 10);
      DigitsValueOfNatToString(n / 10);
    }
  }

  lemma NatToStringInjective(m: nat, n: nat)
    requires NatToString(m) == NatToString(n)
    ensures m == n
  {
    DigitsValueOfNatToString(m);
    DigitsValueOfNatToString(n);
  }

  const I32Min: int := -0x8000_0000
  const I32Max: int := 0x7FFF_FFFF

  /**
   * `s.parse::<i32>()`: one optional `+` or `-`, then at least one ASCII
   * digit and nothing else, and the value within the 32-bit range.
   */
  function ParseI32(s: string): (r: Option<int>)
    ensures r.Some? ==> I32Min <= r.value <= I32Max
    ensures r.Some? ==> |s| >= 1 && AllDigits(s[1..]) && (IsDigit(s[0]) || (|s| >= 2 && (s[0] == '-' || s[0] == '+')))
    ensures r.Some? && r.value < 0 ==> s[0] == '-'
    ensures |s| >= 1 && AllDigits(s) ==> r == (if DigitsValue(s) <= I32Max then Some(DigitsValue(s)) else None)
    ensures |s| >= 2 && s[0] == '+' && AllDigits(s[1..]) ==>
      r == (if DigitsValue(s[1..]) <= I32Max then Some(DigitsValue(s[1..])) else None)
    ensures |s| >= 2 && s[0] == '-' && AllDigits(s[1..]) ==>
      r == (if DigitsValue(s[1..]) <= -I32Min then Some(0 - DigitsValue(s[1..]) as int) else None)
  {
    if s == [] then None
    else
      var negative := s[0] == '-';
      var digits := if s[0] == '-' || s[0] == '+' then s[1..] else s;
      if digits == [] || !AllDigits(digits) then None
      else
        var v: int := if negative then 0 - DigitsValue(digits) as int else DigitsValue(digits);
        if I32Min <= v <= I32Max then Some(v) else None
  }

  /** `v.to_string()` for an integer. */
  function IntToString(v: int): string {
    if v < 0 then "-" + NatToString(-v) else NatToString(v)
  }

  lemma ParseI32OfIntToString(v: int)
    requires I32Min <= v <= I32Max
    ensures ParseI32(IntToString(v)) == Some(v)
  {
    var s := IntToString(v);
    if v < 0 {
      var d := NatToString(-v);
      assert s[0] == '-' && s[1..] == d;
      DigitsValueOfNatToString(-v);
      assert DigitsValue(d) == -v;
    } else {
      var d := NatToString(v);
      assert s == d && IsDigit(d[0]);
      DigitsValueOfNatToString(v);
      assert DigitsValue(d) == v;
    }
  }

  /** A string with no white space at either end is its own trim. */
  lemma TrimUnchanged(s: string)
    requires s == [] || (!IsWhitespace(s[0]) && !IsWhitespace(s[|s| - 1]))
    ensures Trim(s) == s
  {
    TrimSlice(s);
    var i :| 0 <= i && i + |Trim(s)| <= |s| && s[i..i + |Trim(s)|] == Trim(s)
             && WhitespaceBetween(s, 0, i) && WhitespaceBetween(s, i + |Trim(s)|, |s|);
    assert s == [] || (i == 0 && i + |Trim(s)| == |s|);
  }
}
