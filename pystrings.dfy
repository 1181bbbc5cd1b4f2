/**
 * The Python string primitives the detector parser relies on:
 * `str.isspace` (as used by `str.split()`), `str.splitlines()`,
 * `str.split()` without arguments, `str.isdigit()` and `int(str)`.
 * Digits are the ASCII digits only (see README, "Left out").
 */
module PyStrings {
  import opened Wrappers

  /** Python's `str.isspace()` for one character: the characters `str.split()` splits on. */
  predicate IsSpace(c: char) {
    || c == ' ' || c == '\t' || c == '\n' || c == '\r'
    || c == '\U{0B}' || c == '\U{0C}'
    || c == '\U{1C}' || c == '\U{1D}' || c == '\U{1E}' || c == '\U{1F}'
    || c == '\U{85}' || c == '\U{A0}' || c == '\U{1680}'
    || ('\U{2000}' <= c <= '\U{200A}')
    || c == '\U{2028}' || c == '\U{2029}' || c == '\U{202F}' || c == '\U{205F}' || c == '\U{3000}'
  }

  /** A character at which `str.splitlines()` ends a line. */
  predicate IsLineBoundary(c: char) {
    || c == '\n' || c == '\r' || c == '\U{0B}' || c == '\U{0C}'
    || c == '\U{1C}' || c == '\U{1D}' || c == '\U{1E}'
    || c == '\U{85}' || c == '\U{2028}' || c == '\U{2029}'
  }

  /** No character of `s` is whitespace. */
  predicate NoSpace(s: string) {
    forall i :: 0 <= i < |s| ==> !IsSpace(s[i])
  }

  /** No character of `s` ends a line. */
  predicate NoLineBoundary(s: string) {
    forall i :: 0 <= i < |s| ==> !IsLineBoundary(s[i])
  }

  /** Length of the longest prefix of `s` without whitespace. */
  function WordLength(s: string): (n: nat)
    ensures n <= |s|
    ensures NoSpace(s[..n])
    ensures n < |s| ==> IsSpace(s[n])
  {
    if s == [] || IsSpace(s[0]) then 0
    else
      var n := 1 + WordLength(s[1..]);
      assert s[..n] == [s[0]] + s[1..][..n - 1];
      n
  }

  /**
   * `s.split()`: the maximal runs of non-whitespace characters of `s`, in order.
   * Leading, trailing and repeated whitespace yield no empty strings.
   */
  function Split(s: string): (r: seq<string>)
    ensures forall k :: 0 <= k < |r| ==> |r[k]| > 0 && NoSpace(r[k])
    decreases |s|
  {
    if s == [] then []
    else if IsSpace(s[0]) then Split(s[1..])
    else
      var n := WordLength(s);
      [s[..n]] + Split(s[n..])
  }

  /** Length of the longest prefix of `s` without a line boundary. */
  function LineLength(s: string): (n: nat)
    ensures n <= |s|
    ensures NoLineBoundary(s[..n])
    ensures n < |s| ==> IsLineBoundary(s[n])
  {
    if s == [] || IsLineBoundary(s[0]) then 0
    else
      var n := 1 + LineLength(s[1..]);
      assert s[..n] == [s[0]] + s[1..][..n - 1];
      n
  }

  /**
   * `s.splitlines()`: the lines of `s` without their terminators; "\r\n" is one
   * terminator, and a terminator at the very end opens no further line.
   */
  function SplitLines(s: string): (r: seq<string>)
    ensures forall k :: 0 <= k < |r| ==> NoLineBoundary(r[k])
    decreases |s|
  {
    if s == [] then []
    else
      var n := LineLength(s);
      if n == |s| then [s]
      else
        var skip := if s[n] == '\r' && n + 1 < |s| && s[n + 1] == '\n' then 2 else 1;
        [s[..n]] + SplitLines(s[n + skip..])
  }

  /** `sep.join(words)` for a one-character separator. */
  function JoinWith(words: seq<string>, sep: char): string {
    if words == [] then ""
    else if |words| == 1 then words[0]
    else words[0] + [sep] + JoinWith(words[1..], sep)
  }

  /** The characters of `s` that are not whitespace, in order. */
  function NonSpace(s: string): string {
    if s == [] then ""
    else if IsSpace(s[0]) then NonSpace(s[1..])
    else [s[0]] + NonSpace(s[1..])
  }

  /** The concatenation of a sequence of strings. */
  function Concat(parts: seq<string>): string {
    if parts == [] then "" else parts[0] + Concat(parts[1..])
  }

  /** A word followed by whitespace (or by nothing) is the first word of the split. */
  lemma {:induction false} WordLengthOfWord(w: string, rest: string)
    requires NoSpace(w)
    requires rest == [] || IsSpace(rest[0])
    ensures WordLength(w + rest) == |w|
  {
    if w != [] {
      assert (w + rest)[1..] == w[1..] + rest;
      WordLengthOfWord(w[1..], rest);
    }
  }

  lemma SplitWordThen(w: string, rest: string)
    requires |w| > 0 && NoSpace(w)
    requires rest == [] || IsSpace(rest[0])
    ensures Split(w + rest) == [w] + Split(rest)
  {
    WordLengthOfWord(w, rest);
    var s := w + rest;
    assert s[..|w|] == w && s[|w|..] == rest;
  }

  /** Joining non-empty, whitespace-free words with a whitespace character and splitting gives them back. */
  lemma {:induction false} SplitJoinWith(words: seq<string>, sep: char)
    requires IsSpace(sep)
    requires forall k :: 0 <= k < |words| ==> |words[k]| > 0 && NoSpace(words[k])
    ensures Split(JoinWith(words, sep)) == words
  {
    if words == [] {
    } else if |words| == 1 {
      SplitWordThen(words[0], "");
      assert words[0] + "" == words[0];
    } else {
      var tail := [sep] + JoinWith(words[1..], sep);
      assert JoinWith(words, sep) == words[0] + tail;
      SplitWordThen(words[0], tail);
      assert tail[1..] == JoinWith(words[1..], sep);
      SplitJoinWith(words[1..], sep);
    }
  }

  lemma {:induction false} NonSpaceOfWord(w: string, rest: string)
    requires NoSpace(w)
    ensures NonSpace(w + rest) == w + NonSpace(rest)
  {
    if w != [] {
      var s := w + rest;
      assert s[0] == w[0] && !IsSpace(w[0]);
      assert s[1..] == w[1..] + rest;
      NonSpaceOfWord(w[1..], rest);
      assert w == [w[0]] + w[1..];
    } else {
      assert w + rest == rest;
    }
  }

  /** Splitting loses exactly the whitespace: the words, put together, are the non-whitespace characters. */
  lemma {:induction false} SplitKeepsNonSpace(s: string)
    ensures Concat(Split(s)) == NonSpace(s)
    decreases |s|
  {
    if s == [] {
    } else if IsSpace(s[0]) {
      SplitKeepsNonSpace(s[1..]);
    } else {
      var n := WordLength(s);
      assert s == s[..n] + s[n..];
      NonSpaceOfWord(s[..n], s[n..]);
      SplitKeepsNonSpace(s[n..]);
    }
  }

  /** Words and a separator without line boundaries join into one line. */
  lemma {:induction false} JoinWithIsOneLine(words: seq<string>, sep: char)
    requires !IsLineBoundary(sep)
    requires forall k :: 0 <= k < |words| ==> NoLineBoundary(words[k])
    ensures NoLineBoundary(JoinWith(words, sep))
  {
    if |words| > 1 {
      JoinWithIsOneLine(words[1..], sep);
    }
  }

  /** Each line followed by "\n", as a detector writes its rows. */
  function Terminated(lines: seq<string>): string {
    if lines == [] then "" else lines[0] + "\n" + Terminated(lines[1..])
  }

  lemma {:induction false} LineLengthOfLine(l: string, rest: string)
    requires NoLineBoundary(l)
    requires rest == [] || IsLineBoundary(rest[0])
    ensures LineLength(l + rest) == |l|
  {
    if l != [] {
      assert (l + rest)[1..] == l[1..] + rest;
      LineLengthOfLine(l[1..], rest);
    }
  }

  /** Lines without line boundaries, each terminated by "\n", split back into the same lines. */
  lemma {:induction false} SplitLinesTerminated(lines: seq<string>)
    requires forall k :: 0 <= k < |lines| ==> NoLineBoundary(lines[k])
    ensures SplitLines(Terminated(lines)) == lines
  {
    if lines != [] {
      var rest := Terminated(lines[1..]);
      var s := lines[0] + ("\n" + rest);
      assert Terminated(lines) == s;
      LineLengthOfLine(lines[0], "\n" + rest);
      var n := |lines[0]|;
      assert s[..n] == lines[0];
      assert s[n] == '\n';
      assert s[n + 1..] == rest;
      SplitLinesTerminated(lines[1..]);
    }
  }

  predicate IsAsciiDigit(c: char) {
    '0' <= c <= '9'
  }

  /** `s.isdigit()`: non-empty and made of digits only. */
  predicate IsDigitString(s: string) {
    |s| > 0 && forall i :: 0 <= i < |s| ==> IsAsciiDigit(s[i])
  }

  /**
   * The digit part of a Python integer literal in base 10: digits, where a single
   * underscore may stand between two digits ("1_000"). Leading zeros are allowed.
   */
  predicate IsDigitGroups(s: string) {
    && |s| > 0 && IsAsciiDigit(s[0])
    && DigitsOrUnderscores(s)
    && forall i :: 0 <= i < |s| && s[i] == '_' ==> i + 1 < |s| && IsAsciiDigit(s[i + 1])
  }

  predicate DigitsOrUnderscores(s: string) {
    forall i :: 0 <= i < |s| ==> IsAsciiDigit(s[i]) || s[i] == '_'
  }

  function DigitValue(c: char): (d: nat)
    requires IsAsciiDigit(c)
    ensures d < 10
  {
    c as int - '0' as int
  }

  /** Decimal value of digits and underscores; underscores are skipped. */
  function DigitsValue(s: string): nat
    requires DigitsOrUnderscores(s)
  {
    if s == [] then 0
    else if s[|s| - 1] == '_' then DigitsValue(s[..|s| - 1])
    else DigitsValue(s[..|s| - 1]) * 10 + DigitValue(s[|s| - 1])
  }

  /**
   * `int(s)` for a string without surrounding whitespace: an optional sign, then
   * digit groups. `None` stands for the `ValueError` Python raises otherwise.
   */
  function ParseInt(s: string): (r: Option<int>)
    ensures r.Some? ==> |s| > 0 && NoSpace(s)
  {
    if |s| > 0 && (s[0] == '+' || s[0] == '-') then
      var body := s[1..];
      if IsDigitGroups(body) then
        var magnitude: int := DigitsValue(body);
        Some(if s[0] == '-' then -magnitude else magnitude)
      else None
    else if IsDigitGroups(s) then Some(DigitsValue(s))
    else None
  }

  /** The digits of `n` in base 10, most significant first, as `str(n)` writes them. */
  function NatDigits(n: nat): (s: string)
    ensures |s| > 0 && IsDigitString(s)
  {
    if n < 10 then [('0' as int + n) as char]
    else NatDigits(n / 10) + [('0' as int + n % 10) as char]
  }

  /** `str(n)` for an integer. */
  function DecimalString(n: int): string {
    if n < 0 then "-" + NatDigits(-n) else NatDigits(n)
  }

  lemma {:induction false} NatDigitsValue(n: nat)
    ensures IsDigitGroups(NatDigits(n))
    ensures DigitsValue(NatDigits(n)) == n
  {
    var s := NatDigits(n);
    if n >= 10 {
      NatDigitsValue(n / 10);
      assert s[..|s| - 1] == NatDigits(n / 10);
    }
  }

  /** `int(str(n)) == n`: every integer the detector could print parses back. */
  lemma ParseDecimalString(n: int)
    ensures ParseInt(DecimalString(n)) == Some(n)
  {
    var digits := NatDigits(if n < 0 then -n else n);
    NatDigitsValue(if n < 0 then -n else n);
    assert digits[0] != '+' && digits[0] != '-';
    if n < 0 {
      var s := "-" + digits;
      assert s[1..] == digits;
    }
  }
}
