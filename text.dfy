/**
 * Character classes, trimming and decimal digits, as Foundation and ICU
 * define them for the characters the task parser looks at.
 */
module Text {
  import opened Wrappers

  /** Unicode general category Zs (space separators). */
  predicate IsSpaceSeparator(c: char) {
    c == ' ' || c == '\U{A0}' || c == '\U{1680}' || ('\U{2000}' <= c <= '\U{200A}')
    || c == '\U{202F}' || c == '\U{205F}' || c == '\U{3000}'
  }

  /** Foundation's `CharacterSet.whitespacesAndNewlines`: Zs, tab, U+000A..U+000D, U+0085, U+2028, U+2029. */
  predicate IsTrimSpace(c: char) {
    c == '\t' || ('\n' <= c <= '\r') || c == '\U{85}' || c == '\U{2028}' || c == '\U{2029}'
    || IsSpaceSeparator(c)
  }

  /** ICU's `\s`: [\t\n\f\r\p{Z}] (neither U+000B nor U+0085 belongs to it). */
  predicate IsRegexSpace(c: char) {
    c == '\t' || c == '\n' || c == '\U{C}' || c == '\r' || IsSpaceSeparator(c)
    || c == '\U{2028}' || c == '\U{2029}'
  }

  /** The characters ICU's `.` refuses to match (it never matches a line terminator). */
  predicate IsLineTerminator(c: char) {
    ('\n' <= c <= '\r') || c == '\U{85}' || c == '\U{2028}' || c == '\U{2029}'
  }

  predicate IsDigit(c: char) {
    '0' <= c <= '9'
  }

  predicate AllDigits(s: string) {
    forall i :: 0 <= i < |s| ==> IsDigit(s[i])
  }

  predicate AllRegexSpace(s: string) {
    forall i :: 0 <= i < |s| ==> IsRegexSpace(s[i])
  }

  predicate NoLineTerminator(s: string) {
    forall i :: 0 <= i < |s| ==> !IsLineTerminator(s[i])
  }

  /** Every `\s` character is also trimmed by `trimmingCharacters(in: .whitespacesAndNewlines)`. */
  lemma RegexSpaceIsTrimSpace(c: char)
    ensures IsRegexSpace(c) ==> IsTrimSpace(c)
  {
  }

  /** Removes the leading characters of `whitespacesAndNewlines`. */
  function TrimStart(s: string): (r: string)
    ensures |r| <= |s| && r == s[|s| - |r|..]
    ensures r == [] || !IsTrimSpace(r[0])
    ensures forall i :: 0 <= i < |s| - |r| ==> IsTrimSpace(s[i])
  {
    if s != [] && IsTrimSpace(s[0]) then TrimStart(s[1..]) else s
  }

  /** Removes the trailing characters of `whitespacesAndNewlines`. */
  function TrimEnd(s: string): (r: string)
    ensures |r| <= |s| && r == s[..|r|]
    ensures r == [] || !IsTrimSpace(r[|r| - 1])
    ensures forall i :: |r| <= i < |s| ==> IsTrimSpace(s[i])
  {
    if s != [] && IsTrimSpace(s[|s| - 1]) then TrimEnd(s[..|s| - 1]) else s
  }

  /** `trimmingCharacters(in: .whitespacesAndNewlines)` */
  function Trim(s: string): (r: string)
    ensures |r| <= |s|
    ensures r == [] || (!IsTrimSpace(r[0]) && !IsTrimSpace(r[|r| - 1]))
  {
    TrimEnd(TrimStart(s))
  }

  /** Trim is the empty string exactly when the input is all white space. */
  lemma TrimEmptyIffBlank(s: string)
    ensures Trim(s) == [] <==> forall i :: 0 <= i < |s| ==> IsTrimSpace(s[i])
  {
    var t := TrimStart(s);
    var k := |s| - |t|;
    if t != [] {
      assert t[0] == s[k];
    }
  }

  /** A string whose two ends are not white space is its own trim. */
  lemma TrimOfUntrimmable(s: string)
    requires s != [] && !IsTrimSpace(s[0]) && !IsTrimSpace(s[|s| - 1])
    ensures Trim(s) == s
  {
  }

  /** A string that is its own trim neither starts nor ends with white space. */
  lemma TrimmedEnds(s: string)
    requires Trim(s) == s && s != []
    ensures !IsTrimSpace(s[0]) && !IsTrimSpace(s[|s| - 1])
  {
    var t := TrimStart(s);
    assert |t| == |s|;
    assert t == s;
  }

  /** Trimming twice is trimming once. */
  lemma TrimIdempotent(s: string)
    ensures Trim(Trim(s)) == Trim(s)
  {
    var t := TrimStart(s);
    var r := TrimEnd(t);
    if r != [] {
      assert r[0] == t[0];
      TrimOfUntrimmable(r);
    }
  }

  /** The numeric value of a string of ASCII decimal digits (Swift's `Int(_:)` on such a string). */
  function DigitsValue(s: string): nat
    requires AllDigits(s)
  {
    if s == [] then 0 else 10 * DigitsValue(s[..|s| - 1]) + (s[|s| - 1] - '0') as nat
  }

  function DigitChar(d: nat): (c: char)
    requires d < 10
    ensures IsDigit(c) && (c - '0') as nat == d
  {
    ('0' as int + d) as char
  }

  /** Decimal rendering without leading zeros, as Swift's string interpolation of an `Int`. */
  function Show(n: nat): (r: string)
    ensures 1 <= |r| && AllDigits(r) && DigitsValue(r) == n
    ensures |r| > 1 ==> r[0] != '0'
    ensures n < 10 ==> |r| == 1
    ensures 10 <= n < 100 ==> |r| == 2
    ensures n >= 100 ==> |r| >= 3
  {
    if n < 10 then [DigitChar(n)] else Show(n / 10) + [DigitChar(n % 10)]
  }

  /** `String(format: "%02d", n)` for 0 <= n < 100: exactly two digits, zero-padded. */
  function Pad2(n: nat): (r: string)
    requires n < 100
    ensures |r| == 2 && AllDigits(r) && DigitsValue(r) == n
  {
    var r := [DigitChar(n / 10), DigitChar(n % 10)];
    assert r[..1] == [r[0]] && [r[0]][..0] == [];
    assert DigitsValue(r[..1]) == n / 10;
    r
  }

  /**
   * A newline at `k` that is a `Character` of its own. Swift's `split`
   * compares whole grapheme clusters: a carriage return and the newline after
   * it form the one cluster `"\r\n"`, which is not equal to `"\n"`, while
   * after any other character a newline always stands alone.
   */
  predicate IsBreakAt(s: string, k: nat)
    requires k < |s|
  {
    s[k] == '\n' && (k == 0 || s[k - 1] != '\r')
  }

  /** The first separating newline at or after `from`. */
  function BreakFrom(s: string, from: nat): (r: Option<nat>)
    requires from <= |s|
    ensures r.Some? ==> from <= r.value < |s| && IsBreakAt(s, r.value)
    ensures forall j :: from <= j < (if r.Some? then r.value else |s|) ==> !IsBreakAt(s, j)
    decreases |s| - from
  {
    if from == |s| then None
    else if IsBreakAt(s, from) then Some(from)
    else BreakFrom(s, from + 1)
  }

  /** A piece `split(separator: "\n")` can produce: not empty, with no separating newline. */
  predicate IsPiece(s: string) {
    s != [] && forall k :: 0 <= k < |s| ==> !IsBreakAt(s, k)
  }

  /**
   * A line that joining with newlines keeps apart: not empty, no newline, and
   * no carriage return at its end (which would fuse with the joining newline).
   */
  predicate IsLine(s: string) {
    s != [] && '\n' !in s && s[|s| - 1] != '\r'
  }

  /**
   * Swift's `split(separator: "\n")` with its default of omitting empty
   * pieces: the text between separating newlines, in order.
   */
  function SplitLines(s: string): (r: seq<string>)
    ensures forall i :: 0 <= i < |r| ==> IsPiece(r[i])
    decreases |s|
  {
    match BreakFrom(s, 0)
    case None => if s == [] then [] else [s]
    case Some(k) =>
      var rest := SplitLines(s[k + 1..]);
      if k == 0 then rest
      else
        assert forall j :: 0 <= j < k ==> IsBreakAt(s[..k], j) == IsBreakAt(s, j);
        [s[..k]] + rest
  }

  /** The first separating newline is the one `BreakFrom` finds. */
  lemma FirstBreak(s: string, k: nat)
    requires k < |s| && IsBreakAt(s, k)
    requires forall j :: 0 <= j < k ==> !IsBreakAt(s, j)
    ensures BreakFrom(s, 0) == Some(k)
  {
  }

  /** A text whose every newline follows a carriage return is one piece: `"\r\n"` does not separate. */
  lemma CrLfKeepsOneLine(s: string)
    requires s != []
    requires forall k :: 0 <= k < |s| && s[k] == '\n' ==> 0 < k && s[k - 1] == '\r'
    ensures SplitLines(s) == [s]
  {
  }

  /** `joined(separator: "\n")` */
  function JoinLines(lines: seq<string>): string
  {
    if lines == [] then []
    else if |lines| == 1 then lines[0]
    else lines[0] + "\n" + JoinLines(lines[1..])
  }

  /** A line holding no newline is split into itself. */
  lemma SplitOneLine(line: string)
    requires line != [] && '\n' !in line
    ensures SplitLines(line) == [line]
  {
  }

  /** Splitting undoes joining, for lines that are non-empty, hold no newline and do not end in a carriage return. */
  lemma {:induction false} SplitJoin(lines: seq<string>)
    requires forall i :: 0 <= i < |lines| ==> IsLine(lines[i])
    ensures SplitLines(JoinLines(lines)) == lines
  {
    if |lines| == 1 {
      SplitOneLine(lines[0]);
    } else if |lines| > 1 {
      var head, tail := lines[0], lines[1..];
      JoinUnfold(lines);
      SplitJoin(tail);
      SplitFirstLine(head, JoinLines(tail));
      assert lines == [head] + tail;
    }
  }

  /** A first line is split off as it is. */
  lemma SplitFirstLine(head: string, after: string)
    requires IsLine(head)
    ensures SplitLines(head + "\n" + after) == [head] + SplitLines(after)
  {
    var s := head + "\n" + after;
    var k := |head|;
    assert s[..k] == head;
    assert s[k + 1..] == after;
    assert s[k - 1] == head[k - 1];
    forall j | 0 <= j < k
      ensures !IsBreakAt(s, j)
    {
      assert s[j] == head[j];
    }
    FirstBreak(s, k);
  }

  /**
   * Splitting a joined block followed by a newline and more text gives the
   * block's lines, then the rest's, for any `split` that cuts a first line
   * off at its newline.
   */
  lemma {:induction false} SplitAfterJoinBy(lines: seq<string>, rest: string, split: string -> seq<string>)
    requires lines != [] && forall i :: 0 <= i < |lines| ==> IsLine(lines[i])
    requires forall head, after :: IsLine(head) ==> split(head + "\n" + after) == [head] + split(after)
    ensures split(JoinLines(lines) + "\n" + rest) == lines + split(rest)
    decreases |lines|
  {
    var head := lines[0];
    if |lines| > 1 {
      var tail := lines[1..];
      SplitAfterJoinBy(tail, rest, split);
      JoinUnfold(lines);
      JoinedTail(head, JoinLines(tail), rest);
      assert split(head + "\n" + (JoinLines(tail) + "\n" + rest)) == [head] + split(JoinLines(tail) + "\n" + rest);
      assert lines == [head] + tail;
    }
  }

  /** `split(separator: "\n")` of a joined block, a newline and more text. */
  lemma SplitAfterJoin(lines: seq<string>, rest: string)
    requires lines != [] && forall i :: 0 <= i < |lines| ==> IsLine(lines[i])
    ensures SplitLines(JoinLines(lines) + "\n" + rest) == lines + SplitLines(rest)
  {
    forall head, after | IsLine(head)
      ensures SplitLines(head + "\n" + after) == [head] + SplitLines(after)
    {
      SplitFirstLine(head, after);
    }
    SplitAfterJoinBy(lines, rest, SplitLines);
  }

  lemma JoinUnfold(lines: seq<string>)
    requires |lines| > 1
    ensures JoinLines(lines) == lines[0] + "\n" + JoinLines(lines[1..])
  {
  }

  lemma JoinedTail(head: string, body: string, rest: string)
    ensures head + "\n" + body + "\n" + rest == head + "\n" + (body + "\n" + rest)
  {
  }

  /** A leading newline adds no line. */
  lemma SplitAfterNewline(rest: string)
    ensures SplitLines("\n" + rest) == SplitLines(rest)
  {
    var s := "\n" + rest;
    assert IsBreakAt(s, 0);
    assert s[1..] == rest;
  }
}
