/** The few `str` operations of Rust's standard library the parsers rely on. */
module Text {
  import opened Wrappers

  /** `char::is_whitespace`: the Unicode White_Space property. */
  predicate IsWhitespace(c: char) {
    || '\U{9}' <= c <= '\U{D}' || c == ' ' || c == '\U{85}' || c == '\U{A0}' || c == '\U{1680}'
    || '\U{2000}' <= c <= '\U{200A}' || c == '\U{2028}' || c == '\U{2029}' || c == '\U{202F}'
    || c == '\U{205F}' || c == '\U{3000}'
  }

  /** `char::is_control`: the Unicode category Cc. */
  predicate IsControl(c: char) {
    c <= '\U{1F}' || '\U{7F}' <= c <= '\U{9F}'
  }

  function IndexOf(s: string, c: char): (r: Option<nat>)
    ensures r.Some? ==> r.value < |s| && s[r.value] == c && c !in s[..r.value]
    ensures r.None? ==> c !in s
  {
    if s == "" then None
    else if s[0] == c then Some(0)
    else
      match IndexOf(s[1..], c)
      case None => None
      case Some(i) =>
        assert s[..i + 1] == [s[0]] + s[1..][..i];
        Some(i + 1)
  }

  /** A character is found at its first occurrence. */
  lemma IndexOfFirst(a: string, c: char, b: string)
    requires c !in a
    ensures IndexOf(a + [c] + b, c) == Some(|a|)
  {
    var s := a + [c] + b;
    assert s[|a|] == c;
    assert forall i :: 0 <= i < |a| ==> s[i] == a[i];
    assert forall i :: |a| < i <= |s| ==> s[..i][|a|] == c;
  }

  function StripSuffix(s: string, c: char): string {
    if s != "" && s[|s| - 1] == c then s[..|s| - 1] else s
  }

  /** `str::lines`: a line ends in a line feed, with or without a carriage return before
      it; the last line may lack its ending. */
  function Lines(s: string): seq<string>
    decreases |s|
  {
    if s == "" then []
    else
      match IndexOf(s, '\n')
      case None => [s]
      case Some(i) => [StripSuffix(s[..i], '\r')] + Lines(s[i + 1..])
  }

  function TrimStart(s: string): string {
    if s != "" && IsWhitespace(s[0]) then TrimStart(s[1..]) else s
  }

  function TrimEnd(s: string): string {
    if s != "" && IsWhitespace(s[|s| - 1]) then TrimEnd(s[..|s| - 1]) else s
  }

  function Trim(s: string): string {
    TrimEnd(TrimStart(s))
  }

  // ----- What lines and trimming undo -----

  predicate IsLine(l: string) {
    '\n' !in l && (l != "" ==> l[|l| - 1] != '\r')
  }

  /** Every line with its ending, a line feed or a carriage return and a line feed. */
  function Unlines(lines: seq<string>, carriage: seq<bool>): string
    requires |lines| == |carriage|
  {
    if lines == [] then ""
    else lines[0] + (if carriage[0] then "\r\n" else "\n") + Unlines(lines[1..], carriage[1..])
  }

  /** Splitting gives the lines back, whichever ending each of them has. */
  lemma {:induction false} LinesBack(lines: seq<string>, carriage: seq<bool>)
    requires |lines| == |carriage| && forall k :: 0 <= k < |lines| ==> IsLine(lines[k])
    ensures Lines(Unlines(lines, carriage)) == lines
    decreases |lines|
  {
    if lines == [] {
    } else {
      var l, rest := lines[0], Unlines(lines[1..], carriage[1..]);
      LinesBack(lines[1..], carriage[1..]);
      FirstLine(l, carriage[0], rest);
      assert [l] + lines[1..] == lines;
    }
  }

  lemma FirstLine(l: string, carriage: bool, rest: string)
    requires IsLine(l)
    ensures Lines(l + (if carriage then "\r\n" else "\n") + rest) == [l] + Lines(rest)
  {
    var full := if carriage then l + "\r" else l;
    var s := l + (if carriage then "\r\n" else "\n") + rest;
    assert s == full + ['\n'] + rest;
    assert '\n' !in full;
    IndexOfFirst(full, '\n', rest);
    assert s[..|full|] == full && s[|full| + 1..] == rest;
    assert StripSuffix(full, '\r') == l;
  }

  lemma {:induction false} LinesHaveNoBreaks(s: string)
    ensures forall k :: 0 <= k < |Lines(s)| ==> '\n' !in Lines(s)[k]
    decreases |s|
  {
    if s == "" {
    } else {
      match IndexOf(s, '\n')
      case None =>
      case Some(i) => LinesHaveNoBreaks(s[i + 1..]);
    }
  }

  predicate AllWhitespace(s: string) {
    forall i :: 0 <= i < |s| ==> IsWhitespace(s[i])
  }

  predicate IsTrimmed(s: string) {
    s != "" ==> !IsWhitespace(s[0]) && !IsWhitespace(s[|s| - 1])
  }

  /** Trimming takes away what is whitespace at the two ends, and no more. */
  lemma TrimBack(before: string, s: string, after: string)
    requires AllWhitespace(before) && AllWhitespace(after) && IsTrimmed(s)
    ensures Trim(before + s + after) == s
  {
    hide IsWhitespace;
    if s == "" {
      assert before + s + after == before + after + "";
      StartBack(before + after, "");
    } else {
      assert before + s + after == before + (s + after);
      StartBack(before, s + after);
      EndBack(s, after);
    }
  }

  lemma {:induction false} StartBack(before: string, s: string)
    requires AllWhitespace(before) && (s != "" ==> !IsWhitespace(s[0]))
    ensures TrimStart(before + s) == s
    decreases |before|
  {
    hide IsWhitespace;
    if before == "" {
      assert before + s == s;
    } else {
      assert (before + s)[1..] == before[1..] + s;
      StartBack(before[1..], s);
    }
  }

  lemma {:induction false} EndBack(s: string, after: string)
    requires AllWhitespace(after) && (s != "" ==> !IsWhitespace(s[|s| - 1]))
    ensures TrimEnd(s + after) == s
    decreases |after|
  {
    hide IsWhitespace;
    if after == "" {
      assert s + after == s;
    } else {
      assert (s + after)[..|s + after| - 1] == s + after[..|after| - 1];
      EndBack(s, after[..|after| - 1]);
    }
  }

  /** Trimming leaves a stretch of the string. */
  lemma TrimIsPart(s: string, c: char)
    requires c !in s
    ensures c !in Trim(s)
  {
    hide IsWhitespace;
    StartIsPart(s, c);
    EndIsPart(TrimStart(s), c);
  }

  lemma {:induction false} StartIsPart(s: string, c: char)
    requires c !in s
    ensures c !in TrimStart(s)
    decreases |s|
  {
    if s == "" || !IsWhitespace(s[0]) {
    } else {
      StartIsPart(s[1..], c);
    }
  }

  lemma {:induction false} EndIsPart(s: string, c: char)
    requires c !in s
    ensures c !in TrimEnd(s)
    decreases |s|
  {
    if s == "" || !IsWhitespace(s[|s| - 1]) {
    } else {
      EndIsPart(s[..|s| - 1], c);
    }
  }

  /** On ASCII text: the six blanks are whitespace, letters, digits and punctuation are
      neither whitespace nor control characters, and everything else is a control character. */
  lemma AsciiClasses(c: char)
    requires c <= '\U{7F}'
    ensures IsWhitespace(c) <==> c in {'\t', '\n', '\U{B}', '\U{C}', '\r', ' '}
    ensures IsWhitespace(c) || IsControl(c) <==> c <= ' ' || c == '\U{7F}'
  {
  }
}
