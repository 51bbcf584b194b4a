/** Reading the line that `stat -c "%F %s %Y %X %W %a %u %g %h %i"` prints: a type name of
    one word or several, then numbers. */
module StatOutput {
  import opened Text
  import opened UnixMode
  import opened Wrappers

  datatype FileType = IsDirectory | IsFile | IsSymlink

  datatype Permissions = Permissions(
    ownerRead: bool, ownerWrite: bool, ownerExec: bool,
    groupRead: bool, groupWrite: bool, groupExec: bool,
    otherRead: bool, otherWrite: bool, otherExec: bool)

  datatype Metadata = Metadata(
    canonicalizedPath: Option<string>, fileType: FileType, len: nat, readonly: bool,
    accessed: Option<nat>, created: Option<nat>, modified: Option<nat>, unix: Permissions)

  const U64 := 0x1_0000_0000_0000_0000
  const U32 := 0x1_0000_0000

  // ----- Strings -----

  /** `str::splitn(n, ' ')`. */
  function SplitN(s: string, n: nat): (r: seq<string>)
    requires n > 0
    ensures 0 < |r| <= n
  {
    match IndexOf(s, ' ')
    case Some(i) => if n == 1 then [s] else [s[..i]] + SplitN(s[i + 1..], n - 1)
    case None => [s]
  }

  function Join(parts: seq<string>): string {
    if parts == [] then "" else if |parts| == 1 then parts[0] else parts[0] + " " + Join(parts[1..])
  }

  // ----- Numbers -----

  datatype Radix = Octal | Decimal

  predicate IsDigit(c: char, radix: Radix) {
    '0' <= c <= (if radix.Octal? then '7' else '9')
  }

  predicate AllDigits(s: string, radix: Radix) {
    forall i :: 0 <= i < |s| ==> IsDigit(s[i], radix)
  }

  function Value(s: string, radix: Radix): nat
    requires AllDigits(s, radix)
  {
    if s == "" then 0
    else
      assert IsDigit(s[|s| - 1], radix);
      var above := Value(s[..|s| - 1], radix);
      (if radix.Octal? then 8 * above else 10 * above) + (s[|s| - 1] as int - '0' as int)
  }

  function DropPlus(s: string): string {
    if |s| > 1 && s[0] == '+' then s[1..] else s
  }

  /** `from_str_radix` for an unsigned type of `limit` values: digits, possibly after a plus
      sign. */
  function ParseUnsigned(s: string, radix: Radix, limit: nat): Option<nat> {
    var digits := DropPlus(s);
    if digits != "" && AllDigits(digits, radix) && Value(digits, radix) < limit
    then Some(Value(digits, radix))
    else None
  }

  function ParseU64(s: string): Option<nat> {
    ParseUnsigned(s, Decimal, U64)
  }

  function ParseMode(s: string): Option<nat> {
    ParseUnsigned(s, Octal, U32)
  }

  // ----- The parser -----

  function PermissionsOf(mode: nat): Permissions {
    Permissions(HasBit(mode, 256), HasBit(mode, 128), HasBit(mode, 64),
                HasBit(mode, 32), HasBit(mode, 16), HasBit(mode, 8),
                HasBit(mode, 4), HasBit(mode, 2), HasBit(mode, 1))
  }

  function FileTypeOf(name: string): FileType {
    if name == "directory" then IsDirectory else if name == "symbolic link" then IsSymlink else IsFile
  }

  /** A time of zero stands for "not supported". */
  function KnownTime(t: Option<nat>): Option<nat> {
    if t == Some(0) then None else t
  }

  ghost predicate FirstNumber(parts: seq<string>, k: nat) {
    k < |parts| && ParseU64(parts[k]).Some? && forall i :: 0 <= i < k ==> ParseU64(parts[i]).None?
  }

  /** What the fields say when the first number is at `k`. */
  function FromParts(parts: seq<string>, k: nat, canonicalPath: Option<string>): Option<Metadata>
    requires k < |parts|
  {
    var size := ParseU64(parts[k]);
    if size.None? || k + 4 >= |parts| then None
    else
      match ParseMode(parts[k + 4])
      case None => None
      case Some(mode) =>
        Some(Metadata(canonicalPath, FileTypeOf(Join(parts[..k])), size.value, !HasBit(mode, 128),
                      ParseU64(parts[k + 2]), KnownTime(ParseU64(parts[k + 3])), ParseU64(parts[k + 1]),
                      PermissionsOf(mode)))
  }

  /** The metadata a line stands for. */
  ghost function StatOf(line: string, canonicalPath: Option<string>): Option<Metadata> {
    var parts := SplitN(line, 10);
    if |parts| < 6 || !exists k :: 0 < k && FirstNumber(parts, k) then None
    else
      var k :| 0 < k && FirstNumber(parts, k);
      FromParts(parts, k, canonicalPath)
  }

  method ParseStatOutput(line: string, canonicalPath: Option<string>) returns (r: Option<Metadata>)
    ensures r == StatOf(line, canonicalPath)
  {
    hide FromParts, SplitN, ParseUnsigned;
    var parts := SplitN(line, 10);
    if |parts| < 6 {
      return None;
    }
    var numericStart := 0;
    for i := 0 to |parts|
      invariant numericStart == 0
      invariant forall j :: 0 <= j < i ==> ParseU64(parts[j]).None?
    {
      if ParseU64(parts[i]).Some? {
        numericStart := i;
        break;
      }
    }
    if numericStart == 0 {
      return None;
    }
    assert FirstNumber(parts, numericStart);
    return FromParts(parts, numericStart, canonicalPath);
  }

  /** A line is understood iff a number stands after the type's name and, four parts on, an
      octal mode; asking for six parts first excludes nothing more. */
  lemma UnderstoodIff(line: string, canonicalPath: Option<string>)
    ensures var parts := SplitN(line, 10);
            StatOf(line, canonicalPath).Some? <==>
              exists k :: 0 < k && FirstNumber(parts, k) && k + 4 < |parts| && ParseMode(parts[k + 4]).Some?
  {
    hide SplitN, ParseUnsigned, StatOf, FromParts;
    var parts := SplitN(line, 10);
    if k :| 0 < k && FirstNumber(parts, k) {
      forall m | FirstNumber(parts, m) ensures m == k {
        OnlyOneFirst(parts, k, m);
      }
      PartsUnderstoodIff(parts, k, canonicalPath);
      if |parts| < 6 {
        TooFewParts(line, canonicalPath);
      } else {
        StatIs(line, k, canonicalPath);
      }
    } else {
      NoNumberAtAll(line, canonicalPath);
    }
  }

  lemma PartsUnderstoodIff(parts: seq<string>, k: nat, canonicalPath: Option<string>)
    requires FirstNumber(parts, k)
    ensures FromParts(parts, k, canonicalPath).Some? <==> k + 4 < |parts| && ParseMode(parts[k + 4]).Some?
  {
    hide ParseUnsigned;
  }

  lemma TooFewParts(line: string, canonicalPath: Option<string>)
    requires |SplitN(line, 10)| < 6
    ensures StatOf(line, canonicalPath) == None
  {
  }

  lemma NoNumberAtAll(line: string, canonicalPath: Option<string>)
    requires !exists k :: 0 < k && FirstNumber(SplitN(line, 10), k)
    ensures StatOf(line, canonicalPath) == None
  {
  }

  // ----- What `stat` prints -----

  function Digit(d: nat): char
    requires d < 10
  {
    ('0' as int + d) as char
  }

  function Print(n: nat, radix: Radix): string {
    match radix
    case Octal => if n < 8 then [Digit(n)] else Print(n / 8, radix) + [Digit(n % 8)]
    case Decimal => if n < 10 then [Digit(n)] else Print(n / 10, radix) + [Digit(n % 10)]
  }

  /** Times count seconds from 1970 and may be negative. */
  function PrintTime(t: int): string {
    if t < 0 then "-" + Print(-t, Decimal) else Print(t, Decimal)
  }

  /** What the parser makes of a time: none when it lies before 1970. */
  function ReadTime(t: int): Option<nat> {
    if t < 0 then None else Some(t)
  }

  datatype Stat = Stat(size: nat, modified: int, accessed: int, created: int, mode: nat,
                       uid: nat, gid: nat, links: nat, inode: nat)

  /** Every number fits the type it is parsed as. */
  predicate InRange(st: Stat) {
    st.size < U64 && st.modified < U64 && st.accessed < U64 && st.created < U64 && st.mode < U32
  }

  function Fields(st: Stat): seq<string> {
    [Print(st.size, Decimal), PrintTime(st.modified), PrintTime(st.accessed), PrintTime(st.created), Print(st.mode, Octal),
     Print(st.uid, Decimal), Print(st.gid, Decimal), Print(st.links, Decimal), Print(st.inode, Decimal)]
  }

  /** The format "%F %s %Y %X %W %a %u %g %h %i"; `words` is the type's name. */
  function Line(words: seq<string>, st: Stat): string {
    Join(words + Fields(st))
  }

  /** A type's name: words that are not numbers. */
  ghost predicate IsTypeName(words: seq<string>) {
    words != [] && forall i :: 0 <= i < |words| ==> ' ' !in words[i] && ParseU64(words[i]).None?
  }

  // ----- Numbers survive -----

  lemma {:induction false} PrintedDigits(n: nat, radix: Radix)
    ensures Print(n, radix) != ""
    ensures AllDigits(Print(n, radix), radix)
    ensures Value(Print(n, radix), radix) == n
    decreases n
  {
    var base := if radix.Octal? then 8 else 10;
    if n >= base {
      PrintedDigits(n / base, radix);
      var s := Print(n, radix);
      assert s[..|s| - 1] == Print(n / base, radix);
    }
  }

  lemma ParsedBack(n: nat, radix: Radix, limit: nat)
    ensures ' ' !in Print(n, radix)
    ensures ParseUnsigned(Print(n, radix), radix, limit) == if n < limit then Some(n) else None
    ensures ParseUnsigned("+" + Print(n, radix), radix, limit) == ParseUnsigned(Print(n, radix), radix, limit)
  {
    PrintedDigits(n, radix);
    assert ("+" + Print(n, radix))[1..] == Print(n, radix);
    assert forall c :: IsDigit(c, radix) ==> c != ' ' && c != '+';
    assert IsDigit(Print(n, radix)[0], radix);
  }

  lemma TimeParsedBack(t: int)
    ensures ' ' !in PrintTime(t)
    ensures t < U64 ==> ParseU64(PrintTime(t)) == ReadTime(t)
  {
    if t < 0 {
      ParsedBack(-t, Decimal, U64);
      var s := PrintTime(t);
      assert s[0] == '-' && DropPlus(s) == s && !IsDigit(s[0], Decimal);
    } else {
      ParsedBack(t, Decimal, U64);
    }
  }

  lemma SpacedIsNoNumber(s: string, radix: Radix, limit: nat)
    requires ' ' in s
    ensures ParseUnsigned(s, radix, limit).None?
  {
    var i :| 0 <= i < |s| && s[i] == ' ';
    var digits, k := DropPlus(s), if |s| > 1 && s[0] == '+' then i - 1 else i;
    assert !IsDigit(digits[k], radix);
  }

  // ----- Fields survive -----

  lemma SplitFirst(w: string, rest: string, n: nat)
    requires ' ' !in w && n > 0
    ensures SplitN(w + " " + rest, n) == if n == 1 then [w + " " + rest] else [w] + SplitN(rest, n - 1)
  {
    hide IndexOf;
    IndexOfFirst(w, ' ', rest);
    assert (w + " " + rest)[..|w|] == w && (w + " " + rest)[|w| + 1..] == rest;
  }

  lemma SplitLast(w: string, n: nat)
    requires ' ' !in w && n > 0
    ensures SplitN(w, n) == [w] && Join([w]) == w
  {
    assert IndexOf(w, ' ').None?;
  }

  lemma JoinMore(parts: seq<string>)
    requires |parts| > 1
    ensures Join(parts) == parts[0] + " " + Join(parts[1..])
  {
  }

  lemma {:induction false} SplitJoin(parts: seq<string>, n: nat)
    requires parts != [] && n > 0
    requires forall i :: 0 <= i < |parts| ==> ' ' !in parts[i]
    ensures SplitN(Join(parts), n) == if |parts| <= n then parts else parts[..n - 1] + [Join(parts[n - 1..])]
    decreases |parts|
  {
    hide SplitN, Join;
    var w, rest := parts[0], parts[1..];
    assert [w] + rest == parts;
    if rest == [] {
      assert parts == [w];
      SplitLast(w, n);
    } else {
      JoinMore(parts);
      SplitFirst(w, Join(rest), n);
      if n == 1 {
        assert parts[0..] == parts && parts[..0] + [Join(parts)] == [Join(parts)];
      } else {
        SplitJoin(rest, n - 1);
        if |parts| > n {
          assert parts[n - 1..] == rest[n - 2..];
          assert [w] + rest[..n - 2] == parts[..n - 1];
        }
      }
    }
  }

  lemma JoinHasSpace(parts: seq<string>)
    requires |parts| > 1
    ensures ' ' in Join(parts)
  {
    assert Join(parts)[|parts[0]|] == ' ';
  }

  /** The parts of a printed line: the words, then the numbers, the last ones possibly in
      one piece. */
  lemma PartsOf(words: seq<string>, st: Stat)
    requires IsTypeName(words)
    ensures var all, parts := words + Fields(st), SplitN(Line(words, st), 10);
            && |parts| == 10 && parts[..9] == all[..9]
            && (|words| == 1 ==> parts[9] == all[9])
            && (|words| > 1 ==> ' ' in parts[9])
  {
    hide SplitN, Join, Fields, ParseUnsigned;
    var all := words + Fields(st);
    FieldsHaveNoSpaces(st);
    SplitJoin(all, 10);
    if |words| > 1 {
      JoinHasSpace(all[9..]);
    } else {
      assert all[..9] + [all[9]] == all;
    }
  }

  lemma FieldsHaveNoSpaces(st: Stat)
    ensures |Fields(st)| == 9 && forall i :: 0 <= i < 9 ==> ' ' !in Fields(st)[i]
  {
    hide Print, PrintTime, ParseUnsigned;
    ParsedBack(st.size, Decimal, U64); TimeParsedBack(st.modified); TimeParsedBack(st.accessed);
    TimeParsedBack(st.created); ParsedBack(st.mode, Octal, U32); ParsedBack(st.uid, Decimal, U64);
    ParsedBack(st.gid, Decimal, U64); ParsedBack(st.links, Decimal, U64); ParsedBack(st.inode, Decimal, U64);
  }

  lemma OnlyOneFirst(parts: seq<string>, k: nat, m: nat)
    requires FirstNumber(parts, k) && FirstNumber(parts, m)
    ensures k == m
  {
  }

  lemma FirstIsSize(words: seq<string>, st: Stat, parts: seq<string>)
    requires IsTypeName(words) && InRange(st) && |words| < 9
    requires |parts| == 10 && parts[..9] == (words + Fields(st))[..9]
    ensures words != [] && FirstNumber(parts, |words|) && ParseU64(parts[|words|]) == Some(st.size)
  {
    hide ParseUnsigned, Print, PrintTime;
    var all, k := words + Fields(st), |words|;
    assert parts[k] == parts[..9][k] == all[k] == Fields(st)[0];
    ParsedBack(st.size, Decimal, U64);
    forall i | 0 <= i < k ensures ParseU64(parts[i]).None? {
      assert parts[i] == parts[..9][i] == all[i] == words[i];
    }
  }

  lemma NoNumber(words: seq<string>, parts: seq<string>, more: seq<string>, m: nat)
    requires IsTypeName(words) && |words| >= 9
    requires |parts| == 10 && parts[..9] == (words + more)[..9] && ' ' in parts[9]
    ensures !FirstNumber(parts, m)
  {
    hide ParseUnsigned;
    SpacedIsNoNumber(parts[9], Decimal, U64);
    if m < 9 {
      assert parts[m] == parts[..9][m] == (words + more)[m] == words[m];
    }
  }

  /** With at most four words, the mode is a part of its own. */
  lemma SmallName(words: seq<string>, st: Stat, parts: seq<string>, canonicalPath: Option<string>)
    requires IsTypeName(words) && InRange(st) && |words| <= 4
    requires |parts| == 10 && parts[..9] == (words + Fields(st))[..9]
    ensures FromParts(parts, |words|, canonicalPath) ==
            Some(Metadata(canonicalPath, FileTypeOf(Join(words)), st.size, !HasBit(st.mode, 128),
                          ReadTime(st.accessed), KnownTime(ReadTime(st.created)), ReadTime(st.modified),
                          PermissionsOf(st.mode)))
  {
    hide ParseUnsigned, Print, PrintTime, Join, HasBit, IsTypeName, Fields, FileTypeOf, PermissionsOf;
    FieldsAre(st);
    assert parts[..|words|] == parts[..9][..|words|] == words;
    FieldAt(words, st, parts, 0); FieldAt(words, st, parts, 1); FieldAt(words, st, parts, 2);
    FieldAt(words, st, parts, 3); FieldAt(words, st, parts, 4);
    ParsedBack(st.size, Decimal, U64);
    TimeParsedBack(st.modified);
    TimeParsedBack(st.accessed);
    TimeParsedBack(st.created);
    ParsedBack(st.mode, Octal, U32);
  }

  lemma FieldsAre(st: Stat)
    ensures |Fields(st)| == 9
    ensures Fields(st)[0] == Print(st.size, Decimal) && Fields(st)[1] == PrintTime(st.modified)
    ensures Fields(st)[2] == PrintTime(st.accessed) && Fields(st)[3] == PrintTime(st.created)
    ensures Fields(st)[4] == Print(st.mode, Octal)
  {
    hide Print, PrintTime;
  }

  lemma FieldAt(words: seq<string>, st: Stat, parts: seq<string>, i: nat)
    requires i < 9 && |words| + i < 9
    requires |parts| == 10 && parts[..9] == (words + Fields(st))[..9]
    ensures parts[|words| + i] == Fields(st)[i]
  {
    hide Print, PrintTime;
    assert parts[|words| + i] == parts[..9][|words| + i] == (words + Fields(st))[|words| + i];
  }

  lemma StatIs(line: string, k: nat, canonicalPath: Option<string>)
    requires 0 < k && |SplitN(line, 10)| >= 6 && FirstNumber(SplitN(line, 10), k)
    ensures StatOf(line, canonicalPath) == FromParts(SplitN(line, 10), k, canonicalPath)
  {
    hide FirstNumber, FromParts, SplitN;
    forall m | FirstNumber(SplitN(line, 10), m) ensures m == k {
      OnlyOneFirst(SplitN(line, 10), k, m);
    }
  }

  lemma NoStat(words: seq<string>, st: Stat, canonicalPath: Option<string>)
    requires IsTypeName(words) && |words| >= 9
    ensures StatOf(Line(words, st), canonicalPath) == None
  {
    hide SplitN, Line, Fields, IsTypeName, FirstNumber, FromParts;
    PartsOf(words, st);
    forall m ensures !FirstNumber(SplitN(Line(words, st), 10), m) {
      NoNumber(words, SplitN(Line(words, st), 10), Fields(st), m);
    }
  }

  /** With more words the mode shares a part with what follows it, or is cut off. */
  lemma LargeName(parts: seq<string>, k: nat, canonicalPath: Option<string>)
    requires 5 <= k < |parts| == 10 && ' ' in parts[9]
    ensures FromParts(parts, k, canonicalPath) == None
  {
    hide ParseUnsigned;
    SpacedIsNoNumber(parts[9], Octal, U32);
  }

  lemma ParsedLine(words: seq<string>, st: Stat, canonicalPath: Option<string>)
    requires IsTypeName(words) && InRange(st)
    ensures StatOf(Line(words, st), canonicalPath) ==
            if |words| > 4 then None
            else Some(Metadata(canonicalPath, FileTypeOf(Join(words)), st.size, !HasBit(st.mode, 128),
                               ReadTime(st.accessed), KnownTime(ReadTime(st.created)), ReadTime(st.modified),
                               PermissionsOf(st.mode)))
  {
    hide SplitN, ParseUnsigned, Join, Print, PrintTime, IndexOf, HasBit, IsTypeName, FirstNumber, Line, Fields, FromParts, StatOf, InRange;
    var parts, k := SplitN(Line(words, st), 10), |words|;
    PartsOf(words, st);
    if k >= 9 {
      NoStat(words, st, canonicalPath);
    } else {
      FirstIsSize(words, st, parts);
      StatIs(Line(words, st), k, canonicalPath);
      if k <= 4 {
        SmallName(words, st, parts, canonicalPath);
      } else {
        LargeName(parts, k, canonicalPath);
      }
    }
  }

  /** Words are joined in one way only. */
  lemma JoinedOnce(words: seq<string>, same: seq<string>)
    requires words != [] && same != []
    requires forall i :: 0 <= i < |words| ==> ' ' !in words[i]
    requires forall i :: 0 <= i < |same| ==> ' ' !in same[i]
    ensures Join(words) == Join(same) <==> words == same
  {
    hide SplitN, Join;
    SplitJoin(words, |words| + |same|);
    SplitJoin(same, |words| + |same|);
  }

  lemma TypeOfName(words: seq<string>)
    requires IsTypeName(words)
    ensures FileTypeOf(Join(words)).IsDirectory? <==> words == ["directory"]
    ensures FileTypeOf(Join(words)).IsSymlink? <==> words == ["symbolic", "link"]
  {
    hide Join, ParseUnsigned;
    JoinedOnce(words, ["directory"]);
    JoinedOnce(words, ["symbolic", "link"]);
    TypeNames();
  }

  lemma TypeNames()
    ensures Join(["directory"]) == "directory" && Join(["symbolic", "link"]) == "symbolic link"
  {
    assert ["symbolic", "link"][1..] == ["link"];
  }

  /** A time that is printed comes back unless it lies before 1970. */
  predicate IsRead(r: Option<nat>, t: int) {
    if t < 0 then r == None else r == Some(t)
  }

  /** What comes back from a printed line: everything, with times before 1970 and a creation
      time of zero as none, if and only if the type's name has at most four words. */
  lemma RoundTrip(words: seq<string>, st: Stat, canonicalPath: Option<string>)
    requires IsTypeName(words) && InRange(st)
    ensures StatOf(Line(words, st), canonicalPath).Some? <==> |words| <= 4
    ensures |words| <= 4 ==>
              var m := StatOf(Line(words, st), canonicalPath).value;
              && m.canonicalizedPath == canonicalPath && m.len == st.size
              && (m.fileType.IsDirectory? <==> words == ["directory"])
              && (m.fileType.IsSymlink? <==> words == ["symbolic", "link"])
              && IsRead(m.modified, st.modified) && IsRead(m.accessed, st.accessed)
              && (if st.created == 0 then m.created == None else IsRead(m.created, st.created))
              && (m.readonly <==> st.mode / 128 % 2 == 0)
              && m.unix == PermissionsOf(st.mode)
  {
    hide StatOf, Line, Join, FileTypeOf, PermissionsOf, InRange, IsTypeName;
    ParsedLine(words, st, canonicalPath);
    TypeOfName(words);
  }

  /** What is read as a number: digits of the radix, after a plus sign or not. */
  lemma ReadDigits(s: string, radix: Radix, limit: nat)
    ensures ParseUnsigned(s, radix, limit).Some? ==>
              var digits := if |s| > 1 && s[0] == '+' then s[1..] else s;
              && digits != ""
              && forall i :: 0 <= i < |digits| ==> digits[i] in (if radix.Octal? then "01234567" else "0123456789")
  {
    hide Value;
    if ParseUnsigned(s, radix, limit).Some? {
      var digits := DropPlus(s);
      forall i | 0 <= i < |digits| ensures digits[i] in (if radix.Octal? then "01234567" else "0123456789") {
        assert IsDigit(digits[i], radix);
        EachDigit(digits[i], radix);
      }
    }
  }

  lemma EachDigit(c: char, radix: Radix)
    ensures IsDigit(c, radix) <==> c in (if radix.Octal? then "01234567" else "0123456789")
  {
  }

  // ----- Permission bits survive -----

  /** The number of the nine bits, below whatever `special` stands above them. */
  function ModeOf(p: Permissions, special: nat): nat {
    PushAll(special, [p.ownerRead, p.ownerWrite, p.ownerExec, p.groupRead, p.groupWrite, p.groupExec,
                      p.otherRead, p.otherWrite, p.otherExec])
  }

  /** Reading the nine bits back gives the permissions, whatever the set-user, set-group and
      sticky bits above them. */
  lemma PermissionBits(p: Permissions, special: nat)
    ensures PermissionsOf(ModeOf(p, special)) == p
  {
    hide HasBit, PushAll;
    var bits := [p.ownerRead, p.ownerWrite, p.ownerExec, p.groupRead, p.groupWrite, p.groupExec,
                 p.otherRead, p.otherWrite, p.otherExec];
    PowerValues();
    BitUnder(special, bits, 0, 256); BitUnder(special, bits, 1, 128); BitUnder(special, bits, 2, 64);
    BitUnder(special, bits, 3, 32); BitUnder(special, bits, 4, 16); BitUnder(special, bits, 5, 8);
    BitUnder(special, bits, 6, 4); BitUnder(special, bits, 7, 2); BitUnder(special, bits, 8, 1);
  }

  /** The nine permissions of a node come back from its printed line, and it is read-only
      just when its owner may not write. */
  lemma PermissionsSurvive(words: seq<string>, st: Stat, p: Permissions, special: nat, canonicalPath: Option<string>)
    requires IsTypeName(words) && |words| <= 4 && st.mode == ModeOf(p, special) && InRange(st)
    ensures var r := StatOf(Line(words, st), canonicalPath);
            r.Some? && r.value.unix == p && r.value.readonly == !p.ownerWrite
  {
    hide *;
    ParsedLine(words, st, canonicalPath);
    PermissionBits(p, special);
    OwnerWrite(st.mode);
  }

  lemma OwnerWrite(mode: nat)
    ensures PermissionsOf(mode).ownerWrite == HasBit(mode, 128)
  {
  }
}
