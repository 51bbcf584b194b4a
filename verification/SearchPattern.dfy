/** Search conditions compiled to patterns, and path listings filtered with them
    (the Docker backend's search). */
module SearchPattern {
  import opened Wrappers
  import opened RegexModel
  import opened Text

  datatype Condition =
    | RegexCondition(value: string)
    | Contains(value: string)
    | EndsWith(value: string)
    | StartsWith(value: string)
    | Equals(value: string)
    | Or(conditions: seq<Condition>)

  // ----- The compiler -----

  function EscapeChar(c: char): string {
    if IsMeta(c) then ['\\', c] else [c]
  }

  function Escape(s: string): string {
    if s == "" then ""
    else EscapeChar(s[0]) + Escape(s[1..])
  }

  lemma {:induction false} EscapeAppend(s: string, c: char)
    ensures Escape(s + [c]) == Escape(s) + Escape([c])
  {
    if s != "" {
      assert (s + [c])[1..] == s[1..] + [c];
      EscapeAppend(s[1..], c);
    } else {
      assert s + [c] == [c];
    }
  }

  method ShellEscapePattern(s: string) returns (escaped: string)
    ensures escaped == Escape(s)
  {
    escaped := "";
    for i := 0 to |s|
      invariant escaped == Escape(s[..i])
    {
      var c := s[i];
      EscapeAppend(s[..i], c);
      assert s[..i + 1] == s[..i] + [c];
      if IsMeta(c) {
        escaped := escaped + ['\\'];
        escaped := escaped + [c];
      } else {
        escaped := escaped + [c];
      }
      assert [c][1..] == "";
    }
    assert s[..|s|] == s;
  }

  /** The pattern of a condition that is not an `Or`; an `Or` inside an `Or` becomes `.*`. */
  function BuildPart(c: Condition): string {
    match c
    case RegexCondition(v) => v
    case Contains(v) => Escape(v)
    case EndsWith(v) => Escape(v) + "$"
    case StartsWith(v) => "^" + Escape(v)
    case Equals(v) => "^" + Escape(v) + "$"
    case Or(_) => ".*"
  }

  function BuildParts(cs: seq<Condition>): (r: seq<string>)
    ensures |r| == |cs|
  {
    if cs == [] then [] else [BuildPart(cs[0])] + BuildParts(cs[1..])
  }

  function JoinParts(parts: seq<string>): string {
    if parts == [] then ""
    else if |parts| == 1 then parts[0]
    else parts[0] + ("|" + JoinParts(parts[1..]))
  }

  function BuildUnixPattern(c: Condition): string {
    match c
    case Or(cs) => JoinParts(BuildParts(cs))
    case _ => BuildPart(c)
  }

  // ----- What a condition means -----

  ghost predicate OccursIn(v: string, h: string) {
    exists i: nat :: OccursAt(v, h, i)
  }

  predicate OccursAt(v: string, h: string, i: nat) {
    i + |v| <= |h| && h[i..i + |v|] == v
  }

  ghost predicate Holds(c: Condition, h: string) {
    match c
    case RegexCondition(v) => Parse(v).Some? && Matches(Parse(v).value, h)
    case Contains(v) => OccursIn(v, h)
    case EndsWith(v) => |v| <= |h| && h[|h| - |v|..] == v
    case StartsWith(v) => v <= h
    case Equals(v) => h == v
    case Or(cs) => exists k :: 0 <= k < |cs| && Holds(cs[k], h)
  }

  /** The regular expressions a condition brings along are in the modelled syntax. */
  ghost predicate Supported(c: Condition) {
    match c
    case RegexCondition(v) => Parse(v).Some?
    case Or(cs) => forall k :: 0 <= k < |cs| && cs[k].RegexCondition? ==> Parse(cs[k].value).Some?
    case _ => true
  }

  /** The conditions whose pattern says less than they do: an `Or` of nothing, compiled to
      the empty pattern, and an `Or` directly inside an `Or`. Both patterns match everything. */
  ghost predicate Loose(c: Condition) {
    c.Or? && (c.conditions == [] || exists k :: 0 <= k < |c.conditions| && c.conditions[k].Or?)
  }

  // ----- Meaning is preserved -----

  function Literals(v: string): (r: seq<Item>)
    ensures |r| == |v| && forall k :: 0 <= k < |v| ==> r[k] == One(Lit(v[k]))
  {
    seq(|v|, k requires 0 <= k < |v| => One(Lit(v[k])))
  }

  lemma ParseLiteral(c: char, tail: string)
    requires tail == "" || tail[0] != '*'
    ensures Parse(EscapeChar(c) + tail) == Prepend(One(Lit(c)), Parse(tail))
  {
    var head := EscapeChar(c);
    var s := head + tail;
    assert s[|head|..] == tail;
    assert ParseAtom(s) == Some((Lit(c), |head|));
    assert s[0] != '|';
  }

  /** An escaped string in front of a pattern reads back as its characters. */
  lemma {:induction false} ParseEscaped(v: string, rest: string)
    requires rest == "" || rest[0] != '*'
    requires Parse(rest).Some?
    ensures Parse(Escape(v) + rest) == Some([Literals(v) + Parse(rest).value[0]] + Parse(rest).value[1..])
  {
    hide Parse, EscapeChar, Prepend, IsMeta;
    var alts := Parse(rest).value;
    if v == "" {
      assert Escape(v) + rest == rest;
      assert Literals(v) + alts[0] == alts[0];
      assert [alts[0]] + alts[1..] == alts;
    } else {
      var inner := Literals(v[1..]) + alts[0];
      ParseEscaped(v[1..], rest);
      EscapeIsOpen(v[1..], rest);
      EscapeStep(v, rest);
      ParseLiteral(v[0], Escape(v[1..]) + rest);
      PrependOne(One(Lit(v[0])), inner, alts[1..]);
      assert Literals(v) == [One(Lit(v[0]))] + Literals(v[1..]);
      assert [One(Lit(v[0]))] + inner == Literals(v) + alts[0];
    }
  }

  lemma EscapeStep(v: string, rest: string)
    requires v != ""
    ensures Escape(v) + rest == EscapeChar(v[0]) + (Escape(v[1..]) + rest)
  {
  }

  lemma {:induction false} LiteralsAt(v: string, h: string, i: nat, j: nat)
    requires i <= |h|
    ensures SeqAt(Literals(v), h, i, j) <==> j == i + |v| && OccursAt(v, h, i)
  {
    if v == "" {
      assert h[i..i] == "";
    } else {
      assert Literals(v)[0] == One(Lit(v[0])) && Literals(v)[1..] == Literals(v[1..]);
      OccursStep(v, h, i);
      hide OccursAt, Literals;
      if i < |h| {
        LiteralsAt(v[1..], h, i + 1, j);
      }
      if i < |h| && h[i] == v[0] && SeqAt(Literals(v[1..]), h, i + 1, j) {
        assert ItemAt(Literals(v)[0], h, i, i + 1) && SeqAt(Literals(v)[1..], h, i + 1, j);
      }
    }
  }

  lemma OccursStep(v: string, h: string, i: nat)
    requires v != ""
    ensures OccursAt(v, h, i) <==> i < |h| && h[i] == v[0] && OccursAt(v[1..], h, i + 1)
  {
    if i + |v| <= |h| {
      assert h[i..i + |v|] == [h[i]] + h[i + 1..i + |v|];
      assert v == [v[0]] + v[1..];
    }
  }

  lemma MatchesOne(items: seq<Item>, h: string)
    ensures Matches([items], h) <==> exists i: nat, j: nat :: i <= j <= |h| && SeqAt(items, h, i, j)
  {
    if i: nat, j: nat :| i <= j <= |h| && SeqAt(items, h, i, j) {
      assert SeqAt([items][0], h, i, j);
    }
  }

  lemma AnchorAt(a: Atom, h: string, i: nat, j: nat)
    requires a.Begin? || a.End?
    ensures SeqAt([One(a)], h, i, j) <==> i == j && AtomAt(a, h, i, i)
  {
    assert [One(a)][1..] == [];
    if i == j && AtomAt(a, h, i, i) {
      assert ItemAt([One(a)][0], h, i, i) && SeqAt([One(a)][1..], h, i, j);
    }
  }

  /** The alternative a simple condition compiles to. */
  function ItemsOf(c: Condition): seq<Item>
    requires !c.RegexCondition? && !c.Or?
  {
    match c
    case Contains(v) => Literals(v)
    case EndsWith(v) => Literals(v) + [One(End)]
    case StartsWith(v) => [One(Begin)] + Literals(v)
    case Equals(v) => [One(Begin)] + (Literals(v) + [One(End)])
  }

  lemma EscapeIsOpen(v: string, rest: string)
    requires rest == "" || rest[0] != '*'
    ensures Escape(v) + rest == "" || (Escape(v) + rest)[0] != '*'
  {
  }

  lemma ParseSimple(c: Condition)
    requires !c.RegexCondition? && !c.Or?
    ensures Parse(BuildPart(c)) == Some([ItemsOf(c)])
  {
    var v := c.value;
    ParseOpen(v);
    match c
    case Contains(_) =>
    case EndsWith(_) =>
    case StartsWith(_) => ParseBegin(Escape(v), Literals(v));
    case Equals(_) =>
      ParseBegin(Escape(v) + "$", Literals(v) + [One(End)]);
      assert "^" + Escape(v) + "$" == "^" + (Escape(v) + "$");
  }

  lemma ParseOpen(v: string)
    ensures Parse(Escape(v)) == Some([Literals(v)]) && Parse(Escape(v) + "$") == Some([Literals(v) + [One(End)]])
    ensures Escape(v) == "" || Escape(v)[0] != '*'
  {
    var none: seq<Item>, more: Regex := [], [];
    assert Parse("") == Some([none]);
    assert "$"[1..] == "" && [none] + more == [none];
    PrependOne(One(End), none, more);
    assert [One(End)] + none == [One(End)] && [[One(End)]] + more == [[One(End)]];
    ParseEscaped(v, "");
    ParseEscaped(v, "$");
    assert Escape(v) + "" == Escape(v) && Literals(v) + none == Literals(v);
    assert [none][1..] == more && [[One(End)]][1..] == more;
    assert [Literals(v)] + more == [Literals(v)];
    assert [Literals(v) + [One(End)]] + more == [Literals(v) + [One(End)]];
  }

  lemma ParseBegin(tail: string, items: seq<Item>)
    requires tail == "" || tail[0] != '*'
    requires Parse(tail) == Some([items])
    ensures Parse("^" + tail) == Some([[One(Begin)] + items])
  {
    var more: Regex := [];
    assert ("^" + tail)[1..] == tail;
    assert [items] + more == [items];
    PrependOne(One(Begin), items, more);
    assert [[One(Begin)] + items] + more == [[One(Begin)] + items];
  }

  /** The stretch from `i` to `j` is an occurrence of the value that meets the anchors. */
  predicate Stretch(c: Condition, h: string, i: nat, j: nat)
    requires !c.RegexCondition? && !c.Or?
  {
    && j == i + |c.value| && OccursAt(c.value, h, i)
    && ((c.StartsWith? || c.Equals?) ==> i == 0) && ((c.EndsWith? || c.Equals?) ==> j == |h|)
  }

  lemma HoldsIffStretch(c: Condition, h: string)
    requires !c.RegexCondition? && !c.Or?
    ensures Holds(c, h) <==> exists i: nat, j: nat :: i <= j <= |h| && Stretch(c, h, i, j)
  {
    var v := c.value;
    match c
    case Contains(_) =>
      if i: nat :| OccursAt(v, h, i) { assert Stretch(c, h, i, i + |v|); }
    case EndsWith(_) =>
      if Holds(c, h) { assert Stretch(c, h, |h| - |v|, |h|); }
    case StartsWith(_) =>
      if Holds(c, h) { assert Stretch(c, h, 0, |v|); }
    case Equals(_) =>
      assert h[0..|h|] == h;
      if Holds(c, h) { assert Stretch(c, h, 0, |h|); }
  }

  lemma ItemsAt(c: Condition, h: string, i: nat, j: nat)
    requires !c.RegexCondition? && !c.Or? && i <= j <= |h|
    ensures SeqAt(ItemsOf(c), h, i, j) <==> Stretch(c, h, i, j)
  {
    var v := c.value;
    LiteralsAt(v, h, i, j);
    match c
    case Contains(_) =>
    case EndsWith(_) =>
      ThenEnd(v, h, i, j);
    case StartsWith(_) =>
      SeqAtConcat([One(Begin)], Literals(v), h, i, j);
      forall k: nat { AnchorAt(Begin, h, i, k); }
    case Equals(_) =>
      SeqAtConcat([One(Begin)], Literals(v) + [One(End)], h, i, j);
      forall k: nat { AnchorAt(Begin, h, i, k); }
      ThenEnd(v, h, i, j);
  }

  lemma ThenEnd(v: string, h: string, i: nat, j: nat)
    requires i <= j <= |h|
    ensures SeqAt(Literals(v) + [One(End)], h, i, j) <==> j == i + |v| && OccursAt(v, h, i) && j == |h|
  {
    SeqAtConcat(Literals(v), [One(End)], h, i, j);
    forall k: nat {
      AnchorAt(End, h, k, j);
    }
    LiteralsAt(v, h, i, j);
    forall k: nat {
      LiteralsAt(v, h, i, k);
    }
  }

  // ----- The main results -----

  lemma SimpleMeaning(c: Condition, h: string)
    requires !c.RegexCondition? && !c.Or?
    ensures Matches([ItemsOf(c)], h) <==> Holds(c, h)
  {
    hide Holds, Matches, SeqAt, ItemsOf, Stretch;
    MatchesOne(ItemsOf(c), h);
    HoldsIffStretch(c, h);
    if i: nat, j: nat :| i <= j <= |h| && Stretch(c, h, i, j) {
      ItemsAt(c, h, i, j);
    }
    if i: nat, j: nat :| i <= j <= |h| && SeqAt(ItemsOf(c), h, i, j) {
      ItemsAt(c, h, i, j);
    }
  }

  lemma AnyMeaning(h: string)
    ensures Parse(".*").Some? && Matches(Parse(".*").value, h)
  {
    var none: seq<Item>, more: Regex := [], [];
    assert ".*"[1..] == "*" && "*"[1..] == "";
    assert Parse("") == Some([none]) && [none] + more == [none];
    PrependOne(Star(Any), none, more);
    var re := [[Star(Any)] + none] + more;
    assert Parse(".*") == Some(re);
    assert re[0] == [Star(Any)];
    assert ItemAt(re[0][0], h, 0, 0) && SeqAt(re[0][1..], h, 0, 0);
    assert SeqAt(re[0], h, 0, 0);
  }

  lemma PartMeaning(c: Condition, h: string)
    requires c.RegexCondition? ==> Parse(c.value).Some?
    ensures Parse(BuildPart(c)).Some?
    ensures Matches(Parse(BuildPart(c)).value, h) <==> c.Or? || Holds(c, h)
  {
    if c.Or? {
      AnyMeaning(h);
    } else if !c.RegexCondition? {
      ParseSimple(c);
      SimpleMeaning(c, h);
    }
  }

  lemma {:induction false} JoinMeaning(cs: seq<Condition>, h: string)
    requires cs != []
    requires forall k :: 0 <= k < |cs| && cs[k].RegexCondition? ==> Parse(cs[k].value).Some?
    ensures Parse(JoinParts(BuildParts(cs))).Some?
    ensures Matches(Parse(JoinParts(BuildParts(cs))).value, h) <==>
              exists k :: 0 <= k < |cs| && (cs[k].Or? || Holds(cs[k], h))
  {
    var parts := BuildParts(cs);
    PartMeaning(cs[0], h);
    if |cs| > 1 {
      assert parts[1..] == BuildParts(cs[1..]);
      JoinMeaning(cs[1..], h);
      ParseAlternation(parts[0], JoinParts(parts[1..]));
      MatchesUnion(Parse(parts[0]).value, Parse(JoinParts(parts[1..])).value, h);
      if k :| 0 <= k < |cs| && (cs[k].Or? || Holds(cs[k], h)) {
        if k > 0 { assert cs[1..][k - 1] == cs[k]; }
      }
      if k :| 0 <= k < |cs| - 1 && (cs[1..][k].Or? || Holds(cs[1..][k], h)) {
        assert cs[k + 1] == cs[1..][k];
      }
    }
  }

  /** The pattern of a condition compiles, and searching a string with it succeeds exactly
      when the condition holds of the string, or the condition is one of the loose ones. */
  lemma PatternMeaning(c: Condition, h: string)
    requires Supported(c)
    ensures Parse(BuildUnixPattern(c)).Some?
    ensures IsMatch(Parse(BuildUnixPattern(c)).value, h) <==> Holds(c, h) || Loose(c)
  {
    if c.Or? {
      var cs := c.conditions;
      if cs == [] {
        assert SeqAt(Parse("").value[0], h, 0, 0);
      } else {
        JoinMeaning(cs, h);
        if k :| 0 <= k < |cs| && (cs[k].Or? || Holds(cs[k], h)) {
          assert Holds(c, h) || Loose(c);
        }
        if Holds(c, h) {
          var k :| 0 <= k < |cs| && Holds(cs[k], h);
        }
      }
    } else {
      PartMeaning(c, h);
    }
  }

  /** A loose condition's pattern does accept a string its condition rejects. */
  lemma LooseAcceptsMore()
    ensures var c := Or([Or([Equals("a")])]);
            && !Holds(c, "b") && Supported(c)
            && IsMatch(Parse(BuildUnixPattern(c)).value, "b")
    ensures !Holds(Or([]), "b") && IsMatch(Parse(BuildUnixPattern(Or([]))).value, "b")
  {
    var inner := Or([Equals("a")]);
    var c := Or([inner]);
    assert c.conditions[0].Or?;
    assert !Holds(inner.conditions[0], "b");
    assert !Holds(inner, "b");
    PatternMeaning(c, "b");
    PatternMeaning(Or([]), "b");
  }

  // ----- Filtering a path listing -----

  /** A submatch: the matched text and where it lies, counted in characters. */
  datatype Submatch = Submatch(text: string, start: nat, end: nat)

  datatype PathMatch = PathMatch(path: string, submatches: seq<Submatch>)

  function ComputePathSubmatches(path: string, re: Option<Regex>): seq<Submatch> {
    var m := if re.Some? then Find(re.value, path, 0) else None;
    if m.Some? then [Submatch(path[m.value.0..m.value.1], m.value.0, m.value.1)]
    else [Submatch(path, 0, 0)]
  }

  /** A pattern that does not compile filters nothing. */
  function Passes(re: Option<Regex>, h: string): bool {
    re.Some? ==> IsMatch(re.value, h)
  }

  function MatchLine(line: string, re: Option<Regex>, incl: Option<Regex>, excl: Option<Regex>): Option<PathMatch> {
    var path := Trim(line);
    if !Passes(re, path) then None
    else if !Passes(incl, path) then None
    else if excl.Some? && IsMatch(excl.value, path) then None
    else Some(PathMatch(path, ComputePathSubmatches(path, re)))
  }

  /** The `filter` and `filter_map` of the iterator chain. */
  function FilterMap(lines: seq<string>, f: string -> Option<PathMatch>): seq<PathMatch> {
    if lines == [] then []
    else
      var rest := FilterMap(lines[1..], f);
      if lines[0] != "" && f(lines[0]).Some? then [f(lines[0]).value] + rest else rest
  }

  function Compile(pattern: Option<string>): Option<Regex> {
    if pattern.Some? then Parse(pattern.value) else None
  }

  function ParsePathMatches(output: string, condition: Condition, incl: Option<string>, excl: Option<string>): seq<PathMatch> {
    var re, inc, exc := Compile(Some(BuildUnixPattern(condition))), Compile(incl), Compile(excl);
    FilterMap(Lines(output), line => MatchLine(line, re, inc, exc))
  }

  // ----- What the filter keeps -----

  /** What a compiled condition lets through. */
  ghost predicate Accepts(c: Condition, h: string) {
    Holds(c, h) || Loose(c)
  }

  /** A listed path that is asked for: the search condition, the include filter and not the
      exclude filter. */
  ghost predicate Wanted(c: Condition, incl: Option<Condition>, excl: Option<Condition>, path: string) {
    && Accepts(c, path)
    && (incl.Some? ==> Accepts(incl.value, path))
    && (excl.Some? ==> !Accepts(excl.value, path))
  }

  /** The non-empty lines of a listing that, trimmed, meet `keep`: in order, repetitions kept. */
  ghost function Filtered(lines: seq<string>, keep: string -> bool): seq<string> {
    if lines == [] then []
    else
      (if lines[0] != "" && keep(Trim(lines[0])) then [Trim(lines[0])] else []) + Filtered(lines[1..], keep)
  }

  function Paths(ms: seq<PathMatch>): (r: seq<string>)
    ensures |r| == |ms| && forall k :: 0 <= k < |ms| ==> r[k] == ms[k].path
  {
    seq(|ms|, k requires 0 <= k < |ms| => ms[k].path)
  }

  function PatternOf(c: Option<Condition>): Option<string> {
    if c.Some? then Some(BuildUnixPattern(c.value)) else None
  }

  lemma MatchLineIsWanted(line: string, c: Condition, incl: Option<Condition>, excl: Option<Condition>)
    requires Supported(c) && (incl.Some? ==> Supported(incl.value)) && (excl.Some? ==> Supported(excl.value))
    ensures var m := MatchLine(line, Compile(Some(BuildUnixPattern(c))), Compile(PatternOf(incl)), Compile(PatternOf(excl)));
            (m.Some? <==> Wanted(c, incl, excl, Trim(line))) && (m.Some? ==> m.value.path == Trim(line))
  {
    hide Parse, BuildUnixPattern, Holds, Loose, Supported, IsMatch, Trim, ComputePathSubmatches;
    var path := Trim(line);
    PatternMeaning(c, path);
    if incl.Some? { PatternMeaning(incl.value, path); }
    if excl.Some? { PatternMeaning(excl.value, path); }
  }

  lemma {:induction false} FilterMapFilters(lines: seq<string>, f: string -> Option<PathMatch>, keep: string -> bool)
    requires forall line :: (f(line).Some? <==> keep(Trim(line))) && (f(line).Some? ==> f(line).value.path == Trim(line))
    ensures Paths(FilterMap(lines, f)) == Filtered(lines, keep)
  {
    hide Trim, Paths;
    if lines == [] {
    } else {
      var m, rest := f(lines[0]), FilterMap(lines[1..], f);
      FilterMapFilters(lines[1..], f, keep);
      if m.Some? {
        PathsPrepend(m.value, rest);
      }
    }
  }

  lemma PathsPrepend(m: PathMatch, rest: seq<PathMatch>)
    ensures Paths([m] + rest) == [m.path] + Paths(rest)
  {
  }

  /** Exactly the wanted lines are returned, in order. */
  lemma PathMatchesAreWanted(output: string, c: Condition, incl: Option<Condition>, excl: Option<Condition>)
    requires Supported(c) && (incl.Some? ==> Supported(incl.value)) && (excl.Some? ==> Supported(excl.value))
    ensures Paths(ParsePathMatches(output, c, PatternOf(incl), PatternOf(excl)))
         == Filtered(Lines(output), path => Wanted(c, incl, excl, path))
  {
    var re, inc, exc := Compile(Some(BuildUnixPattern(c))), Compile(PatternOf(incl)), Compile(PatternOf(excl));
    var f, keep := line => MatchLine(line, re, inc, exc), path => Wanted(c, incl, excl, path);
    forall line ensures (f(line).Some? <==> keep(Trim(line))) && (f(line).Some? ==> f(line).value.path == Trim(line)) {
      MatchLineIsWanted(line, c, incl, excl);
    }
    FilterMapFilters(Lines(output), f, keep);
  }

  // ----- The submatches that are returned -----

  /** The stretch from `i` to `j` meets a part of a condition: an occurrence of its value that
      meets the anchors, a match of its expression, or, for an `Or` inside an `Or`, all that is
      left. */
  ghost predicate PartAt(c: Condition, h: string, i: nat, j: nat) {
    match c
    case RegexCondition(v) => Parse(v).Some? && exists m :: 0 <= m < |Parse(v).value| && SeqAt(Parse(v).value[m], h, i, j)
    case Or(_) => j == |h|
    case _ => Stretch(c, h, i, j)
  }

  ghost predicate PartStarts(c: Condition, h: string, i: nat) {
    exists j: nat :: i <= j <= |h| && PartAt(c, h, i, j)
  }

  /** Where the match of a part that starts at `i` ends. */
  function PartEnd(c: Condition, h: string, i: nat): Option<nat>
    requires i <= |h|
  {
    var re := Parse(BuildPart(c));
    if re.Some? then FindAlternative(re.value, h, i) else None
  }

  lemma PartEndMeans(c: Condition, h: string, i: nat)
    requires i <= |h| && '\n' !in h && (c.RegexCondition? ==> Parse(c.value).Some?)
    ensures PartEnd(c, h, i).Some? <==> PartStarts(c, h, i)
    ensures PartEnd(c, h, i).Some? ==> i <= PartEnd(c, h, i).value <= |h| && PartAt(c, h, i, PartEnd(c, h, i).value)
  {
    hide Parse, FindAlternative, SeqAt, Stretch, ItemsOf;
    match c
    case RegexCondition(v) =>
      assert PartEnd(c, h, i) == FindAlternative(Parse(v).value, h, i);
      assert PartEnd(c, h, i).Some? ==> PartAt(c, h, i, PartEnd(c, h, i).value);
      if j: nat :| i <= j <= |h| && PartAt(c, h, i, j) {
        var m :| 0 <= m < |Parse(v).value| && SeqAt(Parse(v).value[m], h, i, j);
        assert PartEnd(c, h, i).Some?;
      }
    case Or(_) =>
      AnyPart(h, i);
      assert PartAt(c, h, i, |h|);
    case _ =>
      ParseSimple(c);
      SimplePart(c, h, i);
      assert PartEnd(c, h, i) == FindAlternative([ItemsOf(c)], h, i);
      if j: nat :| i <= j <= |h| && PartAt(c, h, i, j) {
        assert Stretch(c, h, i, j);
      }
      if j: nat :| i <= j <= |h| && Stretch(c, h, i, j) {
        assert PartAt(c, h, i, j);
      }
  }

  lemma AnyPart(h: string, i: nat)
    requires i <= |h| && '\n' !in h
    ensures Parse(".*").Some? && FindAlternative(Parse(".*").value, h, i) == Some(|h|)
  {
    AnyParses();
    RestOfLine(h, i);
    hide FindEnd;
    assert FindAlternative([[Star(Any)]], h, i) == FindEnd([Star(Any)], h, i);
  }

  lemma AnyParses()
    ensures Parse(".*") == Some([[Star(Any)]])
  {
    var none: seq<Item>, more: Regex := [], [];
    assert ".*"[1..] == "*" && "*"[1..] == "";
    assert Parse("") == Some([none]) && [none] + more == [none];
    PrependOne(Star(Any), none, more);
    var re := [[Star(Any)] + none] + more;
    assert Parse(".*") == Some(re);
    assert re[0] == [Star(Any)];
    assert re == [[Star(Any)]];
  }

  lemma SimplePart(c: Condition, h: string, i: nat)
    requires !c.RegexCondition? && !c.Or? && i <= |h|
    ensures var r := FindAlternative([ItemsOf(c)], h, i);
            && (r.Some? <==> exists j: nat :: i <= j <= |h| && Stretch(c, h, i, j))
            && (r.Some? ==> i <= r.value <= |h| && Stretch(c, h, i, r.value))
  {
    hide FindAlternative, SeqAt, Stretch, ItemsOf;
    var re := [ItemsOf(c)];
    var r := FindAlternative(re, h, i);
    if r.Some? {
      var m :| 0 <= m < |re| && SeqAt(re[m], h, i, r.value);
      ItemsAt(c, h, i, r.value);
    }
    if j: nat :| i <= j <= |h| && Stretch(c, h, i, j) {
      ItemsAt(c, h, i, j);
      assert SeqAt(re[0], h, i, j);
    }
  }

  ghost predicate PartsParse(cs: seq<Condition>) {
    forall k :: 0 <= k < |cs| && cs[k].RegexCondition? ==> Parse(cs[k].value).Some?
  }

  /** The first part, in order, that has a match at `i` decides the match of the whole. */
  ghost predicate FirstPart(cs: seq<Condition>, h: string, i: nat, j: nat, k: nat)
    requires i <= |h|
  {
    && k < |cs| && PartEnd(cs[k], h, i) == Some(j)
    && forall l :: 0 <= l < k ==> PartEnd(cs[l], h, i).None?
  }

  ghost predicate FirstDecides(cs: seq<Condition>, h: string, i: nat, r: Option<nat>)
    requires i <= |h|
  {
    match r
    case None => forall k :: 0 <= k < |cs| ==> PartEnd(cs[k], h, i).None?
    case Some(j) => exists k: nat :: FirstPart(cs, h, i, j, k)
  }

  lemma {:induction false} JoinedAlternative(cs: seq<Condition>, h: string, i: nat)
    requires cs != [] && PartsParse(cs) && i <= |h|
    ensures var re := Parse(JoinParts(BuildParts(cs)));
            re.Some? && FirstDecides(cs, h, i, FindAlternative(re.value, h, i))
    decreases |cs|
  {
    hide Parse, FindAlternative, BuildPart;
    var parts, rest := BuildParts(cs), cs[1..];
    PartMeaning(cs[0], h);
    if |cs| == 1 {
      assert parts == [BuildPart(cs[0])] && JoinParts(parts) == parts[0];
      FirstOfMore(cs, h, i);
      var r := FindAlternative(Parse(JoinParts(parts)).value, h, i);
      assert r == PartEnd(cs[0], h, i);
      if r.Some? {
        assert FirstPart(cs, h, i, r.value, 0);
      }
      assert FirstDecides(cs, h, i, r);
    } else {
      assert parts[1..] == BuildParts(rest);
      JoinedAlternative(rest, h, i);
      ParseAlternation(parts[0], JoinParts(parts[1..]));
      AlternativeOfUnion(Parse(parts[0]).value, Parse(JoinParts(parts[1..])).value, h, i);
      FirstOfMore(cs, h, i);
      var later := FindAlternative(Parse(JoinParts(BuildParts(rest))).value, h, i);
      if PartEnd(cs[0], h, i).None? && later.Some? {
        var k: nat :| FirstPart(rest, h, i, later.value, k);
        assert FirstPart(cs, h, i, later.value, k + 1);
      }
    }
  }

  lemma FirstOfMore(cs: seq<Condition>, h: string, i: nat)
    requires cs != [] && i <= |h|
    ensures PartEnd(cs[0], h, i).Some? ==> FirstPart(cs, h, i, PartEnd(cs[0], h, i).value, 0)
    ensures forall j: nat, k: nat :: PartEnd(cs[0], h, i).None? && FirstPart(cs[1..], h, i, j, k) ==> FirstPart(cs, h, i, j, k + 1)
    ensures PartEnd(cs[0], h, i).None? && (forall k :: 0 <= k < |cs| - 1 ==> PartEnd(cs[1..][k], h, i).None?) ==>
              forall k :: 0 <= k < |cs| ==> PartEnd(cs[k], h, i).None?
  {
    hide PartEnd;
    assert forall k :: 0 < k < |cs| ==> cs[k] == cs[1..][k - 1];
  }

  /** One submatch, a stretch of the path; for a condition with a pattern that compiles, at the
      leftmost position where any of its parts has a match, and there the match of the first
      part that has one. */
  ghost predicate IsSubmatch(c: Condition, path: string, subs: seq<Submatch>) {
    && |subs| == 1
    && subs[0].start <= subs[0].end <= |path| && subs[0].text == path[subs[0].start..subs[0].end]
    && var parts := if c.Or? then c.conditions else [c];
       if parts == [] then subs[0].end == 0
       else LeftmostOf(parts, path, subs[0].start, subs[0].end)
  }

  ghost predicate LeftmostOf(parts: seq<Condition>, path: string, start: nat, end: nat) {
    && (forall k, i: nat :: 0 <= k < |parts| && i < start ==> !PartStarts(parts[k], path, i))
    && exists k :: 0 <= k < |parts| && PartAt(parts[k], path, start, end)
                   && forall l :: 0 <= l < k ==> !PartStarts(parts[l], path, start)
  }

  lemma PatternParts(c: Condition)
    requires Supported(c) && (c.Or? ==> c.conditions != [])
    ensures var parts := if c.Or? then c.conditions else [c];
            PartsParse(parts) && BuildUnixPattern(c) == JoinParts(BuildParts(parts))
  {
    if !c.Or? {
      assert BuildParts([c]) == [BuildPart(c)];
    }
  }

  lemma SubmatchIsLeftmost(c: Condition, path: string)
    requires Supported(c) && '\n' !in path
    requires Parse(BuildUnixPattern(c)).Some? && IsMatch(Parse(BuildUnixPattern(c)).value, path)
    ensures IsSubmatch(c, path, ComputePathSubmatches(path, Parse(BuildUnixPattern(c))))
  {
    hide Supported, BuildUnixPattern, Parse, Find, LeftmostOf;
    if c.Or? && c.conditions == [] {
      EmptyCondition();
      EmptyPattern(path);
    } else {
      PatternParts(c);
      LeftmostPart(if c.Or? then c.conditions else [c], path);
    }
  }

  lemma EmptyCondition()
    ensures BuildUnixPattern(Or([])) == ""
  {
  }

  lemma LeftmostPart(parts: seq<Condition>, path: string)
    requires parts != [] && PartsParse(parts) && '\n' !in path
    requires var re := Parse(JoinParts(BuildParts(parts))); re.Some? && Find(re.value, path, 0).Some?
    ensures var (start, end) := Find(Parse(JoinParts(BuildParts(parts))).value, path, 0).value;
            LeftmostOf(parts, path, start, end)
  {
    hide Parse, Find, FindAlternative, PartEnd, PartAt, PartStarts, PartsParse, JoinParts, BuildParts;
    var re := Parse(JoinParts(BuildParts(parts))).value;
    FindIsLeftmost(re, path, 0);
    var (start, end) := Find(re, path, 0).value;
    forall k, i: nat | 0 <= k < |parts| && i < start ensures !PartStarts(parts[k], path, i) {
      JoinedAlternative(parts, path, i);
      PartParses(parts, k);
      PartEndMeans(parts[k], path, i);
    }
    JoinedAlternative(parts, path, start);
    var k: nat :| FirstPart(parts, path, start, end, k);
    PartParses(parts, k);
    PartEndMeans(parts[k], path, start);
    forall l | 0 <= l < k ensures !PartStarts(parts[l], path, start) {
      PartParses(parts, l);
      PartEndMeans(parts[l], path, start);
    }
  }

  lemma PartParses(cs: seq<Condition>, k: nat)
    requires PartsParse(cs) && k < |cs|
    ensures cs[k].RegexCondition? ==> Parse(cs[k].value).Some?
  {
  }

  lemma EmptyPattern(path: string)
    ensures Parse("") == Some([[]]) && Find([[]], path, 0) == Some((0, 0))
  {
  }

  ghost predicate ComesFrom(lines: seq<string>, f: string -> Option<PathMatch>, m: PathMatch) {
    exists n :: 0 <= n < |lines| && f(lines[n]) == Some(m)
  }

  lemma {:induction false} FilterMapElements(lines: seq<string>, f: string -> Option<PathMatch>)
    ensures forall k :: 0 <= k < |FilterMap(lines, f)| ==> ComesFrom(lines, f, FilterMap(lines, f)[k])
  {
    if lines == [] {
    } else {
      var rest, all := FilterMap(lines[1..], f), FilterMap(lines, f);
      FilterMapElements(lines[1..], f);
      forall k | 0 <= k < |all| ensures ComesFrom(lines, f, all[k]) {
        var skipped := |all| - |rest|;
        if k >= skipped {
          assert all[k] == rest[k - skipped];
          assert ComesFrom(lines[1..], f, rest[k - skipped]);
          var n :| 0 <= n < |lines| - 1 && f(lines[1..][n]) == Some(rest[k - skipped]);
          assert f(lines[n + 1]) == Some(all[k]);
        } else {
          assert f(lines[0]) == Some(all[k]);
        }
      }
    }
  }

  /** Every path that is returned has exactly one submatch: for a condition whose pattern
      compiles, the leftmost match of one of its parts; otherwise the whole path, at zero. */
  lemma SubmatchesAreLeftmost(output: string, c: Condition, incl: Option<string>, excl: Option<string>, k: nat)
    requires k < |ParsePathMatches(output, c, incl, excl)|
    ensures var m := ParsePathMatches(output, c, incl, excl)[k];
            && (Supported(c) ==> IsSubmatch(c, m.path, m.submatches))
            && (Parse(BuildUnixPattern(c)).None? ==> m.submatches == [Submatch(m.path, 0, 0)])
  {
    hide Parse, BuildUnixPattern, Supported, IsSubmatch, Find, IsMatch, Trim, Lines;
    var re, inc, exc := Compile(Some(BuildUnixPattern(c))), Compile(incl), Compile(excl);
    var f := line => MatchLine(line, re, inc, exc);
    FilterMapElements(Lines(output), f);
    var m := ParsePathMatches(output, c, incl, excl)[k];
    assert ComesFrom(Lines(output), f, m);
    var n :| 0 <= n < |Lines(output)| && f(Lines(output)[n]) == Some(m);
    LinesHaveNoBreaks(output);
    TrimIsPart(Lines(output)[n], '\n');
    if Supported(c) {
      PatternMeaning(c, m.path);
      SubmatchIsLeftmost(c, m.path);
    }
  }

  /** In particular, for a simple condition: the value, where it lies in the path, and for
      `Contains` its first occurrence. */
  lemma SubmatchOfSimple(output: string, c: Condition, incl: Option<string>, excl: Option<string>, k: nat)
    requires !c.RegexCondition? && !c.Or? && k < |ParsePathMatches(output, c, incl, excl)|
    ensures var m := ParsePathMatches(output, c, incl, excl)[k];
            && |m.submatches| == 1
            && var s := m.submatches[0];
               && s.text == c.value && s.end == s.start + |c.value| <= |m.path|
               && m.path[s.start..s.end] == c.value
               && (c.StartsWith? || c.Equals? ==> s.start == 0)
               && (c.EndsWith? || c.Equals? ==> s.end == |m.path|)
               && (c.Contains? ==> forall i: nat :: i < s.start ==> !OccursAt(c.value, m.path, i))
  {
    hide Parse, BuildUnixPattern, ParsePathMatches;
    SubmatchesAreLeftmost(output, c, incl, excl, k);
    var m := ParsePathMatches(output, c, incl, excl)[k];
    var s := m.submatches[0];
    OnlyPart(c, m.path, s.start, s.end);
    if c.Contains? {
      forall i: nat | i < s.start ensures !OccursAt(c.value, m.path, i) {
        assert i + |c.value| <= |m.path| && PartAt(c, m.path, i, i + |c.value|) ==> PartStarts(c, m.path, i);
      }
    }
  }

  lemma OnlyPart(c: Condition, path: string, start: nat, end: nat)
    requires LeftmostOf([c], path, start, end)
    ensures PartAt(c, path, start, end) && forall i: nat :: i < start ==> !PartStarts(c, path, i)
  {
    hide PartAt, PartStarts;
    var parts := [c];
    assert parts[0] == c;
    forall i: nat | i < start ensures !PartStarts(c, path, i) {
      assert !PartStarts(parts[0], path, i);
    }
  }

  // ----- A listing of known paths -----

  /** The paths of a list that meet `keep`, in order. */
  ghost function Select(paths: seq<string>, keep: string -> bool): seq<string> {
    if paths == [] then [] else (if keep(paths[0]) then [paths[0]] else []) + Select(paths[1..], keep)
  }

  /** From a listing of paths, one a line, exactly the wanted ones come back, in order. */
  lemma ListedPathsAreFiltered(paths: seq<string>, carriage: seq<bool>, c: Condition,
                               incl: Option<Condition>, excl: Option<Condition>)
    requires Supported(c) && (incl.Some? ==> Supported(incl.value)) && (excl.Some? ==> Supported(excl.value))
    requires |paths| == |carriage|
    requires forall k :: 0 <= k < |paths| ==> paths[k] != "" && IsLine(paths[k]) && IsTrimmed(paths[k])
    ensures Paths(ParsePathMatches(Unlines(paths, carriage), c, PatternOf(incl), PatternOf(excl)))
         == Select(paths, path => Wanted(c, incl, excl, path))
  {
    hide ParsePathMatches, Supported, Wanted, Lines, Unlines, Trim;
    PathMatchesAreWanted(Unlines(paths, carriage), c, incl, excl);
    LinesBack(paths, carriage);
    FilteredSelects(paths, path => Wanted(c, incl, excl, path));
  }

  lemma {:induction false} FilteredSelects(paths: seq<string>, keep: string -> bool)
    requires forall k :: 0 <= k < |paths| ==> paths[k] != "" && IsTrimmed(paths[k])
    ensures Filtered(paths, keep) == Select(paths, keep)
  {
    hide Trim;
    if paths == [] {
    } else {
      TrimBack("", paths[0], "");
      assert "" + paths[0] + "" == paths[0];
      FilteredSelects(paths[1..], keep);
    }
  }

  /** The fourteen characters that have a meaning in a pattern are written with a backslash,
      and no others. */
  lemma EscapedCharacters(c: char)
    ensures Escape([c]) == if c in "\\.+*?()|[]{}^$" then ['\\', c] else [c]
  {
    assert [c][1..] == "";
  }
}
