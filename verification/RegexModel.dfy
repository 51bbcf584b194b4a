/** The part of Rust's `Regex` that search patterns are made of: literals, escaped
    metacharacters, `.`, `^`, `$`, `*` on a single character, and alternation. */
module RegexModel {
  import opened Wrappers

  datatype Atom = Lit(c: char) | Any | Begin | End

  datatype Item = One(a: Atom) | Star(a: Atom)

  /** A sequence of items is one alternative; a regex is a non-empty list of them. */
  type Regex = seq<seq<Item>>

  predicate IsMeta(c: char) {
    || c == '\\' || c == '.' || c == '+' || c == '*' || c == '?' || c == '(' || c == ')'
    || c == '|' || c == '[' || c == ']' || c == '{' || c == '}' || c == '^' || c == '$'
  }

  // ----- Syntax -----

  /** One atom at the front of `s`, and how many characters it takes. Syntax outside the
      modelled part (groups, classes, other repetitions and escapes) does not parse. */
  function ParseAtom(s: string): (r: Option<(Atom, nat)>)
    requires s != []
    ensures r.Some? ==> 1 <= r.value.1 <= |s|
  {
    if s[0] == '\\' then
      if |s| >= 2 && IsMeta(s[1]) then Some((Lit(s[1]), 2)) else None
    else if s[0] == '.' then Some((Any, 1))
    else if s[0] == '^' then Some((Begin, 1))
    else if s[0] == '$' then Some((End, 1))
    else if IsMeta(s[0]) then None
    else Some((Lit(s[0]), 1))
  }

  function Prepend(item: Item, r: Option<Regex>): Option<Regex> {
    if r.None? || r.value == [] then None
    else Some([[item] + r.value[0]] + r.value[1..])
  }

  function Parse(s: string): (r: Option<Regex>)
    ensures r.Some? ==> r.value != []
    decreases |s|
  {
    if s == [] then Some([[]])
    else if s[0] == '|' then
      var r := Parse(s[1..]);
      if r.None? then None else Some([[]] + r.value)
    else
      match ParseAtom(s)
      case None => None
      case Some((a, n)) =>
        var rest := s[n..];
        if rest != [] && rest[0] == '*' then
          if a.Lit? || a.Any? then Prepend(Star(a), Parse(rest[1..])) else None
        else Prepend(One(a), Parse(rest))
  }

  // ----- Meaning -----

  predicate AtomAt(a: Atom, h: string, i: nat, j: nat) {
    match a
    case Lit(c) => i < |h| && h[i] == c && j == i + 1
    case Any => i < |h| && h[i] != '\n' && j == i + 1
    case Begin => i == 0 && j == i
    case End => i == |h| && j == i
  }

  predicate StarAt(a: Atom, h: string, i: nat, j: nat)
    decreases j - i
  {
    i == j || (i < j && AtomAt(a, h, i, i + 1) && StarAt(a, h, i + 1, j))
  }

  predicate ItemAt(item: Item, h: string, i: nat, j: nat) {
    match item
    case One(a) => AtomAt(a, h, i, j)
    case Star(a) => StarAt(a, h, i, j)
  }

  /** `items` matches exactly the characters of `h` from `i` to `j`. */
  ghost predicate SeqAt(items: seq<Item>, h: string, i: nat, j: nat) {
    if items == [] then i == j
    else exists k: nat :: i <= k <= j && ItemAt(items[0], h, i, k) && SeqAt(items[1..], h, k, j)
  }

  /** `Regex::is_match`: some alternative matches somewhere. */
  ghost predicate Matches(re: Regex, h: string) {
    exists m, i: nat, j: nat :: 0 <= m < |re| && i <= j <= |h| && SeqAt(re[m], h, i, j)
  }

  lemma {:induction false} SeqAtConcat(x: seq<Item>, y: seq<Item>, h: string, i: nat, j: nat)
    ensures SeqAt(x + y, h, i, j) <==> exists k: nat :: i <= k <= j && SeqAt(x, h, i, k) && SeqAt(y, h, k, j)
  {
    if x == [] {
      assert x + y == y;
      if SeqAt(y, h, i, j) {
        SeqAtForward(y, h, i, j);
        assert SeqAt(x, h, i, i);
      }
    } else {
      assert (x + y)[0] == x[0] && (x + y)[1..] == x[1..] + y;
      if SeqAt(x + y, h, i, j) {
        var k: nat :| i <= k <= j && ItemAt(x[0], h, i, k) && SeqAt(x[1..] + y, h, k, j);
        SeqAtConcat(x[1..], y, h, k, j);
        var k': nat :| k <= k' <= j && SeqAt(x[1..], h, k, k') && SeqAt(y, h, k', j);
        assert SeqAt(x, h, i, k');
      }
      if k': nat :| i <= k' <= j && SeqAt(x, h, i, k') && SeqAt(y, h, k', j) {
        var k: nat :| i <= k <= k' && ItemAt(x[0], h, i, k) && SeqAt(x[1..], h, k, k');
        SeqAtConcat(x[1..], y, h, k, j);
        assert k <= k' <= j && SeqAt(x[1..], h, k, k') && SeqAt(y, h, k', j);
        assert SeqAt(x[1..] + y, h, k, j);
        assert ItemAt((x + y)[0], h, i, k) && SeqAt((x + y)[1..], h, k, j);
      }
    }
  }

  lemma {:induction false} SeqAtForward(items: seq<Item>, h: string, i: nat, j: nat)
    requires SeqAt(items, h, i, j)
    ensures i <= j
  {
  }

  // ----- Alternation -----

  lemma PrependOne(item: Item, first: seq<Item>, rest: Regex)
    ensures Prepend(item, Some([first] + rest)) == Some([[item] + first] + rest)
  {
    assert ([first] + rest)[1..] == rest;
  }

  lemma PrependConcat(item: Item, p: Regex, q: Regex)
    requires p != []
    ensures Prepend(item, Some(p + q)) == Some(Prepend(item, Some(p)).value + q)
  {
    assert (p + q)[1..] == p[1..] + q;
    assert [[item] + p[0]] + (p[1..] + q) == ([[item] + p[0]] + p[1..]) + q;
  }

  /** How one step of the parser goes, when it starts with an atom. */
  lemma ParseStep(s: string)
    requires s != [] && s[0] != '|' && ParseAtom(s).Some?
    ensures var (a, n) := ParseAtom(s).value;
            var rest := s[n..];
            Parse(s) ==
              if rest != [] && rest[0] == '*' then
                if a.Lit? || a.Any? then Prepend(Star(a), Parse(rest[1..])) else None
              else Prepend(One(a), Parse(rest))
  {
  }

  lemma ParseAtomAppend(a: string, b: string)
    requires a != [] && ParseAtom(a).Some?
    ensures ParseAtom(a + b) == ParseAtom(a)
    ensures (a + b)[ParseAtom(a).value.1..] == a[ParseAtom(a).value.1..] + b
  {
  }

  /** Joining two patterns with `|` joins their alternatives. */
  lemma {:induction false} ParseAlternation(a: string, b: string)
    requires Parse(a).Some? && Parse(b).Some?
    ensures Parse(a + ("|" + b)) == Some(Parse(a).value + Parse(b).value)
    decreases |a|
  {
    var t := "|" + b;
    ParseBar(b);
    hide Parse;
    if a == [] {
      ParseEmpty();
      assert a + t == t;
    } else if a[0] == '|' {
      var rest := a[1..];
      assert a == "|" + rest && a + t == "|" + (rest + t);
      ParseBar(rest);
      ParseBar(rest + t);
      ParseAlternation(rest, b);
      assert [[]] + (Parse(rest).value + Parse(b).value) == ([[]] + Parse(rest).value) + Parse(b).value;
    } else {
      ParseAlternationAtom(a, b);
    }
  }

  lemma ParseEmpty()
    ensures Parse("") == Some([[]])
  {
  }

  lemma ParseBar(s: string)
    ensures Parse("|" + s) == if Parse(s).None? then None else Some([[]] + Parse(s).value)
  {
    assert ("|" + s)[1..] == s;
  }

  lemma {:induction false} ParseAlternationAtom(a: string, b: string)
    requires a != [] && a[0] != '|'
    requires Parse(a).Some? && Parse(b).Some?
    ensures Parse(a + ("|" + b)) == Some(Parse(a).value + Parse(b).value)
    decreases |a|, 0
  {
    hide Parse, ParseAtom, Prepend;
    var t := "|" + b;
    ParseNeedsAtom(a);
    ParseAtomAppend(a, t);
    ParseStep(a);
    ParseStep(a + t);
    var (atom, n) := ParseAtom(a).value;
    var rest := a[n..];
    if rest != [] && rest[0] == '*' {
      PrependSome(Star(atom), Parse(rest[1..]));
      assert (rest + t)[1..] == rest[1..] + t;
      ParseAlternation(rest[1..], b);
      PrependConcat(Star(atom), Parse(rest[1..]).value, Parse(b).value);
    } else {
      PrependSome(One(atom), Parse(rest));
      ParseAlternation(rest, b);
      PrependConcat(One(atom), Parse(rest).value, Parse(b).value);
      assert rest + t != [] && (rest + t)[0] != '*';
    }
  }

  lemma ParseNeedsAtom(s: string)
    requires s != [] && s[0] != '|' && Parse(s).Some?
    ensures ParseAtom(s).Some?
  {
  }

  lemma PrependSome(item: Item, r: Option<Regex>)
    requires Prepend(item, r).Some?
    ensures r.Some? && r.value != []
  {
  }

  lemma MatchesUnion(p: Regex, q: Regex, h: string)
    ensures Matches(p + q, h) <==> Matches(p, h) || Matches(q, h)
  {
    if Matches(p, h) {
      var m, i: nat, j: nat :| 0 <= m < |p| && i <= j <= |h| && SeqAt(p[m], h, i, j);
      assert SeqAt((p + q)[m], h, i, j);
    }
    if Matches(q, h) {
      var m, i: nat, j: nat :| 0 <= m < |q| && i <= j <= |h| && SeqAt(q[m], h, i, j);
      assert SeqAt((p + q)[|p| + m], h, i, j);
    }
    if Matches(p + q, h) {
      var m, i: nat, j: nat :| 0 <= m < |p + q| && i <= j <= |h| && SeqAt((p + q)[m], h, i, j);
      if m < |p| { assert SeqAt(p[m], h, i, j); } else { assert SeqAt(q[m - |p|], h, i, j); }
    }
  }

  // ----- Searching -----

  /** Where an atom that matches at `i` leaves off. */
  function Width(a: Atom): nat {
    if a.Lit? || a.Any? then 1 else 0
  }

  lemma StarGrows(items: seq<Item>, h: string, i: nat, j: nat)
    requires items != [] && items[0].Star? && AtomAt(items[0].a, h, i, i + 1)
    requires SeqAt(items, h, i + 1, j)
    ensures SeqAt(items, h, i, j)
  {
    var next: nat := i + 1;
    assert SeqAt(items, h, next, j);
    var k: nat :| next <= k <= j && ItemAt(items[0], h, next, k) && SeqAt(items[1..], h, k, j);
    assert ItemAt(items[0], h, i, k);
  }

  /** A backtracking matcher, greedy on `*`: the end of the preferred match from `i`. */
  function FindEnd(items: seq<Item>, h: string, i: nat): (r: Option<nat>)
    requires i <= |h|
    ensures r.Some? ==> i <= r.value <= |h| && SeqAt(items, h, i, r.value)
    decreases |items|, |h| - i
  {
    if items == [] then Some(i)
    else
      var a, rest := items[0].a, items[1..];
      if items[0].One? then
        if AtomAt(a, h, i, i + Width(a)) then FindEnd(rest, h, i + Width(a)) else None
      else if Width(a) == 1 && AtomAt(a, h, i, i + 1) then
        var longer := FindEnd(items, h, i + 1);
        if longer.Some? then
          StarGrows(items, h, i, longer.value);
          longer
        else
          var r := FindEnd(rest, h, i);
          assert ItemAt(items[0], h, i, i);
          r
      else
        var r := FindEnd(rest, h, i);
        assert ItemAt(items[0], h, i, i);
        r
  }

  lemma {:induction false} FindEndComplete(items: seq<Item>, h: string, i: nat, j: nat)
    requires i <= j <= |h| && SeqAt(items, h, i, j)
    ensures FindEnd(items, h, i).Some?
    decreases |items|, |h| - i
  {
    if items == [] {
    } else {
      var a, rest := items[0].a, items[1..];
      var k: nat :| i <= k <= j && ItemAt(items[0], h, i, k) && SeqAt(rest, h, k, j);
      if items[0].One? {
        FindEndComplete(rest, h, k, j);
      } else if k == i {
        FindEndComplete(rest, h, i, j);
      } else if Width(a) == 1 {
        assert ItemAt(items[0], h, i + 1, k);
        FindEndComplete(items, h, i + 1, j);
      } else {
        assert AtomAt(a, h, i, i + 1);
      }
    }
  }

  /** The first alternative, in order, that matches from `i`. */
  function FindAlternative(re: Regex, h: string, i: nat): (r: Option<nat>)
    requires i <= |h|
    ensures r.Some? ==> i <= r.value <= |h| && exists m :: 0 <= m < |re| && SeqAt(re[m], h, i, r.value)
    ensures r.None? ==> forall m, j: nat :: 0 <= m < |re| && i <= j <= |h| ==> !SeqAt(re[m], h, i, j)
  {
    if re == [] then None
    else
      var first := FindEnd(re[0], h, i);
      if first.Some? then first
      else
        var r := FindAlternative(re[1..], h, i);
        assert forall m :: 0 <= m < |re| - 1 ==> re[1..][m] == re[m + 1];
        assert r.None? ==> forall j: nat :: i <= j <= |h| ==> !SeqAt(re[0], h, i, j) by {
          forall j: nat | i <= j <= |h| ensures !SeqAt(re[0], h, i, j) {
            if SeqAt(re[0], h, i, j) { FindEndComplete(re[0], h, i, j); }
          }
        }
        r
  }

  /** `Regex::find` from `from` on: the leftmost match, as a pair of positions. */
  function Find(re: Regex, h: string, from: nat): (r: Option<(nat, nat)>)
    requires from <= |h|
    ensures r.Some? ==> from <= r.value.0 <= r.value.1 <= |h|
                        && (exists m :: 0 <= m < |re| && SeqAt(re[m], h, r.value.0, r.value.1))
    ensures forall m, i: nat, j: nat :: 0 <= m < |re| && from <= i <= j <= |h| && SeqAt(re[m], h, i, j) ==>
              r.Some? && r.value.0 <= i
    decreases |h| - from
  {
    var here := FindAlternative(re, h, from);
    if here.Some? then Some((from, here.value))
    else if from == |h| then None
    else Find(re, h, from + 1)
  }

  function IsMatch(re: Regex, h: string): (r: bool)
    ensures r <==> Matches(re, h)
  {
    Find(re, h, 0).Some?
  }

  // ----- Which match is found -----

  /** An alternation takes its first alternative that matches at a position. */
  lemma {:induction false} AlternativeOfUnion(p: Regex, q: Regex, h: string, i: nat)
    requires i <= |h|
    ensures FindAlternative(p + q, h, i) ==
            if FindAlternative(p, h, i).Some? then FindAlternative(p, h, i) else FindAlternative(q, h, i)
    decreases |p|
  {
    hide FindEnd;
    if p == [] {
      assert p + q == q;
    } else {
      assert (p + q)[1..] == p[1..] + q;
      AlternativeOfUnion(p[1..], q, h, i);
    }
  }

  /** A search finds the leftmost position at which some alternative matches, and the match of
      the first such alternative there. */
  lemma {:induction false} FindIsLeftmost(re: Regex, h: string, from: nat)
    requires from <= |h|
    ensures match Find(re, h, from)
            case Some((i, j)) => from <= i <= |h| && FindAlternative(re, h, i) == Some(j)
                                 && forall k: nat :: from <= k < i ==> FindAlternative(re, h, k).None?
            case None => forall k: nat :: from <= k <= |h| ==> FindAlternative(re, h, k).None?
    decreases |h| - from
  {
    hide FindAlternative;
    if FindAlternative(re, h, from).None? && from < |h| {
      FindIsLeftmost(re, h, from + 1);
    }
  }

  /** `.*` takes all that is left of a line. */
  lemma {:induction false} RestOfLine(h: string, i: nat)
    requires i <= |h| && '\n' !in h
    ensures FindEnd([Star(Any)], h, i) == Some(|h|)
    decreases |h| - i
  {
    if i < |h| {
      assert h[i] in h;
      RestOfLine(h, i + 1);
    }
  }
}
