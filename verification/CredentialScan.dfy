/** Finding credentials in free text: the first `distant://` whose token parses. Parsing
    itself is a parameter. */
module CredentialScan {
  import opened Text
  import opened Wrappers

  const SCHEME := "distant://"

  predicate IsBoundary(c: char) {
    IsWhitespace(c) || IsControl(c)
  }

  predicate OccursAt(s: string, i: nat) {
    i + |SCHEME| <= |s| && s[i..i + |SCHEME|] == SCHEME
  }

  /** The text up to the first boundary. */
  function Token(s: string): (t: string)
    ensures t <= s && (forall i :: 0 <= i < |t| ==> !IsWhitespace(t[i]) && !IsControl(t[i]))
    ensures |t| < |s| ==> IsWhitespace(s[|t|]) || IsControl(s[|t|])
  {
    if s == "" || IsBoundary(s[0]) then "" else [s[0]] + Token(s[1..])
  }

  /** An occurrence that yields credentials: nothing but whitespace, a control character or
      the start before it, if that is asked for, and a token that parses. */
  predicate Yields<C>(s: string, strict: bool, parse: string -> Option<C>, i: nat) {
    && OccursAt(s, i)
    && (strict && i > 0 ==> IsWhitespace(s[i - 1]) || IsControl(s[i - 1]))
    && parse(Token(s[i..])).Some?
  }

  /** The next place of `match_indices`, from `i` on. */
  method NextMatch(s: string, from: nat) returns (i: Option<nat>)
    requires from <= |s|
    ensures i.Some? ==> from <= i.value && OccursAt(s, i.value) && forall j :: from <= j < i.value ==> !OccursAt(s, j)
    ensures i.None? ==> forall j :: from <= j ==> !OccursAt(s, j)
  {
    var k := from;
    while k + |SCHEME| <= |s|
      invariant from <= k
      invariant forall j :: from <= j < k ==> !OccursAt(s, j)
    {
      if s[k..k + |SCHEME|] == SCHEME {
        return Some(k);
      }
      k := k + 1;
    }
    return None;
  }

  /** Two occurrences never overlap: the scheme's first letter is nowhere else in it. */
  lemma NoOverlap(s: string, i: nat, j: nat)
    requires OccursAt(s, i) && i < j < i + |SCHEME|
    ensures !OccursAt(s, j)
  {
    if j + |SCHEME| <= |s| {
      assert s[j..j + |SCHEME|][0] == s[j] == s[i..i + |SCHEME|][j - i] == SCHEME[j - i];
      assert SCHEME[j - i] != 'd';
    }
  }

  /** The least occurrence that yields credentials. */
  ghost predicate IsFirst<C>(s: string, strict: bool, parse: string -> Option<C>, i: nat) {
    Yields(s, strict, parse, i) && forall j :: 0 <= j < i ==> !Yields(s, strict, parse, j)
  }

  /** The result is the parse of the token at the least occurrence that yields one, and none
      just when no occurrence does: stepping over a whole match misses nothing. */
  method Find<C>(s: string, strict: bool, parse: string -> Option<C>) returns (r: Option<C>)
    ensures r.None? <==> forall i: nat :: !Yields(s, strict, parse, i)
    ensures r.Some? ==> exists i: nat :: IsFirst(s, strict, parse, i) && r == parse(Token(s[i..]))
  {
    hide Token, IsWhitespace, IsControl;
    var from := 0;
    while true
      invariant from <= |s|
      invariant forall j :: 0 <= j < from ==> !Yields(s, strict, parse, j)
      decreases |s| - from
    {
      var m := NextMatch(s, from);
      match m
      case None =>
        return None;
      case Some(i) =>
        var rest := s[i..];
        from := i + |SCHEME|;
        forall j | i < j < from ensures !OccursAt(s, j) {
          NoOverlap(s, i, j);
        }
        if strict && i > 0 && !IsBoundary(s[i - 1]) {
          continue;
        }
        var found := parse(Token(rest));
        if found.Some? {
          assert IsFirst(s, strict, parse, i);
          return found;
        }
    }
  }

  /** When the strict search finds credentials at `i`, the lax one finds some at `i` or
      before it. */
  lemma StrictImpliesLax<C>(s: string, parse: string -> Option<C>, i: nat)
    requires IsFirst(s, true, parse, i)
    ensures exists j: nat :: j <= i && IsFirst(s, false, parse, j)
  {
    LeastUpTo(s, parse, i);
  }

  lemma {:induction false} LeastUpTo<C>(s: string, parse: string -> Option<C>, i: nat)
    requires Yields(s, false, parse, i)
    ensures exists j: nat :: j <= i && IsFirst(s, false, parse, j)
  {
    if k :| 0 <= k < i && Yields(s, false, parse, k) {
      LeastUpTo(s, parse, k);
    } else {
      assert IsFirst(s, false, parse, i);
    }
  }

  /** The token reaches exactly to the next whitespace or control character or the end. */
  lemma {:induction false} TokenIsMaximal(s: string, n: nat)
    requires n <= |s| && forall i :: 0 <= i < n ==> !IsWhitespace(s[i]) && !IsControl(s[i])
    requires n < |s| ==> IsWhitespace(s[n]) || IsControl(s[n])
    ensures Token(s) == s[..n]
  {
    assert |Token(s)| == n by {
      var t := Token(s);
      assert forall i :: 0 <= i < |t| ==> t[i] == s[i];
    }
  }
}
