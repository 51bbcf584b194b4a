/** Paths as the strings that go over the wire, and the order they are sorted in. */
module PathStrings {
  import opened FileTree

  /** A name a directory entry can have: not empty, no separator, no dot entry. */
  predicate ProperName(n: Name) {
    n != "" && '/' !in n && !IsDot(n)
  }

  ghost predicate ProperPath(p: Path) {
    forall k :: 0 <= k < |p| ==> ProperName(p[k])
  }

  predicate EndsWithSlash(s: string) {
    s != "" && s[|s| - 1] == '/'
  }

  /** `SftpPathBuf::join`. */
  function Join(dir: string, child: string): string {
    if dir == "" then child
    else if EndsWithSlash(dir) then dir + child
    else dir + "/" + child
  }

  /** The string reached from `root` by joining the components of `p` one after another. */
  function At(root: string, p: Path): string {
    if p == [] then root else Join(At(root, Parent(p)), Last(p))
  }

  lemma {:induction false} AtIsOpen(root: string, p: Path)
    requires ProperPath(p) && p != []
    ensures At(root, p) != "" && !EndsWithSlash(At(root, p))
  {
    var n := Last(p);
    assert n == p[|p| - 1] && ProperName(n);
    assert n[|n| - 1] in n;
  }

  /** Joining `child` onto `dir` puts this much of `dir` in front of it. */
  function Front(dir: string): string {
    if dir == "" || EndsWithSlash(dir) then dir else dir + "/"
  }

  lemma JoinIsConcat(dir: string, child: string)
    ensures Join(dir, child) == Front(dir) + child
  {
    if dir == "" {
      assert "" + child == child;
    } else if !EndsWithSlash(dir) {
      assert dir + "/" + child == (dir + "/") + child;
    }
  }

  /** Joining a relative string onto the root is the same as walking down from the root. */
  lemma {:induction false} JoinAt(root: string, p: Path)
    requires ProperPath(p) && p != []
    ensures Join(root, At("", p)) == At(root, p) == Front(root) + At("", p)
    decreases |p|
  {
    var up, n := Parent(p), Last(p);
    JoinIsConcat(root, At("", p));
    if up == [] {
      assert At("", p) == n;
    } else {
      JoinAt(root, up);
      AtIsOpen("", up);
      AtIsOpen(root, up);
      hide At, Front;
      Concat3(Front(root), At("", up), "/", n);
      StepUp("", p);
      StepUp(root, p);
    }
  }

  lemma StepUp(root: string, p: Path)
    requires p != []
    requires At(root, Parent(p)) != "" && !EndsWithSlash(At(root, Parent(p)))
    ensures At(root, p) == At(root, Parent(p)) + "/" + Last(p)
  {
  }

  lemma Concat3(a: string, b: string, c: string, d: string)
    ensures a + (b + c + d) == (a + b) + c + d
  {
  }

  /** A name without separator can be split off a string in one way only. */
  lemma SplitUnique(a: string, m: string, b: string, n: string)
    requires a + "/" + m == b + "/" + n
    requires '/' !in m && '/' !in n
    ensures a == b && m == n
  {
    var s, t := a + "/" + m, b + "/" + n;
    assert s[|a|] == '/' && t[|b|] == '/';
    assert forall k :: |a| < k < |s| ==> s[k] == m[k - |a| - 1] && s[k] in m;
    assert forall k :: |b| < k < |t| ==> t[k] == n[k - |b| - 1] && t[k] in n;
    assert |a| == |b|;
    assert a == s[..|a|] && b == t[..|b|];
    assert m == s[|a| + 1..] && n == t[|b| + 1..];
  }

  /** Below one root, different nodes have different strings. */
  lemma {:induction false} AtInjective(root: string, p: Path, q: Path)
    requires ProperPath(p) && ProperPath(q)
    requires p != [] && q != []
    requires At(root, p) == At(root, q)
    ensures p == q
    decreases root != "", |p|
  {
    if root != "" {
      JoinAt(root, p);
      JoinAt(root, q);
      assert At("", p) == At(root, p)[|Front(root)|..] == At(root, q)[|Front(root)|..] == At("", q);
      AtInjective("", p, q);
    } else {
      SlashInside(p);
      SlashInside(q);
      if |p| > 1 {
        AtIsOpen("", Parent(p));
        AtIsOpen("", Parent(q));
        SplitUnique(At("", Parent(p)), Last(p), At("", Parent(q)), Last(q));
        AtInjective("", Parent(p), Parent(q));
      }
      assert p == Parent(p) + [Last(p)] && q == Parent(q) + [Last(q)];
    }
  }

  lemma SlashInside(p: Path)
    requires ProperPath(p) && p != []
    ensures '/' in At("", p) <==> |p| > 1
  {
    assert ProperName(Last(p));
    if |p| > 1 {
      AtIsOpen("", Parent(p));
      assert At("", p)[|At("", Parent(p))|] == '/';
    }
  }

  /** Byte order of strings, as `str::cmp` has it. */
  predicate Less(a: string, b: string) {
    b != [] && (a == [] || a[0] < b[0] || (a[0] == b[0] && Less(a[1..], b[1..])))
  }

  lemma {:induction false} LessIrreflexive(a: string)
    ensures !Less(a, a)
  {
    if a == [] {
    } else {
      LessIrreflexive(a[1..]);
    }
  }

  lemma {:induction false} LessTotal(a: string, b: string)
    ensures Less(a, b) || a == b || Less(b, a)
    ensures !(Less(a, b) && Less(b, a)) && !Less(a, a)
  {
    LessIrreflexive(a);
    if a != [] && b != [] && a[0] == b[0] {
      LessTotal(a[1..], b[1..]);
      if a[1..] == b[1..] {
        assert a == [a[0]] + a[1..] == [b[0]] + b[1..] == b;
      }
    }
  }

  lemma {:induction false} LessTrans(a: string, b: string, c: string)
    requires Less(a, b) && Less(b, c)
    ensures Less(a, c)
  {
    if a != [] && a[0] == b[0] && b[0] == c[0] {
      LessTrans(a[1..], b[1..], c[1..]);
    }
  }

  /** `a` and `b` agree before position `k`, and there `a` has the smaller character. */
  ghost predicate Differs(a: string, b: string, k: nat) {
    k < |a| && k < |b| && a[..k] == b[..k] && a[k] < b[k]
  }

  /** It is the order of the first difference; a proper prefix comes first. */
  lemma {:induction false} LessIff(a: string, b: string)
    ensures Less(a, b) <==> a < b || exists k: nat :: Differs(a, b, k)
    decreases |a|
  {
    if a == [] || b == [] {
    } else {
      hide Differs;
      if a[0] != b[0] {
        FirstDiffers(a, b);
      } else {
        LessIff(a[1..], b[1..]);
        FirstSame(a, b);
        if k: nat :| Differs(a, b, k) {
          DiffersBelow(a, b, k - 1);
        }
        if k: nat :| Differs(a[1..], b[1..], k) {
          DiffersBelow(a, b, k);
        }
      }
    }
  }

  lemma FirstDiffers(a: string, b: string)
    requires a != [] && b != [] && a[0] != b[0]
    ensures Differs(a, b, 0) <==> a[0] < b[0]
    ensures forall k: nat :: Differs(a, b, k) ==> k == 0
    ensures !(a < b)
  {
    assert a[..0] == b[..0];
    assert forall k: nat :: 0 < k < |a| && k < |b| && a[..k] == b[..k] ==> a[..k][0] == b[..k][0];
  }

  lemma FirstSame(a: string, b: string)
    requires a != [] && b != [] && a[0] == b[0]
    ensures !Differs(a, b, 0) && (a < b <==> a[1..] < b[1..])
  {
    assert a == [a[0]] + a[1..] && b == [b[0]] + b[1..];
  }

  lemma DiffersBelow(a: string, b: string, k: nat)
    requires a != [] && b != [] && a[0] == b[0]
    ensures Differs(a, b, k + 1) <==> Differs(a[1..], b[1..], k)
  {
    if k + 1 < |a| && k + 1 < |b| {
      assert a[..k + 1] == [a[0]] + a[1..][..k] && b[..k + 1] == [b[0]] + b[1..][..k];
      assert a[1..][..k] == a[..k + 1][1..] && b[1..][..k] == b[..k + 1][1..];
    }
  }

  /** The components with one slash between any two. */
  function Slashed(p: Path): string {
    if p == [] then "" else if |p| == 1 then p[0] else p[0] + "/" + Slashed(p[1..])
  }

  /** The string of a node: the root, ending in one slash if it is not empty, and the
      components with single slashes. */
  lemma AtSpelled(root: string, p: Path)
    requires ProperPath(p) && p != []
    ensures At(root, p) == (if root == "" || EndsWithSlash(root) then root else root + "/") + Slashed(p)
  {
    JoinAt(root, p);
    RelativeSpelled(p);
  }

  lemma {:induction false} RelativeSpelled(p: Path)
    requires ProperPath(p) && p != []
    ensures At("", p) == Slashed(p)
    decreases |p|
  {
    if |p| == 1 {
      assert Parent(p) == [];
    } else {
      RelativeSpelled(Parent(p));
      AtIsOpen("", Parent(p));
      SlashedLast(p);
    }
  }

  lemma {:induction false} SlashedLast(p: Path)
    requires |p| > 1
    ensures Slashed(p) == Slashed(Parent(p)) + "/" + Last(p)
    decreases |p|
  {
    if |p| == 2 {
      assert Slashed(p[1..]) == p[1] && Parent(p) == [p[0]];
    } else {
      SlashedLast(p[1..]);
      assert Parent(p)[1..] == Parent(p[1..]) && Last(p) == Last(p[1..]) && Parent(p)[0] == p[0];
      Concat3(p[0] + "/", Slashed(Parent(p[1..])), "/", Last(p));
    }
  }
}
