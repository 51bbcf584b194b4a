/** `remove` of the SSH backend: a stack walk that deletes files on the way down,
    then deletes the visited directories in reverse order. */
module RemoveTree {
  import opened Wrappers
  import opened FileTree

  /** The listing a server sends when it goes through `names` in that order. */
  function Describe(fs: Fs, d: Path, names: seq<Name>): (l: seq<Entry>)
    ensures |l| == |names|
    ensures forall i :: 0 <= i < |l| ==> l[i].name == names[i]
    ensures forall i :: 0 <= i < |l| && d + [l[i].name] in fs && !IsDot(l[i].name) ==>
              l[i].node == fs[d + [l[i].name]]
  {
    seq(|names|, i requires 0 <= i < |names| =>
      Entry(names[i], if !IsDot(names[i]) && d + [names[i]] in fs then fs[d + [names[i]]] else Dir))
  }

  /** A server-chosen order for a set of names. */
  ghost predicate IsArrangement(l: seq<Name>, s: set<Name>) {
    && (forall n :: n in s ==> n in l)
    && (forall i :: 0 <= i < |l| && !IsDot(l[i]) ==> l[i] in s)
    && (forall i, j :: 0 <= i < j < |l| && !IsDot(l[i]) ==> l[i] != l[j])
  }

  ghost predicate IsPart(small: Fs, big: Fs) {
    small.Keys <= big.Keys && forall p :: p in small ==> small[p] == big[p]
  }

  /** `log` names, once each, exactly the nodes that `big` has and `small` lacks. */
  ghost predicate Accounts(small: Fs, big: Fs, log: seq<Path>) {
    NoDup(log) && (set p | p in log) == big.Keys - small.Keys
  }

  /** An SFTP server. `fault` decides which operations fail and `arrange` in which order
      a directory is listed; both are arbitrary, so what is proved holds for every server. */
  class Sftp {
    var fs: Fs
    var clock: nat
    ghost var log: seq<Path>  // the nodes removed so far, in order
    const fault: nat -> bool
    const arrange: (nat, set<Name>) -> seq<Name>
    const hops: nat

    ghost predicate Valid()
      reads this
    {
      && WellFormed(fs)
      && forall t, s {:trigger arrange(t, s)} :: IsArrangement(arrange(t, s), s)
    }

    ghost predicate NeverFails() {
      forall t: nat :: !fault(t)
    }

    /** Each operation has a moment of its own, so that any of them may fail alone. */
    method Tick() returns (fails: bool)
      modifies this`clock
      ensures fails == fault(old(clock)) && clock == old(clock) + 1
      ensures NeverFails() ==> !fails
    {
      fails := fault(clock);
      clock := clock + 1;
    }

    method Metadata(p: Path) returns (r: Result<Node>)
      requires Valid()
      modifies this`clock
      ensures r.Ok? ==> Real(fs, p, hops).Some? && r.value == fs[Real(fs, p, hops).value] && !r.value.Link?
      ensures NeverFails() && Real(fs, p, hops).Some? ==> r.Ok?
    {
      var fails := Tick();
      var q := Real(fs, p, hops);
      if fails || q.None? { return Err; }
      r := Ok(fs[q.value]);
    }

    method ReadDir(p: Path) returns (r: Result<seq<Entry>>)
      requires Valid()
      modifies this`clock
      ensures r.Ok? ==> Real(fs, p, hops).Some? && fs[Real(fs, p, hops).value].Dir?
      ensures r.Ok? ==> IsListing(fs, Real(fs, p, hops).value, r.value)
      ensures NeverFails() && Real(fs, p, hops).Some? && fs[Real(fs, p, hops).value].Dir? ==> r.Ok?
    {
      var fails := Tick();
      var q := Real(fs, p, hops);
      if fails || q.None? || !fs[q.value].Dir? { return Err; }
      var names := arrange(clock, Children(fs, q.value));
      assert IsArrangement(names, Children(fs, q.value));
      var l := Describe(fs, q.value, names);
      forall n | n in Children(fs, q.value) ensures exists i :: 0 <= i < |l| && l[i].name == n {
        var i :| 0 <= i < |names| && names[i] == n;
        assert l[i].name == n;
      }
      r := Ok(l);
    }

    method RemoveFile(p: Path) returns (r: Result<()>)
      requires Valid()
      modifies this`fs, this`clock, this`log
      ensures Valid()
      ensures var c := Locate(old(fs), p, hops);
              && (r.Ok? ==> p != [] && c.Some? && !old(fs)[c.value].Dir?
                            && fs == old(fs) - {c.value} && log == old(log) + [c.value])
              && (NeverFails() && p != [] && c.Some? && !old(fs)[c.value].Dir? ==> r.Ok?)
      ensures r.Err? ==> fs == old(fs) && log == old(log)
    {
      var fails := Tick();
      var c := Locate(fs, p, hops);
      if fails || p == [] || c.None? || fs[c.value].Dir? { return Err; }
      FileHasNoChildren(fs, c.value);
      RemoveLeaf(fs, c.value);
      fs, log := fs - {c.value}, log + [c.value];
      r := Ok(());
    }

    method RemoveDir(p: Path) returns (r: Result<()>)
      requires Valid()
      modifies this`fs, this`clock, this`log
      ensures Valid()
      ensures var c := Locate(old(fs), p, hops);
              && (r.Ok? ==> p != [] && c.Some? && old(fs)[c.value].Dir? && Children(old(fs), c.value) == {}
                            && fs == old(fs) - {c.value} && log == old(log) + [c.value])
              && ((NeverFails() && p != [] && c.Some? && c.value != [] && old(fs)[c.value].Dir?
                   && Children(old(fs), c.value) == {}) ==> r.Ok?)
      ensures r.Err? ==> fs == old(fs) && log == old(log)
    {
      var fails := Tick();
      var c := Locate(fs, p, hops);
      if fails || p == [] || c.None? || !fs[c.value].Dir? || Children(fs, c.value) != {} { return Err; }
      RemoveLeaf(fs, c.value);
      fs, log := fs - {c.value}, log + [c.value];
      r := Ok(());
    }
  }

  // ----- The walk, seen from the tree it started on -----

  /** The physical directory that `x`, a path below `path`, stands for: `path` itself may
      run through links, the components below it do not. */
  ghost function Image(path: Path, base: Path, x: Path): Path
    requires path <= x
  {
    base + x[|path|..]
  }

  /** Everything the walk knows about: listed directories and those still to list. */
  ghost function Noted(dirs: seq<Path>, stack: seq<Path>): (s: set<Path>)
    ensures forall x :: x in s <==> x in dirs || x in stack
  {
    (set x | x in dirs) + (set x | x in stack)
  }

  /** `x` is a real directory found while listing one of `dirs`, or the start. */
  ghost predicate Reached(fs0: Fs, path: Path, base: Path, dirs: seq<Path>, x: Path) {
    && path <= x && Image(path, base, x) in fs0 && fs0[Image(path, base, x)].Dir?
    && (x == path || Parent(x) in dirs)
  }

  /** What holds of the tree and of the two work lists: everything noted is a directory
      below the start whose parent has been listed, nothing is noted twice, parents are
      listed before their children, and only non-directories below the start are gone. */
  ghost predicate Walked(fs0: Fs, fs: Fs, path: Path, base: Path, dirs: seq<Path>, stack: seq<Path>) {
    && NoDup(dirs) && NoDup(stack) && (forall x :: x in stack ==> x !in dirs)
    && path in Noted(dirs, stack)
    && (forall x {:trigger Reached(fs0, path, base, dirs, x)} ::
          x in Noted(dirs, stack) ==> Reached(fs0, path, base, dirs, x))
    && ParentsFirst(path, dirs)
    && IsPart(fs, fs0)
    && (forall p :: p in fs0 && p !in fs ==> base <= p && !fs0[p].Dir?)
  }

  ghost predicate ParentBefore(path: Path, dirs: seq<Path>, k: nat)
    requires k < |dirs|
  {
    dirs[k] == path || (dirs[k] != [] && Parent(dirs[k]) in dirs[..k])
  }

  ghost predicate ParentsFirst(path: Path, dirs: seq<Path>) {
    forall k {:trigger ParentBefore(path, dirs, k)} :: 0 <= k < |dirs| ==> ParentBefore(path, dirs, k)
  }

  /** The child `n` of `d`, if it ever was one, is noted when a directory, else removed. */
  ghost predicate SweptChild(fs0: Fs, fs: Fs, path: Path, base: Path, noted: set<Path>, d: Path, n: Name)
    requires path <= d
  {
    var c := Image(path, base, d) + [n];
    c in fs0 ==> if fs0[c].Dir? then d + [n] in noted else c !in fs
  }

  ghost predicate Swept(fs0: Fs, fs: Fs, path: Path, base: Path, dirs: seq<Path>, noted: set<Path>) {
    forall d, n {:trigger SweptChild(fs0, fs, path, base, noted, d, n)} ::
      d in dirs && path <= d ==> SweptChild(fs0, fs, path, base, noted, d, n)
  }

  /** Later states keep what was swept: nothing comes back and nothing is forgotten. */
  lemma StaysSwept(fs0: Fs, fs: Fs, fs': Fs, path: Path, base: Path, dirs: seq<Path>,
                   noted: set<Path>, noted': set<Path>)
    requires Swept(fs0, fs, path, base, dirs, noted)
    requires fs'.Keys <= fs.Keys && noted <= noted'
    ensures Swept(fs0, fs', path, base, dirs, noted')
  {
    forall d, n {:trigger SweptChild(fs0, fs', path, base, noted', d, n)} | d in dirs && path <= d
      ensures SweptChild(fs0, fs', path, base, noted', d, n)
    {
      assert SweptChild(fs0, fs, path, base, noted, d, n);
    }
  }

  lemma ImageChild(path: Path, base: Path, d: Path, n: Name)
    requires path <= d
    ensures path <= d + [n] && Image(path, base, d + [n]) == Image(path, base, d) + [n]
  {
    assert (d + [n])[|path|..] == d[|path|..] + [n];
  }

  /** While the walk goes on, a path that resolves still resolves to its image. */
  lemma ResolvesToImage(fs0: Fs, fs: Fs, path: Path, base: Path, x: Path, hops: nat)
    requires WellFormed(fs0) && IsPart(fs, fs0)
    requires Real(fs0, path, hops) == Some(base)
    requires path <= x && Image(path, base, x) in fs0 && fs0[Image(path, base, x)].Dir?
    ensures Real(fs, x, hops).Some? ==> Real(fs, x, hops).value == Image(path, base, x)
  {
    assert path + x[|path|..] == x;
    RealBelow(fs0, path, base, x[|path|..], hops);
    if Real(fs, x, hops).Some? {
      RealShrinks(fs, fs0, x, hops);
    }
  }

  /** One directory popped and listed, the first `i` of its entries handled. */
  ghost predicate Visiting(fs0: Fs, fs: Fs, path: Path, base: Path, dirs: seq<Path>, dir: Path,
                           stack: seq<Path>, entries: seq<Entry>, i: nat)
    requires path <= dir && i <= |entries|
  {
    && Walked(fs0, fs, path, base, dirs + [dir], stack)
    && Swept(fs0, fs, path, base, dirs, Noted(dirs + [dir], stack))
    && (forall k :: 0 <= k < i && !IsDot(entries[k].name) ==>
          if entries[k].node.Dir? then dir + [entries[k].name] in stack
          else Image(path, base, dir) + [entries[k].name] !in fs)
    && (forall k :: i <= k < |entries| && !IsDot(entries[k].name) ==>
          && Image(path, base, dir) + [entries[k].name] in fs
          && (entries[k].node.Dir? <==> fs0[Image(path, base, dir) + [entries[k].name]].Dir?)
          && dir + [entries[k].name] !in stack)
  }

  lemma Pop(fs0: Fs, fs: Fs, path: Path, base: Path, dirs: seq<Path>, stack: seq<Path>)
    requires stack != []
    requires Walked(fs0, fs, path, base, dirs, stack)
    requires Swept(fs0, fs, path, base, dirs, Noted(dirs, stack))
    ensures var dir, rest := stack[|stack| - 1], stack[..|stack| - 1];
            && path <= dir && dir !in dirs && (forall n :: dir + [n] !in rest)
            && Noted(dirs + [dir], rest) == Noted(dirs, stack)
            && Walked(fs0, fs, path, base, dirs + [dir], rest)
            && Swept(fs0, fs, path, base, dirs, Noted(dirs + [dir], rest))
  {
    var dir, rest := stack[|stack| - 1], stack[..|stack| - 1];
    assert Reached(fs0, path, base, dirs, dir);
    assert forall x :: x in stack <==> x in rest || x == dir;
    assert Noted(dirs + [dir], rest) == Noted(dirs, stack);
    forall x {:trigger Reached(fs0, path, base, dirs + [dir], x)} | x in Noted(dirs, stack)
      ensures Reached(fs0, path, base, dirs + [dir], x)
    {
      assert Reached(fs0, path, base, dirs, x);
    }
    forall k {:trigger ParentBefore(path, dirs + [dir], k)} | 0 <= k < |dirs| + 1
      ensures ParentBefore(path, dirs + [dir], k)
    {
      assert (dirs + [dir])[..k] == dirs[..k];
      if k < |dirs| {
        assert ParentBefore(path, dirs, k);
      }
    }
    forall x | x in rest ensures x == path || (x != [] && Parent(x) != dir) {
      assert Reached(fs0, path, base, dirs, x);
    }
    forall n ensures dir + [n] !in rest {
      assert Parent(dir + [n]) == dir;
    }
  }

  lemma BeginVisit(fs0: Fs, fs: Fs, path: Path, base: Path, dirs: seq<Path>, dir: Path,
                   stack: seq<Path>, entries: seq<Entry>)
    requires path <= dir && forall n :: dir + [n] !in stack
    requires Walked(fs0, fs, path, base, dirs + [dir], stack)
    requires Swept(fs0, fs, path, base, dirs, Noted(dirs + [dir], stack))
    requires IsListing(fs, Image(path, base, dir), entries)
    ensures Visiting(fs0, fs, path, base, dirs, dir, stack, entries, 0)
  {
  }

  lemma VisitDir(fs0: Fs, fs: Fs, path: Path, base: Path, dirs: seq<Path>, dir: Path,
                 stack: seq<Path>, entries: seq<Entry>, i: nat)
    requires path <= dir && i < |entries|
    requires Visiting(fs0, fs, path, base, dirs, dir, stack, entries, i)
    requires !IsDot(entries[i].name) && entries[i].node.Dir?
    requires forall k :: i < k < |entries| ==> entries[k].name != entries[i].name
    ensures Visiting(fs0, fs, path, base, dirs, dir, stack + [dir + [entries[i].name]], entries, i + 1)
  {
    var x := dir + [entries[i].name];
    var stack' := stack + [x];
    ImageChild(path, base, dir, entries[i].name);
    assert Parent(x) == dir;
    assert (dirs + [dir])[|dirs|] == dir;
    forall k | 0 <= k < |dirs| ensures dirs[k] != x {
      assert (dirs + [dir])[k] == dirs[k] && (dirs + [dir])[..k] == dirs[..k];
      assert ParentBefore(path, dirs + [dir], k);
    }
    assert x !in dirs + [dir];
    assert forall y :: y in stack' <==> y in stack || y == x;
    assert Noted(dirs + [dir], stack') == Noted(dirs + [dir], stack) + {x};
    forall y {:trigger Reached(fs0, path, base, dirs + [dir], y)} | y in Noted(dirs + [dir], stack')
      ensures Reached(fs0, path, base, dirs + [dir], y)
    {
      if y != x {
        assert y in Noted(dirs + [dir], stack);
      } else {
        assert Reached(fs0, path, base, dirs + [dir], dir);
      }
    }
    StaysSwept(fs0, fs, fs, path, base, dirs, Noted(dirs + [dir], stack), Noted(dirs + [dir], stack'));
    forall k | i < k < |entries| && !IsDot(entries[k].name) ensures dir + [entries[k].name] !in stack' {
      assert Last(dir + [entries[k].name]) != Last(x);
    }
  }

  lemma VisitFile(fs0: Fs, fs: Fs, fs': Fs, path: Path, base: Path, dirs: seq<Path>, dir: Path,
                  stack: seq<Path>, entries: seq<Entry>, i: nat)
    requires path <= dir && i < |entries|
    requires Visiting(fs0, fs, path, base, dirs, dir, stack, entries, i)
    requires !IsDot(entries[i].name) && !entries[i].node.Dir?
    requires forall k :: i < k < |entries| ==> entries[k].name != entries[i].name
    requires fs' == fs - {Image(path, base, dir) + [entries[i].name]}
    ensures Visiting(fs0, fs', path, base, dirs, dir, stack, entries, i + 1)
  {
    var p := Image(path, base, dir) + [entries[i].name];
    StaysSwept(fs0, fs, fs', path, base, dirs, Noted(dirs + [dir], stack), Noted(dirs + [dir], stack));
    forall k | i < k < |entries| && !IsDot(entries[k].name)
      ensures Image(path, base, dir) + [entries[k].name] in fs'
    {
      assert Last(Image(path, base, dir) + [entries[k].name]) != Last(p);
    }
  }

  /** As long as the start resolves at all, so does everything noted, to its image. */
  lemma NotedResolves(fs0: Fs, fs: Fs, path: Path, base: Path, dirs: seq<Path>, stack: seq<Path>, x: Path, hops: nat)
    requires WellFormed(fs0) && WellFormed(fs) && Real(fs0, path, hops) == Some(base)
    requires Walked(fs0, fs, path, base, dirs, stack) && x in Noted(dirs, stack)
    requires Real(fs, path, hops).Some?
    ensures path <= x && Image(path, base, x) in fs && fs[Image(path, base, x)].Dir?
    ensures Real(fs, x, hops) == Some(Image(path, base, x))
  {
    hide Real;
    assert Reached(fs0, path, base, dirs, x);
    RealShrinks(fs, fs0, path, hops);
    assert path + x[|path|..] == x;
    RealBelow(fs, path, base, x[|path|..], hops);
  }

  lemma LocateEntry(fs0: Fs, fs: Fs, path: Path, base: Path, dirs: seq<Path>, dir: Path,
                    stack: seq<Path>, entries: seq<Entry>, i: nat, hops: nat)
    requires WellFormed(fs0) && WellFormed(fs) && Real(fs0, path, hops) == Some(base)
    requires path <= dir && i < |entries|
    requires Visiting(fs0, fs, path, base, dirs, dir, stack, entries, i)
    requires !IsDot(entries[i].name) && !entries[i].node.Dir?
    ensures var c := Locate(fs, dir + [entries[i].name], hops);
            && (c.Some? ==> c.value == Image(path, base, dir) + [entries[i].name])
            && (c.Some? <==> Real(fs, path, hops).Some?)
            && (c.Some? ==> !fs[c.value].Dir?)
  {
    hide Real, Swept;
    var p := dir + [entries[i].name];
    assert Parent(p) == dir && Last(p) == entries[i].name;
    assert dir in Noted(dirs + [dir], stack) by {
      assert (dirs + [dir])[|dirs|] == dir;
    }
    if Real(fs, path, hops).Some? {
      NotedResolves(fs0, fs, path, base, dirs + [dir], stack, dir, hops);
    }
    if Real(fs, dir, hops).Some? {
      LostBelow(fs, path, dir, hops);
    }
  }

  lemma EndVisit(fs0: Fs, fs: Fs, fs1: Fs, path: Path, base: Path, dirs: seq<Path>, dir: Path,
                 stack: seq<Path>, entries: seq<Entry>)
    requires WellFormed(fs0)
    requires path <= dir
    requires Visiting(fs0, fs, path, base, dirs, dir, stack, entries, |entries|)
    requires IsPart(fs, fs1) && IsPart(fs1, fs0)
    requires forall p :: p in fs0 && fs0[p].Dir? ==> p in fs1
    requires IsListing(fs1, Image(path, base, dir), entries)
    ensures Swept(fs0, fs, path, base, dirs + [dir], Noted(dirs + [dir], stack))
  {
    var noted := Noted(dirs + [dir], stack);
    forall d, n {:trigger SweptChild(fs0, fs, path, base, noted, d, n)} | d in dirs + [dir] && path <= d
      ensures SweptChild(fs0, fs, path, base, noted, d, n)
    {
      var p := Image(path, base, d) + [n];
      if d == dir && p in fs1 {
        assert Attached(fs0, p);
        assert n in Children(fs1, Image(path, base, dir));
        var k :| 0 <= k < |entries| && entries[k].name == n;
      }
    }
  }

  /** When the stack is empty, every directory below the start has been listed ... */
  lemma {:induction false} AllListed(fs0: Fs, fs: Fs, path: Path, base: Path, dirs: seq<Path>, p: Path)
    requires WellFormed(fs0)
    requires Walked(fs0, fs, path, base, dirs, [])
    requires Swept(fs0, fs, path, base, dirs, Noted(dirs, []))
    requires p in fs0 && fs0[p].Dir? && base <= p
    ensures path + p[|base|..] in dirs
    decreases |p|
  {
    if p == base {
      assert path + p[|base|..] == path;
    } else {
      var up := Parent(p);
      assert Attached(fs0, p);
      assert base <= up;
      AllListed(fs0, fs, path, base, dirs, up);
      var d := path + up[|base|..];
      assert Image(path, base, d) == up;
      assert up + [Last(p)] == p;
      assert SweptChild(fs0, fs, path, base, Noted(dirs, []), d, Last(p));
      assert d + [Last(p)] == path + p[|base|..];
    }
  }

  /** ... and every other node below it is gone. */
  lemma FilesGone(fs0: Fs, fs: Fs, path: Path, base: Path, dirs: seq<Path>, p: Path)
    requires WellFormed(fs0)
    requires base in fs0 && fs0[base].Dir?
    requires Walked(fs0, fs, path, base, dirs, [])
    requires Swept(fs0, fs, path, base, dirs, Noted(dirs, []))
    requires p in fs0 && !fs0[p].Dir? && base <= p
    ensures p !in fs
  {
    assert p != base;
    var up := Parent(p);
    assert Attached(fs0, p);
    assert base <= up;
    AllListed(fs0, fs, path, base, dirs, up);
    var d := path + up[|base|..];
    assert Image(path, base, d) == up;
    assert up + [Last(p)] == p;
    assert SweptChild(fs0, fs, path, base, Noted(dirs, []), d, Last(p));
  }

  /** The state during the second loop: of what the walk left, the directories listed
      last are gone. */
  ghost predicate Unwound(walked: Fs, fs: Fs, path: Path, base: Path, dirs: seq<Path>, j: nat)
    requires j <= |dirs|
  {
    && IsPart(fs, walked)
    && forall p :: p in walked ==> (p !in fs <==> p in Images(path, base, dirs[j..]))
  }

  /** The physical directories behind a work list. */
  ghost function Images(path: Path, base: Path, dirs: seq<Path>): set<Path> {
    set d | d in dirs && path <= d :: Image(path, base, d)
  }

  lemma ImageInjective(path: Path, base: Path, x: Path, y: Path)
    requires path <= x && path <= y
    requires Image(path, base, x) == Image(path, base, y)
    ensures x == y
  {
    assert x == path + x[|path|..] && y == path + y[|path|..];
    assert x[|path|..] == Image(path, base, x)[|base|..];
    assert y[|path|..] == Image(path, base, y)[|base|..];
  }

  /** Everything the walk was started for. */
  ghost predicate WalkDone(fs0: Fs, walked: Fs, path: Path, base: Path, dirs: seq<Path>, hops: nat) {
    && WellFormed(fs0) && Real(fs0, path, hops) == Some(base) && base in fs0 && fs0[base].Dir?
    && Walked(fs0, walked, path, base, dirs, [])
    && Swept(fs0, walked, path, base, dirs, Noted(dirs, []))
  }

  lemma StartIsFirst(fs0: Fs, walked: Fs, path: Path, base: Path, dirs: seq<Path>, j: nat)
    requires Walked(fs0, walked, path, base, dirs, [])
    requires j < |dirs|
    ensures dirs[0] == path
    ensures dirs[j] == path <==> j == 0
  {
    assert ParentBefore(path, dirs, 0);
  }

  /** At the moment a directory's turn comes in the second loop, it is there and empty ... */
  lemma TurnIsEmpty(fs0: Fs, walked: Fs, fs: Fs, path: Path, base: Path, dirs: seq<Path>, j: nat, hops: nat)
    requires WalkDone(fs0, walked, path, base, dirs, hops)
    requires j < |dirs| && Unwound(walked, fs, path, base, dirs, j + 1)
    ensures path <= dirs[j]
    ensures var c := Image(path, base, dirs[j]); c in fs && fs[c].Dir? && Children(fs, c) == {}
  {
    var x := dirs[j];
    assert Reached(fs0, path, base, dirs, x);
    var c := Image(path, base, x);
    forall d | d in dirs[j + 1..] && path <= d ensures Image(path, base, d) != c {
      if Image(path, base, d) == c { ImageInjective(path, base, d, x); }
    }
    forall n ensures c + [n] !in fs {
      ImageChild(path, base, x, n);
      assert SweptChild(fs0, walked, path, base, Noted(dirs, []), x, n);
      if x + [n] in dirs {
        var k :| 0 <= k < |dirs| && dirs[k] == x + [n];
        assert ParentBefore(path, dirs, k);
        assert Parent(x + [n]) == x;
        assert x in dirs[..k];
        assert x + [n] in dirs[j + 1..];
      }
    }
  }

  /** ... and as long as the start resolves, its path still names it; the start itself names
      a directory only if its last component is not a link. */
  lemma TurnIsNamed(fs0: Fs, walked: Fs, fs: Fs, path: Path, base: Path, dirs: seq<Path>, j: nat, hops: nat)
    requires WalkDone(fs0, walked, path, base, dirs, hops) && WellFormed(fs)
    requires j < |dirs| && Unwound(walked, fs, path, base, dirs, j + 1)
    requires Real(fs, path, hops).Some?
    ensures j > 0 ==> dirs[j] != [] && path <= dirs[j] && Image(path, base, dirs[j]) != []
                      && Locate(fs, dirs[j], hops) == Some(Image(path, base, dirs[j]))
    ensures j == 0 && path != [] && Locate(fs0, path, hops) == Some(base) ==>
              base != [] && Locate(fs, path, hops) == Some(base)
  {
    hide Real, Swept;
    RealShrinks(fs, fs0, path, hops);
    StartIsFirst(fs0, walked, path, base, dirs, j);
    TurnIsEmpty(fs0, walked, fs, path, base, dirs, j, hops);
    assert Image(path, base, path) == base;
    if j > 0 {
      var x := dirs[j];
      assert Reached(fs0, path, base, dirs, x) && ParentBefore(path, dirs, j);
      var up := Parent(x);
      assert path <= up && up + [Last(x)] == x;
      ImageChild(path, base, up, Last(x));
      assert Attached(fs, Image(path, base, x));
      assert path + up[|path|..] == up;
      RealBelow(fs, path, base, up[|path|..], hops);
    } else if path != [] {
      LostBelow(fs, Parent(path), path, hops);
      RealShrinks(fs, fs0, Parent(path), hops);
    }
  }

  /** A path that names a directory leads to it. */
  lemma DirIsReal(fs: Fs, p: Path, hops: nat)
    requires WellFormed(fs) && Locate(fs, p, hops).Some?
    ensures var c := Locate(fs, p, hops).value; c in fs && (fs[c].Dir? ==> Real(fs, p, hops) == Some(c))
  {
  }

  /** Whatever part of the tree it is looked for in, a name is found in one place only. */
  lemma LocateShrinks(fs: Fs, fs0: Fs, p: Path, hops: nat)
    requires IsPart(fs, fs0) && Locate(fs, p, hops).Some?
    ensures Locate(fs0, p, hops) == Locate(fs, p, hops)
  {
    hide Real;
    if p == [] {
    } else {
      RealShrinks(fs, fs0, Parent(p), hops);
    }
  }

  /** A `remove_dir` that goes through takes away the image of the path it was given. */
  lemma UnwindStep(fs0: Fs, walked: Fs, fs: Fs, fs': Fs, path: Path, base: Path, dirs: seq<Path>, j: nat, hops: nat)
    requires WalkDone(fs0, walked, path, base, dirs, hops) && WellFormed(fs)
    requires j < |dirs| && Unwound(walked, fs, path, base, dirs, j + 1)
    requires var c := Locate(fs, dirs[j], hops); c.Some? && c.value in fs && fs[c.value].Dir? && fs' == fs - {c.value}
    ensures Unwound(walked, fs', path, base, dirs, j)
    ensures Real(fs, path, hops).Some?
    ensures j == 0 ==> Locate(fs0, path, hops) == Some(base)
  {
    hide Real, Locate, Swept;
    var x := dirs[j];
    var c := Locate(fs, x, hops).value;
    StartIsFirst(fs0, walked, path, base, dirs, j);
    TurnIsEmpty(fs0, walked, fs, path, base, dirs, j, hops);
    DirIsReal(fs, x, hops);
    LostBelow(fs, path, x, hops);
    TurnIsNamed(fs0, walked, fs, path, base, dirs, j, hops);
    if j == 0 {
      RealShrinks(fs, fs0, path, hops);
      LocateShrinks(fs, fs0, path, hops);
      assert Image(path, base, path) == base;
    }
    assert dirs[j..] == [x] + dirs[j + 1..];
  }

  /** A directory below the start is the image of a listed one, the start of the first. */
  lemma ListedAt(fs0: Fs, walked: Fs, path: Path, base: Path, dirs: seq<Path>, p: Path, hops: nat) returns (k: nat)
    requires WalkDone(fs0, walked, path, base, dirs, hops) && p in fs0 && fs0[p].Dir? && base <= p
    ensures k < |dirs| && path <= dirs[k] && Image(path, base, dirs[k]) == p
    ensures k == 0 <==> p == base
  {
    hide Real, Swept;
    AllListed(fs0, walked, path, base, dirs, p);
    var d := path + p[|base|..];
    k :| 0 <= k < |dirs| && dirs[k] == d;
    StartIsFirst(fs0, walked, path, base, dirs, k);
    assert Image(path, base, d) == p && d[|path|..] == p[|base|..];
    assert d == path <==> p[|base|..] == [];
  }

  /** What both loops leave, without their last step and with it. */
  lemma SubtreeGone(fs0: Fs, walked: Fs, fs: Fs, path: Path, base: Path, dirs: seq<Path>, j: nat, hops: nat)
    requires WalkDone(fs0, walked, path, base, dirs, hops)
    requires j <= 1 && j <= |dirs| && Unwound(walked, fs, path, base, dirs, j)
    ensures fs == fs0 - (Subtree(fs0, base) - if j == 1 then {base} else {})
  {
    hide Real, Swept;
    forall p | p in fs0 ensures p in fs <==> !(base <= p) || (j == 1 && p == base) {
      if base <= p && fs0[p].Dir? {
        var k := ListedAt(fs0, walked, path, base, dirs, p, hops);
        assert k >= j ==> dirs[j..][k - j] == dirs[k];
        if k < j {
          StartStays(fs0, walked, path, base, dirs);
        }
      } else if base <= p {
        FilesGone(fs0, walked, path, base, dirs, p);
      }
    }
  }

  /** The start is not the image of anything listed after it. */
  lemma StartStays(fs0: Fs, walked: Fs, path: Path, base: Path, dirs: seq<Path>)
    requires Walked(fs0, walked, path, base, dirs, []) && dirs != []
    ensures base !in Images(path, base, dirs[1..])
  {
    hide Real;
    StartIsFirst(fs0, walked, path, base, dirs, 0);
    assert Image(path, base, path) == base;
    forall d | d in dirs[1..] && path <= d ensures Image(path, base, d) != base {
      if Image(path, base, d) == base { ImageInjective(path, base, d, path); }
    }
  }

  /** What `remove` accepts, for any path: it names a file, or a link that leads to something
      not a directory, or a directory that is empty, or, when forced, a directory below which
      no link of the way lies; and it is not the top of the tree. */
  ghost predicate Removable(fs: Fs, path: Path, force: bool, hops: nat) {
    var c := Locate(fs, path, hops);
    && path != [] && c.Some? && c.value in fs
    && match fs[c.value]
       case File => true
       case Dir => if force then Steady(fs, path, hops, c.value) else Children(fs, c.value) == {}
       case Link(_) => var q := Real(fs, path, hops); q.Some? && q.value in fs && !fs[q.value].Dir?
  }

  /** The nodes a call may touch: the one named, and those below where it leads. */
  ghost predicate InReach(fs: Fs, path: Path, hops: nat, p: Path) {
    || Locate(fs, path, hops) == Some(p)
    || (Real(fs, path, hops).Some? && Real(fs, path, hops).value <= p)
  }

  ghost predicate Progress(fs0: Fs, fs: Fs, log0: seq<Path>, log: seq<Path>) {
    && IsPart(fs, fs0)
    && log0 <= log && Accounts(fs, fs0, log[|log0|..])
  }

  lemma ProgressStep(fs0: Fs, fs: Fs, log0: seq<Path>, log: seq<Path>, c: Path)
    requires Progress(fs0, fs, log0, log) && c in fs
    ensures Progress(fs0, fs - {c}, log0, log + [c])
  {
    var a, b := log[|log0|..], (log + [c])[|log0|..];
    assert b == a + [c];
    assert forall p :: p in b <==> p in a || p == c;
    assert c !in (set p | p in a);
    assert (set p | p in b) == (set p | p in a) + {c};
    assert (fs - {c}).Keys == fs.Keys - {c};
  }

  /** Of what was removed since `log0`, only the last can lie on `trail`: once the way to the
      start is broken, nothing more goes. */
  ghost predicate BreaksLast(trail: set<Path>, log0: seq<Path>, log: seq<Path>) {
    forall k :: |log0| <= k < |log| - 1 ==> log[k] !in trail
  }

  lemma BreakStep(fs0: Fs, fs: Fs, log0: seq<Path>, log: seq<Path>, path: Path, c: Path, hops: nat)
    requires Progress(fs0, fs, log0, log) && Real(fs0, path, hops).Some? && Real(fs, path, hops).Some?
    ensures BreaksLast(Trail(fs0, path, hops), log0, log + [c])
  {
    hide Real, Trail;
    TrailDecides(fs, fs0, path, hops);
    forall k | |log0| <= k < |log| ensures log[k] !in fs {
      assert log[|log0|..][k - |log0|] == log[k];
      assert log[k] in (set p | p in log[|log0|..]);
    }
    assert forall k :: 0 <= k < |log| ==> (log + [c])[k] == log[k];
  }

  /** With no link of the way below the directory, nothing that is lost below it matters. */
  lemma SteadyResolves(fs0: Fs, fs: Fs, path: Path, base: Path, hops: nat)
    requires IsPart(fs, fs0) && Real(fs0, path, hops) == Some(base) && Steady(fs0, path, hops, base)
    requires forall p :: p in fs0 && p !in fs ==> base <= p && p != base
    ensures Real(fs, path, hops) == Some(base)
  {
    hide Real, Trail, Steady;
    forall c | c in Trail(fs0, path, hops) ensures c in fs {
      SteadyTrail(fs0, path, hops, base, c);
    }
    TrailDecides(fs, fs0, path, hops);
  }

  /** With a link of the way below the directory, a complete walk breaks the way. */
  lemma WalkBreaks(fs0: Fs, fs: Fs, path: Path, base: Path, dirs: seq<Path>, hops: nat)
    requires WalkDone(fs0, fs, path, base, dirs, hops) && !Steady(fs0, path, hops, base)
    ensures Real(fs, path, hops).None?
  {
    hide Real, Trail;
    var c :| c in Trail(fs0, path, hops) && fs0[c].Link? && base <= c;
    FilesGone(fs0, fs, path, base, dirs, c);
    TrailDecides(fs, fs0, path, hops);
  }

  /** The body of the first loop after a listing: directories are pushed, the rest deleted. */
  method HandleEntries(sftp: Sftp, dir: Path, pending: seq<Path>, entries: seq<Entry>,
                       ghost fs0: Fs, ghost log0: seq<Path>, ghost path: Path, ghost base: Path, ghost dirs: seq<Path>)
    returns (ok: bool, stack: seq<Path>)
    requires sftp.Valid() && Progress(fs0, sftp.fs, log0, sftp.log)
    requires WellFormed(fs0) && Real(fs0, path, sftp.hops) == Some(base)
    requires path <= dir && Visiting(fs0, sftp.fs, path, base, dirs, dir, pending, entries, 0)
    requires IsListing(sftp.fs, Image(path, base, dir), entries)
    requires BreaksLast(Trail(fs0, path, sftp.hops), log0, sftp.log)
    modifies sftp`fs, sftp`clock, sftp`log
    ensures sftp.Valid() && Progress(fs0, sftp.fs, log0, sftp.log)
    ensures Walked(fs0, sftp.fs, path, base, dirs + [dir], stack)
    ensures ok ==> Swept(fs0, sftp.fs, path, base, dirs + [dir], Noted(dirs + [dir], stack))
    ensures BreaksLast(Trail(fs0, path, sftp.hops), log0, sftp.log)
    ensures sftp.NeverFails() && !ok ==> Real(sftp.fs, path, sftp.hops).None?
  {
    hide Real, Trail, Locate, Swept, Accounts, WellFormed, Attached;
    ghost var fs1 := sftp.fs;
    stack := pending;
    for i := 0 to |entries|
      invariant sftp.Valid() && Progress(fs0, sftp.fs, log0, sftp.log)
      invariant IsPart(sftp.fs, fs1)
      invariant Visiting(fs0, sftp.fs, path, base, dirs, dir, stack, entries, i)
      invariant BreaksLast(Trail(fs0, path, sftp.hops), log0, sftp.log)
    {
      var name := entries[i].name;
      if IsDot(name) { continue; }
      var entryPath := dir + [name];
      if entries[i].node.Dir? {
        VisitDir(fs0, sftp.fs, path, base, dirs, dir, stack, entries, i);
        stack := stack + [entryPath];
      } else {
        ghost var before, beforeLog := sftp.fs, sftp.log;
        LocateEntry(fs0, before, path, base, dirs, dir, stack, entries, i, sftp.hops);
        var removed := sftp.RemoveFile(entryPath);
        if removed.Err? { return false, stack; }
        BreakStep(fs0, before, log0, beforeLog, path, Image(path, base, dir) + [name], sftp.hops);
        ProgressStep(fs0, before, log0, beforeLog, Image(path, base, dir) + [name]);
        VisitFile(fs0, before, sftp.fs, path, base, dirs, dir, stack, entries, i);
      }
    }
    EndVisit(fs0, sftp.fs, fs1, path, base, dirs, dir, stack, entries);
    ok := true;
  }

  lemma Shrinks(fs0: Fs, fs: Fs, path: Path, base: Path, dirs: seq<Path>, stack: seq<Path>, dir: Path)
    requires path <= dir && dir !in dirs
    requires Walked(fs0, fs, path, base, dirs + [dir], stack)
    ensures fs0.Keys - Images(path, base, dirs + [dir]) < fs0.Keys - Images(path, base, dirs)
  {
    var c := Image(path, base, dir);
    assert Reached(fs0, path, base, dirs + [dir], dir);
    forall d | d in dirs && path <= d ensures Image(path, base, d) != c {
      if Image(path, base, d) == c { ImageInjective(path, base, d, dir); }
    }
    assert Images(path, base, dirs + [dir]) == Images(path, base, dirs) + {c} by {
      assert dir in dirs + [dir];
    }
  }

  lemma StartWalk(fs0: Fs, path: Path, base: Path, log0: seq<Path>)
    requires base in fs0 && fs0[base].Dir?
    ensures Walked(fs0, fs0, path, base, [], [path]) && Swept(fs0, fs0, path, base, [], Noted([], [path]))
    ensures Progress(fs0, fs0, log0, log0)
  {
    assert Image(path, base, path) == base;
    assert log0[|log0|..] == [];
  }

  /** The first loop of a forced removal. */
  method DeleteContents(sftp: Sftp, path: Path, ghost base: Path) returns (ok: bool, dirs: seq<Path>)
    requires sftp.Valid()
    requires Real(sftp.fs, path, sftp.hops) == Some(base) && base in sftp.fs && sftp.fs[base].Dir?
    modifies sftp`fs, sftp`clock, sftp`log
    ensures sftp.Valid() && Progress(old(sftp.fs), sftp.fs, old(sftp.log), sftp.log)
    ensures forall p :: p in old(sftp.fs) && p !in sftp.fs ==> base <= p && !old(sftp.fs)[p].Dir?
    ensures ok ==> WalkDone(old(sftp.fs), sftp.fs, path, base, dirs, sftp.hops)
    ensures BreaksLast(Trail(old(sftp.fs), path, sftp.hops), old(sftp.log), sftp.log)
    ensures sftp.NeverFails() && !ok ==> Real(sftp.fs, path, sftp.hops).None?
  {
    hide Real, Trail, Locate, WellFormed, Attached, Swept, Accounts;
    ghost var fs0, log0 := sftp.fs, sftp.log;
    var stack: seq<Path> := [path];
    dirs := [];
    StartWalk(fs0, path, base, log0);
    while stack != []
      invariant sftp.Valid() && Progress(fs0, sftp.fs, log0, sftp.log)
      invariant Walked(fs0, sftp.fs, path, base, dirs, stack)
      invariant Swept(fs0, sftp.fs, path, base, dirs, Noted(dirs, stack))
      invariant BreaksLast(Trail(fs0, path, sftp.hops), log0, sftp.log)
      decreases fs0.Keys - Images(path, base, dirs)
    {
      Pop(fs0, sftp.fs, path, base, dirs, stack);
      var dir := stack[|stack| - 1];
      stack := stack[..|stack| - 1];
      Shrinks(fs0, sftp.fs, path, base, dirs, stack, dir);
      assert Reached(fs0, path, base, dirs + [dir], dir);
      ResolvesToImage(fs0, sftp.fs, path, base, dir, sftp.hops);
      if Real(sftp.fs, path, sftp.hops).Some? {
        NotedResolves(fs0, sftp.fs, path, base, dirs + [dir], stack, dir, sftp.hops);
      }
      var listing := sftp.ReadDir(dir);
      if listing.Err? { return false, dirs; }
      BeginVisit(fs0, sftp.fs, path, base, dirs, dir, stack, listing.value);
      ok, stack := HandleEntries(sftp, dir, stack, listing.value, fs0, log0, path, base, dirs);
      if !ok { return; }
      dirs := dirs + [dir];
    }
    ok := true;
  }

  /** One round of the second loop. */
  method DeleteTurn(sftp: Sftp, path: Path, dirs: seq<Path>, j: nat, ghost base: Path,
                    ghost fs0: Fs, ghost log0: seq<Path>, ghost walked: Fs)
    returns (r: Result<()>)
    requires sftp.Valid() && Progress(fs0, sftp.fs, log0, sftp.log)
    requires WalkDone(fs0, walked, path, base, dirs, sftp.hops)
    requires j < |dirs| && Unwound(walked, sftp.fs, path, base, dirs, j + 1)
    modifies sftp`fs, sftp`clock, sftp`log
    ensures sftp.Valid() && Progress(fs0, sftp.fs, log0, sftp.log)
    ensures r.Err? ==> sftp.fs == old(sftp.fs) && sftp.log == old(sftp.log)
    ensures r.Ok? ==> Unwound(walked, sftp.fs, path, base, dirs, j)
    ensures r.Ok? ==> Real(old(sftp.fs), path, sftp.hops).Some?
    ensures r.Ok? && j == 0 ==> path != [] && Locate(fs0, path, sftp.hops) == Some(base)
    ensures sftp.NeverFails() && Real(old(sftp.fs), path, sftp.hops).Some? ==>
              (r.Ok? <==> j > 0 || (path != [] && Locate(fs0, path, sftp.hops) == Some(base)))
  {
    hide Real, Trail, Locate, Unwound, Swept, Walked;
    ghost var before, beforeLog := sftp.fs, sftp.log;
    WalkedStart(fs0, walked, path, base, dirs, j, sftp.hops);
    TurnIsEmpty(fs0, walked, before, path, base, dirs, j, sftp.hops);
    if Real(before, path, sftp.hops).Some? {
      TurnIsNamed(fs0, walked, before, path, base, dirs, j, sftp.hops);
    }
    r := sftp.RemoveDir(dirs[j]);
    if r.Ok? {
      ghost var c := Locate(before, dirs[j], sftp.hops).value;
      DirIsReal(before, dirs[j], sftp.hops);
      ProgressStep(fs0, before, log0, beforeLog, c);
      UnwindStep(fs0, walked, before, sftp.fs, path, base, dirs, j, sftp.hops);
    }
  }

  lemma WalkedStart(fs0: Fs, walked: Fs, path: Path, base: Path, dirs: seq<Path>, j: nat, hops: nat)
    requires WalkDone(fs0, walked, path, base, dirs, hops) && j < |dirs|
    ensures dirs[j] == path <==> j == 0
    ensures Image(path, base, path) == base
  {
    StartIsFirst(fs0, walked, path, base, dirs, j);
  }

  lemma UnwoundIsBelow(fs0: Fs, walked: Fs, fs: Fs, path: Path, base: Path, dirs: seq<Path>, j: nat)
    requires j <= |dirs| && Unwound(walked, fs, path, base, dirs, j)
    ensures forall p :: p in walked && p !in fs ==> base <= p
  {
  }

  /** Until its own turn, the start is there, and a steady way still leads to it. */
  lemma StillSteady(fs0: Fs, walked: Fs, fs: Fs, path: Path, base: Path, dirs: seq<Path>, j: nat, hops: nat)
    requires WalkDone(fs0, walked, path, base, dirs, hops) && Steady(fs0, path, hops, base)
    requires 1 <= j <= |dirs| && Unwound(walked, fs, path, base, dirs, j)
    ensures Real(fs, path, hops) == Some(base)
  {
    hide Real, Trail, Steady, Swept;
    StartStays(fs0, walked, path, base, dirs);
    assert forall d :: d in dirs[j..] ==> d in dirs[1..];
    SteadyResolves(fs0, fs, path, base, hops);
  }

  /** The second loop: the listed directories, deepest first. */
  method DeleteDirectories(sftp: Sftp, path: Path, dirs: seq<Path>, ghost base: Path, ghost fs0: Fs, ghost log0: seq<Path>)
    returns (r: Result<()>)
    requires sftp.Valid() && Progress(fs0, sftp.fs, log0, sftp.log)
    requires WalkDone(fs0, sftp.fs, path, base, dirs, sftp.hops)
    modifies sftp`fs, sftp`clock, sftp`log
    ensures sftp.Valid() && Progress(fs0, sftp.fs, log0, sftp.log)
    ensures forall p :: p in old(sftp.fs) && p !in sftp.fs ==> base <= p
    ensures r.Ok? ==> path != [] && Locate(fs0, path, sftp.hops) == Some(base) && sftp.fs == fs0 - Subtree(fs0, base)
    ensures !Steady(fs0, path, sftp.hops, base) ==> r.Err? && sftp.fs == old(sftp.fs) && sftp.log == old(sftp.log)
    ensures sftp.NeverFails() && Steady(fs0, path, sftp.hops, base) ==>
              && (r.Ok? <==> path != [] && Locate(fs0, path, sftp.hops) == Some(base))
              && (r.Err? ==> sftp.fs == fs0 - (Subtree(fs0, base) - {base}))
  {
    hide Real, Trail, Locate, Steady, Unwound, Swept, Walked;
    ghost var walked := sftp.fs;
    ghost var steady := Steady(fs0, path, sftp.hops, base);
    BeforeUnwinding(fs0, walked, path, base, dirs, sftp.hops);
    if !steady { WalkBreaks(fs0, walked, path, base, dirs, sftp.hops); }
    var j := |dirs|;
    while j > 0
      invariant 0 <= j <= |dirs|
      invariant sftp.Valid() && Progress(fs0, sftp.fs, log0, sftp.log)
      invariant Unwound(walked, sftp.fs, path, base, dirs, j)
      invariant j == 0 ==> path != [] && Locate(fs0, path, sftp.hops) == Some(base)
      invariant !steady ==> j == |dirs| && sftp.fs == walked && sftp.log == old(sftp.log)
    {
      UnwoundIsBelow(fs0, walked, sftp.fs, path, base, dirs, j);
      if steady { StillSteady(fs0, walked, sftp.fs, path, base, dirs, j, sftp.hops); }
      j := j - 1;
      var removed := DeleteTurn(sftp, path, dirs, j, base, fs0, log0, walked);
      if removed.Err? {
        if j == 0 { SubtreeGone(fs0, walked, sftp.fs, path, base, dirs, 1, sftp.hops); }
        return Err;
      }
    }
    UnwoundIsBelow(fs0, walked, sftp.fs, path, base, dirs, 0);
    SubtreeGone(fs0, walked, sftp.fs, path, base, dirs, 0, sftp.hops);
    r := Ok(());
  }

  lemma BeforeUnwinding(fs0: Fs, walked: Fs, path: Path, base: Path, dirs: seq<Path>, hops: nat)
    requires WalkDone(fs0, walked, path, base, dirs, hops)
    ensures |dirs| > 0 && Unwound(walked, walked, path, base, dirs, |dirs|)
  {
    assert path in Noted(dirs, []);
  }

  /** A forced removal of a directory. */
  ghost predicate IsTreeRemoval(fs: Fs, path: Path, force: bool, hops: nat) {
    force && Real(fs, path, hops).Some? && Real(fs, path, hops).value in fs && fs[Real(fs, path, hops).value].Dir?
  }

  /** What a fault-free forced removal of the directory that `path` leads to comes to. When no
      link on the way lies below that directory, it is emptied, and it goes too if and only if
      the path names it and not a link to it. Otherwise the call fails, every directory stays,
      and a node of the way is the last that goes. */
  ghost predicate TreeRemoval(fs0: Fs, fs: Fs, path: Path, hops: nat, log0: seq<Path>, log: seq<Path>, ok: bool)
    requires Real(fs0, path, hops).Some? && log0 <= log
  {
    var base := Real(fs0, path, hops).value;
    if Steady(fs0, path, hops, base) then
      && (ok <==> path != [] && Locate(fs0, path, hops) == Some(base))
      && fs == fs0 - (Subtree(fs0, base) - if ok then {} else {base})
    else
      && !ok && (forall p :: p in fs0 && fs0[p].Dir? ==> p in fs)
      && |log| > |log0| && log[|log| - 1] in Trail(fs0, path, hops)
      && BreaksLast(Trail(fs0, path, hops), log0, log)
  }

  method Remove(sftp: Sftp, path: Path, force: bool) returns (r: Result<()>)
    requires sftp.Valid()
    modifies sftp`fs, sftp`clock, sftp`log
    ensures sftp.Valid()
    ensures Progress(old(sftp.fs), sftp.fs, old(sftp.log), sftp.log)
    ensures forall p :: p in old(sftp.fs) && p !in sftp.fs ==> InReach(old(sftp.fs), path, sftp.hops, p)
    ensures r.Ok? ==> var c := Locate(old(sftp.fs), path, sftp.hops);
              c.Some? && sftp.fs == old(sftp.fs) - Subtree(old(sftp.fs), c.value)
    ensures sftp.NeverFails() ==> (r.Ok? <==> Removable(old(sftp.fs), path, force, sftp.hops))
    ensures r.Err? && !IsTreeRemoval(old(sftp.fs), path, force, sftp.hops) ==> sftp.fs == old(sftp.fs)
    ensures sftp.NeverFails() && IsTreeRemoval(old(sftp.fs), path, force, sftp.hops) ==>
              TreeRemoval(old(sftp.fs), sftp.fs, path, sftp.hops, old(sftp.log), sftp.log, r.Ok?)
  {
    hide Trail, Steady;
    ghost var fs0, log0, hops := sftp.fs, sftp.log, sftp.hops;
    NamedIsReal(fs0, path, hops);
    var metadata := sftp.Metadata(path);
    if metadata.Err? { return Err; }
    ghost var base := Real(fs0, path, hops).value;
    if metadata.value.Dir? {
      if force {
        r := RemoveDirectory(sftp, path, base);
      } else {
        r := sftp.RemoveDir(path);
        if r.Ok? { RemovedOne(fs0, log0, path, hops); }
      }
    } else {
      r := sftp.RemoveFile(path);
      if r.Ok? { FileHasNoChildren(fs0, Locate(fs0, path, hops).value); RemovedOne(fs0, log0, path, hops); }
    }
  }

  /** The two loops of a forced removal. */
  method RemoveDirectory(sftp: Sftp, path: Path, ghost base: Path) returns (r: Result<()>)
    requires sftp.Valid()
    requires Real(sftp.fs, path, sftp.hops) == Some(base) && base in sftp.fs && sftp.fs[base].Dir?
    modifies sftp`fs, sftp`clock, sftp`log
    ensures sftp.Valid() && Progress(old(sftp.fs), sftp.fs, old(sftp.log), sftp.log)
    ensures forall p :: p in old(sftp.fs) && p !in sftp.fs ==> base <= p
    ensures r.Ok? ==> path != [] && Locate(old(sftp.fs), path, sftp.hops) == Some(base)
                      && sftp.fs == old(sftp.fs) - Subtree(old(sftp.fs), base)
    ensures sftp.NeverFails() ==> TreeRemoval(old(sftp.fs), sftp.fs, path, sftp.hops, old(sftp.log), sftp.log, r.Ok?)
  {
    hide Real, Trail, Locate, Steady, WalkDone, Accounts;
    ghost var fs0, log0, hops := sftp.fs, sftp.log, sftp.hops;
    var ok, dirs := DeleteContents(sftp, path, base);
    ghost var walked := sftp.fs;
    if sftp.NeverFails() && Steady(fs0, path, hops, base) {
      SteadyResolves(fs0, walked, path, base, hops);
    }
    if ok && !Steady(fs0, path, hops, base) {
      WalkBreaks(fs0, walked, path, base, dirs, hops);
    }
    if Real(walked, path, hops).None? {
      LastBreaks(fs0, walked, log0, sftp.log, path, hops);
    }
    if !ok { return Err; }
    r := DeleteDirectories(sftp, path, dirs, base, fs0, log0);
  }

  /** A way that is broken was broken by the last removal. */
  lemma LastBreaks(fs0: Fs, fs: Fs, log0: seq<Path>, log: seq<Path>, path: Path, hops: nat)
    requires Progress(fs0, fs, log0, log) && Real(fs0, path, hops).Some? && Real(fs, path, hops).None?
    requires BreaksLast(Trail(fs0, path, hops), log0, log)
    ensures |log| > |log0| && log[|log| - 1] in Trail(fs0, path, hops)
  {
    hide Real, Trail;
    TrailDecides(fs, fs0, path, hops);
    var c :| c in Trail(fs0, path, hops) && c !in fs;
    assert c in fs0.Keys - fs.Keys;
    assert c in (set p | p in log[|log0|..]);
    assert c in log[|log0|..];
    var k :| |log0| <= k < |log| && log[k] == c;
  }

  /** A path that names something other than a link leads to just that; one that leads
      somewhere names something. */
  lemma NamedIsReal(fs: Fs, path: Path, hops: nat)
    requires WellFormed(fs)
    ensures var c := Locate(fs, path, hops);
            && (c.Some? ==> c.value in fs && (!fs[c.value].Link? ==> Real(fs, path, hops) == c))
            && (Real(fs, path, hops).Some? ==> c.Some? && Real(fs, path, hops).value in fs)
  {
  }

  /** A physical path is removable if and only if it is a file, a directory that is empty or
      forced, or a link to something not a directory, and not the top: the way to a physical
      directory has no links at all. */
  lemma RemovableKey(fs: Fs, path: Path, force: bool, hops: nat)
    requires WellFormed(fs) && path in fs
    ensures Removable(fs, path, force, hops) <==>
              && path != []
              && match fs[path]
                 case File => true
                 case Dir => force || Children(fs, path) == {}
                 case Link(_) => var q := Real(fs, path, hops); q.Some? && q.value in fs && !fs[q.value].Dir?
  {
    LocateOfKey(fs, path, hops);
    if fs[path].Dir? {
      TrailOfDir(fs, path, hops);
    }
  }

  lemma {:induction false} TrailOfDir(fs: Fs, p: Path, hops: nat)
    requires WellFormed(fs) && p in fs && fs[p].Dir?
    ensures forall c :: c in Trail(fs, p, hops) ==> fs[c].Dir?
    decreases |p|
  {
    if p == [] {
    } else {
      assert Attached(fs, p);
      TrailOfDir(fs, Parent(p), hops);
      RealOfDir(fs, Parent(p), hops);
      assert Parent(p) + [Last(p)] == p;
    }
  }

  lemma RemovedOne(fs0: Fs, log0: seq<Path>, path: Path, hops: nat)
    requires WellFormed(fs0)
    requires var c := Locate(fs0, path, hops); c.Some? && c.value in fs0 && Children(fs0, c.value) == {}
    ensures var c := Locate(fs0, path, hops).value;
            && fs0 - {c} == fs0 - Subtree(fs0, c)
            && Progress(fs0, fs0 - {c}, log0, log0 + [c])
  {
    var c := Locate(fs0, path, hops).value;
    forall q | q in fs0 && c <= q ensures q == c {
      if q != c {
        var child := q[..|c| + 1];
        assert child == c + [q[|c|]];
        if child != q { AncestorIsDir(fs0, child, q); }
      }
    }
    assert log0[|log0|..] == [];
    ProgressStep(fs0, fs0, log0, log0, c);
  }

  // ----- Removing through a link: one input for each side -----

  const OUTSIDE_LINK: Fs := map[[] := Dir, ["d"] := Dir, ["d", "m"] := File, ["l"] := Link(["d"])]

  lemma OutsideLinkWay(hops: nat)
    requires hops > 0
    ensures Locate(OUTSIDE_LINK, ["l"], hops) == Some(["l"]) && Real(OUTSIDE_LINK, ["l"], hops) == Some(["d"])
    ensures Steady(OUTSIDE_LINK, ["l"], hops, ["d"])
  {
    var fs := OUTSIDE_LINK;
    assert Parent(["l"]) == [] && Parent(["d"]) == [] && "d"[0] != "l"[0];
    assert Real(fs, [], hops) == Some([]) && [] + [Last(["l"])] == ["l"];
    assert Real(fs, [], hops - 1) == Some([]) && [] + [Last(["d"])] == ["d"];
    assert Real(fs, ["d"], hops - 1) == Some(["d"]);
    assert Trail(fs, ["d"], hops - 1) == {["d"]};
    assert Trail(fs, ["l"], hops) == {["l"], ["d"]};
    assert !(["d"] <= ["l"]) by {
      assert ["d"][0] != ["l"][0];
    }
  }

  /** A link from elsewhere: its directory is emptied, and then the call fails. */
  method RemoveOutsideLink(sftp: Sftp) returns (r: Result<()>)
    requires sftp.Valid() && sftp.NeverFails() && sftp.hops > 0 && sftp.fs == OUTSIDE_LINK
    modifies sftp`fs, sftp`clock, sftp`log
    ensures r.Err? && sftp.fs == OUTSIDE_LINK - {["d", "m"]}
  {
    hide Real, Trail, Steady, Locate;
    OutsideLinkWay(sftp.hops);
    r := Remove(sftp, ["l"], true);
    assert "d"[0] != "l"[0];
    assert Subtree(OUTSIDE_LINK, ["d"]) == {["d"], ["d", "m"]} by {
      assert !(["d"] <= ["l"]) by {
        assert ["d"][0] != ["l"][0];
      }
    }
  }

  /** A file named through the link goes, although the path is not a physical one. */
  method RemoveThroughLink(sftp: Sftp) returns (r: Result<()>)
    requires sftp.Valid() && sftp.NeverFails() && sftp.hops > 0 && sftp.fs == OUTSIDE_LINK
    modifies sftp`fs, sftp`clock, sftp`log
    ensures r.Ok? && sftp.fs == OUTSIDE_LINK - {["d", "m"]}
  {
    hide Real, Trail, Steady;
    OutsideLinkWay(sftp.hops);
    assert Parent(["l", "m"]) == ["l"] && ["d"] + [Last(["l", "m"])] == ["d", "m"];
    r := Remove(sftp, ["l", "m"], false);
    assert Subtree(OUTSIDE_LINK, ["d", "m"]) == {["d", "m"]};
  }

  const INSIDE_LINK: Fs := map[[] := Dir, ["d"] := Dir, ["d", "l"] := Link(["d"]), ["d", "m"] := File]

  lemma InsideLinkWay(hops: nat)
    requires hops > 0
    ensures Real(INSIDE_LINK, ["d", "l"], hops) == Some(["d"])
    ensures Trail(INSIDE_LINK, ["d", "l"], hops) == {["d"], ["d", "l"]}
    ensures !Steady(INSIDE_LINK, ["d", "l"], hops, ["d"])
  {
    var fs := INSIDE_LINK;
    assert Parent(["d", "l"]) == ["d"] && Parent(["d"]) == [];
    forall h: nat ensures Real(fs, ["d"], h) == Some(["d"]) && Trail(fs, ["d"], h) == {["d"]} {
      assert Real(fs, [], h) == Some([]) && [] + [Last(["d"])] == ["d"];
      assert Trail(fs, [], h) == {};
    }
    assert ["d"] + [Last(["d", "l"])] == ["d", "l"];
    assert Trail(fs, ["d", "l"], hops) == {["d"]} + ({["d", "l"]} + {["d"]});
    assert ["d"] <= ["d", "l"];
  }

  /** A link from inside: the call fails with the link gone and the directory there. Whether
      the file beside it goes is up to the listing. */
  method RemoveInsideLink(sftp: Sftp) returns (r: Result<()>)
    requires sftp.Valid() && sftp.NeverFails() && sftp.hops > 0 && sftp.fs == INSIDE_LINK
    modifies sftp`fs, sftp`clock, sftp`log
    ensures r.Err? && ["d"] in sftp.fs && ["d", "l"] !in sftp.fs
  {
    hide Real, Trail, Steady, Locate;
    InsideLinkWay(sftp.hops);
    ghost var log0 := sftp.log;
    r := Remove(sftp, ["d", "l"], true);
    ghost var last := sftp.log[|sftp.log| - 1];
    assert sftp.log[|log0|..][|sftp.log| - 1 - |log0|] == last;
    assert last in (set p | p in sftp.log[|log0|..]);
  }

  /** When the link comes first, the file stays: the walk cannot name it any more. */
  method LinkFirst(sftp: Sftp) returns (first: Result<()>, second: Result<()>)
    requires sftp.Valid() && sftp.NeverFails() && sftp.hops > 0 && sftp.fs == INSIDE_LINK
    modifies sftp`fs, sftp`clock, sftp`log
    ensures first.Ok? && second.Err? && sftp.fs == INSIDE_LINK - {["d", "l"]}
  {
    hide Real, Trail, Steady;
    InsideLinkWay(sftp.hops);
    assert Parent(["d", "l", "l"]) == ["d", "l"] && Parent(["d", "l", "m"]) == ["d", "l"];
    assert ["d"] + ["l"] == ["d", "l"];
    first := sftp.RemoveFile(["d", "l", "l"]);
    TrailDecides(sftp.fs, INSIDE_LINK, ["d", "l"], sftp.hops);
    second := sftp.RemoveFile(["d", "l", "m"]);
  }
}
