/** `copy` of the local host: a recursive copy driven by a walk of the source in which
    every directory comes before what it holds. Files keep their bytes; a symbolic link is
    copied as the file it leads to. */
module HostCopy {
  import opened Wrappers
  import opened FileTree

  type Byte = b: int | 0 <= b < 256
  type Data = seq<Byte>

  // ----- The file operations of the operating system -----

  ghost predicate IsDirAt(fs: Fs, p: Path) {
    p == [] || (p in fs && fs[p].Dir?)
  }

  /** The node a file opened for writing at `p` ends up in: links are followed, also to a
      name that is still free; directories cannot be written. */
  function WriteTarget(fs: Fs, p: Path, hops: nat): Option<Path>
    decreases hops
  {
    if p == [] then None
    else
      match Real(fs, Parent(p), hops)
      case None => None
      case Some(q) =>
        var c := q + [Last(p)];
        if q != [] && !fs[q].Dir? then None
        else if c !in fs then Some(c)
        else match fs[c]
          case Dir => None
          case File => Some(c)
          case Link(t) => if hops == 0 then None else WriteTarget(fs, t, hops - 1)
  }

  /** Where `create_dir_all(p)` lands: the directory `p` leads to or will lead to. None when
      something that is not a directory is in the way. */
  function Landing(fs: Fs, p: Path, hops: nat): (r: Option<Path>)
    ensures p == [] ==> r == Some([])
  {
    match Real(fs, p, hops)
    case Some(q) => if q == [] || fs[q].Dir? then Some(q) else None
    case None =>
      assert p != [];
      match Landing(fs, Parent(p), hops)
      case None => None
      case Some(d) => if d + [Last(p)] in fs then None else Some(d + [Last(p)])
  }

  /** `big` has all of `small`, plus directories at prefixes of `d`. */
  ghost predicate AddsDirs(small: Fs, big: Fs, d: Path) {
    && (forall p :: p in small ==> p in big && big[p] == small[p])
    && (forall p :: p in big && p !in small ==> big[p].Dir? && p <= d)
    && (forall p :: p <= d ==> p in big)
  }

  predicate Proper(p: Path) {
    forall i :: 0 <= i < |p| ==> !IsDot(p[i])
  }

  class Host {
    var tree: Fs
    var content: map<Path, Data>
    const hops: nat

    ghost predicate Valid()
      reads this
    {
      && WellFormed(tree)
      && (forall p :: p in tree && tree[p].Link? ==> Proper(tree[p].target))
      && (forall p :: p in content <==> p in tree && tree[p].File?)
    }

    method CreateDir(p: Path) returns (ok: bool)
      requires Valid() && Proper(p)
      modifies `tree
      ensures Valid()
      ensures ok <==> p != [] && Real(old(tree), Parent(p), hops).Some?
                      && IsDirAt(old(tree), Real(old(tree), Parent(p), hops).value)
                      && Real(old(tree), Parent(p), hops).value + [Last(p)] !in old(tree)
      ensures tree == if ok then old(tree)[Real(old(tree), Parent(p), hops).value + [Last(p)] := Dir] else old(tree)
    {
      ok := false;
      if p != [] {
        match Real(tree, Parent(p), hops)
        case None =>
        case Some(q) =>
          if (q == [] || tree[q].Dir?) && q + [Last(p)] !in tree {
            AddLeaf(tree, q, Last(p), Dir);
            tree := tree[q + [Last(p)] := Dir];
            ok := true;
          }
      }
    }

    /** Makes the missing directories of `p`; if it cannot, it changes nothing. */
    method CreateDirAll(p: Path) returns (ok: bool)
      requires Valid() && Proper(p)
      modifies `tree
      ensures Valid()
      ensures ok <==> Landing(old(tree), p, hops).Some?
      ensures ok ==> AddsDirs(old(tree), tree, Landing(old(tree), p, hops).value)
      ensures ok ==> Real(tree, p, hops) == Landing(old(tree), p, hops)
      ensures !ok || Real(old(tree), p, hops).Some? ==> tree == old(tree)
      decreases |p|
    {
      match Real(tree, p, hops)
      case Some(q) =>
        ok := q == [] || tree[q].Dir?;
        if ok {
          PrefixesPresent(tree, q);
        }
      case None =>
        ok := CreateDirAll(Parent(p));
        if ok {
          ghost var before, d := tree, Landing(old(tree), Parent(p), hops).value;
          ok := CreateDir(p);
          if ok {
            LandsBelow(old(tree), before, tree, p, d, hops);
          } else {
            NothingAdded(old(tree), before, d, d + [Last(p)]);
          }
        }
    }

    /** Copies the bytes of the file at `from` to `to`; a file copied onto itself is lost,
        because it is emptied before it is read. */
    method CopyFile(from: Path, to: Path) returns (ok: bool)
      requires Valid() && Proper(to)
      modifies this
      ensures Valid()
      ensures ok <==> Real(old(tree), from, hops).Some? && Real(old(tree), from, hops).value in old(content)
                      && WriteTarget(old(tree), to, hops).Some?
      ensures !ok ==> tree == old(tree) && content == old(content)
      ensures ok ==>
        var f := Real(old(tree), from, hops).value;
        var t := WriteTarget(old(tree), to, hops).value;
        tree == old(tree)[t := File] && content == old(content)[t := if t == f then [] else old(content)[f]]
    {
      var f, t := Real(tree, from, hops), WriteTarget(tree, to, hops);
      ok := f.Some? && f.value in content && t.Some?;
      if ok {
        TargetIsAttached(tree, to, hops);
        if t.value !in tree {
          assert Parent(t.value) + [Last(t.value)] == t.value;
          AddLeaf(tree, Parent(t.value), Last(t.value), File);
        } else {
          assert tree[t.value := File] == tree;
        }
        content := content[t.value := if t == f then [] else content[f.value]];
        tree := tree[t.value := File];
      }
    }

    /** One entry of the walk: `r` below the source directory `s`, to be copied to `r` below
        the destination directory `d`, whose parent is there already. */
    method CopyEntry(src: Path, dst: Path, s: Path, ghost d: Path, r: Path) returns (ok: bool)
      requires Valid() && r != [] && Proper(dst + r)
      requires Real(tree, src, hops) == Some(s) && s + r in tree
      requires Real(tree, dst, hops) == Some(d) && IsDirAt(tree, d + Parent(r))
      requires d + r in tree ==> !tree[d + r].Link?
      modifies this
      ensures Valid()
      ensures ok <==> EntryFits(old(tree), old(content), hops, src, s, d, r)
      ensures !ok ==> tree == old(tree) && content == old(content)
      ensures ok ==> tree == old(tree)[d + r := KindOf(old(tree)[s + r])]
      ensures ok && old(tree)[s + r].Dir? ==> content == old(content)
      ensures ok && !old(tree)[s + r].Dir? ==>
        var f := Real(old(tree), src + r, hops).value;
        content == old(content)[d + r := if d + r == f then [] else old(content)[f]]
    {
      hide Real, WriteTarget, Landing, WellFormed, Attached, AddsDirs;
      var parent := dst + Parent(r);
      assert parent == (dst + r)[..|dst + r| - 1];
      ParentLands(tree, dst, d, r, hops);
      var made := CreateDirAll(parent);
      assert made && tree == old(tree);
      var target := parent + [Last(r)];
      assert target == dst + r && Parent(target) == parent;
      if tree[s + r].Dir? {
        ok := CreateDir(target);
      } else {
        ok := CopyFile(src + r, target);
      }
    }

    /** `walk` is what the directory walk yields below the source: relative paths. */
    method Copy(src: Path, dst: Path, walk: seq<Path>) returns (ok: bool)
      requires Valid() && Proper(dst)
      requires var s := Real(tree, src, hops);
               s.Some? && IsDirAt(tree, s.value) ==>
                 && IsWalk(tree, s.value, walk)
                 && (Landing(tree, dst, hops).Some? ==> Apart(JobOf(tree, content, hops, src, dst)))
      modifies this
      ensures Valid()
      ensures var s := old(Real(tree, src, hops));
              if s.None? || (IsDirAt(old(tree), s.value) && old(Landing(tree, dst, hops)).None?) then
                !ok && tree == old(tree) && content == old(content)
              else if IsDirAt(old(tree), s.value) then
                var j := JobOf(old(tree), old(content), hops, src, dst);
                && (ok <==> forall r :: r in walk ==> Fits(j, r))
                && (ok ==> Half(j, walk, tree, content))
                && (!ok ==> exists k :: 0 <= k < |walk| && Half(j, walk[..k], tree, content))
              else
                var t := old(WriteTarget(tree, dst, hops));
                && (ok <==> t.Some?)
                && tree == (if ok then old(tree)[t.value := File] else old(tree))
                && content == (if ok then old(content)[t.value := if t == s then [] else old(content)[s.value]] else old(content))
    {
      match Real(tree, src, hops)
      case None => ok := false;
      case Some(s) =>
        if s == [] || tree[s].Dir? {
          ok := CopyTree(src, dst, s, walk);
        } else {
          ok := CopyFile(src, dst);
        }
    }

    method CopyTree(src: Path, dst: Path, s: Path, walk: seq<Path>) returns (ok: bool)
      requires Valid() && Proper(dst)
      requires Real(tree, src, hops) == Some(s) && IsDirAt(tree, s) && IsWalk(tree, s, walk)
      requires Landing(tree, dst, hops).Some? ==> Apart(JobOf(tree, content, hops, src, dst))
      modifies this
      ensures Valid()
      ensures old(Landing(tree, dst, hops)).None? ==> !ok && tree == old(tree) && content == old(content)
      ensures old(Landing(tree, dst, hops)).Some? ==>
        var j := JobOf(old(tree), old(content), hops, src, dst);
        && (ok <==> forall r :: r in walk ==> Fits(j, r))
        && (ok ==> Half(j, walk, tree, content))
        && (!ok ==> exists k :: 0 <= k < |walk| && Half(j, walk[..k], tree, content))
    {
      hide Real, WriteTarget, Landing, WellFormed, AddsDirs, IsWalk, Apart, Half, Fits;
      ok := CreateDirAll(dst);
      if !ok {
        return;
      }
      ghost var j := JobOf(old(tree), old(content), hops, src, dst);
      HalfStart(j, tree);
      var i := 0;
      assert walk[..0] == [];
      while i < |walk|
        invariant 0 <= i <= |walk| && Valid()
        invariant Half(j, walk[..i], tree, content) && Real(tree, dst, hops) == Some(j.d)
      {
        var r := walk[i];
        ghost var tree0, content0 := tree, content;
        EntryReady(j, walk, i, tree, content);
        ok := CopyEntry(src, dst, s, j.d, r);
        if !ok {
          return;
        }
        HalfNext(j, walk, i, tree0, content0, tree, content);
        RealShrinks(tree0, tree, dst, hops);
        i := i + 1;
      }
      assert walk[..|walk|] == walk;
      HalfFits(j, walk, tree, content);
    }
  }

  /** What an entry becomes: a link becomes the file it leads to. */
  function KindOf(n: Node): Node {
    if n.Dir? then Dir else File
  }

  /** A directory needs a free name; anything else must lead to a file and needs a name that
      is free or a file's. */
  ghost predicate EntryFits(fs: Fs, content: map<Path, Data>, hops: nat, src: Path, s: Path, d: Path, r: Path)
    requires s + r in fs
  {
    if fs[s + r].Dir? then d + r !in fs
    else
      && Real(fs, src + r, hops).Some? && Real(fs, src + r, hops).value in content
      && (d + r in fs ==> fs[d + r].File?)
  }

  /** The parent of an entry's target resolves to where it should, and so does the target. */
  lemma ParentLands(fs: Fs, dst: Path, d: Path, r: Path, hops: nat)
    requires WellFormed(fs) && r != [] && Real(fs, dst, hops) == Some(d) && IsDirAt(fs, d + Parent(r))
    requires d + r in fs ==> !fs[d + r].Link?
    ensures Real(fs, dst + Parent(r), hops) == Some(d + Parent(r)) == Landing(fs, dst + Parent(r), hops)
    ensures Parent(dst + r) == dst + Parent(r) && d + Parent(r) + [Last(r)] == d + r
    ensures WriteTarget(fs, dst + r, hops) == if d + r in fs && fs[d + r].Dir? then None else Some(d + r)
  {
    hide Real, Landing, WriteTarget, Attached;
    RealBelow(fs, dst, d, Parent(r), hops);
    assert Parent(dst + r) == dst + Parent(r) && Last(dst + r) == Last(r);
    assert (d + Parent(r)) + [Last(r)] == d + r;
    LandsThere(fs, dst + Parent(r), d + Parent(r), hops);
    WritesThere(fs, dst + r, d + Parent(r), hops);
  }

  lemma LandsThere(fs: Fs, p: Path, q: Path, hops: nat)
    requires Real(fs, p, hops) == Some(q) && IsDirAt(fs, q)
    ensures Landing(fs, p, hops) == Some(q)
  {
  }

  lemma WritesThere(fs: Fs, p: Path, q: Path, hops: nat)
    requires p != [] && Real(fs, Parent(p), hops) == Some(q) && IsDirAt(fs, q)
    requires q + [Last(p)] in fs ==> !fs[q + [Last(p)]].Link?
    ensures var c := q + [Last(p)];
            WriteTarget(fs, p, hops) == if c in fs && fs[c].Dir? then None else Some(c)
  {
  }

  lemma AddLeaf(fs: Fs, d: Path, n: Name, node: Node)
    requires WellFormed(fs) && IsDirAt(fs, d) && d + [n] !in fs && !IsDot(n)
    ensures WellFormed(fs[d + [n] := node])
  {
    var big := fs[d + [n] := node];
    assert Parent(d + [n]) == d;
    forall q {:trigger Attached(big, q)} | q in big ensures Attached(big, q) {
      if q != d + [n] {
        assert Attached(fs, q);
      }
    }
  }

  lemma PrefixesPresent(fs: Fs, d: Path)
    requires WellFormed(fs) && IsDirAt(fs, d)
    ensures AddsDirs(fs, fs, d)
  {
    forall p | p <= d ensures p in fs {
      if p != d {
        AncestorIsDir(fs, p, d);
      }
    }
  }

  lemma LandsBelow(fs: Fs, before: Fs, after: Fs, p: Path, d: Path, hops: nat)
    requires WellFormed(fs) && WellFormed(before) && p != [] && AddsDirs(fs, before, d)
    requires Real(before, Parent(p), hops) == Some(d) && d + [Last(p)] !in before
    requires after == before[d + [Last(p)] := Dir]
    ensures AddsDirs(fs, after, d + [Last(p)]) && Real(after, p, hops) == Some(d + [Last(p)])
    ensures d + [Last(p)] !in fs
  {
    RealShrinks(before, after, Parent(p), hops);
    forall q | q <= d + [Last(p)] ensures q in after {
      assert q <= d || q == d + [Last(p)];
    }
  }

  lemma NothingAdded(fs: Fs, big: Fs, d: Path, below: Path)
    requires WellFormed(fs) && AddsDirs(fs, big, d) && below in big && d <= below && d != below
    ensures below in fs && big == fs
  {
    if below in fs {
      forall p | p in big ensures p in fs {
        if p !in fs {
          AncestorIsDir(fs, p, below);
        }
      }
    }
  }

  lemma {:induction false} TargetIsAttached(fs: Fs, p: Path, hops: nat)
    requires WellFormed(fs) && Proper(p) && WriteTarget(fs, p, hops).Some?
    requires forall q :: q in fs && fs[q].Link? ==> Proper(fs[q].target)
    ensures var t := WriteTarget(fs, p, hops).value;
            t != [] && if t in fs then fs[t].File? else IsDirAt(fs, Parent(t)) && !IsDot(Last(t))
    decreases hops
  {
    var q := Real(fs, Parent(p), hops).value;
    var c := q + [Last(p)];
    assert Parent(c) == q;
    if c in fs && fs[c].Link? {
      TargetIsAttached(fs, fs[c].target, hops - 1);
    }
  }

  // ----- Where directories and files end up -----

  /** `k` names of `p` lead somewhere and no more do: making directories works iff that place
      is a directory in which the next name is free, and the rest of `p` goes below it. */
  lemma {:induction false} LandingMeans(fs: Fs, p: Path, hops: nat, k: nat)
    requires WellFormed(fs) && k <= |p| && Real(fs, p[..k], hops).Some?
    requires k < |p| ==> Real(fs, p[..k + 1], hops).None?
    ensures var q := Real(fs, p[..k], hops).value;
            Landing(fs, p, hops) == if IsDirAt(fs, q) && (k == |p| || q + [p[k]] !in fs) then Some(q + p[k..]) else None
    decreases |p|
  {
    hide Real, WellFormed, Attached;
    var q := Real(fs, p[..k], hops).value;
    if k == |p| {
      assert p[..k] == p && q + p[k..] == q;
    } else {
      if Real(fs, p, hops).Some? {
        LostBelow(fs, p[..k + 1], p, hops);
      }
      var up := Parent(p);
      assert up[..k] == p[..k] && (k < |up| ==> up[..k + 1] == p[..k + 1]);
      LandingMeans(fs, up, hops, k);
      var d := q + up[k..];
      assert d + [Last(p)] == q + p[k..];
      if k < |up| {
        assert q + [p[k]] == (q + p[k..])[..|q| + 1];
        if q + p[k..] in fs {
          AncestorIsDir(fs, q + [p[k]], q + p[k..]);
        }
      } else {
        assert d == q && p[k..] == [p[k]];
      }
    }
  }

  /** The target of a write is the one node at which a file can be, or come to be, found
      under the name written to. */
  lemma WriteTargetIff(fs: Fs, p: Path, hops: nat, t: Path)
    requires WellFormed(fs) && Proper(p) && forall q :: q in fs && fs[q].Link? ==> Proper(fs[q].target)
    ensures WriteTarget(fs, p, hops) == Some(t) <==>
              && t != [] && (t in fs ==> fs[t].File?) && WellFormed(fs[t := File])
              && Real(fs[t := File], p, hops) == Some(t)
  {
    hide Real, WriteTarget, WellFormed, Attached, Proper;
    if WriteTarget(fs, p, hops) == Some(t) {
      TargetIsAttached(fs, p, hops);
      if t !in fs {
        assert Parent(t) + [Last(t)] == t;
        AddLeaf(fs, Parent(t), Last(t), File);
      } else {
        assert fs[t := File] == fs;
      }
      WrittenIsFound(fs, p, hops, t);
    } else if t != [] && (t in fs ==> fs[t].File?) && WellFormed(fs[t := File]) && Real(fs[t := File], p, hops) == Some(t) {
      FoundIsWritten(fs, p, hops, t);
    }
  }

  lemma {:induction false} WrittenIsFound(fs: Fs, p: Path, hops: nat, t: Path)
    requires WellFormed(fs) && WriteTarget(fs, p, hops) == Some(t) && (t in fs ==> fs[t].File?)
    ensures Real(fs[t := File], p, hops) == Some(t)
    decreases hops
  {
    var big := fs[t := File];
    RealShrinks(fs, big, Parent(p), hops);
    var c := Real(fs, Parent(p), hops).value + [Last(p)];
    if c in fs && fs[c].Link? {
      WrittenIsFound(fs, fs[c].target, hops - 1, t);
    }
  }

  /** A new file is not on the way to anything else. */
  lemma {:induction false} NewFileIsLeaf(fs: Fs, p: Path, hops: nat, t: Path)
    requires WellFormed(fs[t := File]) && t !in fs
    requires Real(fs[t := File], p, hops).Some? && Real(fs[t := File], p, hops).value != t
    ensures Real(fs, p, hops) == Real(fs[t := File], p, hops)
    decreases hops, |p|
  {
    var big := fs[t := File];
    if p == [] {
    } else {
      var q := Real(big, Parent(p), hops).value;
      var c := q + [Last(p)];
      assert Attached(big, c) && Parent(c) == q;
      NewFileIsLeaf(fs, Parent(p), hops, t);
      if big[c].Link? {
        NewFileIsLeaf(fs, big[c].target, hops - 1, t);
      }
    }
  }

  lemma {:induction false} FoundIsWritten(fs: Fs, p: Path, hops: nat, t: Path)
    requires WellFormed(fs) && WellFormed(fs[t := File]) && t != [] && (t in fs ==> fs[t].File?)
    requires Real(fs[t := File], p, hops) == Some(t)
    ensures WriteTarget(fs, p, hops) == Some(t)
    decreases hops
  {
    var big := fs[t := File];
    var q := Real(big, Parent(p), hops).value;
    var c := q + [Last(p)];
    assert Attached(big, c) && Parent(c) == q;
    if t in fs {
      assert big == fs;
    } else {
      NewFileIsLeaf(fs, Parent(p), hops, t);
    }
    if big[c].Link? {
      FoundIsWritten(fs, big[c].target, hops - 1, t);
    }
  }

  // ----- What a copied tree looks like -----

  /** A copy about to start: the filesystem, and where the two paths lead in it. */
  datatype Job = Job(fs: Fs, content: map<Path, Data>, hops: nat, src: Path, s: Path, dst: Path, d: Path)

  ghost function JobOf(fs: Fs, content: map<Path, Data>, hops: nat, src: Path, dst: Path): Job
    requires Real(fs, src, hops).Some? && Landing(fs, dst, hops).Some?
  {
    Job(fs, content, hops, src, Real(fs, src, hops).value, dst, Landing(fs, dst, hops).value)
  }

  /** Every node below `s` once, each directory before what it holds. */
  ghost predicate IsWalk(fs: Fs, s: Path, walk: seq<Path>) {
    && (forall r :: r in walk <==> r != [] && s + r in fs)
    && NoDup(walk)
    && (forall i :: 0 <= i < |walk| && |walk[i]| > 1 ==> Parent(walk[i]) in walk[..i])
  }

  /** Resolving a link of the source neither ends in what the copy may write nor stops at a
      name where the copy may put something. */
  ghost predicate SafeLink(j: Job, r: Path) {
    j.s + r in j.fs && j.fs[j.s + r].Link? ==>
      match Real(j.fs, j.src + r, j.hops)
      case Some(f) => !(j.d <= f)
      case None =>
        var m := Missing(j.fs, j.src + r, j.hops);
        m.Some? ==> !(j.d <= m.value) && !(m.value <= j.d)
  }

  /** The destination is outside the source, holds no links, and no link of the source runs
      into it; links may dangle. */
  ghost predicate Apart(j: Job) {
    && !(j.s <= j.d)
    && (forall p :: p in j.fs && j.d <= p && p != j.d ==> !j.fs[p].Link?)
    && (forall r {:trigger SafeLink(j, r)} :: SafeLink(j, r))
  }

  ghost predicate Fits(j: Job, r: Path) {
    j.s + r in j.fs && EntryFits(j.fs, j.content, j.hops, j.src, j.s, j.d, r)
  }

  predicate Made(j: Job, done: seq<Path>, p: Path) {
    j.d <= p && p[|j.d|..] in done
  }

  /** What entry `r` should have become. */
  ghost predicate IsCopied(j: Job, r: Path, tree: Fs, content: map<Path, Data>) {
    && Fits(j, r) && j.d + r in tree
    && tree[j.d + r] == (if j.fs[j.s + r].Dir? then Dir else File)
    && (!j.fs[j.s + r].Dir? ==>
          j.d + r in content && content[j.d + r] == j.content[Real(j.fs, j.src + r, j.hops).value])
  }

  /** The entries in `done` have been copied, and nothing else has changed. */
  ghost predicate Half(j: Job, done: seq<Path>, tree: Fs, content: map<Path, Data>) {
    && (forall p :: p in tree <==> p in j.fs || p <= j.d || Made(j, done, p))
    && (forall p :: p in j.fs ==> tree[p] == j.fs[p])
    && (forall p :: p <= j.d ==> tree[p].Dir?)
    && (forall r :: r in done ==> IsCopied(j, r, tree, content))
    && (forall p :: p in j.content && !Made(j, done, p) ==> p in content && content[p] == j.content[p])
  }

  /** What is known about the filesystem a job starts in. */
  ghost predicate Sound(j: Job) {
    && WellFormed(j.fs) && Proper(j.dst)
    && (forall p :: p in j.content <==> p in j.fs && j.fs[p].File?)
    && Real(j.fs, j.src, j.hops) == Some(j.s) && IsDirAt(j.fs, j.s)
    && Landing(j.fs, j.dst, j.hops) == Some(j.d)
  }

  lemma HalfStart(j: Job, tree: Fs)
    requires Sound(j) && WellFormed(tree) && AddsDirs(j.fs, tree, j.d)
    ensures Half(j, [], tree, j.content)
  {
    forall p | p <= j.d ensures tree[p].Dir? {
      if p != j.d {
        AncestorIsDir(tree, p, j.d);
      }
    }
  }

  lemma HalfFits(j: Job, done: seq<Path>, tree: Fs, content: map<Path, Data>)
    requires Half(j, done, tree, content)
    ensures forall r :: r in done ==> Fits(j, r)
  {
  }

  /** The target of the next entry is as it was at the start. */
  lemma TargetUntouched(j: Job, walk: seq<Path>, i: nat, tree: Fs, content: map<Path, Data>)
    requires IsWalk(j.fs, j.s, walk) && i < |walk| && Half(j, walk[..i], tree, content)
    ensures walk[i] != [] && j.s + walk[i] in j.fs
    ensures walk[i] !in walk[..i]
    ensures j.d + walk[i] in tree <==> j.d + walk[i] in j.fs
  {
    var r := walk[i];
    assert r in walk;
    assert !(j.d + r <= j.d);
    assert (j.d + r)[|j.d|..] == r;
  }

  lemma ParentMade(j: Job, walk: seq<Path>, i: nat, tree: Fs, content: map<Path, Data>)
    requires Sound(j) && IsWalk(j.fs, j.s, walk) && i < |walk| && Half(j, walk[..i], tree, content)
    ensures walk[i] != [] && IsDirAt(tree, j.d + Parent(walk[i]))
  {
    var r := walk[i];
    assert r in walk;
    if |r| > 1 {
      var q := Parent(r);
      assert IsCopied(j, q, tree, content);
      assert Attached(j.fs, j.s + r);
      assert Parent(j.s + r) == j.s + q;
    } else {
      assert j.d + Parent(r) == j.d;
      assert j.d <= j.d;
    }
  }

  /** What is not a link leads to itself. */
  lemma SourceResolves(j: Job, r: Path)
    requires Sound(j) && r != [] && j.s + r in j.fs && !j.fs[j.s + r].Link?
    ensures Real(j.fs, j.src + r, j.hops) == Some(j.s + r)
  {
    hide Real, Landing;
    assert Attached(j.fs, j.s + r);
    assert Parent(j.s + r) == j.s + Parent(r);
    RealBelow(j.fs, j.src, j.s, Parent(r), j.hops);
    assert Parent(j.src + r) == j.src + Parent(r);
    assert (j.s + Parent(r)) + [Last(r)] == j.s + r;
    RealOfChild(j.fs, j.src + r, j.s + Parent(r), j.hops);
  }

  lemma {:induction false} AncestorInWalk(fs: Fs, s: Path, walk: seq<Path>, i: nat, x: Path, q: Path)
    requires IsWalk(fs, s, walk) && i <= |walk|
    requires q in walk[..i] && x != [] && x <= q
    ensures x in walk[..i]
    decreases |q|
  {
    if x != q {
      var k :| 0 <= k < i && walk[k] == q;
      assert Parent(q) in walk[..k];
      assert Parent(q) in walk[..i];
      AncestorInWalk(fs, s, walk, i, x, Parent(q));
    }
  }

  /** No regular file of the source has been written. */
  lemma SourceFileUntouched(j: Job, walk: seq<Path>, i: nat, tree: Fs, content: map<Path, Data>, r: Path)
    requires Sound(j) && !(j.s <= j.d) && IsWalk(j.fs, j.s, walk) && i <= |walk| && Half(j, walk[..i], tree, content)
    requires r != [] && j.s + r in j.fs
    ensures !Made(j, walk[..i], j.s + r)
    ensures j.s + r != j.d + r
  {
    hide Sound, Half, IsWalk;
    Cancel(j.s, j.d, r);
    if Made(j, walk[..i], j.s + r) {
      PrefixesCompare(j.d, j.s, j.s + r);
      var x := j.s[|j.d|..];
      assert (j.s + r)[|j.d|..] == x + r && j.d + x == j.s && x != [];
      AncestorInWalk(j.fs, j.s, walk, i, x, x + r);
      AncestorFits(j, walk[..i], tree, content, x, x + r);
      assert false;
    }
  }

  /** An ancestor of a copied entry was a directory of the source without a namesake. */
  lemma AncestorFits(j: Job, done: seq<Path>, tree: Fs, content: map<Path, Data>, x: Path, q: Path)
    requires Sound(j) && Half(j, done, tree, content)
    requires x in done && q in done && x <= q && x != q
    ensures j.d + x !in j.fs && j.s in j.fs
  {
    assert IsCopied(j, x, tree, content) && IsCopied(j, q, tree, content);
    AncestorIsDir(j.fs, j.s + x, j.s + q);
  }

  /** No file the copy reads has been written by it. */
  lemma SourceUntouched(j: Job, walk: seq<Path>, i: nat, tree: Fs, content: map<Path, Data>, r: Path)
    requires Sound(j) && Apart(j) && IsWalk(j.fs, j.s, walk) && i <= |walk| && Half(j, walk[..i], tree, content)
    requires r != [] && j.s + r in j.fs && !j.fs[j.s + r].Dir? && Real(j.fs, j.src + r, j.hops).Some?
    ensures !Made(j, walk[..i], Real(j.fs, j.src + r, j.hops).value)
    ensures Real(j.fs, j.src + r, j.hops).value != j.d + r
  {
    hide Sound, Half, IsWalk, Real, Missing;
    assert SafeLink(j, r);
    if j.fs[j.s + r].File? {
      SourceResolves(j, r);
      SourceFileUntouched(j, walk, i, tree, content, r);
    }
  }

  lemma Cancel(a: Path, b: Path, r: Path)
    ensures a + r == b + r ==> a == b
  {
    if a + r == b + r {
      assert a == (a + r)[..|a|] && b == (b + r)[..|b|];
    }
  }

  lemma PrefixesCompare(a: Path, b: Path, p: Path)
    requires a <= p && b <= p
    ensures a <= b || b <= a
  {
    if |a| <= |b| {
      assert a == p[..|a|] && b[..|a|] == p[..|a|];
    } else {
      assert b == p[..|b|] && a[..|b|] == p[..|b|];
    }
  }

  lemma {:induction false} ProperKey(fs: Fs, p: Path)
    requires WellFormed(fs) && p in fs
    ensures Proper(p)
    decreases |p|
  {
    if p == [] {
    } else {
      assert Attached(fs, p);
      ProperKey(fs, Parent(p));
      assert Parent(p) + [Last(p)] == p;
    }
  }

  /** A path of the source resolves, or does not, as it did at the start. */
  lemma SourceSteady(j: Job, done: seq<Path>, tree: Fs, content: map<Path, Data>, r: Path)
    requires Sound(j) && Apart(j) && Half(j, done, tree, content)
    requires r != [] && j.s + r in j.fs && !j.fs[j.s + r].Dir?
    ensures Real(tree, j.src + r, j.hops) == Real(j.fs, j.src + r, j.hops)
  {
    hide Sound, Real, Missing, IsCopied;
    if Real(j.fs, j.src + r, j.hops).Some? {
      RealShrinks(j.fs, tree, j.src + r, j.hops);
    } else {
      assert SafeLink(j, r);
      if j.fs[j.s + r].File? {
        SourceResolves(j, r);
      }
      StillMissing(j.fs, tree, j.src + r, j.hops);
    }
  }

  /** A file the copy is about to read is found where it was, with the bytes it had. */
  lemma SourceReads(j: Job, walk: seq<Path>, i: nat, tree: Fs, content: map<Path, Data>, r: Path)
    requires Sound(j) && Apart(j) && IsWalk(j.fs, j.s, walk) && i <= |walk| && Half(j, walk[..i], tree, content)
    requires forall p :: p in content <==> p in tree && tree[p].File?
    requires r != [] && j.s + r in j.fs && !j.fs[j.s + r].Dir?
    ensures Real(tree, j.src + r, j.hops) == Real(j.fs, j.src + r, j.hops)
    ensures Real(j.fs, j.src + r, j.hops).Some? ==>
              var f := Real(j.fs, j.src + r, j.hops).value;
              && f != j.d + r
              && (f in content <==> f in j.content)
              && (f in j.content ==> content[f] == j.content[f])
  {
    hide Apart, IsWalk, Real, Landing, WellFormed, SafeLink, IsCopied, Made;
    SourceSteady(j, walk[..i], tree, content, r);
    if Real(j.fs, j.src + r, j.hops).Some? {
      SourceUntouched(j, walk, i, tree, content, r);
      RealIsKey(j.fs, j.src + r, j.hops);
    }
  }

  lemma EntryReady(j: Job, walk: seq<Path>, i: nat, tree: Fs, content: map<Path, Data>)
    requires Sound(j) && Apart(j) && IsWalk(j.fs, j.s, walk) && i < |walk| && Half(j, walk[..i], tree, content)
    requires WellFormed(tree) && forall p :: p in content <==> p in tree && tree[p].File?
    ensures var r := walk[i];
      && r != [] && Proper(j.dst + r)
      && Real(tree, j.src, j.hops) == Some(j.s) && j.s + r in tree
      && IsDirAt(tree, j.d + Parent(r))
      && (j.d + r in tree ==> !tree[j.d + r].Link?)
      && (EntryFits(tree, content, j.hops, j.src, j.s, j.d, r) <==> Fits(j, r))
  {
    hide IsWalk, Real, Landing, WellFormed, SafeLink, IsCopied, Made;
    var r := walk[i];
    TargetUntouched(j, walk, i, tree, content);
    ParentMade(j, walk, i, tree, content);
    RealShrinks(j.fs, tree, j.src, j.hops);
    ProperKey(j.fs, j.s + r);
    assert r == (j.s + r)[|j.s|..];
    if !j.fs[j.s + r].Dir? {
      SourceReads(j, walk, i, tree, content, r);
    }
  }

  lemma NodeKept(j: Job, done: seq<Path>, tree: Fs, content: map<Path, Data>, p: Path)
    requires Half(j, done, tree, content) && p in j.fs
    ensures p in tree && tree[p] == j.fs[p]
  {
    hide Made, IsCopied;
  }

  lemma HalfNext(j: Job, walk: seq<Path>, i: nat, tree: Fs, content: map<Path, Data>, tree': Fs, content': map<Path, Data>)
    requires Sound(j) && Apart(j) && IsWalk(j.fs, j.s, walk) && i < |walk| && Half(j, walk[..i], tree, content)
    requires forall p :: p in content <==> p in tree && tree[p].File?
    requires j.s + walk[i] in tree && Fits(j, walk[i])
    requires tree' == tree[j.d + walk[i] := KindOf(tree[j.s + walk[i]])]
    requires tree[j.s + walk[i]].Dir? ==> content' == content
    requires !tree[j.s + walk[i]].Dir? ==> Real(tree, j.src + walk[i], j.hops).Some?
    requires !tree[j.s + walk[i]].Dir? ==>
               var f := Real(tree, j.src + walk[i], j.hops).value;
               f in content && content' == content[j.d + walk[i] := if j.d + walk[i] == f then [] else content[f]]
    ensures Half(j, walk[..i + 1], tree', content')
  {
    hide IsWalk, Real, Landing, WellFormed, Apart, SafeLink, Half, Sound, Fits, KindOf, Made, IsCopied;
    var r := walk[i];
    TargetUntouched(j, walk, i, tree, content);
    NodeKept(j, walk[..i], tree, content, j.s + r);
    if !j.fs[j.s + r].Dir? {
      SourceReads(j, walk, i, tree, content, r);
    }
    HalfGrows(j, walk[..i], r, tree, content, tree', content');
    assert walk[..i + 1] == walk[..i] + [r];
  }

  lemma HalfGrows(j: Job, done: seq<Path>, r: Path, tree: Fs, content: map<Path, Data>, tree': Fs, content': map<Path, Data>)
    requires Half(j, done, tree, content) && r !in done && Fits(j, r) && r != []
    requires tree' == tree[j.d + r := KindOf(j.fs[j.s + r])]
    requires j.d + r in tree <==> j.d + r in j.fs
    requires j.fs[j.s + r].Dir? ==> content' == content
    requires !j.fs[j.s + r].Dir? ==>
               content' == content[j.d + r := j.content[Real(j.fs, j.src + r, j.hops).value]]
    ensures Half(j, done + [r], tree', content')
  {
    hide *;
    forall p ensures Made(j, done + [r], p) <==> Made(j, done, p) || p == j.d + r {
      MadeGrows(j, done, r, p);
    }
    NodesGrow(j, done, r, tree, content, tree');
    CopiesGrow(j, done, r, tree, content, tree', content');
    HalfOf(j, done + [r], tree', content');
  }

  lemma HalfOf(j: Job, done: seq<Path>, tree: Fs, content: map<Path, Data>)
    requires forall p :: p in tree <==> p in j.fs || p <= j.d || Made(j, done, p)
    requires forall p :: p in j.fs ==> tree[p] == j.fs[p]
    requires forall p :: p <= j.d ==> tree[p].Dir?
    requires forall r :: r in done ==> IsCopied(j, r, tree, content)
    requires forall p :: p in j.content && !Made(j, done, p) ==> p in content && content[p] == j.content[p]
    ensures Half(j, done, tree, content)
  {
    hide Made, IsCopied;
  }

  lemma MadeGrows(j: Job, done: seq<Path>, r: Path, p: Path)
    ensures Made(j, done + [r], p) <==> Made(j, done, p) || p == j.d + r
  {
    if p == j.d + r {
      assert p[|j.d|..] == r;
    }
    if j.d <= p {
      assert p == j.d + p[|j.d|..];
    }
  }

  lemma NodesGrow(j: Job, done: seq<Path>, r: Path, tree: Fs, content: map<Path, Data>, tree': Fs)
    requires Half(j, done, tree, content) && r !in done && Fits(j, r) && r != []
    requires tree' == tree[j.d + r := KindOf(j.fs[j.s + r])]
    requires forall p :: Made(j, done + [r], p) <==> Made(j, done, p) || p == j.d + r
    ensures forall p :: p in tree' <==> p in j.fs || p <= j.d || Made(j, done + [r], p)
    ensures forall p :: p in j.fs ==> tree'[p] == j.fs[p]
    ensures forall p :: p <= j.d ==> tree'[p].Dir?
  {
    hide Real, Made, IsCopied;
    assert !(j.d + r <= j.d);
  }

  lemma CopiesGrow(j: Job, done: seq<Path>, r: Path, tree: Fs, content: map<Path, Data>, tree': Fs, content': map<Path, Data>)
    requires Half(j, done, tree, content) && r !in done && Fits(j, r) && r != []
    requires tree' == tree[j.d + r := KindOf(j.fs[j.s + r])]
    requires j.fs[j.s + r].Dir? ==> content' == content
    requires !j.fs[j.s + r].Dir? ==>
               content' == content[j.d + r := j.content[Real(j.fs, j.src + r, j.hops).value]]
    requires forall p :: Made(j, done + [r], p) <==> Made(j, done, p) || p == j.d + r
    ensures forall q :: q in done + [r] ==> IsCopied(j, q, tree', content')
    ensures forall p :: p in j.content && !Made(j, done + [r], p) ==> p in content' && content'[p] == j.content[p]
  {
    hide Real, Made, EntryFits;
    forall q | q in done + [r] ensures IsCopied(j, q, tree', content') {
      if q != r {
        assert IsCopied(j, q, tree, content);
        assert (j.d + q)[|j.d|..] == q && (j.d + r)[|j.d|..] == r;
      }
    }
  }

  /** What can stand in the way of an entry: for a directory, a namesake of any kind; for a
      file, a directory of its name, a file there being overwritten; for a link, that it
      leads to no file, or such a directory. */
  lemma FitsIff(j: Job, r: Path)
    requires Sound(j) && Apart(j) && r != [] && j.s + r in j.fs
    ensures Fits(j, r) <==>
              match j.fs[j.s + r]
              case Dir => j.d + r !in j.fs
              case File => j.d + r in j.fs ==> !j.fs[j.d + r].Dir?
              case Link(_) =>
                && (exists f :: Real(j.fs, j.src + r, j.hops) == Some(f) && f in j.fs && j.fs[f].File?)
                && (j.d + r in j.fs ==> !j.fs[j.d + r].Dir?)
  {
    hide Real, Landing, SafeLink;
    assert j.d <= j.d + r && j.d + r != j.d;
    if j.fs[j.s + r].File? {
      SourceResolves(j, r);
    }
  }

  // ----- The main case: a plain tree into a free place -----

  /** The source holds directories and regular files only; the destination is outside it and
      is absent or empty. */
  ghost predicate PlainJob(j: Job) {
    && Sound(j) && !(j.s <= j.d)
    && (forall p :: p in j.fs && j.s <= p ==> !j.fs[p].Link?)
    && (forall p :: p in j.fs && j.d <= p ==> p == j.d)
  }

  /** Such a copy meets no obstacle, whatever the order of the walk: no directory it
      creates exists already, every file can be read and written. */
  lemma PlainJobFits(j: Job, r: Path)
    requires PlainJob(j) && r != [] && j.s + r in j.fs
    ensures Apart(j) && Fits(j, r)
  {
    hide Real, Landing;
    assert j.s <= j.s + r && j.d <= j.d + r;
    assert j.d + r != j.d;
    if !j.fs[j.s + r].Dir? {
      SourceResolves(j, r);
    }
    forall q {:trigger SafeLink(j, q)} ensures SafeLink(j, q) {
      assert j.s <= j.s + q;
    }
  }

  /** ... and ends with the destination equal to the source, node by node and byte by byte,
      and the source as it was. */
  lemma PlainJobCopies(j: Job, walk: seq<Path>, tree: Fs, content: map<Path, Data>, r: Path)
    requires PlainJob(j) && IsWalk(j.fs, j.s, walk) && Half(j, walk, tree, content) && r != []
    ensures j.s + r in tree <==> j.s + r in j.fs
    ensures j.d + r in tree <==> j.s + r in tree
    ensures j.s + r in tree ==> tree[j.s + r] == j.fs[j.s + r] && tree[j.d + r] == tree[j.s + r]
    ensures j.s + r in tree && tree[j.s + r].File? ==>
              && j.s + r in content && content[j.s + r] == j.content[j.s + r]
              && j.d + r in content && content[j.d + r] == content[j.s + r]
  {
    hide Real, Landing, WellFormed;
    assert (j.d + r)[|j.d|..] == r && j.d <= j.d + r && !(j.d + r <= j.d) && j.d + r != j.d;
    NotMade(j, walk, r);
    if j.s + r in j.fs {
      assert j.s <= j.s + r;
      assert IsCopied(j, r, tree, content);
      SourceResolves(j, r);
    }
  }

  /** Nothing below the source is below the destination, or on the way to it. */
  lemma NotMade(j: Job, done: seq<Path>, r: Path)
    requires PlainJob(j)
    ensures !Made(j, done, j.s + r) && !(j.s + r <= j.d)
  {
    RealIsKey(j.fs, j.src, j.hops);
    if j.d <= j.s + r {
      PrefixesCompare(j.d, j.s, j.s + r);
    }
  }
}
