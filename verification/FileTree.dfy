/** A remote filesystem as a finite map from absolute paths to nodes.

    A path is the sequence of its components. Every key of the map is a physical
    path: all of its proper prefixes are real directories. A path that runs through
    a symbolic link is not a key; `Real` resolves it. */
module FileTree {
  import opened Wrappers

  type Name = string
  type Path = seq<Name>

  datatype Node = Dir | File | Link(target: Path)

  type Fs = map<Path, Node>

  function Parent(p: Path): Path
    requires p != []
  {
    p[..|p| - 1]
  }

  function Last(p: Path): Name
    requires p != []
  {
    p[|p| - 1]
  }

  /** The two names every SFTP listing may contain beside the real entries. */
  predicate IsDot(n: Name) {
    n == "." || n == ".."
  }

  /** `p` has a proper name and sits in a real directory. */
  ghost predicate Attached(fs: Fs, p: Path) {
    p != [] ==> Last(p) != "." && Last(p) != ".." && Parent(p) in fs && fs[Parent(p)].Dir?
  }

  /** Instantiated only where `Attached` is mentioned: "every key's parent is a key"
      would otherwise climb to the root at every key in sight. */
  ghost predicate WellFormed(fs: Fs) {
    && [] in fs && fs[[]].Dir?
    && forall p {:trigger Attached(fs, p)} :: p in fs ==> Attached(fs, p)
  }

  function Children(fs: Fs, d: Path): (s: set<Name>)
    ensures forall n :: n in s <==> d + [n] in fs
  {
    var s := set p | p in fs && p != [] && Parent(p) == d :: Last(p);
    assert forall n :: d + [n] in fs ==> Parent(d + [n]) == d && Last(d + [n]) == n;
    assert forall p: Path | p != [] :: Parent(p) + [Last(p)] == p;
    s
  }

  /** `p` itself and everything below it. On sequences, `<=` is "is a prefix of". */
  ghost function Subtree(fs: Fs, p: Path): set<Path> {
    set q | q in fs && p <= q
  }

  /** Where the server ends up when it follows every link in `p`, the last component
      included. `hops` is the server's bound on nested links. */
  function Real(fs: Fs, p: Path, hops: nat): (r: Option<Path>)
    ensures r.Some? ==> r.value == [] || (r.value in fs && !fs[r.value].Link?)
    decreases hops, |p|
  {
    if p == [] then Some([])
    else
      match Real(fs, Parent(p), hops)
      case None => None
      case Some(q) =>
        var c := q + [Last(p)];
        if c !in fs then None
        else match fs[c]
          case Link(t) => if hops == 0 then None else Real(fs, t, hops - 1)
          case _ => Some(c)
  }

  /** The directory entry that `p` names: links are followed in the parent only. */
  function Locate(fs: Fs, p: Path, hops: nat): Option<Path> {
    if p == [] then Some([])
    else
      match Real(fs, Parent(p), hops)
      case None => None
      case Some(q) => if q + [Last(p)] in fs then Some(q + [Last(p)]) else None
  }

  /** A physical directory resolves to itself. */
  lemma {:induction false} RealOfDir(fs: Fs, p: Path, hops: nat)
    requires WellFormed(fs)
    requires p in fs && fs[p].Dir?
    ensures Real(fs, p, hops) == Some(p)
    decreases |p|
  {
    if p == [] {
    } else {
      assert Attached(fs, p);
      RealOfDir(fs, Parent(p), hops);
      assert Parent(p) + [Last(p)] == p;
    }
  }

  lemma LocateOfKey(fs: Fs, p: Path, hops: nat)
    requires WellFormed(fs)
    requires p in fs
    ensures Locate(fs, p, hops) == Some(p)
  {
    if p != [] {
      assert Attached(fs, p);
      RealOfDir(fs, Parent(p), hops);
      assert Parent(p) + [Last(p)] == p;
    }
  }

  /** Removing nodes can make a path unresolvable but never sends it elsewhere. */
  lemma {:induction false} RealShrinks(small: Fs, big: Fs, p: Path, hops: nat)
    requires small.Keys <= big.Keys && forall q :: q in small ==> small[q] == big[q]
    requires Real(small, p, hops).Some?
    ensures Real(big, p, hops) == Real(small, p, hops)
    decreases hops, |p|
  {
    if p == [] {
    } else {
      RealShrinks(small, big, Parent(p), hops);
      var c := Real(small, Parent(p), hops).value + [Last(p)];
      if small[c].Link? {
        RealShrinks(small, big, small[c].target, hops - 1);
      }
    }
  }

  lemma RealOfChild(fs: Fs, p: Path, q: Path, hops: nat)
    requires p != [] && Real(fs, Parent(p), hops) == Some(q)
    requires q + [Last(p)] in fs && !fs[q + [Last(p)]].Link?
    ensures Real(fs, p, hops) == Some(q + [Last(p)])
  {
  }

  lemma RealIsKey(fs: Fs, p: Path, hops: nat)
    requires WellFormed(fs) && Real(fs, p, hops).Some?
    ensures Real(fs, p, hops).value in fs
  {
  }

  /** Below a resolved directory, real directories resolve component by component. */
  lemma {:induction false} RealBelow(fs: Fs, p: Path, base: Path, rest: Path, hops: nat)
    requires WellFormed(fs)
    requires Real(fs, p, hops) == Some(base)
    requires base + rest in fs && fs[base + rest].Dir?
    ensures Real(fs, p + rest, hops) == Some(base + rest)
    decreases |rest|
  {
    if rest == [] {
      assert p + rest == p && base + rest == base;
    } else {
      assert Parent(base + rest) == base + Parent(rest);
      assert Parent(p + rest) == p + Parent(rest);
      assert Attached(fs, base + rest);
      RealBelow(fs, p, base, Parent(rest), hops);
      assert (base + Parent(rest)) + [Last(rest)] == base + rest;
    }
  }

  /** The nodes that resolving `p` looks at, links and what they lead to included. */
  function Trail(fs: Fs, p: Path, hops: nat): (r: set<Path>)
    ensures forall c :: c in r ==> c in fs
    decreases hops, |p|
  {
    if p == [] then {}
    else
      Trail(fs, Parent(p), hops) +
      match Real(fs, Parent(p), hops)
      case None => {}
      case Some(q) =>
        var c := q + [Last(p)];
        if c !in fs then {}
        else match fs[c]
          case Link(t) => {c} + if hops == 0 then {} else Trail(fs, t, hops - 1)
          case _ => {c}
  }

  /** In a part of a tree, a path that resolved still does if and only if nothing on its
      trail is missing. */
  lemma TrailDecides(small: Fs, big: Fs, p: Path, hops: nat)
    requires small.Keys <= big.Keys && forall q :: q in small ==> small[q] == big[q]
    requires Real(big, p, hops).Some?
    ensures Real(small, p, hops).Some? <==> Trail(big, p, hops) <= small.Keys
    ensures Real(small, p, hops).Some? ==> Real(small, p, hops) == Real(big, p, hops)
  {
    if Real(small, p, hops).Some? {
      RealShrinks(small, big, p, hops);
      TrailShrinks(small, big, p, hops);
    }
    if Trail(big, p, hops) <= small.Keys {
      TrailKept(small, big, p, hops);
    }
  }

  lemma {:induction false} TrailShrinks(small: Fs, big: Fs, p: Path, hops: nat)
    requires small.Keys <= big.Keys && forall q :: q in small ==> small[q] == big[q]
    requires Real(small, p, hops).Some?
    ensures Trail(small, p, hops) == Trail(big, p, hops)
    decreases hops, |p|
  {
    if p == [] {
    } else {
      TrailShrinks(small, big, Parent(p), hops);
      RealShrinks(small, big, Parent(p), hops);
      var c := Real(small, Parent(p), hops).value + [Last(p)];
      if small[c].Link? {
        TrailShrinks(small, big, small[c].target, hops - 1);
      }
    }
  }

  lemma {:induction false} TrailKept(small: Fs, big: Fs, p: Path, hops: nat)
    requires small.Keys <= big.Keys && forall q :: q in small ==> small[q] == big[q]
    requires Real(big, p, hops).Some? && Trail(big, p, hops) <= small.Keys
    ensures Real(small, p, hops) == Real(big, p, hops)
    decreases hops, |p|
  {
    if p == [] {
    } else {
      TrailKept(small, big, Parent(p), hops);
      var c := Real(big, Parent(p), hops).value + [Last(p)];
      assert c in Trail(big, p, hops);
      if big[c].Link? {
        TrailKept(small, big, big[c].target, hops - 1);
      }
    }
  }

  /** On the way to a directory there are only directories and links. */
  lemma {:induction false} TrailKinds(fs: Fs, p: Path, hops: nat, c: Path)
    requires WellFormed(fs) && Real(fs, p, hops).Some? && c in Trail(fs, p, hops)
    requires Real(fs, p, hops).value in fs && fs[Real(fs, p, hops).value].Dir?
    ensures fs[c].Dir? || fs[c].Link?
    decreases hops, |p|
  {
    if p == [] {
    } else {
      var q := Real(fs, Parent(p), hops).value;
      var d := q + [Last(p)];
      assert Attached(fs, d) && Parent(d) == q;
      if c in Trail(fs, Parent(p), hops) {
        TrailKinds(fs, Parent(p), hops, c);
      } else if fs[d].Link? && c != d {
        TrailKinds(fs, fs[d].target, hops - 1, c);
      }
    }
  }

  /** No link on the way to `p` lies in the tree below `base`. */
  ghost predicate Steady(fs: Fs, p: Path, hops: nat, base: Path) {
    forall c :: c in Trail(fs, p, hops) && fs[c].Link? ==> !(base <= c)
  }

  /** What a trail is made of. */
  lemma TrailParts(fs: Fs, p: Path, hops: nat)
    requires p != [] && Real(fs, p, hops).Some?
    ensures Real(fs, Parent(p), hops).Some?
    ensures var d := Real(fs, Parent(p), hops).value + [Last(p)];
            && d in fs
            && (fs[d].Link? ==> hops > 0 && Real(fs, fs[d].target, hops - 1) == Real(fs, p, hops))
            && (!fs[d].Link? ==> Real(fs, p, hops) == Some(d))
            && Trail(fs, p, hops) == Trail(fs, Parent(p), hops) + {d}
                                     + if fs[d].Link? then Trail(fs, fs[d].target, hops - 1) else {}
  {
  }

  lemma NoTrail(fs: Fs, hops: nat)
    ensures Trail(fs, [], hops) == {}
  {
  }

  lemma SteadyAt(fs: Fs, p: Path, hops: nat, base: Path, c: Path)
    requires Steady(fs, p, hops, base) && c in Trail(fs, p, hops) && fs[c].Link?
    ensures !(base <= c)
  {
  }

  lemma SteadyPart(fs: Fs, p: Path, hops: nat, base: Path, part: Path, left: nat)
    requires Steady(fs, p, hops, base) && Trail(fs, part, left) <= Trail(fs, p, hops)
    ensures Steady(fs, part, left, base)
  {
    hide Trail;
  }

  lemma NotBelowParent(base: Path, q: Path, n: Name)
    requires base <= q + [n] ==> q + [n] == base
    ensures !(base <= q)
  {
    assert base <= q ==> base <= q + [n];
  }

  /** Then nothing on that way lies below `base`, unless the way ends there. */
  lemma {:induction false} SteadyTrail(fs: Fs, p: Path, hops: nat, base: Path, c: Path)
    requires Real(fs, p, hops).Some? && Steady(fs, p, hops, base) && c in Trail(fs, p, hops)
    requires base <= Real(fs, p, hops).value ==> Real(fs, p, hops).value == base
    ensures base <= c ==> c == base
    decreases hops, |p|
  {
    hide Real, Trail, Steady;
    if p == [] {
      NoTrail(fs, hops);
    } else {
      TrailParts(fs, p, hops);
      var q := Real(fs, Parent(p), hops).value;
      var d := q + [Last(p)];
      if fs[d].Link? {
        SteadyAt(fs, p, hops, base, d);
      }
      NotBelowParent(base, q, Last(p));
      if c in Trail(fs, Parent(p), hops) {
        SteadyPart(fs, p, hops, base, Parent(p), hops);
        SteadyTrail(fs, Parent(p), hops, base, c);
      } else if c != d {
        SteadyPart(fs, p, hops, base, fs[d].target, hops - 1);
        SteadyTrail(fs, fs[d].target, hops - 1, base, c);
      }
    }
  }

  /** The name a resolution stops at because there is nothing under it. */
  function Missing(fs: Fs, p: Path, hops: nat): (r: Option<Path>)
    ensures r.Some? ==> r.value !in fs
    decreases hops, |p|
  {
    if p == [] then None
    else
      match Real(fs, Parent(p), hops)
      case None => Missing(fs, Parent(p), hops)
      case Some(q) =>
        var c := q + [Last(p)];
        if c !in fs then Some(c)
        else match fs[c]
          case Link(t) => if hops == 0 then None else Missing(fs, t, hops - 1)
          case _ => None
  }

  /** As long as nothing appears under that name, the path does not resolve. */
  lemma {:induction false} StillMissing(small: Fs, big: Fs, p: Path, hops: nat)
    requires small.Keys <= big.Keys && forall q :: q in small ==> small[q] == big[q]
    requires Real(small, p, hops).None?
    requires Missing(small, p, hops).Some? ==> Missing(small, p, hops).value !in big
    ensures Real(big, p, hops).None?
    decreases hops, |p|
  {
    if p == [] {
    } else if Real(small, Parent(p), hops).None? {
      StillMissing(small, big, Parent(p), hops);
    } else {
      RealShrinks(small, big, Parent(p), hops);
      var c := Real(small, Parent(p), hops).value + [Last(p)];
      if c in small && small[c].Link? && hops > 0 {
        StillMissing(small, big, small[c].target, hops - 1);
      }
    }
  }

  /** A path that does not resolve cannot be extended to one that does. */
  lemma {:induction false} LostBelow(fs: Fs, p: Path, q: Path, hops: nat)
    requires p <= q && Real(fs, q, hops).Some?
    ensures Real(fs, p, hops).Some?
    decreases |q|
  {
    if p == q {
    } else {
      LostBelow(fs, p, Parent(q), hops);
    }
  }

  /** Everything in between a node and one of its ancestors is a directory. */
  lemma {:induction false} AncestorIsDir(fs: Fs, p: Path, q: Path)
    requires WellFormed(fs)
    requires q in fs && p <= q && p != q
    ensures p in fs && fs[p].Dir?
    decreases |q|
  {
    assert Attached(fs, q);
    if p != Parent(q) {
      assert p <= Parent(q);
      AncestorIsDir(fs, p, Parent(q));
    }
  }

  /** One line of an SFTP listing: a name and its attributes, links not followed. */
  datatype Entry = Entry(name: Name, node: Node)

  /** What a listing of `d` may look like: the children of `d` in any order, with or
      without the two dot entries, each child once and with its own attributes. */
  ghost predicate IsListing(fs: Fs, d: Path, l: seq<Entry>) {
    && (forall n :: n in Children(fs, d) ==> exists i :: 0 <= i < |l| && l[i].name == n)
    && (forall i :: 0 <= i < |l| && l[i].name != "." && l[i].name != ".." ==>
          d + [l[i].name] in fs && l[i].node == fs[d + [l[i].name]])
    && (forall i, j :: 0 <= i < j < |l| && !IsDot(l[i].name) ==> l[i].name != l[j].name)
  }

  lemma FileHasNoChildren(fs: Fs, p: Path)
    requires WellFormed(fs)
    requires p in fs && !fs[p].Dir?
    ensures Children(fs, p) == {}
  {
    forall q | q in fs && q != [] ensures Parent(q) != p {
      assert Attached(fs, q);
    }
    forall n ensures n !in Children(fs, p) {
      assert Parent(p + [n]) == p;
    }
  }

  /** Taking away a node without children keeps the tree well formed. */
  lemma RemoveLeaf(fs: Fs, p: Path)
    requires WellFormed(fs)
    requires p in fs && p != [] && Children(fs, p) == {}
    ensures WellFormed(fs - {p})
  {
    forall q {:trigger Attached(fs - {p}, q)} | q in fs - {p} ensures Attached(fs - {p}, q) {
      assert Attached(fs, q);
      if q != [] {
        assert Parent(q) + [Last(q)] == q;
      }
    }
  }

  predicate NoDup<T(==)>(s: seq<T>) {
    forall i, j :: 0 <= i < j < |s| ==> s[i] != s[j]
  }
}
