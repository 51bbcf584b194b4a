/** Recursive permission setting with `follow_symlinks`: the queue of directories when every
    operation succeeds, and exactly when it runs dry. */
module FollowedLinks {
  import opened Wrappers
  import opened FileTree

  /** The directory that `p` leads to. */
  function DirAt(fs: Fs, hops: nat, p: Path): (r: Option<Path>)
    ensures r.Some? ==> r == Real(fs, p, hops) && r.value in fs && fs[r.value].Dir?
  {
    match Real(fs, p, hops)
    case Some(q) => if q in fs && fs[q].Dir? then Some(q) else None
    case None => None
  }

  /** What one entry of the listing of `p` adds to the queue: a directory under its own path,
      or the directory a link leads to under the link's target path. */
  function Followed(fs: Fs, hops: nat, p: Path, e: Entry): seq<Path> {
    if IsDot(e.name) then []
    else match e.node
      case Dir => [p + [e.name]]
      case Link(t) => if DirAt(fs, hops, t).Some? then [t] else []
      case File => []
  }

  function FollowedAll(fs: Fs, hops: nat, p: Path, l: seq<Entry>): (r: seq<Path>)
    ensures forall q :: q in r <==> exists i :: 0 <= i < |l| && q in Followed(fs, hops, p, l[i])
  {
    if l == [] then []
    else
      var r := FollowedAll(fs, hops, p, l[..|l| - 1]) + Followed(fs, hops, p, l[|l| - 1]);
      assert forall i :: 0 <= i < |l| - 1 ==> l[..|l| - 1][i] == l[i];
      r
  }

  /** The queue after `n` rounds of the loop; the loop ends when it is empty. */
  function Rounds(fs: Fs, hops: nat, list: Path -> seq<Entry>, queue: seq<Path>, n: nat): seq<Path>
    decreases n
  {
    if n == 0 || queue == [] then queue
    else Rounds(fs, hops, list, queue[1..] + FollowedAll(fs, hops, queue[0], list(queue[0])), n - 1)
  }

  /** The loop ends. */
  ghost predicate Ends(fs: Fs, hops: nat, list: Path -> seq<Entry>, queue: seq<Path>) {
    exists n :: Rounds(fs, hops, list, queue, n) == []
  }

  /** Every directory is listed, in any order and under whichever path it is asked for. */
  ghost predicate Lists(fs: Fs, hops: nat, list: Path -> seq<Entry>) {
    forall p {:trigger list(p)} :: DirAt(fs, hops, p).Some? ==> IsListing(fs, DirAt(fs, hops, p).value, list(p))
  }

  // ----- Routes -----

  /** The entry `n` of `d` is the directory `e`, or a link that leads there. */
  ghost predicate Via(fs: Fs, hops: nat, d: Path, n: Name, e: Path) {
    && d + [n] in fs && e in fs && fs[e].Dir?
    && (e == d + [n] || (fs[d + [n]].Link? && Real(fs, fs[d + [n]].target, hops) == Some(e)))
  }

  ghost predicate Follows(fs: Fs, hops: nat, d: Path, e: Path) {
    exists n :: Via(fs, hops, d, n, e)
  }

  ghost predicate IsRoute(fs: Fs, hops: nat, s: seq<Path>) {
    && s != [] && s[0] in fs && fs[s[0]].Dir?
    && forall i :: 0 <= i < |s| - 1 ==> Follows(fs, hops, s[i], s[i + 1])
  }

  ghost predicate StartsIn(fs: Fs, hops: nat, queue: seq<Path>, d: Path) {
    exists p :: p in queue && DirAt(fs, hops, p) == Some(d)
  }

  /** A route from the queue that comes back to a directory it has been to, at `i`. */
  ghost predicate Returns(fs: Fs, hops: nat, queue: seq<Path>, s: seq<Path>, i: nat) {
    IsRoute(fs, hops, s) && StartsIn(fs, hops, queue, s[0]) && i < |s| - 1 && s[i] == s[|s| - 1]
  }

  /** A cycle of directories and followed links can be reached from the queue. */
  ghost predicate ReachesCycle(fs: Fs, hops: nat, queue: seq<Path>) {
    exists s, i :: Returns(fs, hops, queue, s, i)
  }

  /** What a directory's round pushes leads exactly to the directories that follow it. */
  lemma PushedFollow(fs: Fs, hops: nat, list: Path -> seq<Entry>, p: Path, q: Path)
    requires WellFormed(fs) && Lists(fs, hops, list) && DirAt(fs, hops, p).Some?
    requires q in FollowedAll(fs, hops, p, list(p))
    ensures DirAt(fs, hops, q).Some? && Follows(fs, hops, DirAt(fs, hops, p).value, DirAt(fs, hops, q).value)
  {
    hide WellFormed, FollowedAll, Real;
    var d, l := DirAt(fs, hops, p).value, list(p);
    var i :| 0 <= i < |l| && q in Followed(fs, hops, p, l[i]);
    var n := l[i].name;
    if l[i].node.Dir? {
      assert Parent(q) == p;
      RealOfChild(fs, q, d, hops);
    }
    assert Via(fs, hops, d, n, DirAt(fs, hops, q).value);
  }

  lemma FollowsIsPushed(fs: Fs, hops: nat, list: Path -> seq<Entry>, p: Path, e: Path) returns (q: Path)
    requires WellFormed(fs) && Lists(fs, hops, list) && DirAt(fs, hops, p).Some?
    requires Follows(fs, hops, DirAt(fs, hops, p).value, e)
    ensures q in FollowedAll(fs, hops, p, list(p)) && DirAt(fs, hops, q) == Some(e)
  {
    hide FollowedAll, Real;
    var d, l := DirAt(fs, hops, p).value, list(p);
    var n :| Via(fs, hops, d, n, e);
    assert Attached(fs, d + [n]);
    assert n in Children(fs, d);
    var i :| 0 <= i < |l| && l[i].name == n;
    if e == d + [n] {
      q := p + [n];
      assert Parent(q) == p;
      RealOfChild(fs, q, d, hops);
    } else {
      q := fs[d + [n]].target;
    }
    assert q in Followed(fs, hops, p, l[i]);
  }

  // ----- A cycle keeps the loop going -----

  lemma {:induction false} CycleKeepsGoing(fs: Fs, hops: nat, list: Path -> seq<Entry>, queue: seq<Path>,
                                           s: seq<Path>, i: nat, k: nat, p: Path, n: nat)
    requires WellFormed(fs) && Lists(fs, hops, list)
    requires IsRoute(fs, hops, s) && i < |s| - 1 && s[i] == s[|s| - 1]
    requires k < |s| - 1 && p in queue && DirAt(fs, hops, p) == Some(s[k])
    ensures Rounds(fs, hops, list, queue, n) != []
    decreases n
  {
    hide WellFormed, Lists, FollowedAll, DirAt, Follows;
    if n == 0 {
    } else {
      var pushed := FollowedAll(fs, hops, queue[0], list(queue[0]));
      assert queue == [queue[0]] + queue[1..];
      if queue[0] == p {
        var q := FollowsIsPushed(fs, hops, list, p, s[k + 1]);
        CycleKeepsGoing(fs, hops, list, queue[1..] + pushed, s, i, if k + 1 == |s| - 1 then i else k + 1, q, n - 1);
      } else {
        CycleKeepsGoing(fs, hops, list, queue[1..] + pushed, s, i, k, p, n - 1);
      }
    }
  }

  // ----- Without a cycle the loop ends -----

  /** All that one pass over `queue` pushes. */
  function Spread(fs: Fs, hops: nat, list: Path -> seq<Entry>, queue: seq<Path>): (r: seq<Path>)
    ensures forall q :: q in r ==> exists p :: p in queue && q in FollowedAll(fs, hops, p, list(p))
  {
    if queue == [] then []
    else FollowedAll(fs, hops, queue[0], list(queue[0])) + Spread(fs, hops, list, queue[1..])
  }

  lemma {:induction false} OnePass(fs: Fs, hops: nat, list: Path -> seq<Entry>, a: seq<Path>, b: seq<Path>)
    ensures Rounds(fs, hops, list, a + b, |a|) == b + Spread(fs, hops, list, a)
    decreases |a|
  {
    hide FollowedAll;
    if a == [] {
      assert a + b == b;
    } else {
      var pushed := FollowedAll(fs, hops, a[0], list(a[0]));
      assert (a + b)[1..] + pushed == a[1..] + (b + pushed);
      OnePass(fs, hops, list, a[1..], b + pushed);
    }
  }

  lemma {:induction false} RoundsAdd(fs: Fs, hops: nat, list: Path -> seq<Entry>, queue: seq<Path>, n: nat, m: nat)
    ensures Rounds(fs, hops, list, queue, n + m) == Rounds(fs, hops, list, Rounds(fs, hops, list, queue, n), m)
    decreases n
  {
    hide FollowedAll;
    if n == 0 || queue == [] {
    } else {
      RoundsAdd(fs, hops, list, queue[1..] + FollowedAll(fs, hops, queue[0], list(queue[0])), n - 1, m);
    }
  }

  ghost predicate AllDirs(fs: Fs, hops: nat, queue: seq<Path>) {
    forall p :: p in queue ==> DirAt(fs, hops, p).Some?
  }

  /** No route from the queue has more than `k` directories. */
  ghost predicate RoutesBounded(fs: Fs, hops: nat, queue: seq<Path>, k: nat) {
    forall s {:trigger IsRoute(fs, hops, s)} :: IsRoute(fs, hops, s) && StartsIn(fs, hops, queue, s[0]) ==> |s| <= k
  }

  lemma SpreadIsShorter(fs: Fs, hops: nat, list: Path -> seq<Entry>, queue: seq<Path>, k: nat)
    requires WellFormed(fs) && Lists(fs, hops, list) && AllDirs(fs, hops, queue)
    requires RoutesBounded(fs, hops, queue, k + 1)
    ensures AllDirs(fs, hops, Spread(fs, hops, list, queue))
    ensures RoutesBounded(fs, hops, Spread(fs, hops, list, queue), k)
  {
    hide WellFormed, Lists, FollowedAll, Spread, DirAt, Follows;
    var next := Spread(fs, hops, list, queue);
    forall q | q in next
      ensures DirAt(fs, hops, q).Some?
      ensures exists p :: p in queue && DirAt(fs, hops, p).Some? && Follows(fs, hops, DirAt(fs, hops, p).value, DirAt(fs, hops, q).value)
    {
      var p :| p in queue && q in FollowedAll(fs, hops, p, list(p));
      PushedFollow(fs, hops, list, p, q);
    }
    forall s {:trigger IsRoute(fs, hops, s)} | IsRoute(fs, hops, s) && StartsIn(fs, hops, next, s[0]) ensures |s| <= k {
      var q :| q in next && DirAt(fs, hops, q) == Some(s[0]);
      var p :| p in queue && DirAt(fs, hops, p).Some? && Follows(fs, hops, DirAt(fs, hops, p).value, s[0]);
      LongerRoute(fs, hops, DirAt(fs, hops, p).value, s);
      assert ([DirAt(fs, hops, p).value] + s)[0] == DirAt(fs, hops, p).value;
    }
  }

  lemma LongerRoute(fs: Fs, hops: nat, d: Path, s: seq<Path>)
    requires d in fs && fs[d].Dir? && IsRoute(fs, hops, s) && Follows(fs, hops, d, s[0])
    ensures IsRoute(fs, hops, [d] + s)
  {
    hide Follows;
  }

  lemma OneStop(fs: Fs, hops: nat, queue: seq<Path>)
    requires queue != [] && AllDirs(fs, hops, queue)
    ensures !RoutesBounded(fs, hops, queue, 0)
  {
    var s := [DirAt(fs, hops, queue[0]).value];
    assert queue[0] in queue;
    assert IsRoute(fs, hops, s) && StartsIn(fs, hops, queue, s[0]);
  }

  lemma {:induction false} BoundedEnds(fs: Fs, hops: nat, list: Path -> seq<Entry>, queue: seq<Path>, k: nat) returns (n: nat)
    requires WellFormed(fs) && Lists(fs, hops, list) && AllDirs(fs, hops, queue)
    requires RoutesBounded(fs, hops, queue, k)
    ensures Rounds(fs, hops, list, queue, n) == []
    decreases k
  {
    hide WellFormed, Lists, Spread;
    if k == 0 {
      n := 0;
      if queue != [] {
        OneStop(fs, hops, queue);
      }
    } else {
      SpreadIsShorter(fs, hops, list, queue, k - 1);
      var m := BoundedEnds(fs, hops, list, Spread(fs, hops, list, queue), k - 1);
      OnePass(fs, hops, list, queue, []);
      assert queue + [] == queue && [] + Spread(fs, hops, list, queue) == Spread(fs, hops, list, queue);
      RoundsAdd(fs, hops, list, queue, |queue|, m);
      n := |queue| + m;
    }
  }

  lemma {:induction false} DistinctFit(s: seq<Path>, keys: set<Path>)
    requires NoDup(s) && forall i :: 0 <= i < |s| ==> s[i] in keys
    ensures |s| <= |keys|
    decreases |s|
  {
    if s == [] {
    } else {
      DistinctFit(s[1..], keys - {s[0]});
    }
  }

  lemma {:induction false} RouteStays(fs: Fs, hops: nat, s: seq<Path>, i: nat)
    requires IsRoute(fs, hops, s) && i < |s|
    ensures s[i] in fs
  {
    if i == 0 {
    } else {
      assert Follows(fs, hops, s[i - 1], s[i - 1 + 1]);
    }
  }

  /** A route longer than the tree has directories comes back somewhere. */
  lemma NoCycleBounds(fs: Fs, hops: nat, queue: seq<Path>)
    requires !ReachesCycle(fs, hops, queue)
    ensures RoutesBounded(fs, hops, queue, |fs|)
  {
    hide StartsIn, Follows;
    forall s {:trigger IsRoute(fs, hops, s)} | IsRoute(fs, hops, s) && StartsIn(fs, hops, queue, s[0]) ensures |s| <= |fs| {
      forall i, j | 0 <= i < j < |s| ensures s[i] != s[j] {
        assert IsRoute(fs, hops, s[..j + 1]);
        assert !Returns(fs, hops, queue, s[..j + 1], i);
      }
      forall i | 0 <= i < |s| ensures s[i] in fs.Keys {
        RouteStays(fs, hops, s, i);
      }
      DistinctFit(s, fs.Keys);
    }
  }

  /** With `follow_symlinks`, the queue loop ends if and only if no cycle of directories and
      followed links can be reached from where it starts; listing orders do not matter. */
  lemma FollowingEndsIff(fs: Fs, hops: nat, list: Path -> seq<Entry>, queue: seq<Path>)
    requires WellFormed(fs) && Lists(fs, hops, list) && AllDirs(fs, hops, queue)
    ensures Ends(fs, hops, list, queue) <==> !ReachesCycle(fs, hops, queue)
  {
    hide WellFormed, Lists, IsRoute, DirAt, Rounds;
    if ReachesCycle(fs, hops, queue) {
      var s, i :| Returns(fs, hops, queue, s, i);
      assert |s| > 0;
      var p :| p in queue && DirAt(fs, hops, p) == Some(s[0]);
      forall n ensures Rounds(fs, hops, list, queue, n) != [] {
        CycleKeepsGoing(fs, hops, list, queue, s, i, 0, p, n);
      }
    } else {
      NoCycleBounds(fs, hops, queue);
      var n := BoundedEnds(fs, hops, list, queue, |fs|);
    }
  }

  // ----- Inputs -----

  /** The steps down from `t` to `d`. */
  function Descent(t: Path, d: Path): (s: seq<Path>)
    requires t <= d
    ensures |s| == |d| - |t| + 1 && s[0] == t && s[|s| - 1] == d
  {
    seq(|d| - |t| + 1, i requires 0 <= i <= |d| - |t| => d[..|t| + i])
  }

  lemma DescentIsRoute(fs: Fs, hops: nat, t: Path, d: Path)
    requires WellFormed(fs) && t <= d && d in fs && fs[d].Dir?
    ensures IsRoute(fs, hops, Descent(t, d))
  {
    hide Real;
    var s := Descent(t, d);
    forall i | 0 <= i < |s| ensures s[i] in fs && fs[s[i]].Dir? {
      if s[i] != d {
        AncestorIsDir(fs, s[i], d);
      }
    }
    hide WellFormed;
    forall i | 0 <= i < |s| - 1 ensures Follows(fs, hops, s[i], s[i + 1]) {
      assert s[i + 1] == s[i] + [d[|s[i]|]];
      assert Via(fs, hops, s[i], d[|s[i]|], s[i + 1]);
    }
  }

  lemma JoinRoutes(fs: Fs, hops: nat, a: seq<Path>, b: seq<Path>)
    requires IsRoute(fs, hops, a) && IsRoute(fs, hops, b) && Follows(fs, hops, a[|a| - 1], b[0])
    ensures IsRoute(fs, hops, a + b)
  {
    hide Follows;
  }

  /** A link below `t` that leads back up to `t` is such a cycle, wherever between the two the
      loop starts. */
  lemma FollowingLoops(fs: Fs, hops: nat, list: Path -> seq<Entry>, queue: seq<Path>, t: Path, d: Path, name: Name, q: Path)
    requires WellFormed(fs) && Lists(fs, hops, list) && AllDirs(fs, hops, queue)
    requires t <= q <= d && d in fs && fs[d].Dir? && d + [name] in fs && fs[d + [name]] == Link(t)
    requires StartsIn(fs, hops, queue, q)
    ensures !Ends(fs, hops, list, queue)
  {
    if t != d { AncestorIsDir(fs, t, d); }
    if q != d { AncestorIsDir(fs, q, d); }
    RealOfDir(fs, t, hops);
    hide WellFormed, Lists, AllDirs, StartsIn, DirAt, Ends, IsRoute, Real, Descent;
    assert Via(fs, hops, d, name, t);
    var down, back := Descent(q, d), Descent(t, q);
    DescentIsRoute(fs, hops, q, d);
    DescentIsRoute(fs, hops, t, q);
    JoinRoutes(fs, hops, down, back);
    assert Returns(fs, hops, queue, down + back, 0);
    FollowingEndsIff(fs, hops, list, queue);
  }

  /** Two directories, each with a link to the other: no link leads to an ancestor, and
      setting permissions below either of them does not end. */
  const TWO_LINKS: Fs := map[[] := Dir, ["a"] := Dir, ["a", "x"] := Link(["b"]), ["b"] := Dir, ["b", "y"] := Link(["a"])]

  lemma TwoLinksWellFormed(hops: nat)
    ensures WellFormed(TWO_LINKS)
    ensures Real(TWO_LINKS, ["a"], hops) == Some(["a"]) && Real(TWO_LINKS, ["b"], hops) == Some(["b"])
  {
    ProperNames();
    assert Parent(["a"]) == [] && Parent(["b"]) == [] && Parent(["a", "x"]) == ["a"] && Parent(["b", "y"]) == ["b"];
    RealOfDir(TWO_LINKS, ["a"], hops);
    RealOfDir(TWO_LINKS, ["b"], hops);
  }

  lemma TwoLinksLoop(hops: nat, list: Path -> seq<Entry>)
    requires Lists(TWO_LINKS, hops, list)
    ensures WellFormed(TWO_LINKS) && !Ends(TWO_LINKS, hops, list, [["a"]])
  {
    hide Lists, Real, WellFormed, Attached, Ends;
    var fs := TWO_LINKS;
    TwoLinksWellFormed(hops);
    assert ["a"] + ["x"] == ["a", "x"] && ["b"] + ["y"] == ["b", "y"];
    assert Via(fs, hops, ["a"], "x", ["b"]) && Via(fs, hops, ["b"], "y", ["a"]);
    var s := [["a"], ["b"], ["a"]];
    assert ["a"] in [["a"]];
    assert Returns(fs, hops, [["a"]], s, 0);
    FollowingEndsIff(fs, hops, list, [["a"]]);
  }

  lemma ProperNames()
    ensures forall n :: n in {"a", "b", "x", "y"} ==> !IsDot(n)
  {
    assert "a"[0] != '.' && "b"[0] != '.' && "x"[0] != '.' && "y"[0] != '.';
  }

  /** One link across, and none back: the loop ends. */
  const ONE_LINK: Fs := map[[] := Dir, ["a"] := Dir, ["a", "x"] := Link(["b"]), ["b"] := Dir]

  lemma OneLinkWellFormed(hops: nat)
    ensures WellFormed(ONE_LINK)
    ensures Real(ONE_LINK, ["a"], hops) == Some(["a"]) && Real(ONE_LINK, ["b"], hops) == Some(["b"])
  {
    ProperNames();
    assert Parent(["a"]) == [] && Parent(["b"]) == [] && Parent(["a", "x"]) == ["a"];
    RealOfDir(ONE_LINK, ["a"], hops);
    RealOfDir(ONE_LINK, ["b"], hops);
  }

  lemma OneLinkEnds(hops: nat, list: Path -> seq<Entry>)
    requires Lists(ONE_LINK, hops, list)
    ensures WellFormed(ONE_LINK) && Ends(ONE_LINK, hops, list, [["a"]])
  {
    hide Lists, Real, WellFormed, Attached, Follows, Ends;
    var fs := ONE_LINK;
    OneLinkWellFormed(hops);
    OnlyAcross(hops);
    forall s, i ensures !Returns(fs, hops, [["a"]], s, i) {
      if IsRoute(fs, hops, s) && StartsIn(fs, hops, [["a"]], s[0]) {
        GoesOn(fs, hops, s, 0);
        GoesOn(fs, hops, s, 1);
        assert |s| <= 2;
      }
    }
    FollowingEndsIff(fs, hops, list, [["a"]]);
  }

  lemma GoesOn(fs: Fs, hops: nat, s: seq<Path>, k: nat)
    requires IsRoute(fs, hops, s)
    ensures k + 1 < |s| ==> Follows(fs, hops, s[k], s[k + 1])
  {
    hide Follows;
  }

  lemma OnlyAcross(hops: nat)
    requires Real(ONE_LINK, ["b"], hops) == Some(["b"])
    ensures forall e :: Follows(ONE_LINK, hops, ["a"], e) ==> e == ["b"]
    ensures forall e :: !Follows(ONE_LINK, hops, ["b"], e)
  {
    assert "a"[0] != "b"[0];
    forall n ensures ["b"] + [n] !in ONE_LINK {
      assert (["b"] + [n])[0] == "b" && |["b"] + [n]| == 2;
    }
  }
}
