/** Upward searches of the Docker backend: a search starts in each given directory and goes
    on in its ancestors, found by taking the parent of a path string again and again. */
module UpwardSearch {
  import opened Wrappers

  // ----- The parent of a Unix path string -----

  /** The leading slash, or the leading `.` of a relative path. */
  function Prefix(p: string): (b: nat)
    ensures b <= |p| && b <= 1
  {
    if p != "" && (p[0] == '/' || p == "." || "./" <= p) then 1 else 0
  }

  predicate IsAbsolute(p: string) {
    p != "" && p[0] == '/'
  }

  /** The last slash at or after `b`. */
  function LastSlash(p: string, b: nat): (r: Option<nat>)
    ensures r.Some? ==> b <= r.value < |p| && p[r.value] == '/' && '/' !in p[r.value + 1..]
    ensures r.None? && b <= |p| ==> '/' !in p[b..]
    decreases |p|
  {
    if |p| <= b then None
    else if p[|p| - 1] == '/' then Some(|p| - 1)
    else
      var q := p[..|p| - 1];
      assert forall i :: 0 <= i < |p| ==> p[i..] == (p[..|p| - 1])[i..] + [p[|p| - 1]];
      LastSlash(q, b)
  }

  /** What the last component leaves of a path, and the component itself. */
  function Rest(p: string, b: nat): (q: string)
    requires b < |p|
    ensures b <= |q| < |p| && q == p[..|q|]
    ensures |q| > b ==> p[|q|] == '/'
  {
    match LastSlash(p, b)
    case Some(i) => p[..i]
    case None => p[..b]
  }

  function Component(p: string, b: nat): string
    requires b < |p|
  {
    match LastSlash(p, b)
    case Some(i) => p[i + 1..]
    case None => p[b..]
  }

  /** Repeated slashes and inner dots separate nothing. */
  predicate IsName(component: string) {
    component != "" && component != "."
  }

  function TrimRight(p: string, b: nat): (q: string)
    requires b <= |p|
    ensures b <= |q| <= |p| && q == p[..|q|]
    ensures |q| == b || IsName(Component(q, b))
    ensures |q| < |p| && |q| > b ==> p[|q|] == '/'
  {
    if |p| == b || IsName(Component(p, b)) then p else TrimRight(Rest(p, b), b)
  }

  /** The path library's `parent`: drops the last name; nothing for the root and for "". */
  function ParentOf(p: string): Option<string> {
    var b := Prefix(p);
    var t := TrimRight(p, b);
    if |t| > b then Some(TrimRight(Rest(t, b), b))
    else if b == 1 && !IsAbsolute(p) then Some("")
    else None
  }

  function UnixParent(p: string): string {
    match ParentOf(p)
    case None => p
    case Some(q) => if q == "" then "." else q
  }

  // ----- Names -----

  function NamesAfter(p: string, b: nat): seq<string>
    requires b <= |p|
    decreases |p|
  {
    if |p| == b then []
    else NamesAfter(Rest(p, b), b) + if IsName(Component(p, b)) then [Component(p, b)] else []
  }

  /** The names along a path, from the root or the working directory. */
  function Names(p: string): seq<string> {
    NamesAfter(p, Prefix(p))
  }

  lemma {:induction false} TrimKeepsNames(p: string, b: nat)
    requires b <= |p|
    ensures NamesAfter(TrimRight(p, b), b) == NamesAfter(p, b)
    decreases |p|
  {
    if |p| > b && !IsName(Component(p, b)) {
      TrimKeepsNames(Rest(p, b), b);
    }
  }

  /** What is left of a path keeps its prefix. */
  lemma PrefixKept(p: string, n: nat)
    requires Prefix(p) <= n <= |p| && (n < |p| && n > Prefix(p) ==> p[n] == '/')
    ensures n > 0 ==> Prefix(p[..n]) == Prefix(p) && IsAbsolute(p[..n]) == IsAbsolute(p)
  {
    if n > 0 && n < |p| && Prefix(p) == 0 {
      assert p[0] != '.' || p[1] != '/';
    }
  }

  /** The proper prefix of a path that its parent is made of. */
  lemma ParentIsPrefix(p: string) returns (n: nat)
    requires Names(p) != []
    ensures Prefix(p) <= n < |p| && (n > Prefix(p) ==> p[n] == '/')
    ensures ParentOf(p) == Some(p[..n])
    ensures NamesAfter(p[..n], Prefix(p)) == Names(p)[..|Names(p)| - 1]
    ensures n > Prefix(p) ==> IsName(Component(p[..n], Prefix(p)))
  {
    hide Prefix, LastSlash, Component, IsName;
    var b := Prefix(p);
    var t := TrimRight(p, b);
    TrimKeepsNames(p, b);
    assert |t| > b;
    var r := Rest(t, b);
    TrimKeepsNames(r, b);
    n := |TrimRight(r, b)|;
    assert TrimRight(r, b) == p[..n];
  }

  /** The parent of a path with names has the same names but the last, and starts at the
      same place. */
  lemma ParentDropsLastName(p: string)
    requires Names(p) != []
    ensures Names(UnixParent(p)) == Names(p)[..|Names(p)| - 1]
    ensures IsAbsolute(UnixParent(p)) == IsAbsolute(p)
    ensures UnixParent(p) != p
  {
    hide TrimRight, NamesAfter, ParentOf;
    var n := ParentIsPrefix(p);
    PrefixKept(p, n);
    NoNames();
  }

  lemma NoNames()
    ensures Names(".") == [] && NamesAfter("", 0) == []
  {
  }

  /** Without names, a path is the root or the working directory, and its parent is itself
      or its plain spelling. */
  lemma ParentWithoutNames(p: string)
    requires Names(p) == []
    ensures UnixParent(p) == if IsAbsolute(p) || p == "" then p else "."
  {
    var b := Prefix(p);
    TrimKeepsNames(p, b);
    if b == 0 && p != "" {
      FirstNameCounts(p);
    }
  }

  /** A relative path that does not start with a dot component has a name. */
  lemma {:induction false} FirstNameCounts(p: string)
    requires p != "" && Prefix(p) == 0
    ensures NamesAfter(p, 0) != []
    decreases |p|
  {
    if !IsName(Component(p, 0)) {
      var r := Rest(p, 0);
      PrefixKept(p, |r|);
      if r != "" {
        FirstNameCounts(r);
      }
    }
  }

  /** How many steps up there are: one a name, and one from an odd spelling of the working
      directory to ".". */
  function Height(p: string): nat {
    if Names(p) == [] && UnixParent(p) != p then 1 else |Names(p)|
  }

  /** Taking parents stops: the height goes down by one with each step to another path, and
      is zero just where a path is its own parent. */
  lemma HeightFalls(p: string)
    ensures Height(p) == 0 <==> UnixParent(p) == p
    ensures UnixParent(p) != p ==> Height(UnixParent(p)) == Height(p) - 1
  {
    hide Prefix, NamesAfter, ParentOf, IsAbsolute;
    if Names(p) == [] {
      ParentWithoutNames(p);
      DotIsFixed();
    } else {
      ParentDropsLastName(p);
      var q := UnixParent(p);
      if Names(q) == [] {
        ParentIsPlain(p);
      }
    }
  }

  lemma DotIsFixed()
    ensures UnixParent(".") == "." && Names(".") == []
  {
  }

  /** The parent of a path is spelled plainly: it is its own parent as soon as it has no
      names. */
  lemma ParentIsPlain(p: string)
    requires Names(p) != [] && Names(UnixParent(p)) == []
    ensures UnixParent(UnixParent(p)) == UnixParent(p)
  {
    hide LastSlash, Rest, TrimRight, ParentOf, NamesAfter, Component;
    ParentDropsLastName(p);
    var n := ParentIsPrefix(p);
    if n > Prefix(p) {
      NameAtEnd(p[..n], Prefix(p));
    }
    PlainSpellings();
    assert n == 1 ==> p[..1] == [p[0]] && (p[0] == '/' || p[0] == '.');
    assert UnixParent(p) == "." || UnixParent(p) == "/";
  }

  lemma NameAtEnd(q: string, b: nat)
    requires |q| > b && IsName(Component(q, b))
    ensures NamesAfter(q, b) != []
  {
  }

  lemma PlainSpellings()
    ensures UnixParent(".") == "." && UnixParent("/") == "/"
  {
  }

  // ----- What names are -----

  /** A further component is a further name, unless it is empty or a dot. */
  lemma NamesGrow(p: string, component: string)
    requires p != "" && '/' !in component
    ensures Names(p + "/" + component) == Names(p) + if component in {"", "."} then [] else [component]
  {
    hide LastSlash, Rest, Component;
    assert (p + "/" + component)[0] == p[0];
    assert |p| > 1 ==> (p + "/" + component)[1] == p[1];
    NamesAfterGrow(p, component, Prefix(p));
  }

  lemma NamesAfterGrow(p: string, component: string, b: nat)
    requires b <= |p| && '/' !in component
    ensures NamesAfter(p + "/" + component, b)
         == NamesAfter(p, b) + if component in {"", "."} then [] else [component]
  {
    var s := p + "/" + component;
    LastSlashBefore(p, component, b);
    assert s[|p| + 1..] == component && s[..|p|] == p;
  }

  lemma {:induction false} LastSlashBefore(p: string, component: string, b: nat)
    requires b <= |p| && '/' !in component
    ensures LastSlash(p + "/" + component, b) == Some(|p|)
    decreases |component|
  {
    if component != "" {
      var most := component[..|component| - 1];
      assert (p + "/" + component)[..|p + "/" + component| - 1] == p + "/" + most;
      LastSlashBefore(p, most, b);
    }
  }

  /** A path of one component names it, from the root or the working directory. */
  lemma NamesOfOne(component: string)
    requires '/' !in component
    ensures Names(component) == if component in {"", "."} then [] else [component]
    ensures Names("/" + component) == Names(component)
  {
    hide NamesAfter, Prefix;
    PrefixOfOne(component);
    NamesAfterOne("", component);
    NamesAfterOne("/", component);
    assert "" + component == component;
    if component == "." {
      NoNames();
    }
  }

  lemma PrefixOfOne(component: string)
    requires '/' !in component
    ensures Prefix(component) == if component == "." then 1 else 0
    ensures Prefix("/" + component) == 1
  {
    assert |component| > 1 ==> component[1] != '/';
    assert component != "" ==> component[0] != '/';
  }

  lemma NamesAfterOne(prefix: string, component: string)
    requires '/' !in component
    ensures NamesAfter(prefix + component, |prefix|) == if component in {"", "."} then [] else [component]
  {
    hide LastSlash, Prefix;
    var p, b := prefix + component, |prefix|;
    assert p[b..] == component && p[..b] == prefix;
    assert forall i :: b <= i < |p| ==> p[i] == component[i - b];
    assert LastSlash(p, b).None?;
    assert NamesAfter(prefix, b) == [];
  }

  // ----- The search -----

  /** The directories above `current`, at most `limit` of them. */
  function Above(current: string, limit: Option<nat>): seq<string>
    decreases Height(current)
  {
    hide ParentOf, NamesAfter, Prefix;
    var parent := UnixParent(current);
    if parent == current || limit == Some(0) then []
    else
      HeightFalls(current);
      [parent] + Above(parent, if limit.Some? then Some(limit.value - 1) else None)
  }

  function StartDirs(paths: seq<string>): seq<string> {
    if paths == [] then ["."] else paths
  }

  function Visited(paths: seq<string>, maxDepth: Option<nat>): seq<string> {
    if paths == [] then []
    else Visited(paths[..|paths| - 1], maxDepth) + [paths[|paths| - 1]] + Above(paths[|paths| - 1], maxDepth)
  }

  /** One command each: `build` may fail, which ends everything. */
  method BuildUpwardSearchCommands<C>(queried: seq<string>, maxDepth: Option<nat>, build: string -> Result<C>)
    returns (r: Result<seq<C>>)
    ensures var dirs := Visited(if queried == [] then ["."] else queried, maxDepth);
            && (r.Ok? <==> forall k :: 0 <= k < |dirs| ==> build(dirs[k]).Ok?)
            && (r.Ok? ==> |r.value| == |dirs| && forall k :: 0 <= k < |dirs| ==> r.value[k] == build(dirs[k]).value)
  {
    hide Above, UnixParent, Visited;
    r := Ok([]);
    var paths := StartDirs(queried);
    assert Visited(paths[..0], maxDepth) == [] by {
      NothingVisited(maxDepth);
    }
    for i := 0 to |paths|
      invariant r.Ok? && Built(r.value, Visited(paths[..i], maxDepth), build)
    {
      VisitedNext(paths, maxDepth, i);
      r := SearchUpward(paths[i], maxDepth, build, r.value, Visited(paths[..i], maxDepth));
      if r.Err? {
        return;
      }
    }
    assert paths[..|paths|] == paths;
  }

  lemma NothingVisited(maxDepth: Option<nat>)
    ensures Visited([], maxDepth) == []
  {
  }

  /** The commands of one starting directory, after those of `done`. */
  method SearchUpward<C>(path: string, maxDepth: Option<nat>, build: string -> Result<C>, before: seq<C>, ghost done: seq<string>)
    returns (r: Result<seq<C>>)
    requires Built(before, done, build)
    ensures var dirs := done + [path] + Above(path, maxDepth);
            if r.Ok? then Built(r.value, dirs, build) else exists k :: 0 <= k < |dirs| && build(dirs[k]).Err?
  {
    hide Above, UnixParent, Height;
    ghost var all := done + [path] + Above(path, maxDepth);
    var cmd := build(path);
    if cmd.Err? {
      assert all[|done|] == path;
      return Err;
    }
    var commands := before + [cmd.value];
    ghost var visited := done + [path];
    var current, remaining := path, maxDepth;
    if remaining == Some(0) {
      AboveEnds(path, remaining);
      return Ok(commands);
    }
    while UnixParent(current) != current
      invariant Built(commands, visited, build)
      invariant visited + Above(current, remaining) == all
      decreases Height(current)
    {
      var parent := UnixParent(current);
      HeightFalls(current);
      if remaining.Some? {
        if remaining.value == 0 {
          break;
        }
      }
      AboveNext(current, remaining);
      if remaining.Some? {
        remaining := Some(remaining.value - 1);
      }
      cmd := build(parent);
      if cmd.Err? {
        assert all[|visited|] == parent;
        return Err;
      }
      commands := commands + [cmd.value];
      visited := visited + [parent];
      current := parent;
    }
    AboveEnds(current, remaining);
    return Ok(commands);
  }

  lemma AboveEnds(current: string, limit: Option<nat>)
    requires UnixParent(current) == current || limit == Some(0)
    ensures Above(current, limit) == []
  {
  }

  lemma AboveNext(current: string, limit: Option<nat>)
    requires UnixParent(current) != current && limit != Some(0)
    ensures Above(current, limit) ==
            [UnixParent(current)] + Above(UnixParent(current), if limit.Some? then Some(limit.value - 1) else None)
  {
  }

  lemma VisitedNext(paths: seq<string>, maxDepth: Option<nat>, i: nat)
    requires i < |paths|
    ensures Visited(paths[..i + 1], maxDepth) == Visited(paths[..i], maxDepth) + [paths[i]] + Above(paths[i], maxDepth)
    ensures Visited(paths[..i + 1], maxDepth) <= Visited(paths, maxDepth)
  {
    assert paths[..i + 1][..i] == paths[..i];
    VisitedPrefix(paths, maxDepth, i + 1);
  }

  lemma {:induction false} VisitedPrefix(paths: seq<string>, maxDepth: Option<nat>, i: nat)
    requires i <= |paths|
    ensures Visited(paths[..i], maxDepth) <= Visited(paths, maxDepth)
    decreases |paths|
  {
    if i < |paths| {
      var most := paths[..|paths| - 1];
      VisitedPrefix(most, maxDepth, i);
      assert most[..i] == paths[..i];
    } else {
      assert paths[..i] == paths;
    }
  }

  ghost predicate Built<C>(commands: seq<C>, dirs: seq<string>, build: string -> Result<C>) {
    |commands| == |dirs| && forall k :: 0 <= k < |dirs| ==> build(dirs[k]) == Ok(commands[k])
  }

  /** What a search from `p` visits: `p`, its parent, the parent of that, and so on, up to
      the path that is its own parent or to `limit` ancestors, whichever comes first. */
  lemma {:induction false} Ancestors(p: string, limit: Option<nat>)
    ensures var dirs := [p] + Above(p, limit);
            && (forall k :: 0 <= k < |dirs| - 1 ==> dirs[k + 1] == UnixParent(dirs[k]) && dirs[k + 1] != dirs[k])
            && |dirs| - 1 == (if limit.Some? && limit.value < Height(p) then limit.value else Height(p))
            && (UnixParent(dirs[|dirs| - 1]) == dirs[|dirs| - 1] || limit == Some(|dirs| - 1))
    decreases Height(p)
  {
    hide UnixParent, Height;
    HeightFalls(p);
    if UnixParent(p) != p && limit != Some(0) {
      var less := if limit.Some? then Some(limit.value - 1) else None;
      Ancestors(UnixParent(p), less);
      assert [p] + Above(p, limit) == [p] + ([UnixParent(p)] + Above(UnixParent(p), less));
    }
  }

  /** Each directory visited has the names of the start but for one more at each step, and
      is absolute just when the start is. */
  lemma {:induction false} AncestorNames(p: string, limit: Option<nat>, k: nat)
    requires k <= |Above(p, limit)| && k <= |Names(p)|
    ensures var dirs := [p] + Above(p, limit);
            Names(dirs[k]) == Names(p)[..|Names(p)| - k] && IsAbsolute(dirs[k]) == IsAbsolute(p)
    decreases k
  {
    hide UnixParent, Names, IsAbsolute;
    if k > 0 {
      AncestorNames(p, limit, k - 1);
      Ancestors(p, limit);
      ParentDropsLastName(([p] + Above(p, limit))[k - 1]);
    } else {
      assert Names(p)[..|Names(p)|] == Names(p);
    }
  }
}
