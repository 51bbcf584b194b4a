/** `set_permissions` of the SSH backend: apply a change to a path, then, when asked to,
    to everything below it, one queue of directories, failures below the root skipped. */
module PermissionWalk {
  import opened Wrappers
  import opened FileTree
  import opened UnixMode

  /** What `symlink_metadata` says of a path: what it is, and its mode bits. */
  datatype Attributes = Attributes(node: Node, mode: nat)

  /** An SFTP server as seen by a walk that touches every path at most once. */
  datatype Server = Server(lstat: Path -> Result<Attributes>,
                           setMode: (Path, nat) -> bool,
                           read: Path -> Result<seq<Entry>>)

  datatype Request = Request(changes: Settings, recursive: bool, excludeSymlinks: bool)

  datatype Change = Change(path: Path, mode: nat)

  /** `fs` is the tree at the path the call names, which is `[]` here. Any operation may
      fail; those that do not fail tell the truth. */
  ghost predicate Describes(server: Server, fs: Fs) {
    && (forall p {:trigger server.lstat(p)} :: p in fs && server.lstat(p).Ok? ==> server.lstat(p).value.node == fs[p])
    && (forall p {:trigger server.read(p)} :: p in fs && server.read(p).Ok? ==> fs[p].Dir? && IsListing(fs, p, server.read(p).value))
  }

  function NewMode(server: Server, req: Request, p: Path): (mode: nat)
    requires server.lstat(p).Ok?
    ensures IsMerged(server.lstat(p).value.mode, req.changes, mode)
  {
    MergeMeans(server.lstat(p).value.mode, req.changes);
    ToUnixMode(ApplyFrom(FromUnixMode(server.lstat(p).value.mode), req.changes))
  }

  /** The change goes through at `p`. */
  predicate Takes(server: Server, req: Request, p: Path) {
    && server.lstat(p).Ok?
    && !(req.excludeSymlinks && server.lstat(p).value.node.Link?)
    && server.setMode(p, NewMode(server, req, p))
  }

  /** Every directory on the way to `p` took the change and could be listed. */
  ghost predicate Reachable(server: Server, req: Request, fs: Fs, p: Path) {
    && p in fs
    && forall k :: 0 <= k < |p| ==> Takes(server, req, p[..k]) && server.read(p[..k]).Ok?
  }

  /** The nodes a call is to change. */
  ghost function Targets(server: Server, req: Request, fs: Fs): set<Path> {
    set p | p in fs && Reachable(server, req, fs, p) && Takes(server, req, p) && (req.recursive || p == [])
  }

  method ApplyPermissions(server: Server, req: Request, path: Path, applied: seq<Change>)
    returns (r: Result<Option<Path>>, applied': seq<Change>)
    ensures applied' == if Takes(server, req, path) then applied + [Change(path, NewMode(server, req, path))] else applied
    ensures r == if Takes(server, req, path) then Ok(if server.lstat(path).value.node.Dir? then Some(path) else None)
                 else if server.lstat(path).Ok? && req.excludeSymlinks && server.lstat(path).value.node.Link? then Ok(None)
                 else Err
  {
    applied' := applied;
    var metadata := server.lstat(path);
    if metadata.Err? { return Err, applied; }
    if req.excludeSymlinks && metadata.value.node.Link? { return Ok(None), applied; }
    var currentPerms := FromUnixMode(metadata.value.mode);
    currentPerms := ApplyFrom(currentPerms, req.changes);
    var newMode := ToUnixMode(currentPerms);
    if !server.setMode(path, newMode) { return Err, applied; }
    applied' := applied + [Change(path, newMode)];
    r := Ok(if metadata.value.node.Dir? then Some(path) else None);
  }

  // ----- The invariant of the queue loop -----

  ghost function PathsOf(applied: seq<Change>): (r: seq<Path>)
    ensures |r| == |applied|
    ensures forall k :: 0 <= k < |r| ==> r[k] == applied[k].path
  {
    seq(|applied|, k requires 0 <= k < |applied| => applied[k].path)
  }

  /** A node that was changed: it was reachable, and its directory was listed. */
  ghost predicate Justified(server: Server, req: Request, fs: Fs, done: seq<Path>, p: Path) {
    && Reachable(server, req, fs, p) && Takes(server, req, p)
    && (p == [] || Parent(p) in done)
  }

  /** Breadth-first: changes are ordered by depth. */
  ghost predicate ByDepth(s: seq<Path>) {
    forall i, j :: 0 <= i < j < |s| ==> |s[i]| <= |s[j]|
  }

  ghost predicate HandledChild(server: Server, req: Request, fs: Fs, paths: seq<Path>, p: Path) {
    p in fs && Takes(server, req, p) ==> p in paths
  }

  ghost predicate Handled(server: Server, req: Request, fs: Fs, paths: seq<Path>, done: seq<Path>) {
    forall d, n {:trigger HandledChild(server, req, fs, paths, d + [n])} :: d in done ==>
      HandledChild(server, req, fs, paths, d + [n])
  }

  ghost predicate Inv(server: Server, req: Request, fs: Fs, paths: seq<Path>, done: seq<Path>, queue: seq<Path>) {
    && NoDup(paths) && NoDup(queue) && ByDepth(paths) && ByDepth(queue)
    && (forall p {:trigger Justified(server, req, fs, done, p)} :: p in paths ==> Justified(server, req, fs, done, p))
    && (forall d :: d in done ==> d in paths && d in fs && fs[d].Dir? && server.read(d).Ok?)
    && (forall d :: d in queue ==> d in paths && d in fs && fs[d].Dir? && d !in done)
    && (forall p :: p in paths && p in fs && fs[p].Dir? ==> p in done || p in queue)
  }

  /** The queue spans at most two depths, and nothing changed so far is deeper. */
  ghost predicate Level(paths: seq<Path>, queue: seq<Path>, depth: nat) {
    && (forall p :: p in paths ==> |p| <= depth + 1)
    && (forall d :: d in queue ==> depth <= |d| <= depth + 1)
  }

  /** One directory popped and listed, the first `i` of its entries handled. */
  ghost predicate Visiting(server: Server, req: Request, fs: Fs, paths: seq<Path>, done: seq<Path>, dir: Path,
                           queue: seq<Path>, entries: seq<Entry>, i: nat)
    requires i <= |entries|
  {
    && Inv(server, req, fs, paths, done + [dir], queue) && Level(paths, queue, |dir|)
    && Scanned(server, req, fs, paths, done, dir, entries, i)
  }

  ghost predicate Scanned(server: Server, req: Request, fs: Fs, paths: seq<Path>, done: seq<Path>, dir: Path,
                          entries: seq<Entry>, i: nat)
    requires i <= |entries|
  {
    && Handled(server, req, fs, paths, done)
    && (forall k :: 0 <= k < i && !IsDot(entries[k].name) ==>
          HandledChild(server, req, fs, paths, dir + [entries[k].name]))
    && (forall k :: i <= k < |entries| && !IsDot(entries[k].name) ==> dir + [entries[k].name] !in paths)
  }

  lemma PopFront(server: Server, req: Request, fs: Fs, paths: seq<Path>, done: seq<Path>, queue: seq<Path>,
                 depth: nat, entries: seq<Entry>)
    requires queue != [] && Inv(server, req, fs, paths, done, queue) && Level(paths, queue, depth)
    requires Handled(server, req, fs, paths, done)
    requires server.read(queue[0]).Ok?
    ensures queue[0] in fs && queue[0] !in done
    ensures Visiting(server, req, fs, paths, done, queue[0], queue[1..], entries, 0)
  {
    hide Justified, Reachable, Takes, NoDup, ByDepth, Handled, HandledChild, Attached;
    var dir := queue[0];
    PopKeepsInv(server, req, fs, paths, done, queue);
    NotYetChanged(server, req, fs, paths, done, queue, dir);
    PopLevel(paths, queue, depth);
  }

  lemma PopLevel(paths: seq<Path>, queue: seq<Path>, depth: nat)
    requires queue != [] && Level(paths, queue, depth) && ByDepth(queue)
    requires forall d :: d in queue ==> d in paths
    ensures ByDepth(paths) ==> Level(paths, queue[1..], |queue[0]|)
  {
  }

  lemma PopKeepsInv(server: Server, req: Request, fs: Fs, paths: seq<Path>, done: seq<Path>, queue: seq<Path>)
    requires queue != [] && Inv(server, req, fs, paths, done, queue) && server.read(queue[0]).Ok?
    ensures Inv(server, req, fs, paths, done + [queue[0]], queue[1..])
  {
    hide Reachable, Takes, Attached;
    var dir, rest := queue[0], queue[1..];
    assert forall d :: d in queue <==> d == dir || d in rest;
    assert forall d :: d in done + [dir] <==> d == dir || d in done;
    forall p {:trigger Justified(server, req, fs, done + [dir], p)} | p in paths
      ensures Justified(server, req, fs, done + [dir], p)
    {
      assert Justified(server, req, fs, done, p);
    }
  }

  /** Nothing below a directory that waits in the queue has been changed. */
  lemma NotYetChanged(server: Server, req: Request, fs: Fs, paths: seq<Path>, done: seq<Path>, queue: seq<Path>, dir: Path)
    requires Inv(server, req, fs, paths, done, queue) && dir in queue
    ensures forall n :: dir + [n] !in paths
  {
    hide Reachable, Takes, NoDup, ByDepth, Attached;
    forall p | p in paths ensures p == [] || Parent(p) != dir {
      assert Justified(server, req, fs, done, p);
    }
    assert forall n :: Parent(dir + [n]) == dir;
  }

  /** The paths changed only grow, so what was handled stays handled. */
  lemma StaysHandled(server: Server, req: Request, fs: Fs, paths: seq<Path>, more: seq<Path>, done: seq<Path>)
    requires Handled(server, req, fs, paths, done)
    ensures Handled(server, req, fs, paths + more, done)
  {
    forall d, n {:trigger HandledChild(server, req, fs, paths + more, d + [n])} | d in done
      ensures HandledChild(server, req, fs, paths + more, d + [n])
    {
      assert HandledChild(server, req, fs, paths, d + [n]);
    }
  }

  lemma ReachChild(server: Server, req: Request, fs: Fs, dir: Path, n: Name)
    requires Reachable(server, req, fs, dir) && Takes(server, req, dir) && server.read(dir).Ok?
    requires dir + [n] in fs
    ensures Reachable(server, req, fs, dir + [n])
  {
    var c := dir + [n];
    forall k | 0 <= k < |c| ensures Takes(server, req, c[..k]) && server.read(c[..k]).Ok? {
      assert c[..k] == if k < |dir| then dir[..k] else dir;
    }
  }

  lemma AddKeepsLevel(paths: seq<Path>, queue: seq<Path>, dir: Path, n: Name, pushed: bool)
    requires Level(paths, queue, |dir|)
    ensures var c := dir + [n]; Level(paths + [c], if pushed then queue + [c] else queue, |dir|)
  {
  }

  /** Changing one more child of the current directory keeps the invariant. */
  lemma AddChange(server: Server, req: Request, fs: Fs, paths: seq<Path>, done: seq<Path>, dir: Path, queue: seq<Path>, n: Name)
    requires Inv(server, req, fs, paths, done, queue) && Level(paths, queue, |dir|)
    requires dir in done && dir + [n] in fs && dir + [n] !in paths && Takes(server, req, dir + [n])
    ensures var c := dir + [n];
            var queue' := if fs[c].Dir? then queue + [c] else queue;
            Inv(server, req, fs, paths + [c], done, queue') && Level(paths + [c], queue', |dir|)
  {
    hide Justified, Reachable, Takes, NoDup, ByDepth, Attached, Level;
    var c := dir + [n];
    AddKeepsLevel(paths, queue, dir, n, fs[c].Dir?);
    ShortEnough(paths, queue, dir, c);
    ChildJustified(server, req, fs, done, dir, n);
    assert forall p :: p in paths + [c] <==> p in paths || p == c;
    assert forall p :: p in queue + [c] <==> p in queue || p == c;
    Append(paths, c);
    Append(queue, c);
  }

  lemma ShortEnough(paths: seq<Path>, queue: seq<Path>, dir: Path, c: Path)
    requires Level(paths, queue, |dir|) && |c| == |dir| + 1
    ensures forall p :: p in paths || p in queue ==> |p| <= |c|
  {
  }

  lemma ChildJustified(server: Server, req: Request, fs: Fs, done: seq<Path>, dir: Path, n: Name)
    requires Justified(server, req, fs, done, dir) && dir in done && server.read(dir).Ok?
    requires dir + [n] in fs && Takes(server, req, dir + [n])
    ensures Justified(server, req, fs, done, dir + [n])
  {
    hide Reachable, Takes;
    ReachChild(server, req, fs, dir, n);
    assert Parent(dir + [n]) == dir;
  }

  lemma Append(s: seq<Path>, c: Path)
    requires NoDup(s) && ByDepth(s) && c !in s && forall p :: p in s ==> |p| <= |c|
    ensures NoDup(s + [c]) && ByDepth(s + [c])
  {
    assert forall i :: 0 <= i < |s| ==> s[i] in s;
  }

  lemma ScanChild(server: Server, req: Request, fs: Fs, paths: seq<Path>, done: seq<Path>, dir: Path,
                  entries: seq<Entry>, i: nat)
    requires i < |entries| && Scanned(server, req, fs, paths, done, dir, entries, i)
    requires IsListing(fs, dir, entries) && !IsDot(entries[i].name)
    ensures Scanned(server, req, fs, paths + [dir + [entries[i].name]], done, dir, entries, i + 1)
  {
    var c := dir + [entries[i].name];
    var paths' := paths + [c];
    StaysHandled(server, req, fs, paths, [c], done);
    forall k | i < k < |entries| && !IsDot(entries[k].name) ensures dir + [entries[k].name] !in paths' {
      assert Last(dir + [entries[k].name]) == entries[k].name && Last(c) == entries[i].name;
    }
    forall k | 0 <= k < i + 1 && !IsDot(entries[k].name)
      ensures HandledChild(server, req, fs, paths', dir + [entries[k].name])
    {
      if k < i { assert HandledChild(server, req, fs, paths, dir + [entries[k].name]); }
    }
  }

  lemma TakeChild(server: Server, req: Request, fs: Fs, paths: seq<Path>, done: seq<Path>, dir: Path,
                  queue: seq<Path>, entries: seq<Entry>, i: nat)
    requires i < |entries| && Visiting(server, req, fs, paths, done, dir, queue, entries, i)
    requires IsListing(fs, dir, entries) && !IsDot(entries[i].name)
    requires Takes(server, req, dir + [entries[i].name])
    ensures var c := dir + [entries[i].name];
            && c in fs
            && Visiting(server, req, fs, paths + [c], done, dir, if fs[c].Dir? then queue + [c] else queue, entries, i + 1)
  {
    ScanChild(server, req, fs, paths, done, dir, entries, i);
    AddChange(server, req, fs, paths, done + [dir], dir, queue, entries[i].name);
  }

  lemma SkipChild(server: Server, req: Request, fs: Fs, paths: seq<Path>, done: seq<Path>, dir: Path,
                  queue: seq<Path>, entries: seq<Entry>, i: nat)
    requires i < |entries| && Visiting(server, req, fs, paths, done, dir, queue, entries, i)
    requires IsDot(entries[i].name) || !Takes(server, req, dir + [entries[i].name])
    ensures Visiting(server, req, fs, paths, done, dir, queue, entries, i + 1)
  {
  }

  lemma EndVisit(server: Server, req: Request, fs: Fs, paths: seq<Path>, done: seq<Path>, dir: Path,
                 queue: seq<Path>, entries: seq<Entry>)
    requires WellFormedBelow(fs)
    requires Visiting(server, req, fs, paths, done, dir, queue, entries, |entries|)
    requires IsListing(fs, dir, entries)
    ensures Handled(server, req, fs, paths, done + [dir])
  {
    forall d, n {:trigger HandledChild(server, req, fs, paths, d + [n])} | d in done + [dir]
      ensures HandledChild(server, req, fs, paths, d + [n])
    {
      if d == dir && dir + [n] in fs {
        assert Attached(fs, dir + [n]);
        assert n in Children(fs, dir);
        var k :| 0 <= k < |entries| && entries[k].name == n;
      }
    }
  }

  /** An empty queue means everything that can be reached has been changed. */
  lemma {:induction false} AllChanged(server: Server, req: Request, fs: Fs, paths: seq<Path>, done: seq<Path>, p: Path)
    requires WellFormedBelow(fs)
    requires Inv(server, req, fs, paths, done, []) && Handled(server, req, fs, paths, done)
    requires [] in paths
    requires Reachable(server, req, fs, p) && Takes(server, req, p)
    ensures p in paths
    decreases |p|
  {
    if p == [] {
    } else {
      var up := Parent(p);
      assert Attached(fs, p);
      assert up == p[..|p| - 1];
      assert forall k :: 0 <= k < |up| ==> up[..k] == p[..k];
      AllChanged(server, req, fs, paths, done, up);
      assert up + [Last(p)] == p;
      assert HandledChild(server, req, fs, paths, up + [Last(p)]);
    }
  }

  /** The paths a call changed. */
  ghost function Changed(applied: seq<Change>): set<Path> {
    set k | 0 <= k < |applied| :: applied[k].path
  }

  /** No path is changed twice, none is changed that was not asked for, each has the mode the
      request asks for, shallower nodes come first, and a node's directory before it. */
  ghost predicate Sound(server: Server, req: Request, fs: Fs, applied: seq<Change>) {
    && NoDup(PathsOf(applied)) && ByDepth(PathsOf(applied))
    && (forall k :: 0 <= k < |applied| ==>
          && applied[k].path in Targets(server, req, fs)
          && server.lstat(applied[k].path).Ok?
          && IsMerged(server.lstat(applied[k].path).value.mode, req.changes, applied[k].mode))
    && (forall k {:trigger ParentEarlier(applied, k)} :: 0 <= k < |applied| ==> ParentEarlier(applied, k))
  }

  ghost predicate ParentEarlier(applied: seq<Change>, k: nat)
    requires k < |applied|
  {
    applied[k].path != [] ==> exists j :: 0 <= j < k && applied[j].path == Parent(applied[k].path)
  }

  ghost predicate RightModes(server: Server, req: Request, applied: seq<Change>) {
    forall k :: 0 <= k < |applied| ==>
      server.lstat(applied[k].path).Ok? && applied[k].mode == NewMode(server, req, applied[k].path)
  }

  lemma InvIsSound(server: Server, req: Request, fs: Fs, applied: seq<Change>, done: seq<Path>, queue: seq<Path>)
    requires Inv(server, req, fs, PathsOf(applied), done, queue) && RightModes(server, req, applied)
    requires req.recursive || forall k :: 0 <= k < |applied| ==> applied[k].path == []
    ensures Sound(server, req, fs, applied)
  {
    var paths := PathsOf(applied);
    forall k | 0 <= k < |applied| ensures applied[k].path in Targets(server, req, fs) {
      assert paths[k] in paths;
      assert Justified(server, req, fs, done, paths[k]);
    }
    forall k {:trigger ParentEarlier(applied, k)} | 0 <= k < |applied| ensures ParentEarlier(applied, k) {
      assert paths[k] in paths;
      assert Justified(server, req, fs, done, paths[k]);
      if paths[k] != [] {
        assert Parent(paths[k]) in paths;
        var j :| 0 <= j < |paths| && paths[j] == Parent(paths[k]);
        assert |paths[j]| < |paths[k]|;
      }
    }
  }

  /** When the call as a whole succeeds: the root takes the change or is an excluded link,
      and, in a recursive call, every directory that takes the change can be listed. */
  ghost predicate Succeeds(server: Server, req: Request, fs: Fs) {
    && (Takes(server, req, []) || (server.lstat([]).Ok? && req.excludeSymlinks && server.lstat([]).value.node.Link?))
    && (req.recursive ==>
          forall p :: p in Targets(server, req, fs) && fs[p].Dir? ==> server.read(p).Ok?)
  }

  lemma PathsAppend(applied: seq<Change>, c: Change)
    ensures PathsOf(applied + [c]) == PathsOf(applied) + [c.path]
  {
  }

  /** What one entry of a listing does to the list of changes and to the queue. */
  ghost function AfterEntry(server: Server, req: Request, fs: Fs, dir: Path, e: Entry, applied: seq<Change>, queue: seq<Path>)
    : (seq<Change>, seq<Path>)
  {
    var c := dir + [e.name];
    if IsDot(e.name) || !Takes(server, req, c) then (applied, queue)
    else (applied + [Change(c, NewMode(server, req, c))], if server.lstat(c).value.node.Dir? then queue + [c] else queue)
  }

  lemma HandleEntry(server: Server, req: Request, fs: Fs, applied: seq<Change>, done: seq<Path>, dir: Path,
                    queue: seq<Path>, entries: seq<Entry>, i: nat)
    requires Describes(server, fs) && IsListing(fs, dir, entries) && i < |entries|
    requires RightModes(server, req, applied)
    requires Visiting(server, req, fs, PathsOf(applied), done, dir, queue, entries, i)
    ensures var (applied', queue') := AfterEntry(server, req, fs, dir, entries[i], applied, queue);
            && RightModes(server, req, applied')
            && Visiting(server, req, fs, PathsOf(applied'), done, dir, queue', entries, i + 1)
  {
    hide Visiting, Takes;
    var c := dir + [entries[i].name];
    if IsDot(entries[i].name) || !Takes(server, req, c) {
      SkipChild(server, req, fs, PathsOf(applied), done, dir, queue, entries, i);
    } else {
      TakesReads(server, req, fs, c);
      PathsAppend(applied, Change(c, NewMode(server, req, c)));
      TakeChild(server, req, fs, PathsOf(applied), done, dir, queue, entries, i);
    }
  }

  lemma TakesReads(server: Server, req: Request, fs: Fs, c: Path)
    requires Describes(server, fs) && Takes(server, req, c)
    ensures server.lstat(c).Ok? && (c in fs ==> server.lstat(c).value.node == fs[c])
  {
  }

  /** One round of the queue loop: the entries of `dir`, failures skipped. */
  method VisitDirectory(server: Server, req: Request, dir: Path, entries: seq<Entry>, pending: seq<Path>,
                        before: seq<Change>, ghost fs: Fs, ghost done: seq<Path>)
    returns (dirs: seq<Path>, applied: seq<Change>)
    requires WellFormedBelow(fs) && Describes(server, fs) && IsListing(fs, dir, entries)
    requires RightModes(server, req, before)
    requires Visiting(server, req, fs, PathsOf(before), done, dir, pending, entries, 0)
    ensures before <= applied
    ensures LoopInv(server, req, fs, applied, done + [dir], dirs, |dir|)
  {
    dirs, applied := pending, before;
    for i := 0 to |entries|
      invariant RightModes(server, req, applied) && before <= applied
      invariant Visiting(server, req, fs, PathsOf(applied), done, dir, dirs, entries, i)
    {
      HandleEntry(server, req, fs, applied, done, dir, dirs, entries, i);
      var filename := entries[i].name;
      if IsDot(filename) { continue; }
      var entryPath := dir + [filename];
      var outcome: Result<Option<Path>>;
      outcome, applied := ApplyPermissions(server, req, entryPath, applied);
      match outcome
      case Ok(Some(subDir)) => dirs := dirs + [subDir];
      case Ok(None) =>
      case Err =>
    }
    EndVisit(server, req, fs, PathsOf(applied), done, dir, dirs, entries);
  }

  ghost predicate LoopInv(server: Server, req: Request, fs: Fs, applied: seq<Change>, done: seq<Path>,
                          dirs: seq<Path>, depth: nat)
  {
    && RightModes(server, req, applied)
    && Inv(server, req, fs, PathsOf(applied), done, dirs) && Level(PathsOf(applied), dirs, depth)
    && Handled(server, req, fs, PathsOf(applied), done)
  }

  lemma StartLoop(server: Server, req: Request, fs: Fs)
    requires WellFormedBelow(fs) && Describes(server, fs) && Takes(server, req, [])
    ensures LoopInv(server, req, fs, [Change([], NewMode(server, req, []))], [],
                    if server.lstat([]).value.node.Dir? then [[]] else [], 0)
  {
    assert PathsOf([Change([], NewMode(server, req, []))]) == [[]];
    assert Justified(server, req, fs, [], []);
  }

  method ProcessFront(server: Server, req: Request, dirs: seq<Path>, applied: seq<Change>,
                      ghost fs: Fs, ghost done: seq<Path>, ghost depth: nat)
    returns (ok: bool, dirs': seq<Path>, applied': seq<Change>)
    requires WellFormedBelow(fs) && Describes(server, fs)
    requires dirs != [] && LoopInv(server, req, fs, applied, done, dirs, depth)
    ensures applied <= applied' && dirs[0] in fs && dirs[0] !in done
    ensures !ok ==> applied' == applied && server.read(dirs[0]).Err?
    ensures ok ==> LoopInv(server, req, fs, applied', done + [dirs[0]], dirs', |dirs[0]|)
  {
    var dir := dirs[0];
    assert dir in dirs;
    var listing := server.read(dir);
    if listing.Err? { return false, dirs, applied; }
    PopFront(server, req, fs, PathsOf(applied), done, dirs, depth, listing.value);
    dirs', applied' := VisitDirectory(server, req, dir, listing.value, dirs[1..], applied, fs, done);
    ok := true;
  }

  /** The queue loop, started after the root took the change. */
  method ProcessQueue(server: Server, req: Request, queue: seq<Path>, before: seq<Change>, ghost fs: Fs)
    returns (r: Result<()>, applied: seq<Change>)
    requires WellFormedBelow(fs) && Describes(server, fs) && req.recursive && Takes(server, req, [])
    requires LoopInv(server, req, fs, before, [], queue, 0)
    requires |before| == 1 && before[0].path == []
    ensures Sound(server, req, fs, applied)
    ensures r.Ok? <==> Succeeds(server, req, fs)
    ensures r.Ok? ==> Changed(applied) == Targets(server, req, fs)
  {
    hide LoopInv, Sound, Succeeds;
    var dirs := queue;
    applied := before;
    ghost var done: seq<Path>, depth: nat := [], 0;
    while dirs != []
      invariant LoopInv(server, req, fs, applied, done, dirs, depth)
      invariant |applied| > 0 && applied[0].path == []
      decreases fs.Keys - (set d | d in done)
    {
      ghost var dir := dirs[0];
      var ok, dirs', applied' := ProcessFront(server, req, dirs, applied, fs, done, depth);
      if !ok {
        Stopped(server, req, fs, applied, done, dirs, depth);
        return Err, applied;
      }
      assert (set d | d in done + [dir]) == (set d | d in done) + {dir};
      dirs, applied, done, depth := dirs', applied', done + [dir], |dir|;
    }
    Complete(server, req, fs, applied, done, depth);
    r := Ok(());
  }

  method SetPermissions(server: Server, req: Request, ghost fs: Fs) returns (r: Result<()>, applied: seq<Change>)
    requires WellFormedBelow(fs) && Describes(server, fs)
    ensures Sound(server, req, fs, applied)
    ensures r.Ok? <==> Succeeds(server, req, fs)
    ensures r.Ok? ==> Changed(applied) == Targets(server, req, fs)
  {
    hide Sound, Succeeds, LoopInv, Attached;
    var root: Result<Option<Path>>;
    root, applied := ApplyPermissions(server, req, [], []);
    if !Takes(server, req, []) {
      NoRoot(server, req, fs);
      return if root.Err? then Err else Ok(()), applied;
    }
    assert applied == [Change([], NewMode(server, req, []))];
    var dirs: seq<Path> := if root.value.Some? then [root.value.value] else [];
    if req.recursive {
      assert dirs == if server.lstat([]).value.node.Dir? then [[]] else [];
      StartLoop(server, req, fs);
      r, applied := ProcessQueue(server, req, dirs, applied, fs);
    } else {
      OnlyRoot(server, req, fs, applied);
      r := Ok(());
    }
  }

  lemma NoRoot(server: Server, req: Request, fs: Fs)
    requires !Takes(server, req, [])
    ensures Sound(server, req, fs, []) && Changed([]) == Targets(server, req, fs)
    ensures Succeeds(server, req, fs) <==>
              server.lstat([]).Ok? && req.excludeSymlinks && server.lstat([]).value.node.Link?
  {
    forall p ensures !(Reachable(server, req, fs, p) && Takes(server, req, p)) {
      assert p[..0] == [];
    }
  }

  /** A directory that cannot be listed ends the call. */
  lemma Stopped(server: Server, req: Request, fs: Fs, applied: seq<Change>, done: seq<Path>, dirs: seq<Path>, depth: nat)
    requires req.recursive && dirs != [] && server.read(dirs[0]).Err?
    requires LoopInv(server, req, fs, applied, done, dirs, depth)
    ensures Sound(server, req, fs, applied) && !Succeeds(server, req, fs)
  {
    InvIsSound(server, req, fs, applied, done, dirs);
    assert dirs[0] in dirs;
    assert Justified(server, req, fs, done, dirs[0]);
  }

  lemma Complete(server: Server, req: Request, fs: Fs, applied: seq<Change>, done: seq<Path>, depth: nat)
    requires WellFormedBelow(fs) && req.recursive && Takes(server, req, [])
    requires |applied| > 0 && applied[0].path == []
    requires LoopInv(server, req, fs, applied, done, [], depth)
    ensures Sound(server, req, fs, applied) && Succeeds(server, req, fs)
    ensures Changed(applied) == Targets(server, req, fs)
  {
    InvIsSound(server, req, fs, applied, done, []);
    var paths := PathsOf(applied);
    assert paths[0] in paths;
    forall p | p in paths ensures p in Targets(server, req, fs) {
      assert Justified(server, req, fs, done, p);
    }
    forall p | p in Targets(server, req, fs) ensures p in paths {
      AllChanged(server, req, fs, paths, done, p);
    }
    forall p ensures p in Changed(applied) <==> p in paths {
      if p in paths {
        var k :| 0 <= k < |paths| && paths[k] == p;
        assert applied[k].path in Changed(applied);
      }
    }
  }

  lemma OnlyRoot(server: Server, req: Request, fs: Fs, applied: seq<Change>)
    requires [] in fs && !req.recursive && Takes(server, req, [])
    requires applied == [Change([], NewMode(server, req, []))]
    ensures Sound(server, req, fs, applied) && Succeeds(server, req, fs)
    ensures Changed(applied) == Targets(server, req, fs)
  {
    assert applied[0].path in Changed(applied);
    assert Targets(server, req, fs) == {[]};
  }

  /** Like `WellFormed`, but the node the call names may be of any kind. */
  ghost predicate WellFormedBelow(fs: Fs) {
    [] in fs && forall p {:trigger Attached(fs, p)} :: p in fs ==> Attached(fs, p)
  }
}
