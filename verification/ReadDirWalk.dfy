/** Recursive `read_dir` of the SSH backend: a work stack of directories, a depth bound,
    a list of errors for directories that cannot be read, and a final sort by path. */
module ReadDirWalk {
  import opened Wrappers
  import opened FileTree
  import opened PathStrings

  datatype FileType = DirType | SymlinkType | FileType

  datatype DirEntry = DirEntry(path: string, fileType: FileType, depth: nat)

  /** An SFTP server as seen by a walk that reads every directory at most once. */
  datatype Server = Server(read: string -> Result<seq<Entry>>, canonicalize: string -> Result<string>)

  function TypeOf(node: Node): (t: FileType)
    ensures (t.DirType? <==> node.Dir?) && (t.SymlinkType? <==> node.Link?) && (t.FileType? <==> node.File?)
  {
    match node
    case Dir => DirType
    case Link(_) => SymlinkType
    case File => FileType
  }

  /** `fs` is the tree below the directory that is read, its root being `[]`. Reached
      through `root`, each of its directories is either listed, in any order, or `denied`. */
  ghost predicate Answers(server: Server, fs: Fs, denied: set<Path>, root: string) {
    forall d {:trigger At(root, d)} :: d in fs && fs[d].Dir? ==>
      if d in denied then server.read(At(root, d)).Err?
      else server.read(At(root, d)).Ok? && IsListing(fs, d, server.read(At(root, d)).value)
  }

  /** Strings the names of the entries are built on: the canonical directory, or nothing. */
  function Prefix(server: Server, path: string, absolute: bool): string {
    if !absolute then ""
    else match server.canonicalize(path)
      case Ok(canonical) => canonical
      case Err => path
  }

  /** Where the sub-directories are read from. */
  function ReadRoot(server: Server, path: string, absolute: bool): string {
    if absolute then Prefix(server, path, absolute) else path
  }

  ghost predicate Tree(server: Server, fs: Fs, denied: set<Path>, path: string, absolute: bool) {
    && WellFormed(fs) && (forall p {:trigger ProperPath(p)} :: p in fs ==> ProperPath(p))
    && Answers(server, fs, denied, path)
    && Answers(server, fs, denied, ReadRoot(server, path, absolute))
  }

  // ----- What the walk is to return -----

  /** Within the depth bound, and all directories on the way readable. */
  ghost predicate Visible(fs: Fs, denied: set<Path>, depth: nat, p: Path) {
    && p in fs && p != []
    && (depth == 0 || |p| <= depth)
    && forall k :: 0 <= k < |p| ==> p[..k] !in denied
  }

  ghost predicate Expandable(fs: Fs, depth: nat, p: Path) {
    p in fs && fs[p].Dir? && (depth == 0 || |p| < depth)
  }

  function EntryOf(prefix: string, fs: Fs, p: Path): DirEntry
    requires p in fs
  {
    DirEntry(At(prefix, p), TypeOf(fs[p]), |p|)
  }

  ghost function Expected(prefix: string, fs: Fs, denied: set<Path>, depth: nat): set<DirEntry> {
    set p | p in fs && Visible(fs, denied, depth, p) :: EntryOf(prefix, fs, p)
  }

  ghost function ExpectedErrors(root: string, fs: Fs, denied: set<Path>, depth: nat): set<string> {
    set p | p in fs && Visible(fs, denied, depth, p) && Expandable(fs, depth, p) && p in denied :: At(root, p)
  }

  // ----- Listing one directory -----

  function Kept(l: seq<Entry>): (r: seq<Entry>)
    ensures forall e :: e in r <==> e in l && e.name != "." && e.name != ".."
  {
    if l == [] then []
    else if IsDot(l[|l| - 1].name) then Kept(l[..|l| - 1])
    else Kept(l[..|l| - 1]) + [l[|l| - 1]]
  }

  lemma KeptStep(l: seq<Entry>, i: nat)
    requires i < |l|
    ensures Kept(l[..i + 1]) == if IsDot(l[i].name) then Kept(l[..i]) else Kept(l[..i]) + [l[i]]
  {
    assert l[..i + 1][..i] == l[..i];
  }

  ghost predicate NamesOnce(l: seq<Entry>) {
    forall i, j :: 0 <= i < j < |l| && !IsDot(l[i].name) ==> l[i].name != l[j].name
  }

  lemma {:induction false} KeptOnce(l: seq<Entry>)
    requires NamesOnce(l)
    ensures NamesOnce(Kept(l))
  {
    if l == [] {
    } else {
      var rest := l[..|l| - 1];
      KeptOnce(rest);
      forall e | e in Kept(rest) && !IsDot(l[|l| - 1].name) ensures e.name != l[|l| - 1].name {
        var i :| 0 <= i < |rest| && rest[i] == e;
        assert l[i] == e;
      }
    }
  }

  /** What a listing becomes once the dot entries are dropped. */
  ghost predicate Lists(fs: Fs, d: Path, l: seq<Entry>) {
    && NamesOnce(l)
    && (forall i :: 0 <= i < |l| ==> !IsDot(l[i].name) && d + [l[i].name] in fs && l[i].node == fs[d + [l[i].name]])
    && (forall n :: d + [n] in fs ==> exists i :: 0 <= i < |l| && l[i].name == n)
  }

  lemma KeptLists(fs: Fs, d: Path, l: seq<Entry>)
    requires WellFormed(fs) && IsListing(fs, d, l)
    ensures Lists(fs, d, Kept(l))
  {
    KeptOnce(l);
    forall n | d + [n] in fs ensures exists i :: 0 <= i < |Kept(l)| && Kept(l)[i].name == n {
      assert Attached(fs, d + [n]);
      assert n in Children(fs, d);
      var i :| 0 <= i < |l| && l[i].name == n;
      assert l[i] in Kept(l);
    }
    forall i | 0 <= i < |Kept(l)|
      ensures !IsDot(Kept(l)[i].name) && d + [Kept(l)[i].name] in fs && Kept(l)[i].node == fs[d + [Kept(l)[i].name]]
    {
      assert Kept(l)[i] in l;
    }
  }

  /** What `ReadSingleDir` makes of a listing without its dot entries. */
  ghost predicate MadeFrom(l: seq<DirEntry>, kept: seq<Entry>, basePath: string, absolute: bool) {
    && |l| == |kept|
    && forall k :: 0 <= k < |kept| ==>
         l[k] == DirEntry(if absolute then Join(basePath, kept[k].name) else kept[k].name, TypeOf(kept[k].node), 1)
  }

  method ReadSingleDir(server: Server, dirPath: string, basePath: string, absolute: bool)
    returns (r: Result<seq<DirEntry>>)
    ensures r.Ok? <==> server.read(dirPath).Ok?
    ensures r.Ok? ==> MadeFrom(r.value, Kept(server.read(dirPath).value), basePath, absolute)
  {
    hide *;
    var listing := server.read(dirPath);
    if listing.Err? { return Err; }
    var l, entries := listing.value, [];
    MadeFromNothing(basePath, absolute);
    KeptNothing(l);
    for i := 0 to |l|
      invariant MadeFrom(entries, Kept(l[..i]), basePath, absolute)
    {
      KeptStep(l, i);
      var filename := l[i].name;
      if !IsDot(filename) {
        var entryPath := if absolute then Join(basePath, filename) else filename;
        MadeFromAppend(entries, Kept(l[..i]), l[i], basePath, absolute);
        entries := entries + [DirEntry(entryPath, TypeOf(l[i].node), 1)];
      }
    }
    assert l[..|l|] == l;
    r := Ok(entries);
  }

  lemma MadeFromNothing(basePath: string, absolute: bool)
    ensures MadeFrom([], [], basePath, absolute)
  {
  }

  lemma KeptNothing(l: seq<Entry>)
    ensures Kept(l[..0]) == []
  {
  }

  lemma MadeFromAppend(l: seq<DirEntry>, kept: seq<Entry>, e: Entry, basePath: string, absolute: bool)
    requires MadeFrom(l, kept, basePath, absolute)
    ensures MadeFrom(l + [DirEntry(if absolute then Join(basePath, e.name) else e.name, TypeOf(e.node), 1)],
                     kept + [e], basePath, absolute)
  {
  }

  // ----- The invariant of the work-stack loop -----

  /** `found` and `todo` name the nodes behind the entries and behind the work stack. */
  ghost predicate Represents(prefix: string, fs: Fs, entries: seq<DirEntry>, found: seq<Path>) {
    && |entries| == |found|
    && forall k :: 0 <= k < |found| ==> found[k] in fs && entries[k] == EntryOf(prefix, fs, found[k])
  }

  /** `x` came out of a listing that is not pending any more. */
  ghost predicate HasSource(found: seq<Path>, todo: seq<Path>, x: Path) {
    x != [] && (Parent(x) == [] || (Parent(x) in found && Parent(x) !in todo))
  }

  /** A node that is off the work stack is fully dealt with. */
  ghost predicate Settled(fs: Fs, denied: set<Path>, depth: nat, found: seq<Path>, failed: seq<Path>, x: Path) {
    Expandable(fs, depth, x) ==>
      if x in denied then x in failed else forall n :: x + [n] in fs ==> x + [n] in found
  }

  ghost predicate Inv(fs: Fs, denied: set<Path>, depth: nat, found: seq<Path>, todo: seq<Path>, failed: seq<Path>) {
    && NoDup(found) && NoDup(todo) && NoDup(failed)
    && (forall x :: x in todo ==> x in found)
    && (forall x :: x in found ==> Visible(fs, denied, depth, x))
    && (forall x {:trigger HasSource(found, todo, x)} :: x in found ==> HasSource(found, todo, x))
    && (forall n :: [n] in fs ==> [n] in found)
    && (forall x {:trigger Settled(fs, denied, depth, found, failed, x)} ::
          x in found && x !in todo ==> Settled(fs, denied, depth, found, failed, x))
    && (forall x :: x in failed ==> x in found && x !in todo && x in denied && Expandable(fs, depth, x))
  }

  lemma {:induction false} FoundAll(fs: Fs, denied: set<Path>, depth: nat, found: seq<Path>, failed: seq<Path>, x: Path)
    requires WellFormed(fs)
    requires Inv(fs, denied, depth, found, [], failed)
    requires Visible(fs, denied, depth, x)
    ensures x in found
    decreases |x|
  {
    var up := Parent(x);
    assert up + [Last(x)] == x;
    if up == [] {
      assert x == [Last(x)];
    } else {
      assert Attached(fs, x);
      assert up == x[..|x| - 1];
      assert forall k :: 0 <= k < |up| ==> up[..k] == x[..k];
      FoundAll(fs, denied, depth, found, failed, up);
      assert Settled(fs, denied, depth, found, failed, up);
    }
  }

  /** Popping an entry that is not read: a file, a link, or a directory at the depth bound. */
  lemma PopLeaf(fs: Fs, denied: set<Path>, depth: nat, found: seq<Path>, todo: seq<Path>, failed: seq<Path>)
    requires todo != [] && Inv(fs, denied, depth, found, todo, failed)
    requires !Expandable(fs, depth, todo[|todo| - 1])
    ensures Inv(fs, denied, depth, found, todo[..|todo| - 1], failed)
  {
    var x, rest := todo[|todo| - 1], todo[..|todo| - 1];
    forall y {:trigger HasSource(found, rest, y)} | y in found ensures HasSource(found, rest, y) {
      assert HasSource(found, todo, y);
    }
    forall y {:trigger Settled(fs, denied, depth, found, failed, y)} | y in found && y !in rest
      ensures Settled(fs, denied, depth, found, failed, y)
    {
      assert y in todo ==> y == x;
    }
  }

  /** Popping a directory that cannot be read. */
  lemma PopDenied(fs: Fs, denied: set<Path>, depth: nat, found: seq<Path>, todo: seq<Path>, failed: seq<Path>)
    requires todo != [] && Inv(fs, denied, depth, found, todo, failed)
    requires Expandable(fs, depth, todo[|todo| - 1]) && todo[|todo| - 1] in denied
    ensures Inv(fs, denied, depth, found, todo[..|todo| - 1], failed + [todo[|todo| - 1]])
  {
    var x, rest := todo[|todo| - 1], todo[..|todo| - 1];
    var failed' := failed + [x];
    forall y {:trigger HasSource(found, rest, y)} | y in found ensures HasSource(found, rest, y) {
      assert HasSource(found, todo, y);
    }
    forall y {:trigger Settled(fs, denied, depth, found, failed', y)} | y in found && y !in rest
      ensures Settled(fs, denied, depth, found, failed', y)
    {
      if y != x {
        assert y !in todo;
        assert Settled(fs, denied, depth, found, failed, y);
      }
    }
    assert forall i :: 0 <= i < |failed| ==> failed[i] in failed;
  }

  ghost function Below(x: Path, kept: seq<Entry>): (r: seq<Path>)
    ensures |r| == |kept| && forall i :: 0 <= i < |kept| ==> r[i] == x + [kept[i].name]
  {
    seq(|kept|, i requires 0 <= i < |kept| => x + [kept[i].name])
  }

  /** Popping a directory that is read: its children are found and go on the stack. */
  lemma PopListed(fs: Fs, denied: set<Path>, depth: nat, found: seq<Path>, todo: seq<Path>, failed: seq<Path>,
                  kept: seq<Entry>)
    requires WellFormed(fs) && [] !in denied
    requires todo != [] && Inv(fs, denied, depth, found, todo, failed)
    requires Expandable(fs, depth, todo[|todo| - 1]) && todo[|todo| - 1] !in denied
    requires Lists(fs, todo[|todo| - 1], kept)
    ensures var x := todo[|todo| - 1];
            Inv(fs, denied, depth, found + Below(x, kept), todo[..|todo| - 1] + Below(x, kept), failed)
  {
    var x, rest := todo[|todo| - 1], todo[..|todo| - 1];
    var more := Below(x, kept);
    var found', todo' := found + more, rest + more;
    FoundBefore(fs, denied, depth, found, todo, failed, x, kept);
    LastIsFound(fs, denied, depth, found, todo, failed);
    BelowOnce(fs, x, kept);
    NoDupAppend(found, more);
    NoDupAppend(rest, more);
    forall y {:trigger HasSource(found', todo', y)} | y in found' ensures HasSource(found', todo', y) {
      if y in found { assert HasSource(found, todo, y); }
    }
    forall y | y in more ensures Visible(fs, denied, depth, y) {
      BelowVisible(fs, denied, depth, x, kept, y);
    }
    forall y {:trigger Settled(fs, denied, depth, found', failed, y)} | y in found' && y !in todo'
      ensures Settled(fs, denied, depth, found', failed, y)
    {
      if y != x {
        assert y in found && y !in todo;
        assert Settled(fs, denied, depth, found, failed, y);
      }
    }
  }

  lemma BelowOnce(fs: Fs, x: Path, kept: seq<Entry>)
    requires Lists(fs, x, kept)
    ensures NoDup(Below(x, kept))
    ensures forall y :: y in Below(x, kept) ==> y != [] && Parent(y) == x
    ensures forall n :: x + [n] in fs ==> x + [n] in Below(x, kept)
  {
    var more := Below(x, kept);
    forall i | 0 <= i < |more| ensures more[i] != [] && Parent(more[i]) == x && Last(more[i]) == kept[i].name {
    }
    forall n | x + [n] in fs ensures x + [n] in more {
      var i :| 0 <= i < |kept| && kept[i].name == n;
      assert more[i] in more;
    }
  }

  lemma BelowVisible(fs: Fs, denied: set<Path>, depth: nat, x: Path, kept: seq<Entry>, y: Path)
    requires Visible(fs, denied, depth, x) && Expandable(fs, depth, x) && x !in denied
    requires Lists(fs, x, kept) && y in Below(x, kept)
    ensures Visible(fs, denied, depth, y)
  {
    var i :| 0 <= i < |kept| && Below(x, kept)[i] == y;
    assert y == x + [kept[i].name];
    forall k | 0 <= k < |y| ensures y[..k] !in denied {
      assert y[..k] == if k < |x| then x[..k] else x;
    }
  }

  lemma NoDupAppend<T>(a: seq<T>, b: seq<T>)
    requires NoDup(a) && NoDup(b)
    requires forall i :: 0 <= i < |b| ==> b[i] !in a
    ensures NoDup(a + b)
  {
  }

  // ----- Sorting -----

  function InsertByPath(e: DirEntry, s: seq<DirEntry>): (r: seq<DirEntry>)
    ensures multiset(r) == multiset(s) + multiset{e}
  {
    if s == [] then [e]
    else if Less(s[0].path, e.path) then
      assert s == [s[0]] + s[1..];
      [s[0]] + InsertByPath(e, s[1..])
    else [e] + s
  }

  /** A stable sort by path: among equals, what came first stays first. */
  function SortByPath(s: seq<DirEntry>): (r: seq<DirEntry>)
    ensures multiset(r) == multiset(s)
  {
    if s == [] then []
    else
      assert s == [s[0]] + s[1..];
      InsertByPath(s[0], SortByPath(s[1..]))
  }

  /** By path, and among equal paths by depth: what a stable sort makes of a list in which
      only the root entry, pushed first, can share its path with another entry. */
  predicate Before(a: DirEntry, b: DirEntry) {
    Less(a.path, b.path) || (a.path == b.path && a.depth < b.depth)
  }

  predicate Ordered(s: seq<DirEntry>) {
    forall i, j :: 0 <= i < j < |s| ==> Before(s[i], s[j])
  }

  lemma BeforeTrans(a: DirEntry, b: DirEntry, c: DirEntry)
    requires Before(a, b) && Before(b, c)
    ensures Before(a, c) && !Before(b, a)
  {
    LessTotal(a.path, b.path);
    if Less(a.path, b.path) && Less(b.path, c.path) {
      LessTrans(a.path, b.path, c.path);
    }
  }

  ghost predicate Separable(s: seq<DirEntry>) {
    forall i, j :: 0 <= i < j < |s| ==> s[i].path != s[j].path || s[i].depth < s[j].depth
  }

  lemma {:induction false} InsertOrdered(e: DirEntry, s: seq<DirEntry>)
    requires Ordered(s)
    requires forall x :: x in s ==> e.path != x.path || e.depth < x.depth
    ensures Ordered(InsertByPath(e, s))
  {
    if s == [] {
    } else {
      LessTotal(s[0].path, e.path);
      if Less(s[0].path, e.path) {
        InsertOrdered(e, s[1..]);
        var r := InsertByPath(e, s[1..]);
        forall i | 0 <= i < |r| ensures Before(s[0], r[i]) {
          assert r[i] in multiset(r);
          assert r[i] == e || r[i] in s[1..];
        }
      } else {
        forall i | 0 <= i < |s| ensures Before(e, s[i]) {
          assert s[i] in s;
          if i > 0 && Before(e, s[0]) { BeforeTrans(e, s[0], s[i]); }
        }
      }
    }
  }

  lemma {:induction false} SortOrdered(s: seq<DirEntry>)
    requires Separable(s)
    ensures Ordered(SortByPath(s))
  {
    if s == [] {
    } else {
      SortOrdered(s[1..]);
      forall x | x in SortByPath(s[1..]) ensures s[0].path != x.path || s[0].depth < x.depth {
        assert x in multiset(SortByPath(s[1..]));
        assert x in s[1..];
      }
      InsertOrdered(s[0], SortByPath(s[1..]));
    }
  }

  /** An ordered list is determined by what is in it. */
  lemma {:induction false} OrderedUnique(a: seq<DirEntry>, b: seq<DirEntry>)
    requires Ordered(a) && Ordered(b)
    requires multiset(a) == multiset(b)
    ensures a == b
  {
    hide Before;
    assert |multiset(a)| == |a| && |multiset(b)| == |b|;
    if a == [] {
    } else {
      assert a[0] in multiset(a);
      assert a[0] in b;
      assert b[0] in multiset(b);
      assert b[0] in a;
      if a[0] != b[0] { BeforeTrans(a[0], b[0], a[0]); }
      assert a == [a[0]] + a[1..] && b == [b[0]] + b[1..];
      assert multiset(a[1..]) == multiset(a) - multiset{a[0]};
      OrderedUnique(a[1..], b[1..]);
    }
  }

  // ----- From lists to sets -----

  lemma {:induction false} OnceIsSet<T>(s: seq<T>)
    requires NoDup(s)
    ensures multiset(s) == multiset(set e | e in s)
  {
    if s == [] {
    } else {
      var e, rest := s[|s| - 1], s[..|s| - 1];
      OnceIsSet(rest);
      assert s == rest + [e];
      assert (set x | x in s) == (set x | x in rest) + {e};
    }
  }

  lemma RepresentsOnce(prefix: string, fs: Fs, entries: seq<DirEntry>, found: seq<Path>)
    requires Represents(prefix, fs, entries, found) && NoDup(found)
    requires forall x :: x in found ==> ProperPath(x) && x != []
    ensures NoDup(entries) && Separable(entries)
  {
    forall i, j | 0 <= i < j < |entries| ensures entries[i].path != entries[j].path {
      if entries[i].path == entries[j].path { AtInjective(prefix, found[i], found[j]); }
    }
  }

  /** The lists the loop leaves behind are what was to be returned, each item once. */
  lemma WalkResult(prefix: string, root: string, fs: Fs, denied: set<Path>, depth: nat, found: seq<Path>,
                   failed: seq<Path>, entries: seq<DirEntry>, errors: seq<string>)
    requires WellFormed(fs) && forall p {:trigger ProperPath(p)} :: p in fs ==> ProperPath(p)
    requires Inv(fs, denied, depth, found, [], failed)
    requires Represents(prefix, fs, entries, found)
    requires |errors| == |failed| && forall k :: 0 <= k < |failed| ==> errors[k] == At(root, failed[k])
    ensures multiset(entries) == multiset(Expected(prefix, fs, denied, depth))
    ensures multiset(errors) == multiset(ExpectedErrors(root, fs, denied, depth))
    ensures Separable(entries) && forall e :: e in entries ==> e.depth > 0
  {
    forall x | x in found ensures Visible(fs, denied, depth, x) && ProperPath(x) && x != [] {
    }
    RepresentsOnce(prefix, fs, entries, found);
    OnceIsSet(entries);
    forall e ensures e in entries <==> e in Expected(prefix, fs, denied, depth) {
      if e in entries {
        var k :| 0 <= k < |entries| && entries[k] == e;
        assert found[k] in found;
      }
      if e in Expected(prefix, fs, denied, depth) {
        var p :| p in fs && Visible(fs, denied, depth, p) && e == EntryOf(prefix, fs, p);
        FoundAll(fs, denied, depth, found, failed, p);
        var k :| 0 <= k < |found| && found[k] == p;
        assert entries[k] == e;
      }
    }
    assert (set e | e in entries) == Expected(prefix, fs, denied, depth);
    ErrorResult(root, fs, denied, depth, found, failed, errors);
  }

  lemma ErrorResult(root: string, fs: Fs, denied: set<Path>, depth: nat, found: seq<Path>,
                    failed: seq<Path>, errors: seq<string>)
    requires WellFormed(fs) && forall p {:trigger ProperPath(p)} :: p in fs ==> ProperPath(p)
    requires Inv(fs, denied, depth, found, [], failed)
    requires |errors| == |failed| && forall k :: 0 <= k < |failed| ==> errors[k] == At(root, failed[k])
    ensures multiset(errors) == multiset(ExpectedErrors(root, fs, denied, depth))
  {
    forall x | x in failed ensures Visible(fs, denied, depth, x) && ProperPath(x) && x != [] {
      assert x in found;
    }
    forall i, j | 0 <= i < j < |errors| ensures errors[i] != errors[j] {
      if errors[i] == errors[j] { AtInjective(root, failed[i], failed[j]); }
    }
    OnceIsSet(errors);
    forall e ensures e in errors <==> e in ExpectedErrors(root, fs, denied, depth) {
      if e in errors {
        var k :| 0 <= k < |errors| && errors[k] == e;
        assert failed[k] in failed;
      }
      if e in ExpectedErrors(root, fs, denied, depth) {
        var p :| p in fs && Visible(fs, denied, depth, p) && Expandable(fs, depth, p) && p in denied && e == At(root, p);
        FoundAll(fs, denied, depth, found, failed, p);
        assert Settled(fs, denied, depth, found, failed, p);
        var k :| 0 <= k < |failed| && failed[k] == p;
        assert errors[k] == e;
      }
    }
    assert (set e | e in errors) == ExpectedErrors(root, fs, denied, depth);
  }

  // ----- The walk -----

  function DirsOf(entries: seq<DirEntry>): (r: seq<DirEntry>) {
    if entries == [] then []
    else if entries[|entries| - 1].fileType.DirType? && entries[|entries| - 1].depth >= 1 then
      DirsOf(entries[..|entries| - 1]) + [entries[|entries| - 1]]
    else DirsOf(entries[..|entries| - 1])
  }

  /** The directories among `found`, in order. */
  ghost function DirPaths(fs: Fs, found: seq<Path>): (r: seq<Path>)
    ensures forall x :: x in r <==> x in found && x in fs && fs[x].Dir?
    ensures NoDup(found) ==> NoDup(r)
  {
    if found == [] then []
    else
      var x, rest := found[|found| - 1], found[..|found| - 1];
      if x in fs && fs[x].Dir? then DirPaths(fs, rest) + [x] else DirPaths(fs, rest)
  }

  lemma {:induction false} DirsRepresent(prefix: string, fs: Fs, entries: seq<DirEntry>, found: seq<Path>)
    requires Represents(prefix, fs, entries, found)
    requires forall k :: 0 <= k < |found| ==> found[k] != []
    ensures Represents(prefix, fs, DirsOf(entries), DirPaths(fs, found))
  {
    hide *;
    RepresentsSplit(prefix, fs, entries, found);
    if entries == [] {
      DirsOfNothing();
    } else {
      var n := |entries| - 1;
      DirsRepresent(prefix, fs, entries[..n], found[..n]);
      DirsOfStep(entries);
      DirPathsStep(fs, found);
      if entries[n].fileType.DirType? {
        RepresentsAppend(prefix, fs, DirsOf(entries[..n]), DirPaths(fs, found[..n]), [entries[n]], [found[n]]);
      }
    }
  }

  lemma RepresentsSplit(prefix: string, fs: Fs, entries: seq<DirEntry>, found: seq<Path>)
    requires Represents(prefix, fs, entries, found)
    ensures |entries| == |found|
    ensures entries == [] ==> Represents(prefix, fs, [], [])
    ensures entries != [] ==>
              var n := |entries| - 1;
              && Represents(prefix, fs, entries[..n], found[..n]) && Represents(prefix, fs, [entries[n]], [found[n]])
              && found[n] in fs && (entries[n].fileType.DirType? <==> fs[found[n]].Dir?) && entries[n].depth == |found[n]|
  {
  }

  lemma DirsOfNothing()
    ensures DirsOf([]) == [] && forall fs :: DirPaths(fs, []) == []
  {
  }

  lemma DirPathsStep(fs: Fs, found: seq<Path>)
    requires found != []
    ensures var n := |found| - 1;
            DirPaths(fs, found) == if found[n] in fs && fs[found[n]].Dir? then DirPaths(fs, found[..n]) + [found[n]]
                                   else DirPaths(fs, found[..n])
  {
  }

  lemma DirsOfStep(entries: seq<DirEntry>)
    requires entries != []
    ensures var n := |entries| - 1;
            DirsOf(entries) == if entries[n].fileType.DirType? && entries[n].depth >= 1 then DirsOf(entries[..n]) + [entries[n]]
                               else DirsOf(entries[..n])
  {
  }

  /** The state after the initial listing: everything in it is found, its directories wait. */
  lemma StartInv(fs: Fs, denied: set<Path>, depth: nat, kept: seq<Entry>)
    requires WellFormed(fs) && [] !in denied
    requires Lists(fs, [], kept)
    ensures var found := Below([], kept); Inv(fs, denied, depth, found, DirPaths(fs, found), [])
    ensures forall x :: x in Below([], kept) ==> x != []
  {
    hide WellFormed, Visible, Lists, Below, HasSource, Settled, Expandable, DirPaths, Inv, NoDup;
    var found := Below([], kept);
    var todo := DirPaths(fs, found);
    forall x | x in found ensures x in fs && Visible(fs, denied, depth, x) && x != [] && Parent(x) == [] {
      TopVisible(fs, denied, depth, kept, x);
    }
    TopListed(fs, kept);
    forall x {:trigger HasSource(found, todo, x)} | x in found ensures HasSource(found, todo, x) {
      TopSource(found, todo, x);
    }
    forall x {:trigger Settled(fs, denied, depth, found, [], x)} | x in found && x !in todo
      ensures Settled(fs, denied, depth, found, [], x)
    {
      LeafSettled(fs, denied, depth, found, [], x);
    }
    NothingFailed(fs, denied, depth, found, todo);
  }

  lemma NothingFailed(fs: Fs, denied: set<Path>, depth: nat, found: seq<Path>, todo: seq<Path>)
    requires NoDup(found) && NoDup(todo)
    requires forall x :: x in todo ==> x in found
    requires forall x :: x in found ==> Visible(fs, denied, depth, x)
    requires forall x {:trigger HasSource(found, todo, x)} :: x in found ==> HasSource(found, todo, x)
    requires forall n :: [n] in fs ==> [n] in found
    requires forall x {:trigger Settled(fs, denied, depth, found, [], x)} ::
               x in found && x !in todo ==> Settled(fs, denied, depth, found, [], x)
    ensures Inv(fs, denied, depth, found, todo, [])
  {
    hide Visible, HasSource, Settled, Expandable;
  }

  lemma TopListed(fs: Fs, kept: seq<Entry>)
    requires Lists(fs, [], kept)
    ensures forall n :: [n] in fs ==> [n] in Below([], kept)
    ensures NoDup(Below([], kept))
  {
    BelowOnce(fs, [], kept);
    forall n | [n] in fs ensures [n] in Below([], kept) {
      assert [] + [n] == [n];
    }
  }

  lemma TopSource(found: seq<Path>, todo: seq<Path>, x: Path)
    requires x != [] && Parent(x) == []
    ensures HasSource(found, todo, x)
  {
  }

  lemma LeafSettled(fs: Fs, denied: set<Path>, depth: nat, found: seq<Path>, failed: seq<Path>, x: Path)
    requires x in fs && !fs[x].Dir?
    ensures Settled(fs, denied, depth, found, failed, x)
  {
  }

  lemma TopVisible(fs: Fs, denied: set<Path>, depth: nat, kept: seq<Entry>, x: Path)
    requires [] !in denied && Lists(fs, [], kept) && x in Below([], kept)
    ensures x in fs && Visible(fs, denied, depth, x) && x != [] && Parent(x) == []
  {
    var i :| 0 <= i < |kept| && Below([], kept)[i] == x;
    assert x == [] + [kept[i].name];
    assert |x| == 1 && x[..0] == [];
  }

  /** What a call returns for a tree, whatever order its directories are listed in. */
  ghost predicate IsResult(fs: Fs, denied: set<Path>, depth: nat, prefix: string, root: string,
                           rootEntry: Option<DirEntry>, entries: seq<DirEntry>, errors: seq<string>)
  {
    && Ordered(entries)
    && multiset(entries) == multiset(Expected(prefix, fs, denied, depth))
         + (if rootEntry.Some? then multiset{rootEntry.value} else multiset{})
    && multiset(errors) == multiset(ExpectedErrors(root, fs, denied, depth))
  }

  function RootEntry(server: Server, path: string, includeRoot: bool): (r: Option<DirEntry>)
    ensures r.Some? ==> r.value.depth == 0
  {
    if !includeRoot then None
    else Some(DirEntry(match server.canonicalize(path) { case Ok(p) => p case Err => path }, DirType, 0))
  }

  /** The entries of a sub-directory, as the loop rewrites them. */
  function SubEntries(parent: DirEntry, l: seq<DirEntry>, absolute: bool): (r: seq<DirEntry>)
    ensures |r| == |l|
    ensures forall k :: 0 <= k < |l| ==>
      r[k] == DirEntry(if absolute then l[k].path else Join(parent.path, l[k].path), l[k].fileType, parent.depth + 1)
  {
    seq(|l|, k requires 0 <= k < |l| =>
      DirEntry(if absolute then l[k].path else Join(parent.path, l[k].path), l[k].fileType, parent.depth + 1))
  }

  method AppendSubEntries(parent: DirEntry, subEntries: seq<DirEntry>, absolute: bool,
                          toProcess: seq<DirEntry>, entries: seq<DirEntry>)
    returns (toProcess': seq<DirEntry>, entries': seq<DirEntry>)
    ensures toProcess' == toProcess + SubEntries(parent, subEntries, absolute)
    ensures entries' == entries + SubEntries(parent, subEntries, absolute)
  {
    toProcess', entries' := toProcess, entries;
    for i := 0 to |subEntries|
      invariant toProcess' == toProcess + SubEntries(parent, subEntries, absolute)[..i]
      invariant entries' == entries + SubEntries(parent, subEntries, absolute)[..i]
    {
      var subEntry := subEntries[i].(depth := parent.depth + 1);
      if !absolute {
        subEntry := subEntry.(path := Join(parent.path, subEntries[i].path));
      }
      toProcess' := toProcess' + [subEntry];
      entries' := entries' + [subEntry];
    }
  }

  lemma SubEntriesRepresent(prefix: string, fs: Fs, absolute: bool, x: Path, parent: DirEntry,
                            l: seq<DirEntry>, kept: seq<Entry>)
    requires x in fs && x != [] && parent == EntryOf(prefix, fs, x)
    requires Lists(fs, x, kept) && MadeFrom(l, kept, parent.path, absolute)
    ensures Represents(prefix, fs, SubEntries(parent, l, absolute), Below(x, kept))
  {
    forall k | 0 <= k < |kept|
      ensures Below(x, kept)[k] in fs
              && SubEntries(parent, l, absolute)[k] == EntryOf(prefix, fs, Below(x, kept)[k])
    {
      var p := Below(x, kept)[k];
      assert Parent(p) == x && Last(p) == kept[k].name;
    }
  }

  /** The invariant of the loop, work lists and what they stand for taken together. */
  ghost predicate LoopInv(prefix: string, root: string, fs: Fs, denied: set<Path>, depth: nat,
                          toProcess: seq<DirEntry>, entries: seq<DirEntry>, errors: seq<string>,
                          found: seq<Path>, todo: seq<Path>, failed: seq<Path>)
  {
    && Inv(fs, denied, depth, found, todo, failed)
    && Represents(prefix, fs, entries, found) && Represents(prefix, fs, toProcess, todo)
    && |errors| == |failed| && (forall k :: 0 <= k < |failed| ==> errors[k] == At(root, failed[k]))
  }

  /** The node on top of the stack, and the entry that stands for it. */
  lemma TopOfStack(prefix: string, root: string, fs: Fs, denied: set<Path>, depth: nat,
                   toProcess: seq<DirEntry>, entries: seq<DirEntry>, errors: seq<string>,
                   found: seq<Path>, todo: seq<Path>, failed: seq<Path>)
    requires forall p {:trigger ProperPath(p)} :: p in fs ==> ProperPath(p)
    requires LoopInv(prefix, root, fs, denied, depth, toProcess, entries, errors, found, todo, failed)
    requires toProcess != []
    ensures todo != []
    ensures var x := todo[|todo| - 1];
            && x in found && x in fs && x != [] && ProperPath(x)
            && toProcess[|toProcess| - 1] == EntryOf(prefix, fs, x)
  {
    var x := todo[|todo| - 1];
    assert x in todo;
    assert x in found;
    assert Visible(fs, denied, depth, x);
  }

  method ReadDirectory(server: Server, path: string, depth: nat, absolute: bool, includeRoot: bool,
                       ghost fs: Fs, ghost denied: set<Path>)
    returns (r: Result<(seq<DirEntry>, seq<string>)>)
    requires Tree(server, fs, denied, path, absolute)
    ensures r.Ok? <==> [] !in denied
    ensures r.Ok? ==> IsResult(fs, denied, depth, Prefix(server, path, absolute), ReadRoot(server, path, absolute),
                               RootEntry(server, path, includeRoot), r.value.0, r.value.1)
  {
    hide *;
    ghost var prefix, root := Prefix(server, path, absolute), ReadRoot(server, path, absolute);
    RootIsListed(server, fs, denied, path, absolute);
    var rootListing := ReadSingleDir(server, path, ReadRoot(server, path, absolute), absolute);
    if rootListing.Err? { return Err; }
    ghost var kept := Kept(server.read(path).value);
    var rootEntry := RootEntry(server, path, includeRoot);
    var entries: seq<DirEntry>, errors: seq<string> := rootListing.value, [];
    ghost var found: seq<Path>, failed: seq<Path> := Below([], kept), [];
    ghost var todo := DirPaths(fs, found);
    StartLoop(prefix, root, fs, denied, depth, absolute, entries, kept);
    if depth == 0 || depth > 1 {
      TopIsNotQueued(TopList(rootEntry), entries);
      var toProcess := DirsOf(TopList(rootEntry) + entries);
      while toProcess != []
        invariant LoopInv(prefix, root, fs, denied, depth, toProcess, entries, errors, found, todo, failed)
        decreases Left(fs, found, todo)
      {
        toProcess, entries, errors, found, todo, failed :=
          ProcessLast(server, path, depth, absolute, toProcess, entries, errors, fs, denied, found, todo, failed);
      }
    } else {
      NothingToProcess(prefix, root, fs, denied, DirsOf(entries), entries, errors, found, todo, failed);
      todo := [];
    }
    Finish(prefix, root, fs, denied, depth, rootEntry, entries, errors, found, todo, failed);
    r := Ok((SortByPath(TopList(rootEntry) + entries), errors));
  }

  lemma RootIsListed(server: Server, fs: Fs, denied: set<Path>, path: string, absolute: bool)
    requires Tree(server, fs, denied, path, absolute)
    ensures if [] in denied then server.read(path).Err?
            else server.read(path).Ok? && Lists(fs, [], Kept(server.read(path).value))
    ensures WellFormed(fs) && (forall p {:trigger ProperPath(p)} :: p in fs ==> ProperPath(p))
    ensures Prefix(server, path, absolute) == if absolute then ReadRoot(server, path, absolute) else ""
  {
    assert At(path, []) == path;
    if [] !in denied { KeptLists(fs, [], server.read(path).value); }
  }

  lemma SubdirIsListed(server: Server, fs: Fs, denied: set<Path>, path: string, absolute: bool, x: Path)
    requires Tree(server, fs, denied, path, absolute)
    requires x in fs && fs[x].Dir?
    ensures var s := At(ReadRoot(server, path, absolute), x);
            if x in denied then server.read(s).Err?
            else server.read(s).Ok? && Lists(fs, x, Kept(server.read(s).value))
    ensures WellFormed(fs) && (forall p {:trigger ProperPath(p)} :: p in fs ==> ProperPath(p))
  {
    if x !in denied { KeptLists(fs, x, server.read(At(ReadRoot(server, path, absolute), x)).value); }
  }

  function TopList(rootEntry: Option<DirEntry>): (r: seq<DirEntry>)
    ensures forall e :: e in r ==> rootEntry == Some(e)
  {
    if rootEntry.Some? then [rootEntry.value] else []
  }

  /** The loop starts in its invariant. */
  lemma StartLoop(prefix: string, root: string, fs: Fs, denied: set<Path>, depth: nat, absolute: bool,
                  entries: seq<DirEntry>, kept: seq<Entry>)
    requires WellFormed(fs) && [] !in denied && Lists(fs, [], kept)
    requires MadeFrom(entries, kept, root, absolute) && prefix == if absolute then root else ""
    ensures var found := Below([], kept);
            LoopInv(prefix, root, fs, denied, depth, DirsOf(entries), entries, [], found, DirPaths(fs, found), [])
  {
    StartInv(fs, denied, depth, kept);
    RootRepresents(fs, prefix, absolute, root, kept, entries);
    DirsRepresent(prefix, fs, entries, Below([], kept));
  }

  /** An empty work stack means the result is complete. */
  lemma Finish(prefix: string, root: string, fs: Fs, denied: set<Path>, depth: nat, rootEntry: Option<DirEntry>,
               entries: seq<DirEntry>, errors: seq<string>, found: seq<Path>, todo: seq<Path>, failed: seq<Path>)
    requires WellFormed(fs) && forall p {:trigger ProperPath(p)} :: p in fs ==> ProperPath(p)
    requires LoopInv(prefix, root, fs, denied, depth, [], entries, errors, found, todo, failed)
    requires rootEntry.Some? ==> rootEntry.value.depth == 0
    ensures IsResult(fs, denied, depth, prefix, root, rootEntry,
                     SortByPath(TopList(rootEntry) + entries), errors)
  {
    assert todo == [];
    WalkResult(prefix, root, fs, denied, depth, found, failed, entries, errors);
    var all := TopList(rootEntry) + entries;
    assert Separable(all);
    SortOrdered(all);
  }

  /** The answer is the same whatever order the directories are listed in, and whatever
      else the two servers differ in. */
  lemma ResultIsUnique(fs: Fs, denied: set<Path>, depth: nat, prefix: string, root: string, rootEntry: Option<DirEntry>,
                       entries1: seq<DirEntry>, errors1: seq<string>, entries2: seq<DirEntry>, errors2: seq<string>)
    requires IsResult(fs, denied, depth, prefix, root, rootEntry, entries1, errors1)
    requires IsResult(fs, denied, depth, prefix, root, rootEntry, entries2, errors2)
    ensures entries1 == entries2 && multiset(errors1) == multiset(errors2)
  {
    OrderedUnique(entries1, entries2);
  }

  /** An entry that stands for the node at `p`, told by what it is and by nothing else. */
  ghost predicate StandsFor(e: DirEntry, fs: Fs, top: string, p: Path)
    requires p in fs
  {
    && e.path == At(top, p) && e.depth == |p|
    && (e.fileType.DirType? <==> fs[p].Dir?)
    && (e.fileType.SymlinkType? <==> fs[p].Link?)
    && (e.fileType.FileType? <==> fs[p].File?)
  }

  /** What the entries are: one for every visible node, with its kind, its depth and its path
      below `top`, and the directory itself if that is asked for. */
  ghost predicate Describe(fs: Fs, denied: set<Path>, depth: nat, top: string, self: Option<string>, entries: seq<DirEntry>) {
    && (forall p :: p in fs && Visible(fs, denied, depth, p) ==> exists e :: e in entries && StandsFor(e, fs, top, p))
    && (self.Some? ==> DirEntry(self.value, DirType, 0) in entries)
    && (forall e :: e in entries ==>
          || (self.Some? && e == DirEntry(self.value, DirType, 0))
          || (exists p :: p in fs && Visible(fs, denied, depth, p) && StandsFor(e, fs, top, p)))
  }

  /** In absolute mode paths start with the canonical directory, or with the given one if it
      has no canonical form, and otherwise below the directory; the directory's own entry has
      its canonical path in either mode. */
  lemma WhatIsListed(server: Server, path: string, depth: nat, absolute: bool, withRoot: bool,
                     fs: Fs, denied: set<Path>, entries: seq<DirEntry>, errors: seq<string>)
    requires IsResult(fs, denied, depth, Prefix(server, path, absolute), ReadRoot(server, path, absolute),
                      RootEntry(server, path, withRoot), entries, errors)
    ensures var canonical := if server.canonicalize(path).Ok? then server.canonicalize(path).value else path;
            Describe(fs, denied, depth, if absolute then canonical else "", if withRoot then Some(canonical) else None, entries)
    ensures forall i, j :: 0 <= i < j < |entries| ==>
              Less(entries[i].path, entries[j].path) || (entries[i].path == entries[j].path && entries[i].depth < entries[j].depth)
    ensures forall p :: p in fs && p in denied && Visible(fs, denied, depth, p) && fs[p].Dir? && (depth == 0 || |p| < depth) ==>
              At(if absolute && server.canonicalize(path).Ok? then server.canonicalize(path).value else path, p) in errors
  {
    hide IsResult, Describe, Visible, At, Less, Expandable;
    Starts(server, path, absolute, withRoot);
    ResultDescribes(fs, denied, depth, Prefix(server, path, absolute), ReadRoot(server, path, absolute),
                    RootEntry(server, path, withRoot), entries, errors);
  }

  /** Where paths start, where directories are read, and the directory's own entry. */
  lemma Starts(server: Server, path: string, absolute: bool, withRoot: bool)
    ensures var canonical := if server.canonicalize(path).Ok? then server.canonicalize(path).value else path;
            && Prefix(server, path, absolute) == (if absolute then canonical else "")
            && ReadRoot(server, path, absolute) == (if absolute then canonical else path)
            && RootEntry(server, path, withRoot) == if withRoot then Some(DirEntry(canonical, DirType, 0)) else None
  {
  }

  lemma ResultDescribes(fs: Fs, denied: set<Path>, depth: nat, top: string, root: string, own: Option<DirEntry>,
                        entries: seq<DirEntry>, errors: seq<string>)
    requires IsResult(fs, denied, depth, top, root, own, entries, errors)
    requires own.Some? ==> own.value == DirEntry(own.value.path, DirType, 0)
    ensures Describe(fs, denied, depth, top, if own.Some? then Some(own.value.path) else None, entries)
    ensures forall i, j :: 0 <= i < j < |entries| ==>
              Less(entries[i].path, entries[j].path) || (entries[i].path == entries[j].path && entries[i].depth < entries[j].depth)
    ensures forall p :: p in fs && p in denied && Visible(fs, denied, depth, p) && fs[p].Dir? && (depth == 0 || |p| < depth) ==>
              At(root, p) in errors
  {
    hide Visible, At, Less;
    Members(entries, Expected(top, fs, denied, depth), own);
    forall p | p in fs && Visible(fs, denied, depth, p) ensures exists e :: e in entries && StandsFor(e, fs, top, p) {
      assert EntryOf(top, fs, p) in Expected(top, fs, denied, depth);
      assert StandsFor(EntryOf(top, fs, p), fs, top, p);
    }
    forall p | p in fs && p in denied && Visible(fs, denied, depth, p) && fs[p].Dir? && (depth == 0 || |p| < depth)
      ensures At(root, p) in errors
    {
      assert At(root, p) in ExpectedErrors(root, fs, denied, depth);
      assert At(root, p) in multiset(errors);
    }
  }

  lemma Members(entries: seq<DirEntry>, expected: set<DirEntry>, own: Option<DirEntry>)
    requires multiset(entries) == multiset(expected) + (if own.Some? then multiset{own.value} else multiset{})
    ensures forall e :: e in entries <==> e in expected || own == Some(e)
  {
    assert forall e :: e in entries <==> e in multiset(entries);
  }

  /** One round of the work-stack loop. */
  method ProcessLast(server: Server, path: string, depth: nat, absolute: bool,
                     toProcess: seq<DirEntry>, entries: seq<DirEntry>, errors: seq<string>,
                     ghost fs: Fs, ghost denied: set<Path>,
                     ghost found: seq<Path>, ghost todo: seq<Path>, ghost failed: seq<Path>)
    returns (toProcess': seq<DirEntry>, entries': seq<DirEntry>, errors': seq<string>,
             ghost found': seq<Path>, ghost todo': seq<Path>, ghost failed': seq<Path>)
    requires Tree(server, fs, denied, path, absolute) && [] !in denied
    requires toProcess != []
    requires LoopInv(Prefix(server, path, absolute), ReadRoot(server, path, absolute), fs, denied, depth,
                     toProcess, entries, errors, found, todo, failed)
    ensures LoopInv(Prefix(server, path, absolute), ReadRoot(server, path, absolute), fs, denied, depth,
                    toProcess', entries', errors', found', todo', failed')
    ensures Left(fs, found', todo') < Left(fs, found, todo)
  {
    ghost var prefix, root := Prefix(server, path, absolute), ReadRoot(server, path, absolute);
    RootIsListed(server, fs, denied, path, absolute);
    TopOfStack(prefix, root, fs, denied, depth, toProcess, entries, errors, found, todo, failed);
    hide Tree, LoopInv, Inv, IsListing, WellFormed, Lists, Represents;
    ghost var x := todo[|todo| - 1];
    var entry := toProcess[|toProcess| - 1];
    toProcess', entries', errors' := toProcess[..|toProcess| - 1], entries, errors;
    found', todo', failed' := found, todo[..|todo| - 1], failed;
    if entry.fileType.DirType? && (depth == 0 || entry.depth < depth) {
      var subdir := if absolute then entry.path else Join(path, entry.path);
      if !absolute { JoinAt(path, x); }
      assert subdir == At(root, x);
      SubdirIsListed(server, fs, denied, path, absolute, x);
      var listing := ReadSingleDir(server, subdir, subdir, absolute);
      match listing
      case Ok(subEntries) =>
        ghost var kept := Kept(server.read(subdir).value);
        toProcess', entries' := AppendSubEntries(entry, subEntries, absolute, toProcess', entries');
        ListedStep(prefix, root, fs, denied, depth, toProcess, entries, errors, found, todo, failed,
                   absolute, subEntries, kept);
        found', todo' := found + Below(x, kept), todo' + Below(x, kept);
      case Err =>
        DeniedStep(prefix, root, fs, denied, depth, toProcess, entries, errors, found, todo, failed);
        errors', failed' := errors + [subdir], failed + [x];
    } else {
      LeafStep(prefix, root, fs, denied, depth, toProcess, entries, errors, found, todo, failed);
    }
  }

  lemma LeafStep(prefix: string, root: string, fs: Fs, denied: set<Path>, depth: nat,
                 toProcess: seq<DirEntry>, entries: seq<DirEntry>, errors: seq<string>,
                 found: seq<Path>, todo: seq<Path>, failed: seq<Path>)
    requires LoopInv(prefix, root, fs, denied, depth, toProcess, entries, errors, found, todo, failed)
    requires toProcess != [] && !Expandable(fs, depth, todo[|todo| - 1])
    ensures LoopInv(prefix, root, fs, denied, depth, toProcess[..|toProcess| - 1], entries, errors,
                    found, todo[..|todo| - 1], failed)
    ensures Left(fs, found, todo[..|todo| - 1]) < Left(fs, found, todo)
  {
    PopLeaf(fs, denied, depth, found, todo, failed);
    LastIsFound(fs, denied, depth, found, todo, failed);
    hide Inv;
    WalkShrinks(fs, found, todo, found, todo[..|todo| - 1]);
  }

  lemma DeniedStep(prefix: string, root: string, fs: Fs, denied: set<Path>, depth: nat,
                   toProcess: seq<DirEntry>, entries: seq<DirEntry>, errors: seq<string>,
                   found: seq<Path>, todo: seq<Path>, failed: seq<Path>)
    requires LoopInv(prefix, root, fs, denied, depth, toProcess, entries, errors, found, todo, failed)
    requires toProcess != []
    requires var x := todo[|todo| - 1]; Expandable(fs, depth, x) && x in denied
    ensures var x := todo[|todo| - 1];
            LoopInv(prefix, root, fs, denied, depth, toProcess[..|toProcess| - 1], entries, errors + [At(root, x)],
                    found, todo[..|todo| - 1], failed + [x])
    ensures Left(fs, found, todo[..|todo| - 1]) < Left(fs, found, todo)
  {
    PopDenied(fs, denied, depth, found, todo, failed);
    LastIsFound(fs, denied, depth, found, todo, failed);
    hide Inv;
    WalkShrinks(fs, found, todo, found, todo[..|todo| - 1]);
  }

  lemma LastIsFound(fs: Fs, denied: set<Path>, depth: nat, found: seq<Path>, todo: seq<Path>, failed: seq<Path>)
    requires todo != [] && Inv(fs, denied, depth, found, todo, failed)
    ensures var x := todo[|todo| - 1];
            x in todo && x in found && x in fs && x != [] && x !in todo[..|todo| - 1]
  {
    var x := todo[|todo| - 1];
    assert x in todo;
    assert Visible(fs, denied, depth, x);
  }

  /** What the loop has not settled yet; it gets smaller every round. */
  ghost function Left(fs: Fs, found: seq<Path>, todo: seq<Path>): set<Path> {
    fs.Keys - (set x | x in found && x !in todo)
  }

  lemma ListedStep(prefix: string, root: string, fs: Fs, denied: set<Path>, depth: nat,
                   toProcess: seq<DirEntry>, entries: seq<DirEntry>, errors: seq<string>,
                   found: seq<Path>, todo: seq<Path>, failed: seq<Path>,
                   absolute: bool, subEntries: seq<DirEntry>, kept: seq<Entry>)
    requires WellFormed(fs) && [] !in denied && forall p {:trigger ProperPath(p)} :: p in fs ==> ProperPath(p)
    requires LoopInv(prefix, root, fs, denied, depth, toProcess, entries, errors, found, todo, failed)
    requires toProcess != []
    requires var x := todo[|todo| - 1]; Expandable(fs, depth, x) && x !in denied && Lists(fs, x, kept)
    requires MadeFrom(subEntries, kept, toProcess[|toProcess| - 1].path, absolute)
    ensures var x, entry := todo[|todo| - 1], toProcess[|toProcess| - 1];
            var new_ := SubEntries(entry, subEntries, absolute);
            && LoopInv(prefix, root, fs, denied, depth, toProcess[..|toProcess| - 1] + new_, entries + new_, errors,
                       found + Below(x, kept), todo[..|todo| - 1] + Below(x, kept), failed)
            && Left(fs, found + Below(x, kept), todo[..|todo| - 1] + Below(x, kept)) < Left(fs, found, todo)
  {
    TopOfStack(prefix, root, fs, denied, depth, toProcess, entries, errors, found, todo, failed);
    var x, entry := todo[|todo| - 1], toProcess[|toProcess| - 1];
    var new_, more := SubEntries(entry, subEntries, absolute), Below(x, kept);
    assert Inv(fs, denied, depth, found + more, todo[..|todo| - 1] + more, failed) by {
      PopListed(fs, denied, depth, found, todo, failed, kept);
    }
    assert Represents(prefix, fs, new_, more) by {
      SubEntriesRepresent(prefix, fs, absolute, x, entry, subEntries, kept);
    }
    RepresentsAppend(prefix, fs, entries, found, new_, more);
    RepresentsAppend(prefix, fs, toProcess[..|toProcess| - 1], todo[..|todo| - 1], new_, more);
    ListedShrinks(fs, denied, depth, found, todo, failed, kept);
  }

  lemma RepresentsAppend(prefix: string, fs: Fs, a: seq<DirEntry>, f: seq<Path>, b: seq<DirEntry>, g: seq<Path>)
    requires Represents(prefix, fs, a, f) && Represents(prefix, fs, b, g)
    ensures Represents(prefix, fs, a + b, f + g)
  {
  }

  lemma ListedShrinks(fs: Fs, denied: set<Path>, depth: nat, found: seq<Path>, todo: seq<Path>, failed: seq<Path>,
                      kept: seq<Entry>)
    requires todo != [] && Inv(fs, denied, depth, found, todo, failed)
    ensures var x := todo[|todo| - 1];
            Left(fs, found + Below(x, kept), todo[..|todo| - 1] + Below(x, kept)) < Left(fs, found, todo)
  {
    var x, rest := todo[|todo| - 1], todo[..|todo| - 1];
    var more := Below(x, kept);
    FoundBefore(fs, denied, depth, found, todo, failed, x, kept);
    LastIsFound(fs, denied, depth, found, todo, failed);
    hide Inv;
    forall y | y in more ensures y !in found {
      var i :| 0 <= i < |more| && more[i] == y;
    }
    WalkShrinks(fs, found, todo, found + more, rest + more);
  }

  lemma FoundBefore(fs: Fs, denied: set<Path>, depth: nat, found: seq<Path>, todo: seq<Path>, failed: seq<Path>,
                    x: Path, kept: seq<Entry>)
    requires Inv(fs, denied, depth, found, todo, failed) && x in todo
    ensures forall i :: 0 <= i < |kept| ==> Below(x, kept)[i] !in found
    ensures x !in Below(x, kept)
  {
    assert x in found;
    assert Visible(fs, denied, depth, x);
    forall y | y in found ensures y == [] || Parent(y) != x {
      assert HasSource(found, todo, y);
    }
    assert forall i :: 0 <= i < |kept| ==> Parent(Below(x, kept)[i]) == x;
  }

  lemma WalkShrinks(fs: Fs, found: seq<Path>, todo: seq<Path>, found': seq<Path>, todo': seq<Path>)
    requires todo != [] && todo[|todo| - 1] in found && todo[|todo| - 1] in fs
    requires found <= found' && todo[|todo| - 1] !in todo'
    requires forall x :: x in todo' && x in found ==> x in todo
    ensures Left(fs, found', todo') < Left(fs, found, todo)
  {
    var x := todo[|todo| - 1];
    var before, after := (set y | y in found && y !in todo), (set y | y in found' && y !in todo');
    forall y | y in found ensures y in found' {
      var k :| 0 <= k < |found| && found[k] == y;
      assert found'[k] == y;
    }
    assert before <= after;
    assert x in fs.Keys - before && x !in fs.Keys - after;
  }

  /** With depth 1 the loop is skipped: no directory in the initial listing may be read. */
  lemma NothingToProcess(prefix: string, root: string, fs: Fs, denied: set<Path>,
                         toProcess: seq<DirEntry>, entries: seq<DirEntry>, errors: seq<string>,
                         found: seq<Path>, todo: seq<Path>, failed: seq<Path>)
    requires LoopInv(prefix, root, fs, denied, 1, toProcess, entries, errors, found, todo, failed)
    ensures LoopInv(prefix, root, fs, denied, 1, [], entries, errors, found, [], failed)
  {
    forall y {:trigger HasSource(found, [], y)} | y in found ensures HasSource(found, [], y) {
      assert HasSource(found, todo, y);
    }
    forall y {:trigger Settled(fs, denied, 1, found, failed, y)} | y in found
      ensures Settled(fs, denied, 1, found, failed, y)
    {
      assert Visible(fs, denied, 1, y);
    }
  }

  /** The root entry, of depth 0, never goes on the work stack. */
  lemma {:induction false} TopIsNotQueued(top: seq<DirEntry>, entries: seq<DirEntry>)
    requires forall e :: e in top ==> e.depth == 0
    ensures DirsOf(top + entries) == DirsOf(entries)
  {
    if entries != [] {
      var n := |top + entries|;
      assert (top + entries)[..n - 1] == top + entries[..|entries| - 1];
      TopIsNotQueued(top, entries[..|entries| - 1]);
    } else if top != [] {
      assert (top + entries)[..|top| - 1] == top[..|top| - 1] + entries;
      TopIsNotQueued(top[..|top| - 1], entries);
    }
  }

  lemma RootRepresents(fs: Fs, prefix: string, absolute: bool, basePath: string, kept: seq<Entry>, entries: seq<DirEntry>)
    requires Lists(fs, [], kept)
    requires prefix == if absolute then basePath else ""
    requires MadeFrom(entries, kept, basePath, absolute)
    ensures Represents(prefix, fs, entries, Below([], kept))
  {
    forall k | 0 <= k < |kept|
      ensures Below([], kept)[k] in fs && entries[k] == EntryOf(prefix, fs, Below([], kept)[k])
    {
      var p := Below([], kept)[k];
      assert Parent(p) == [] && Last(p) == kept[k].name;
      assert At(prefix, Parent(p)) == prefix;
    }
  }
}
