/** Tar archives of the Docker backend: copying a path inside a container by renaming the
    entries of its archive, and making a directory with all its ancestors by an archive of
    directory entries. Entry paths are strings. */
module TarRewrite {
  import opened Wrappers
  import opened Text

  datatype Kind = Directory | Regular

  datatype Entry<D> = Entry(path: string, kind: Kind, data: seq<D>)

  // ----- Renaming -----

  /** `replacen(from, to, 1)`. */
  function ReplaceFirst(s: string, from: string, to: string): string
    decreases |s|
  {
    if from <= s then to + s[|from|..]
    else if s == "" then ""
    else [s[0]] + ReplaceFirst(s[1..], from, to)
  }

  function NewPath(path: string, src: string, dst: string): string {
    if path == src || path == src + "/" then ReplaceFirst(path, src, dst)
    else if src + "/" <= path then dst + "/" + path[|src| + 1..]
    else path
  }

  ghost predicate IsRenamed(path: string, src: string, dst: string) {
    NewPath(path, src, dst) == if path == src || src + "/" <= path then dst + path[|src|..] else path
  }

  /** Only the root's name is exchanged, in the paths that begin with it as a component. */
  lemma Renamed(path: string, src: string, dst: string)
    ensures IsRenamed(path, src, dst)
  {
    if Rooted(path, src) {
      RootedIsMoved(path, src, dst);
    } else {
      StrayIsKept(path, src, dst);
    }
  }

  method RewriteEntries<D>(archive: seq<Entry<D>>, src: string, dst: string) returns (out: seq<Entry<D>>)
    ensures |out| == |archive|
    ensures forall i :: 0 <= i < |archive| ==>
              var path := archive[i].path;
              out[i] == archive[i].(path := if path == src || src + "/" <= path then dst + path[|src|..] else path)
  {
    forall i | 0 <= i < |archive| ensures IsRenamed(archive[i].path, src, dst) {
      Renamed(archive[i].path, src, dst);
    }
    out := [];
    for i := 0 to |archive|
      invariant |out| == i
      invariant forall k :: 0 <= k < i ==> out[k] == archive[k].(path := NewPath(archive[k].path, src, dst))
    {
      var entry := archive[i];
      var path := NewPath(entry.path, src, dst);
      assert IsRenamed(entry.path, src, dst);
      if |entry.data| > 0 {
        out := out + [Entry(path, entry.kind, entry.data)];
      } else {
        out := out + [Entry(path, entry.kind, [])];
      }
    }
  }

  /** The last component of a path: not empty, without slashes. */
  predicate IsFileName(n: string) {
    n != "" && '/' !in n
  }

  /** The root of the archive or something below it. */
  predicate Rooted(path: string, src: string) {
    path == src || src + "/" <= path
  }

  /** `q` lies below `p`; a trailing slash of `p` does not matter. */
  predicate Below(q: string, p: string) {
    if p != "" && p[|p| - 1] == '/' then p < q else p + "/" <= q && p + "/" != q
  }

  /** Every entry of the archive has its root name exchanged, and nothing else. */
  lemma RootedIsMoved(path: string, src: string, dst: string)
    requires Rooted(path, src)
    ensures src <= path && NewPath(path, src, dst) == dst + path[|src|..]
    ensures Rooted(NewPath(path, src, dst), dst)
  {
    if path != src && path != src + "/" {
      assert path[|src|..] == "/" + path[|src| + 1..];
    }
    if path != src {
      assert path == src + "/" + path[|src| + 1..];
      assert path[|src|..] == "/" + path[|src| + 1..];
      assert dst + path[|src|..] == dst + "/" + path[|src| + 1..];
    }
  }

  /** In an archive rooted at the source, no two entries become one, and the relation of
      lying below stays as it is, both ways. */
  lemma RenamingKeepsTheTree(p: string, q: string, src: string, dst: string)
    requires IsFileName(src) && IsFileName(dst) && Rooted(p, src) && Rooted(q, src)
    ensures NewPath(src, src, dst) == dst
    ensures NewPath(p, src, dst) == NewPath(q, src, dst) <==> p == q
    ensures Below(NewPath(q, src, dst), NewPath(p, src, dst)) <==> Below(q, p)
  {
    RootedIsMoved(src, src, dst);
    RootedIsMoved(p, src, dst);
    RootedIsMoved(q, src, dst);
    var x, y := p[|src|..], q[|src|..];
    assert p == src + x && q == src + y;
    Shifted(x, y, src, dst);
    BelowShifted(x, y, src);
    BelowShifted(x, y, dst);
  }

  /** Renaming back restores every path of such an archive. */
  lemma RenamingIsUndone(path: string, src: string, dst: string)
    requires Rooted(path, src)
    ensures NewPath(NewPath(path, src, dst), dst, src) == path
  {
    RootedIsMoved(path, src, dst);
    RootedIsMoved(NewPath(path, src, dst), dst, src);
    assert (dst + path[|src|..])[|dst|..] == path[|src|..];
  }

  /** An entry outside the root, which is kept, is the only kind that can meet another. */
  lemma OnlyStraysCollide(p: string, q: string, src: string, dst: string)
    requires p != q
    ensures NewPath(p, src, dst) == NewPath(q, src, dst) <==>
            (Rooted(p, src) && !Rooted(q, src) && q == dst + p[|src|..])
            || (Rooted(q, src) && !Rooted(p, src) && p == dst + q[|src|..])
  {
    hide NewPath, Rooted;
    if Rooted(p, src) {
      RootedIsMoved(p, src, dst);
    } else {
      StrayIsKept(p, src, dst);
    }
    if Rooted(q, src) {
      RootedIsMoved(q, src, dst);
    } else {
      StrayIsKept(q, src, dst);
    }
    if Rooted(p, src) && Rooted(q, src) {
      assert p == src + p[|src|..] && q == src + q[|src|..];
      Shifted(p[|src|..], q[|src|..], src, dst);
    }
  }

  lemma StrayIsKept(path: string, src: string, dst: string)
    requires !Rooted(path, src)
    ensures NewPath(path, src, dst) == path
  {
  }

  lemma Shifted(x: string, y: string, src: string, dst: string)
    ensures dst + x == dst + y <==> x == y
    ensures src + x == src + y <==> x == y
  {
    assert (dst + x)[|dst|..] == x && (dst + y)[|dst|..] == y;
    assert (src + x)[|src|..] == x && (src + y)[|src|..] == y;
  }

  /** Lying below does not depend on the root's name. */
  lemma BelowShifted(x: string, y: string, root: string)
    requires IsFileName(root)
    ensures Below(root + y, root + x) <==> if x != "" && x[|x| - 1] == '/' then x < y else x + "/" <= y && x + "/" != y
  {
    PrefixShifted(x, y, root);
    PrefixShifted(x + "/", y, root);
    assert root + (x + "/") == (root + x) + "/";
    Shifted(x, y, root, root);
    Shifted(x + "/", y, root, root);
    if x == "" {
      assert (root + x)[|root + x| - 1] == root[|root| - 1];
    }
  }

  lemma PrefixShifted(x: string, y: string, root: string)
    ensures root + x <= root + y <==> x <= y
  {
    if root + x <= root + y {
      assert x == (root + x)[|root|..] == (root + y)[..|root + x|][|root|..] == y[..|x|];
    }
    if x <= y {
      assert (root + y)[..|root + x|] == root + y[..|x|];
    }
  }

  // ----- A directory with its ancestors -----

  /** The names along a path: empty components and dots are no names, and `..` is passed
      over. */
  function Names(path: string): seq<string>
    decreases |path|
  {
    match IndexOf(path, '/')
    case None => NameOf(path)
    case Some(i) => NameOf(path[..i]) + Names(path[i + 1..])
  }

  function NameOf(component: string): seq<string> {
    if component in {"", ".", ".."} then [] else [component]
  }

  function JoinSlash(names: seq<string>): string {
    if names == [] then ""
    else if |names| == 1 then names[0]
    else JoinSlash(names[..|names| - 1]) + "/" + names[|names| - 1]
  }

  const MARKER := ".distant"

  /** One entry for each non-empty prefix of the names, the shortest first, then a marker
      file under the whole; no archive at all for a path without names. */
  method DirectoryEntries<D>(path: string) returns (archive: seq<Entry<D>>)
    ensures var names := Names(path);
            if names == [] then archive == []
            else
              && |archive| == |names| + 1
              && (forall k :: 0 <= k < |names| ==>
                    archive[k] == Entry(JoinSlash(names[..k + 1]) + "/", Directory, []))
              && archive[|names|] == Entry(JoinSlash(names) + "/.distant", Regular, [])
  {
    archive := [];
    var components := Names(path);
    if components == [] {
      return;
    }
    NamesAreNames(path);
    var cumulative := "";
    for i := 0 to |components|
      invariant cumulative == JoinSlash(components[..i])
      invariant |archive| == i
      invariant forall k :: 0 <= k < i ==>
                  archive[k] == Entry(JoinSlash(components[..k + 1]) + "/", Directory, [])
    {
      JoinNext(components, i);
      if cumulative != "" {
        cumulative := cumulative + "/";
      }
      cumulative := cumulative + components[i];
      archive := archive + [Entry(cumulative + "/", Directory, [])];
    }
    assert components[..|components|] == components;
    archive := archive + [Entry(cumulative + "/" + MARKER, Regular, [])];
  }

  lemma {:induction false} NamesAreNames(path: string)
    ensures forall k :: 0 <= k < |Names(path)| ==> IsFileName(Names(path)[k])
    decreases |path|
  {
    match IndexOf(path, '/')
    case None =>
    case Some(i) => NamesAreNames(path[i + 1..]);
  }

  lemma JoinNext(names: seq<string>, i: nat)
    requires i < |names| && forall k :: 0 <= k < |names| ==> IsFileName(names[k])
    ensures JoinSlash(names[..i]) == "" <==> i == 0
    ensures JoinSlash(names[..i + 1]) == (if i == 0 then "" else JoinSlash(names[..i]) + "/") + names[i]
  {
    assert names[..i + 1][..i] == names[..i];
  }

  /** Each entry lies below all the entries before it, so no path is there twice and every
      directory exists before something is put into it. */
  lemma {:induction false} EntriesAreNested(names: seq<string>, j: nat, k: nat)
    requires (forall i :: 0 <= i < |names| ==> IsFileName(names[i])) && j < k < |names|
    ensures Below(JoinSlash(names[..k + 1]), JoinSlash(names[..j + 1]) + "/")
    ensures Below(JoinSlash(names[..k + 1]) + "/", JoinSlash(names[..j + 1]) + "/")
    decreases k
  {
    JoinNext(names, k);
    var p, q := JoinSlash(names[..j + 1]) + "/", JoinSlash(names[..k]) + "/";
    if j + 1 < k {
      EntriesAreNested(names, j, k - 1);
    } else {
      assert names[..j + 1] == names[..k];
    }
    assert p <= q;
    assert q <= JoinSlash(names[..k + 1]) && q != JoinSlash(names[..k + 1]);
  }

  /** The names of an entry's path are the prefix it was made from. */
  lemma {:induction false} NamesOfEntry(names: seq<string>)
    requires forall i :: 0 <= i < |names| ==> IsFileName(names[i]) && names[i] !in {".", ".."}
    ensures Names(JoinSlash(names) + "/") == names
  {
    hide Names, JoinSlash;
    NoNames();
    if names == [] {
    } else {
      var most, last := names[..|names| - 1], names[|names| - 1];
      NamesOfEntry(most);
      NameAlone(last);
      assert most + [last] == names;
      if most == [] {
        JoinOne(last);
      } else {
        JoinLast(names);
        NamesSplit(JoinSlash(most), last + "/");
        assert JoinSlash(most) + "/" + (last + "/") == JoinSlash(names) + "/";
      }
    }
  }

  /** A further component is a further name, unless it is empty, a dot or two dots. */
  lemma NamesGrow(path: string, component: string)
    requires '/' !in component
    ensures Names(path + "/" + component) == Names(path) + if component in {"", ".", ".."} then [] else [component]
    ensures Names(component) == if component in {"", ".", ".."} then [] else [component]
  {
    hide Names;
    NamesSplit(path, component);
    SlashEndsNothing(path);
    OneComponent(component);
  }

  lemma OneComponent(component: string)
    requires '/' !in component
    ensures Names(component) == NameOf(component)
  {
    assert IndexOf(component, '/').None?;
  }

  lemma {:induction false} SlashEndsNothing(path: string)
    ensures Names(path + "/") == Names(path)
    decreases |path|
  {
    hide Names, IndexOf, NameOf;
    NoNames();
    match IndexOf(path, '/')
    case None =>
      SplitAtFirst(path, "");
      OneComponent(path);
      assert path + "/" + "" == path + "/";
    case Some(i) =>
      var x, y := path[..i], path[i + 1..];
      assert path == x + "/" + y;
      SplitAtFirst(x, y);
      SplitAtFirst(x, y + "/");
      SlashEndsNothing(y);
      assert path + "/" == x + "/" + (y + "/");
  }

  lemma JoinOne(name: string)
    ensures JoinSlash([name]) == name
  {
  }

  lemma NameAlone(name: string)
    requires IsFileName(name) && name !in {".", ".."}
    ensures Names(name + "/") == [name]
  {
    IndexOfFirst(name, '/', "");
    assert (name + "/" + "")[..|name|] == name && (name + "/" + "")[|name| + 1..] == "";
    assert name + "/" + "" == name + "/";
  }

  lemma {:induction false} NamesSplit(a: string, b: string)
    ensures Names(a + "/" + b) == Names(a + "/") + Names(b)
    decreases |a|
  {
    hide Names, IndexOf, NameOf;
    match IndexOf(a, '/')
    case None =>
      SplitAtFirst(a, b);
      SplitAtFirst(a, "");
      assert a + "/" + "" == a + "/";
      NoNames();
    case Some(i) =>
      var x, y := a[..i], a[i + 1..];
      assert a == x + "/" + y;
      SplitAtFirst(x, y + "/" + b);
      SplitAtFirst(x, y + "/");
      assert a + "/" + b == x + "/" + (y + "/" + b) && a + "/" == x + "/" + (y + "/");
      NamesSplit(y, b);
  }

  lemma NoNames()
    ensures Names("") == [] && Names("/") == [] && JoinSlash([]) + "/" == "/"
  {
    assert IndexOf("/", '/') == Some(0);
    assert "/"[1..] == "" && "/"[..0] == "";
  }

  lemma JoinLast(names: seq<string>)
    requires |names| > 1
    ensures JoinSlash(names) == JoinSlash(names[..|names| - 1]) + "/" + names[|names| - 1]
  {
  }

  lemma SplitAtFirst(a: string, b: string)
    requires '/' !in a
    ensures Names(a + "/" + b) == NameOf(a) + Names(b)
  {
    IndexOfFirst(a, '/', b);
    assert (a + "/" + b)[..|a|] == a && (a + "/" + b)[|a| + 1..] == b;
  }
}
