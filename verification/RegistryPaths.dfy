/** Paths of a registered schema: their names, their tables, and the way back from the names. */
module RegistryPaths {
  import opened Common
  import opened Registry
  import opened RegistryTree
  import opened RegistryRoots
  import RegistryLinks
  import Paths

  // ---------------------------------------------------------------------------------- Specification

  /** TMessagePath::String(): the names along the path, up to the first entry without one. */
  function Names(h: Path -> int, s: State, path: Path): (r: seq<string>)
    ensures |r| <= |path|
  {
    if path == [] then []
    else
      var before := Names(h, s, path[..|path| - 1]);
      if |before| == |path| - 1 && h(path) in s.names then before + [s.names[h(path)]] else before
  }

  /** Appending entries by name, one after another; an unknown name throws. */
  function Follow(h: Path -> int, s: State, base: Path, names: seq<string>): Result<Path>
    decreases |names|
  {
    if names == [] then Ok(base)
    else if (h(base), names[0]) in s.entries then Follow(h, s, base + [s.entries[(h(base), names[0])]], names[1..])
    else Throw
  }

  /** TMessagePath(string): the parts between slashes, followed from the empty path. */
  function Parsed(h: Path -> int, s: State, text: string): Result<Path> { Follow(h, s, [], Paths.Parts(text)) }

  function HashOf(next: (int, nat) -> int): Path -> int { (p: Path) => Paths.Hash(next, p) }

  // ---------------------------------------------------------------------------------- The methods

  /** String(): the hash is carried from entry to entry. */
  method PathNames(next: (int, nat) -> int, s: State, path: Path) returns (result: seq<string>)
    ensures result == Names(HashOf(next), s, path)
  {
    result := [];
    var hash := 0;
    for i := 0 to |path|
      invariant hash == Paths.Hash(next, path[..i])
      invariant result == Names(HashOf(next), s, path[..i]) && |result| == i
    {
      assert path[..i + 1][..i] == path[..i];
      hash := next(hash, path[i]);
      if hash !in s.names {
        ShortNames(HashOf(next), s, path, i + 1);
        return;
      }
      result := result + [s.names[hash]];
    }
    assert path[..|path|] == path;
  }

  /** After an entry without a name there are no more. */
  lemma {:induction false} ShortNames(h: Path -> int, s: State, path: Path, i: nat)
    requires i <= |path| && |Names(h, s, path[..i])| < i
    ensures Names(h, s, path) == Names(h, s, path[..i])
    decreases |path|
  {
    if i < |path| {
      assert path[..|path| - 1][..i] == path[..i];
      ShortNames(h, s, path[..|path| - 1], i);
    } else {
      assert path[..i] == path;
    }
  }

  /** AppendEntry for each part of the text. */
  method ParsePath(h: Path -> int, s: State, text: string) returns (r: Result<Path>)
    ensures r == Parsed(h, s, text)
  {
    var names := Paths.Split(text);
    var path := [];
    assert names[0..] == names;
    for i := 0 to |names|
      invariant Follow(h, s, path, names[i..]) == Follow(h, s, [], names)
    {
      assert names[i..][1..] == names[i + 1..];
      if (h(path), names[i]) !in s.entries { return Throw; }
      path := path + [s.entries[(h(path), names[i])]];
    }
    r := Ok(path);
  }

  // ---------------------------------------------------------------------------------- Places

  /** Every non-empty prefix of a place is a place. */
  lemma {:induction false} PrefixIsPlace(root: Root, p: Path, k: nat)
    requires IsPlace(root, p) && 0 < k <= |p|
    ensures IsPlace(root, p[..k])
    decreases |p|
  {
    if k == |p| {
      assert p[..k] == p;
    } else {
      var i :| 0 <= i < |NodesOfRoot(root)| && PathOf(NodesOfRoot(root)[i]) == p;
      var parent := NodesOfRoot(root)[i].parent;
      RegistryLinks.ParentIsPlace(root, i);
      assert parent == p[..|p| - 1];
      PrefixIsPlace(root, parent, k);
      assert parent[..k] == p[..k];
    }
  }

  /** The name of a place: the root's or the field's. */
  ghost predicate IsNamed(root: Root, p: Path, name: string) {
    (p == [root.number] && name == root.name) ||
    exists i :: 0 <= i < |NodesOfRoot(root)| && PathOf(NodesOfRoot(root)[i]) == p
      && NodesOfRoot(root)[i].field.name == name
  }

  /** The name registered at a path, and the entry that leads from the place above back to it. */
  ghost predicate NamedBothWays(h: Path -> int, s: State, root: Root, p: Path) {
    && p != [] && h(p) in s.names && IsNamed(root, p, s.names[h(p)])
    && Lookup(s.entries, (h(p[..|p| - 1]), s.names[h(p)])) == Some(p[|p| - 1])
  }

  lemma RootNamed(h: Path -> int, s: State, root: Root)
    requires h([]) == 0 && Shows(h, s, root) && RegistryLinks.EntriesShown(h, s.entries, root)
    ensures NamedBothWays(h, s, root, [root.number])
  {
    hide NodesOfRoot;
    var p := [root.number];
    assert p[..|p| - 1] == [];
    assert At(s, h(p)).name == Some(root.name);
  }

  lemma NodeNamed(h: Path -> int, s: State, root: Root, j: nat)
    requires Shows(h, s, root) && RegistryLinks.EntriesShown(h, s.entries, root) && j < |NodesOfRoot(root)|
    ensures NamedBothWays(h, s, root, PathOf(NodesOfRoot(root)[j]))
  {
    hide NodesOfRoot;
    var n := NodesOfRoot(root)[j];
    var p := PathOf(n);
    assert At(s, h(p)).name == Some(n.field.name);
    assert p[..|p| - 1] == n.parent && p[|p| - 1] == n.field.number;
  }

  /** Every place is named both ways. */
  lemma {:induction false} NamedPlace(h: Path -> int, roots: seq<Root>, i: nat, p: Path)
    requires ProperRoots(roots) && HashOk(h, roots) && i < |roots| && IsPlace(roots[i], p)
    ensures NamedBothWays(h, AddRoots(h, roots), roots[i], p)
  {
    hide AddRoots, NodesOfRoot, Shows, NamedBothWays, IsKey, ProperRoots;
    RegistryShowsTheTrees(h, roots);
    RegistryLinks.EntriesAreTheNames(h, roots);
    RootNamed(h, AddRoots(h, roots), roots[i]);
    if p != [roots[i].number] {
      var j :| 0 <= j < |NodesOfRoot(roots[i])| && PathOf(NodesOfRoot(roots[i])[j]) == p;
      NodeNamed(h, AddRoots(h, roots), roots[i], j);
    }
  }

  /** String() of a place gives one name for each entry, the names of the places along the way. */
  lemma {:induction false} NamesOfPlace(h: Path -> int, roots: seq<Root>, i: nat, p: Path)
    requires ProperRoots(roots) && HashOk(h, roots) && i < |roots| && IsPlace(roots[i], p)
    ensures |Names(h, AddRoots(h, roots), p)| == |p|
    ensures forall k :: 0 <= k < |p| ==> IsNamed(roots[i], p[..k + 1], Names(h, AddRoots(h, roots), p)[k])
    ensures Follow(h, AddRoots(h, roots), [], Names(h, AddRoots(h, roots), p)) == Ok(p)
    decreases |p|
  {
    hide AddRoots, IsNamed, IsPlace, HashOk, ProperRoots, Names, Follow;
    var s := AddRoots(h, roots);
    NamedPlace(h, roots, i, p);
    var above := p[..|p| - 1];
    if |p| > 1 {
      PrefixIsPlace(roots[i], p, |p| - 1);
      NamesOfPlace(h, roots, i, above);
    } else {
      NoNames(h, s);
    }
    LastName(h, s, roots[i], p);
  }

  lemma NoNames(h: Path -> int, s: State)
    ensures Names(h, s, []) == [] && Follow(h, s, [], []) == Ok([])
  {}

  /** One name more, for one entry more. */
  lemma LastName(h: Path -> int, s: State, root: Root, p: Path)
    requires NamedBothWays(h, s, root, p)
    requires var above := p[..|p| - 1];
             && |Names(h, s, above)| == |above| && Follow(h, s, [], Names(h, s, above)) == Ok(above)
             && forall k :: 0 <= k < |above| ==> IsNamed(root, above[..k + 1], Names(h, s, above)[k])
    ensures |Names(h, s, p)| == |p| && Follow(h, s, [], Names(h, s, p)) == Ok(p)
    ensures forall k :: 0 <= k < |p| ==> IsNamed(root, p[..k + 1], Names(h, s, p)[k])
  {
    hide IsNamed, Follow;
    var above, name := p[..|p| - 1], s.names[h(p)];
    assert Names(h, s, p) == Names(h, s, above) + [name];
    hide Names;
    forall k | 0 <= k < |p| ensures IsNamed(root, p[..k + 1], Names(h, s, p)[k]) {
      if k < |above| { assert above[..k + 1] == p[..k + 1]; } else { assert p[..k + 1] == p; }
    }
    FollowAppend(h, s, [], Names(h, s, above), name, above);
    assert p == above + [p[|p| - 1]];
  }

  lemma {:induction false} FollowAppend(h: Path -> int, s: State, base: Path, names: seq<string>, last: string,
    path: Path)
    requires Follow(h, s, base, names) == Ok(path)
    ensures Follow(h, s, base, names + [last]) ==
            if (h(path), last) in s.entries then Ok(path + [s.entries[(h(path), last)]]) else Throw
    decreases |names|
  {
    var all := names + [last];
    if names == [] {
      assert all[1..] == [] && all[0] == last;
    } else {
      assert all[1..] == names[1..] + [last] && all[0] == names[0];
      FollowAppend(h, s, base + [s.entries[(h(base), names[0])]], names[1..], last, path);
    }
  }

  /** Names as protobuf and the table configuration have them: not empty, without slashes. */
  predicate PlainName(name: string) { name != "" && Paths.SlashFree(name) }

  ghost predicate PlainNames(root: Root) {
    PlainName(root.name) && forall i :: 0 <= i < |NodesOfRoot(root)| ==> PlainName(NodesOfRoot(root)[i].field.name)
  }

  lemma NamedPlainly(root: Root, p: Path, name: string)
    requires PlainNames(root) && IsNamed(root, p, name)
    ensures PlainName(name)
  {
    hide NodesOfRoot;
  }

  /** The names of a registered place, joined by slashes, parse back to the same path. */
  lemma {:induction false} NamesParseBack(h: Path -> int, roots: seq<Root>, i: nat, p: Path)
    requires ProperRoots(roots) && HashOk(h, roots) && i < |roots| && IsPlace(roots[i], p) && PlainNames(roots[i])
    ensures Parsed(h, AddRoots(h, roots), Paths.Joined(Names(h, AddRoots(h, roots), p))) == Ok(p)
  {
    hide AddRoots, NodesOfRoot, HashOk, ProperRoots, IsPlace, Names, Follow, PlainNames, IsNamed;
    var names := Names(h, AddRoots(h, roots), p);
    NamesOfPlace(h, roots, i, p);
    PlaceStart(roots[i], p);
    forall k | 0 <= k < |names| ensures PlainName(names[k]) {
      assert IsNamed(roots[i], p[..k + 1], names[k]);
      NamedPlainly(roots[i], p[..k + 1], names[k]);
    }
    Paths.SplitOfJoined(names);
  }

  // ---------------------------------------------------------------------------------- Tables

  /** GetTable and GetField, when the lookups find their keys. */
  function TableOfPath(h: Path -> int, s: State, p: Path): Option<Path> {
    if h(p) in s.parentTable && s.parentTable[h(p)] in s.tables then Some(s.tables[s.parentTable[h(p)]].path) else None
  }

  lemma ShownTable(h: Path -> int, s: State, root: Root, p: Path)
    requires Shows(h, s, root) && IsPlace(root, p)
    ensures Lookup(s.parentTable, h(p)) == Some(h([root.number]))
  {
    hide NodesOfRoot;
    assert At(s, h([root.number])).table == Some(h([root.number]));
    forall j | 0 <= j < |NodesOfRoot(root)|
      ensures Lookup(s.parentTable, h(PathOf(NodesOfRoot(root)[j]))) == Some(h([root.number]))
    {
      assert At(s, h(PathOf(NodesOfRoot(root)[j]))).table == Some(h([root.number]));
    }
  }

  /** A registered path is its table's path followed by its field path; the table is its root. */
  lemma {:induction false} PathIsTableAndField(h: Path -> int, roots: seq<Root>, i: nat, p: Path)
    requires ProperRoots(roots) && HashOk(h, roots) && i < |roots| && IsPlace(roots[i], p)
    ensures TableOfPath(h, AddRoots(h, roots), p) == Some([roots[i].number])
    ensures p == [roots[i].number] + p[1..]
  {
    hide AddRoots, TableOf, Shows, IsPlace, IsKey, HashOk, ProperRoots;
    RegistryShowsTheTrees(h, roots);
    ShownTable(h, AddRoots(h, roots), roots[i], p);
    TablesAreTheRoots(h, roots);
    PlaceStart(roots[i], p);
    TablePath(h, roots[i]);
  }

  lemma TablePath(h: Path -> int, root: Root)
    ensures TableOf(h, root).path == [root.number]
  {}
}
