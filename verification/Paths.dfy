/** TMessagePath: order, ancestors, hashes, and the way between paths and their names. */
module Paths {
  import opened Common
  import SqlTree

  type Path = seq<nat>

  // ---------------------------------------------------------------------------------- Order

  /** Lexicographic order: at the first difference the smaller number decides, and a prefix comes first. */
  predicate Less(a: Path, b: Path) {
    if b == [] then false
    else if a == [] then true
    else a[0] < b[0] || (a[0] == b[0] && Less(a[1..], b[1..]))
  }

  /** The paths agree up to i, and a has the smaller number there. */
  predicate SmallerAt(a: Path, b: Path, i: nat) { i < |a| && i < |b| && a[..i] == b[..i] && a[i] < b[i] }

  /** A path is less than another exactly if it is a proper prefix or has the smaller number at the first difference. */
  lemma {:induction false} LessExactly(a: Path, b: Path)
    ensures Less(a, b) <==> a < b || exists i: nat :: SmallerAt(a, b, i)
  {
    if a != [] && b != [] && a[0] == b[0] {
      var c, d := a[1..], b[1..];
      LessExactly(c, d);
      assert a == [a[0]] + c && b == [b[0]] + d;
      if i: nat :| SmallerAt(c, d, i) { SmallerBehind(a, b, i); }
      if i: nat :| SmallerAt(a, b, i) { SmallerBehind(a, b, i - 1); }
    } else if a != [] && b != [] {
      if a[0] < b[0] { assert SmallerAt(a, b, 0); }
      if i: nat :| SmallerAt(a, b, i) { FirstAgrees(a, b, i); }
    }
  }

  lemma SmallerBehind(a: Path, b: Path, i: nat)
    requires a != [] && b != [] && a[0] == b[0]
    ensures SmallerAt(a[1..], b[1..], i) <==> SmallerAt(a, b, i + 1)
  {
    if i + 1 < |a| && i + 1 < |b| {
      assert a[..i + 1] == [a[0]] + a[1..][..i] && b[..i + 1] == [b[0]] + b[1..][..i];
      assert a[..i + 1][1..] == a[1..][..i] && b[..i + 1][1..] == b[1..][..i];
    }
  }

  lemma FirstAgrees(a: Path, b: Path, i: nat)
    requires SmallerAt(a, b, i)
    ensures i > 0 ==> a[0] == b[0]
  {
    if i > 0 { assert a[..i][0] == b[..i][0]; }
  }

  /** operator<: the comparison loop. */
  method Compare(a: Path, b: Path) returns (less: bool)
    ensures less == Less(a, b)
  {
    var size := if |a| < |b| then |a| else |b|;
    for i := 0 to size
      invariant Less(a, b) == Less(a[i..], b[i..])
    {
      assert a[i..][1..] == a[i + 1..] && b[i..][1..] == b[i + 1..];
      if a[i] < b[i] { return true; }
      if a[i] > b[i] { return false; }
    }
    less := |a| < |b|;
  }

  /** A strict total order, as std::map needs it: two paths are equivalent for it only when they are equal. */
  lemma {:induction false} LessIsTotal(a: Path, b: Path)
    ensures (Less(a, b) && a != b && !Less(b, a)) || (a == b && !Less(a, b) && !Less(b, a))
      || (Less(b, a) && a != b && !Less(a, b))
  {
    if a != [] && b != [] {
      LessIsTotal(a[1..], b[1..]);
      assert a == [a[0]] + a[1..] && b == [b[0]] + b[1..];
    }
  }

  lemma {:induction false} LessIsTransitive(a: Path, b: Path, c: Path)
    requires Less(a, b) && Less(b, c)
    ensures Less(a, c)
  {
    if a != [] && a[0] == b[0] && b[0] == c[0] { LessIsTransitive(a[1..], b[1..], c[1..]); }
  }

  /** An ancestor comes before its descendants. */
  lemma {:induction false} AncestorComesFirst(a: Path, b: Path)
    requires a < b
    ensures Less(a, b)
  {
    if a != [] { AncestorComesFirst(a[1..], b[1..]); }
  }

  /** What lies between two paths of a subtree in the order is in the subtree: in a map ordered by path a subtree
      is one stretch. */
  lemma {:induction false} SubtreeIsOneStretch(a: Path, x: Path, y: Path, z: Path)
    requires a <= x && a <= z && Less(x, y) && Less(y, z)
    ensures a <= y
  {
    if a != [] { SubtreeIsOneStretch(a[1..], x[1..], y[1..], z[1..]); }
  }

  // ---------------------------------------------------------------------------------- Ancestors

  /** isAncestorOf: the comparison loop finds a proper prefix. */
  method IsAncestorOf(a: Path, b: Path) returns (r: bool)
    ensures r <==> a < b
  {
    if |a| >= |b| { return false; }
    for i := 0 to |a|
      invariant a[..i] == b[..i]
    {
      if a[i] != b[i] { return false; }
    }
    assert a[..|a|] == a;
    r := true;
  }

  /** isParentOf: a proper prefix shorter by one entry. */
  method IsParentOf(a: Path, b: Path) returns (r: bool)
    ensures r <==> b != [] && a == b[..|b| - 1]
  {
    if |a| + 1 != |b| { return false; }
    for i := 0 to |a|
      invariant a[..i] == b[..i]
    {
      if a[i] != b[i] { return false; }
    }
    assert a[..|a|] == a;
    r := true;
  }

  // ---------------------------------------------------------------------------------- Hash

  /** The hash of a path, entry by entry from 0; the mixing of one entry is a parameter. */
  function Hash(next: (int, nat) -> int, path: Path): int {
    if path == [] then 0 else next(Hash(next, path[..|path| - 1]), path[|path| - 1])
  }

  method GetHash(next: (int, nat) -> int, path: Path) returns (hash: int)
    ensures hash == Hash(next, path)
  {
    hash := 0;
    for i := 0 to |path|
      invariant hash == Hash(next, path[..i])
    {
      assert path[..i + 1][..i] == path[..i];
      hash := next(hash, path[i]);
    }
    assert path[..|path|] == path;
  }

  /** Going on from the hash of the first entries gives the hash of the whole. */
  function HashFrom(next: (int, nat) -> int, hash: int, path: Path): int
    decreases |path|
  {
    if path == [] then hash else HashFrom(next, next(hash, path[0]), path[1..])
  }

  lemma {:induction false} IncrementalHash(next: (int, nat) -> int, a: Path, b: Path)
    ensures Hash(next, a + b) == HashFrom(next, Hash(next, a), b)
    decreases |b|
  {
    if b == [] {
      assert a + b == a;
    } else {
      assert a + b == a + [b[0]] + b[1..];
      assert (a + [b[0]])[..|a|] == a;
      IncrementalHash(next, a + [b[0]], b[1..]);
    }
  }

  // ---------------------------------------------------------------------------------- Split and join

  /** The position of the next slash, or the length of the text. */
  function SlashAt(s: string): (r: nat)
    ensures r <= |s| && (forall i :: 0 <= i < r ==> s[i] != '/') && (r < |s| ==> s[r] == '/')
  {
    if s == "" || s[0] == '/' then 0 else 1 + SlashAt(s[1..])
  }

  /** The parts between slashes; nothing for an empty rest. */
  function Parts(s: string): seq<string>
    decreases |s|
  {
    if s == "" then []
    else if SlashAt(s) == |s| then [s]
    else [s[..SlashAt(s)]] + Parts(s[SlashAt(s) + 1..])
  }

  /** std::string::find of a slash from a position on. */
  method FindSlash(s: string, pos: nat) returns (found: nat)
    requires pos <= |s|
    ensures pos <= found <= |s| && found - pos == SlashAt(s[pos..])
  {
    found := pos;
    while found < |s| && s[found] != '/'
      invariant pos <= found <= |s| && SlashAt(s[pos..]) == found - pos + SlashAt(s[found..])
    {
      assert s[found..][1..] == s[found + 1..];
      found := found + 1;
    }
  }

  /** Split with the delimiter "/" and no limit. */
  method Split(s: string) returns (result: seq<string>)
    ensures result == Parts(s)
  {
    NoParts();
    hide SlashAt, Parts;
    result := [];
    var pos := 0;
    assert s[0..] == s;
    while pos < |s|
      invariant pos <= |s| && result + Parts(s[pos..]) == Parts(s)
    {
      var found := FindSlash(s, pos);
      PartsFrom(s, pos, found);
      if found == |s| {
        result := result + [s[pos..]];
        break;
      }
      PartMoves(result, s[pos..found], Parts(s[found + 1..]));
      result := result + [s[pos..found]];
      pos := found + 1;
    }
    if pos == |s| { assert s[pos..] == ""; }
  }

  lemma NoParts()
    ensures Parts("") == []
  {}

  lemma PartMoves(before: seq<string>, part: string, rest: seq<string>)
    ensures before + ([part] + rest) == before + [part] + rest
  {}

  lemma PartsFrom(s: string, pos: nat, found: nat)
    requires pos < |s| && pos <= found <= |s| && found - pos == SlashAt(s[pos..])
    ensures Parts(s[pos..]) == if found == |s| then [s[pos..]] else [s[pos..found]] + Parts(s[found + 1..])
  {
    hide SlashAt;
    if found < |s| {
      assert s[pos..][..found - pos] == s[pos..found];
      assert s[pos..][found - pos + 1..] == s[found + 1..];
    }
  }

  predicate SlashFree(name: string) { forall i :: 0 <= i < |name| ==> name[i] != '/' }

  function Joined(names: seq<string>): string { SqlTree.JoinTexts(names, "/") }

  lemma {:induction false} SlashAfter(name: string, rest: string)
    requires SlashFree(name)
    ensures SlashAt(name) == |name| && SlashAt(name + "/" + rest) == |name|
  {
    if name == "" {
      assert name + "/" + rest == "/" + rest;
    } else {
      assert (name + "/" + rest)[1..] == name[1..] + "/" + rest;
      SlashAfter(name[1..], rest);
    }
  }

  /** Splitting gives back the joined names exactly when there are none or the last one is not empty. */
  lemma {:induction false} SplitOfJoined(names: seq<string>)
    requires forall i :: 0 <= i < |names| ==> SlashFree(names[i])
    ensures Parts(Joined(names)) == names <==> names == [] || names[|names| - 1] != ""
  {
    if |names| == 1 {
      SlashAfter(names[0], "");
    } else if |names| > 1 {
      var rest := Joined(names[1..]);
      SlashAfter(names[0], rest);
      var s := names[0] + "/" + rest;
      assert s[..|names[0]|] == names[0] && s[|names[0]| + 1..] == rest;
      SplitOfJoined(names[1..]);
      assert names == [names[0]] + names[1..];
    }
  }
}
