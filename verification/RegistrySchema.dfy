/** What INSERT and UPDATE are told of the registry: from the registered trees to the schema they rely on. */
module RegistrySchema {
  import opened Common
  import opened Registry
  import opened RegistryTree
  import opened RegistryRoots
  import Organizer
  import OrganizerUpdate

  /** The paths that have been registered. */
  function Paths(s: State): set<Path> { s.fields.Values + s.messages.Values }

  function OwnerPath(s: State, k: int): Path
    requires Sound(s) && k in s.parentTable
  {
    TableExists(s, k);
    s.tables[s.parentTable[k]].path
  }

  /** Of each of them GetTable, and of each root GetPrimaryFields. */
  function SchemaOf(h: Path -> int, s: State): Organizer.Schema
    requires Sound(s)
  {
    Organizer.Schema(
      map p | p in Paths(s) && h(p) in s.parentTable :: OwnerPath(s, h(p)),
      map t | t in s.roots.Values && h(t) in s.tables :: set p | p in Paths(s) && h(p) in s.tables[h(t)].primary)
  }

  /** Some root is at the path or has a node there. */
  ghost predicate IsAnyPlace(roots: seq<Root>, p: Path) { exists i :: 0 <= i < |roots| && IsPlace(roots[i], p) }

  /** A node of the root that belongs to its primary key stands at the path. */
  ghost predicate IsPrimary(root: Root, p: Path) {
    exists n :: Unrepeated([root.number], root.fields, n) && n.field.annotated && PathOf(n) == p
  }

  ghost function KeyOf<K(!new), V>(m: map<K, V>, v: V): (k: K)
    requires v in m.Values
    ensures k in m && m[k] == v
  {
    var k :| k in m && m[k] == v;
    k
  }

  lemma ViewAtPlace(h: Path -> int, s: State, root: Root, p: Path)
    requires Shows(h, s, root) && IsPlace(root, p)
    ensures var v := At(s, h(p));
            && v.table == Some(h([root.number]))
            && (v.field == Some(p) || v.field == None) && (v.message == Some(p) || v.message == None)
            && (v.field == Some(p) || v.message == Some(p))
            && (p == [root.number] <==> v.root == Some(p)) && (v.root == Some(p) || v.root == None)
  {
    hide At;
    if p != [root.number] {
      var i :| 0 <= i < |NodesOfRoot(root)| && PathOf(NodesOfRoot(root)[i]) == p;
    }
  }

  /** What is filed under a key is filed for a place that has the key. */
  lemma FiledIsPlace(h: Path -> int, roots: seq<Root>, k: int) returns (i: nat, p: Path)
    requires ProperRoots(roots) && HashOk(h, roots) && At(AddRoots(h, roots), k) != RegistryRoots.NOTHING
    ensures i < |roots| && IsPlace(roots[i], p) && h(p) == k
    ensures Shows(h, AddRoots(h, roots), roots[i])
  {
    hide At, Shows, IsPlace, AddRoots, HashOk, ProperRoots;
    RegistryShowsTheTrees(h, roots);
    i :| 0 <= i < |roots| && IsKey(h, roots[i], k);
    p :| IsPlace(roots[i], p) && h(p) == k;
  }

  /** The registered paths are the places of the roots. */
  lemma PathsAreThePlaces(h: Path -> int, roots: seq<Root>, p: Path)
    requires ProperRoots(roots) && HashOk(h, roots)
    ensures p in Paths(AddRoots(h, roots)) <==> IsAnyPlace(roots, p)
  {
    hide IsPlace, AddRoots, HashOk, ProperRoots, Shows;
    var s := AddRoots(h, roots);
    if p in Paths(s) {
      var k := if p in s.fields.Values then KeyOf(s.fields, p) else KeyOf(s.messages, p);
      var i, q := FiledIsPlace(h, roots, k);
      ViewAtPlace(h, s, roots[i], q);
    }
    if IsAnyPlace(roots, p) {
      var i :| 0 <= i < |roots| && IsPlace(roots[i], p);
      RegistryShowsTheTrees(h, roots);
      ViewAtPlace(h, s, roots[i], p);
    }
  }

  lemma RootsAreTheRoots(h: Path -> int, roots: seq<Root>, t: Path)
    requires ProperRoots(roots) && HashOk(h, roots)
    ensures t in AddRoots(h, roots).roots.Values <==> exists i :: 0 <= i < |roots| && [roots[i].number] == t
  {
    hide AddRoots, HashOk, ProperRoots, Shows;
    var s := AddRoots(h, roots);
    if t in s.roots.Values {
      var k := KeyOf(s.roots, t);
      var i, q := FiledIsPlace(h, roots, k);
      ViewAtPlace(h, s, roots[i], q);
      assert [roots[i].number] == t;
    }
    if i :| 0 <= i < |roots| && [roots[i].number] == t {
      RegistryShowsTheTrees(h, roots);
      assert IsPlace(roots[i], t);
      ViewAtPlace(h, s, roots[i], t);
    }
  }

  /** The table of a place is its root. */
  lemma TableOfPlace(h: Path -> int, roots: seq<Root>, i: nat, p: Path)
    requires ProperRoots(roots) && HashOk(h, roots) && i < |roots| && IsPlace(roots[i], p)
    ensures var schema := SchemaOf(h, AddRoots(h, roots));
            p in schema.tables && schema.tables[p] == [roots[i].number] && schema.tables[p] <= p
  {
    hide AddRoots, HashOk, ProperRoots, Shows, IsPlace, TableOf;
    RegistryShowsTheTrees(h, roots);
    ViewAtPlace(h, AddRoots(h, roots), roots[i], p);
    PathsAreThePlaces(h, roots, p);
    TablesAreTheRoots(h, roots);
    TablePath(h, roots[i]);
    PlaceStart(roots[i], p);
  }

  lemma TablePath(h: Path -> int, root: Root)
    ensures TableOf(h, root).path == [root.number]
    ensures TableOf(h, root).primary == PrimaryKeys(h, [root.number], root.fields)
  {}

  ghost predicate KeysMatch(schema: Organizer.Schema, root: Root) {
    && [root.number] in schema.primary
    && forall p :: p in schema.primary[[root.number]] <==> IsPrimary(root, p)
  }

  /** The primary fields of a table are the annotated nodes that are not at or under a repeated field. */
  lemma PrimaryOfRoot(h: Path -> int, roots: seq<Root>, i: nat)
    requires ProperRoots(roots) && HashOk(h, roots) && i < |roots|
    ensures KeysMatch(SchemaOf(h, AddRoots(h, roots)), roots[i])
  {
    hide AddRoots, HashOk, ProperRoots, TableOf, Unrepeated, IsPlace, Paths;
    var t, root, s := [roots[i].number], roots[i], AddRoots(h, roots);
    TablesAreTheRoots(h, roots);
    TablePath(h, root);
    RootsAreTheRoots(h, roots, t);
    forall p ensures p in Paths(s) && h(p) in s.tables[h(t)].primary <==> IsPrimary(root, p) {
      PathsAreThePlaces(h, roots, p);
      PrimaryExactly(h, t, root.fields, h(p));
      if p in Paths(s) && h(p) in s.tables[h(t)].primary {
        var n :| Unrepeated(t, root.fields, n) && n.field.annotated && h(PathOf(n)) == h(p);
        PrimaryIsPlace(root, n);
        SameHash(h, roots, i, PathOf(n), p);
      }
      if IsPrimary(root, p) {
        var n :| Unrepeated(t, root.fields, n) && n.field.annotated && PathOf(n) == p;
        PrimaryIsPlace(root, n);
      }
    }
  }

  lemma PrimaryIsPlace(root: Root, n: Node)
    requires Unrepeated([root.number], root.fields, n)
    ensures IsPlace(root, PathOf(n))
  {
    hide Unrepeated;
    UnrepeatedIsNode([root.number], root.fields, n);
    var i :| 0 <= i < |NodesOfRoot(root)| && NodesOfRoot(root)[i] == n;
  }

  lemma SameHash(h: Path -> int, roots: seq<Root>, i: nat, p: Path, q: Path)
    requires HashOk(h, roots) && i < |roots| && IsPlace(roots[i], p) && IsAnyPlace(roots, q) && h(p) == h(q)
    ensures p == q
  {
    hide IsPlace;
    var j :| 0 <= j < |roots| && IsPlace(roots[j], q);
  }

  /** The schema holds exactly the places of the trees, each with its root as its table, and for each root the nodes of
      its primary key. */
  ghost predicate Matches(schema: Organizer.Schema, roots: seq<Root>) {
    && (forall p :: Organizer.Registered(schema, p) <==> IsAnyPlace(roots, p))
    && (forall i, p :: 0 <= i < |roots| && IsPlace(roots[i], p) ==>
          p in schema.tables && schema.tables[p] == [roots[i].number])
    && forall i :: 0 <= i < |roots| ==> KeysMatch(schema, roots[i])
  }

  /** From any registered trees INSERT and UPDATE get such a schema, and it is consistent. */
  lemma SchemaMatches(h: Path -> int, roots: seq<Root>)
    requires ProperRoots(roots) && HashOk(h, roots)
    ensures Organizer.Consistent(SchemaOf(h, AddRoots(h, roots)))
    ensures Matches(SchemaOf(h, AddRoots(h, roots)), roots)
  {
    hide AddRoots, HashOk, ProperRoots, IsPlace, KeysMatch, SchemaOf;
    var schema := SchemaOf(h, AddRoots(h, roots));
    forall i, p | 0 <= i < |roots| && IsPlace(roots[i], p)
      ensures p in schema.tables && schema.tables[p] == [roots[i].number] && schema.tables[p] <= p
    {
      TableOfPlace(h, roots, i, p);
    }
    forall i | 0 <= i < |roots| ensures KeysMatch(schema, roots[i]) { PrimaryOfRoot(h, roots, i); }
    forall p | p in schema.tables
      ensures IsAnyPlace(roots, p) && schema.tables[p] <= p && schema.tables[p] in schema.primary
    {
      OnlyPlaces(h, roots, p);
      var i :| 0 <= i < |roots| && IsPlace(roots[i], p);
      KeysAreThere(schema, roots[i]);
    }
  }

  lemma OnlyPlaces(h: Path -> int, roots: seq<Root>, p: Path)
    requires ProperRoots(roots) && HashOk(h, roots) && p in SchemaOf(h, AddRoots(h, roots)).tables
    ensures IsAnyPlace(roots, p)
  {
    hide AddRoots, HashOk, ProperRoots, IsPlace, Paths;
    PathsAreThePlaces(h, roots, p);
  }

  lemma KeysAreThere(schema: Organizer.Schema, root: Root)
    requires KeysMatch(schema, root)
    ensures [root.number] in schema.primary
  {}

  lemma RootIsPlace(root: Root)
    ensures IsPlace(root, [root.number])
  {}

  /** So an attribute set of a registered root can be turned into its UPDATE exactly when its paths are places of
      registered trees and every node of the root's primary key is among them. */
  lemma BuildableExactly(h: Path -> int, roots: seq<Root>, i: nat, attributes: seq<Organizer.Attribute>)
    requires ProperRoots(roots) && HashOk(h, roots) && i < |roots|
    ensures var schema := SchemaOf(h, AddRoots(h, roots));
            OrganizerUpdate.Buildable(schema, roots[i].number, attributes) <==>
              && (forall j :: 0 <= j < |attributes| ==> IsAnyPlace(roots, attributes[j].path))
              && forall p :: IsPrimary(roots[i], p) ==> exists j :: 0 <= j < |attributes| && attributes[j].path == p
  {
    hide AddRoots, HashOk, ProperRoots, IsPlace, IsPrimary, SchemaOf;
    var schema, t := SchemaOf(h, AddRoots(h, roots)), [roots[i].number];
    SchemaMatches(h, roots);
    RootIsPlace(roots[i]);
    assert Organizer.Registered(schema, t) by { assert IsAnyPlace(roots, t); }
    var keys := OrganizerUpdate.KeysOf(schema, roots[i].number);
    assert keys == schema.primary[schema.tables[t]];
    assert OrganizerUpdate.GivesAllKeys(keys, attributes) <==>
      forall p :: IsPrimary(roots[i], p) ==> exists j :: 0 <= j < |attributes| && attributes[j].path == p;
  }
}
