/** What the queries answer once proper roots have been registered. */
module RegistryAnswers {
  import opened Common
  import opened Registry
  import opened RegistryTree
  import opened RegistryRoots
  import opened RegistryLinks
  import opened RegistryPaths
  import opened RegistryQueries
  import Paths

  // ---------------------------------------------------------------------------------- Subtrees

  /** A root, or a message field of its tree. */
  ghost predicate IsMessageOf(root: Root, x: Path) {
    x == [root.number] ||
    exists j :: 0 <= j < |NodesOfRoot(root)| && PathOf(NodesOfRoot(root)[j]) == x
      && NodesOfRoot(root)[j].field.content.Message?
  }

  lemma ShownMessage(h: Path -> int, s: State, root: Root, x: Path)
    requires Shows(h, s, root) && IsPlace(root, x) && HashedRoot(h, root)
    ensures IsMessageOf(root, x) <==> h(x) in s.messages
    ensures h(x) in s.messages ==> s.messages[h(x)] == x
  {
    hide NodesOfRoot;
    assert At(s, h([root.number])).message == Some([root.number]);
    if x != [root.number] {
      forall j | 0 <= j < |NodesOfRoot(root)| && PathOf(NodesOfRoot(root)[j]) == x
        ensures Lookup(s.messages, h(x)) == if NodesOfRoot(root)[j].field.content.Message? then Some(x) else None
      {
        assert At(s, h(PathOf(NodesOfRoot(root)[j]))).message ==
          NodeView(NodesOfRoot(root)[j], h([root.number])).message;
      }
    }
  }

  ghost predicate HashedRoot(h: Path -> int, root: Root) {
    Hashed(h, NodesOfRoot(root)) &&
    forall j :: 0 <= j < |NodesOfRoot(root)| ==> h(PathOf(NodesOfRoot(root)[j])) != h([root.number])
  }

  /** Whatever is registered as a message under some key is a message of a root, at its own key. */
  lemma {:induction false} MessageBehindKey(h: Path -> int, roots: seq<Root>, k: int)
    requires ProperRoots(roots) && HashOk(h, roots) && k in AddRoots(h, roots).messages
    ensures exists i :: 0 <= i < |roots| && IsMessageOf(roots[i], AddRoots(h, roots).messages[k])
  {
    hide AddRoots, Shows, IsPlace, HashOk, ProperRoots, IsMessageOf;
    RegistryShowsTheTrees(h, roots);
    var s := AddRoots(h, roots);
    assert At(s, k).message != None;
    var i :| 0 <= i < |roots| && IsKey(h, roots[i], k);
    var p :| IsPlace(roots[i], p) && h(p) == k;
    NodesHashed(h, roots, i);
    ShownMessage(h, s, roots[i], p);
  }

  /** For a path that is not empty, the messages of its subtree are exactly the registered messages that have it as
      a prefix, whether or not anything is registered at the path itself; for the empty path there are none. */
  lemma {:induction false} SubtreeExactly(h: Path -> int, roots: seq<Root>, p: Path, x: Path)
    requires ProperRoots(roots) && HashOk(h, roots)
    ensures x in Subtree(AddRoots(h, roots), p) <==>
      p != [] && p <= x && exists i :: 0 <= i < |roots| && IsMessageOf(roots[i], x)
  {
    hide AddRoots, Shows, HashOk, ProperRoots, IsMessageOf, IsPlace;
    var s := AddRoots(h, roots);
    RegistryShowsTheTrees(h, roots);
    forall i | 0 <= i < |roots| && IsMessageOf(roots[i], x) ensures (h(x), x) in s.messages.Items {
      MessageIsPlace(roots[i], x);
      NodesHashed(h, roots, i);
      ShownMessage(h, s, roots[i], x);
    }
    forall k | (k, x) in s.messages.Items ensures exists i :: 0 <= i < |roots| && IsMessageOf(roots[i], x) {
      MessageBehindKey(h, roots, k);
    }
  }

  lemma MessageIsPlace(root: Root, x: Path)
    requires IsMessageOf(root, x)
    ensures IsPlace(root, x)
  {
    hide NodesOfRoot;
  }

  // ---------------------------------------------------------------------------------- Ancestors

  /** A place with a parent entry: a message field, or a field directly under the root. */
  ghost predicate IsLinked(root: Root, p: Path) {
    exists j :: 0 <= j < |NodesOfRoot(root)| && PathOf(NodesOfRoot(root)[j]) == p &&
      (NodesOfRoot(root)[j].field.content.Message? || |p| == 2)
  }

  lemma {:induction false} LinkedPlace(roots: seq<Root>, i: nat, p: Path)
    requires ProperRoots(roots) && i < |roots| && IsPlace(roots[i], p)
    ensures ParentIn(AllNodes(roots), p) <==> IsLinked(roots[i], p)
  {
    hide NodesOfRoot, AllNodes, IsLinked, ParentIn, ProperRoots, IsPlace;
    if ParentIn(AllNodes(roots), p) { ParentIsLinked(roots, i, p); }
    if IsLinked(roots[i], p) { LinkedHasParent(roots, i, p); }
  }

  lemma {:induction false} ParentIsLinked(roots: seq<Root>, i: nat, p: Path)
    requires ProperRoots(roots) && i < |roots| && IsPlace(roots[i], p) && ParentIn(AllNodes(roots), p)
    ensures IsLinked(roots[i], p)
  {
    hide NodesOfRoot, AllNodes;
    var all := AllNodes(roots);
    var j :| 0 <= j < |all| && PathOf(all[j]) == p && (all[j].field.content.Message? || |all[j].parent| == 1);
    AllNodesMeaning(roots, all[j]);
    var k :| 0 <= k < |roots| && all[j] in NodesOfRoot(roots[k]);
    var l :| 0 <= l < |NodesOfRoot(roots[k])| && NodesOfRoot(roots[k])[l] == all[j];
    PlaceStart(roots[i], p);
    NodeIsPlace(roots[k], l);
    PlaceStart(roots[k], p);
    assert k == i;
  }

  lemma {:induction false} LinkedHasParent(roots: seq<Root>, i: nat, p: Path)
    requires i < |roots| && IsLinked(roots[i], p)
    ensures ParentIn(AllNodes(roots), p)
  {
    hide NodesOfRoot, AllNodes;
    var all := AllNodes(roots);
    var j :| 0 <= j < |NodesOfRoot(roots[i])| && PathOf(NodesOfRoot(roots[i])[j]) == p &&
      (NodesOfRoot(roots[i])[j].field.content.Message? || |p| == 2);
    var n := NodesOfRoot(roots[i])[j];
    AllNodesMeaning(roots, n);
    var l :| 0 <= l < |all| && all[l] == n;
    assert PathOf(all[l]) == p;
  }

  lemma {:induction false} ParentsAreShorter(h: Path -> int, roots: seq<Root>)
    requires ProperRoots(roots) && HashOk(h, roots)
    ensures ParentsShrink(AddRoots(h, roots))
  {
    hide AddRoots, HashOk, ProperRoots, NodesOfRoot, AllNodes;
    var s := AddRoots(h, roots);
    ParentsAreThePlacesAbove(h, roots);
    forall q | q in s.parents ensures |s.parents[q]| < |q| {
      assert Lookup(s.parents, q) == Some(Enclosing(q)) && ParentIn(AllNodes(roots), q);
    }
  }

  /** The chain from a message is the path's non-empty prefixes. */
  lemma {:induction false} ChainOfMessage(h: Path -> int, roots: seq<Root>, i: nat, p: Path, x: Path)
    requires ProperRoots(roots) && HashOk(h, roots) && i < |roots| && IsMessageOf(roots[i], p)
    requires ParentsShrink(AddRoots(h, roots))
    ensures x in Chain(AddRoots(h, roots), p) <==> x != [] && x <= p
    decreases |p|
  {
    hide AddRoots, HashOk, ProperRoots, NodesOfRoot, AllNodes;
    var s := AddRoots(h, roots);
    ParentsAreThePlacesAbove(h, roots);
    MessageIsPlace(roots[i], p);
    LinkedPlace(roots, i, p);
    if p == [roots[i].number] {
      RootHasNoParent(roots[i]);
      assert Lookup(s.parents, p) == None;
      assert x <= p && x != [] ==> x == p;
    } else {
      var above := p[..|p| - 1];
      var j :| 0 <= j < |NodesOfRoot(roots[i])| && PathOf(NodesOfRoot(roots[i])[j]) == p
        && NodesOfRoot(roots[i])[j].field.content.Message?;
      assert IsLinked(roots[i], p);
      assert Lookup(s.parents, p) == Some(above);
      EnclosingMessage(roots[i], j);
      ChainOfMessage(h, roots, i, above, x);
      PrefixOfLonger(x, p);
    }
  }

  lemma PrefixOfLonger(x: Path, p: Path)
    requires p != []
    ensures x <= p <==> x == p || x <= p[..|p| - 1]
  {}

  lemma RootHasNoParent(root: Root)
    ensures !IsLinked(root, [root.number])
  {
    forall j | 0 <= j < |NodesOfRoot(root)|
      ensures PathOf(NodesOfRoot(root)[j]) != [root.number]
    {
      NodeIsPlace(root, j);
    }
  }

  /** The place above a node is a message: only messages have fields. */
  lemma EnclosingMessage(root: Root, j: nat)
    requires j < |NodesOfRoot(root)|
    ensures IsMessageOf(root, NodesOfRoot(root)[j].parent)
  {
    OnlyMessagesHaveNodes([root.number], root.fields, NodesOfRoot(root)[j]);
  }

  lemma {:induction false} OnlyMessagesHaveNodes(base: Path, fields: seq<Field>, n: Node)
    requires n in Nodes(base, fields)
    ensures n.parent == base || exists m ::
      m in Nodes(base, fields) && m.field.content.Message? && PathOf(m) == n.parent
    decreases fields
  {
    hide NodesOf;
    if n in NodesOf(base, fields[0]) {
      OnlyMessagesHaveNodesOf(base, fields[0], n);
    } else {
      OnlyMessagesHaveNodes(base, fields[1..], n);
    }
  }

  lemma {:induction false} OnlyMessagesHaveNodesOf(base: Path, f: Field, n: Node)
    requires n in NodesOf(base, f)
    ensures n.parent == base || exists m :: m in NodesOf(base, f) && m.field.content.Message? && PathOf(m) == n.parent
    decreases f
  {
    hide Nodes;
    if n != Node(base, f) {
      OnlyMessagesHaveNodes(base + [f.number], f.content.fields, n);
      assert PathOf(Node(base, f)) == base + [f.number];
    }
  }

  /** The object at a place is the place itself. */
  lemma {:induction false} ObjectAtPlace(h: Path -> int, roots: seq<Root>, i: nat, p: Path)
    requires ProperRoots(roots) && HashOk(h, roots) && i < |roots| && IsPlace(roots[i], p)
    ensures ObjectAt(h, AddRoots(h, roots), p) == Some(p)
  {
    hide AddRoots, Shows, IsPlace, IsKey, ProperRoots;
    RegistryShowsTheTrees(h, roots);
    ShownObject(h, AddRoots(h, roots), roots[i], p);
  }

  lemma ShownObject(h: Path -> int, s: State, root: Root, p: Path)
    requires Shows(h, s, root) && IsPlace(root, p)
    ensures ObjectAt(h, s, p) == Some(p)
  {
    hide NodesOfRoot;
    assert At(s, h([root.number])).message == Some([root.number]);
    forall j | 0 <= j < |NodesOfRoot(root)| && PathOf(NodesOfRoot(root)[j]) == p ensures ObjectAt(h, s, p) == Some(p) {
      var v := NodeView(NodesOfRoot(root)[j], h([root.number]));
      assert At(s, h(PathOf(NodesOfRoot(root)[j]))) == v;
      assert Lookup(s.messages, h(p)) == v.message && Lookup(s.fields, h(p)) == v.field;
    }
  }

  /** With its ancestors, a message or a field directly under a root comes with exactly the objects at the non-empty
      prefixes of its path; a primitive field further down comes alone. */
  lemma {:induction false} AncestorsExactly(h: Path -> int, roots: seq<Root>, i: nat, p: Path, x: Path)
    requires ProperRoots(roots) && HashOk(h, roots) && i < |roots| && IsPlace(roots[i], p)
    requires ParentsShrink(AddRoots(h, roots))
    ensures x in WithAncestors(h, AddRoots(h, roots), p) <==>
      if IsMessageOf(roots[i], p) || |p| == 2 then x != [] && x <= p else x == p
  {
    hide AddRoots, HashOk, ProperRoots, NodesOfRoot, AllNodes, IsPlace, IsMessageOf;
    var s := AddRoots(h, roots);
    ObjectAtPlace(h, roots, i, p);
    if IsMessageOf(roots[i], p) {
      ChainOfMessage(h, roots, i, p, x);
    } else {
      ParentsAreThePlacesAbove(h, roots);
      LinkedPlace(roots, i, p);
      NotMessage(roots[i], p);
      if |p| == 2 {
        assert Lookup(s.parents, p) == Some(p[..1]);
        PlaceStart(roots[i], p);
        assert p[..1] == [roots[i].number];
        RootIsMessage(roots[i]);
        ChainOfMessage(h, roots, i, p[..1], x);
        PrefixOfLonger(x, p);
      } else {
        assert Lookup(s.parents, p) == None;
      }
    }
  }

  lemma RootIsMessage(root: Root)
    ensures IsMessageOf(root, [root.number])
  {}

  lemma NotMessage(root: Root, p: Path)
    requires IsPlace(root, p) && !IsMessageOf(root, p)
    ensures IsLinked(root, p) <==> |p| == 2
  {
    hide NodesOfRoot;
  }

  // ---------------------------------------------------------------------------------- Columns

  /** A primitive field of the root's tree. */
  ghost predicate IsPrimitiveOf(root: Root, x: Path) {
    exists j :: 0 <= j < |NodesOfRoot(root)| && PathOf(NodesOfRoot(root)[j]) == x
      && NodesOfRoot(root)[j].field.content.Primitive?
  }

  lemma {:induction false} ShownPrimitive(h: Path -> int, s: State, root: Root, x: Path)
    requires Shows(h, s, root) && IsPlace(root, x)
    ensures IsPrimitiveOf(root, x) <==> h(x) in s.primitives
    ensures h(x) in s.primitives ==> s.primitives[h(x)] == x
  {
    hide NodesOfRoot;
    assert At(s, h([root.number])).primitive == None;
    NodesAreNotRoot(root);
    forall j | 0 <= j < |NodesOfRoot(root)| && PathOf(NodesOfRoot(root)[j]) == x
      ensures Lookup(s.primitives, h(x)) == if NodesOfRoot(root)[j].field.content.Primitive? then Some(x) else None
    {
      assert At(s, h(PathOf(NodesOfRoot(root)[j]))).primitive ==
        NodeView(NodesOfRoot(root)[j], h([root.number])).primitive;
    }
  }

  lemma NodesAreNotRoot(root: Root)
    ensures forall j :: 0 <= j < |NodesOfRoot(root)| ==> PathOf(NodesOfRoot(root)[j]) != [root.number]
  {
    forall j | 0 <= j < |NodesOfRoot(root)|
      ensures PathOf(NodesOfRoot(root)[j]) != [root.number]
    {
      NodeIsPlace(root, j);
    }
  }

  /** The columns CREATE TABLE takes from the related fields of a root's table: none of them is missing, and they
      are the primitive fields of the tree. */
  lemma {:induction false} CreateTableColumns(h: Path -> int, roots: seq<Root>, i: nat, x: Path)
    requires ProperRoots(roots) && HashOk(h, roots) && i < |roots|
    ensures var s, table := AddRoots(h, roots), TableOf(h, roots[i]);
            && Lookup(s.tables, h([roots[i].number])) == Some(table)
            && (forall k :: k in table.relatedFields ==> k in s.primitives)
            && (IsPrimitiveOf(roots[i], x) <==>
                exists k :: k in table.relatedFields && k in s.primitives && s.primitives[k] == x)
  {
    hide AddRoots, Shows, HashOk, ProperRoots, IsPlace, TableOf, NodesOfRoot, IsKey;
    var s, root := AddRoots(h, roots), roots[i];
    var table := TableOf(h, root);
    RegistryShowsTheTrees(h, roots);
    TablesAreTheRoots(h, roots);
    forall k | k in table.relatedFields ensures k in s.primitives && IsPrimitiveOf(root, s.primitives[k]) {
      RelatedExactly(h, root, k);
      var j :| 0 <= j < |NodesOfRoot(root)| && NodesOfRoot(root)[j].field.content.Primitive?
        && h(PathOf(NodesOfRoot(root)[j])) == k;
      NodeIsPlace(root, j);
      assert IsPrimitiveOf(root, PathOf(NodesOfRoot(root)[j]));
      ShownPrimitive(h, s, root, PathOf(NodesOfRoot(root)[j]));
    }
    if IsPrimitiveOf(root, x) {
      var j :| 0 <= j < |NodesOfRoot(root)| && PathOf(NodesOfRoot(root)[j]) == x
        && NodesOfRoot(root)[j].field.content.Primitive?;
      NodeIsPlace(root, j);
      ShownPrimitive(h, s, root, x);
      RelatedExactly(h, root, h(x));
    }
  }

  /** A field entry of a message stands for a node of the tree. */
  lemma {:induction false} FieldEntry(h: Path -> int, roots: seq<Root>, m: Path, number: nat)
    ensures Lookup(AddRoots(h, roots).fieldsOf, (m, number)) ==
            if HasNode(AllNodes(roots), m, number) then Some(m + [number]) else None
  {
    hide AddRoots, AllNodes, HasNode;
    FieldsAreTheNodes(h, roots);
    assert Lookup(AddRoots(h, roots).fieldsOf, (m, number)) ==
           if HasNode(AllNodes(roots), m, number) then Some(m + [number]) else Lookup(map[], (m, number));
  }

  lemma {:induction false} NodeOfEntry(roots: seq<Root>, i: nat, m: Path, number: nat)
    requires ProperRoots(roots) && i < |roots| && [roots[i].number] <= m && HasNode(AllNodes(roots), m, number)
    ensures exists j :: 0 <= j < |NodesOfRoot(roots[i])| && NodesOfRoot(roots[i])[j].parent == m &&
                        NodesOfRoot(roots[i])[j].field.number == number
  {
    hide NodesOfRoot, AllNodes;
    var all := AllNodes(roots);
    var a :| 0 <= a < |all| && all[a].parent == m && all[a].field.number == number;
    AllNodesMeaning(roots, all[a]);
    var k :| 0 <= k < |roots| && all[a] in NodesOfRoot(roots[k]);
    var l :| 0 <= l < |NodesOfRoot(roots[k])| && NodesOfRoot(roots[k])[l] == all[a];
    NodeIsPlace(roots[k], l);
    PlaceStart(roots[k], PathOf(NodesOfRoot(roots[k])[l]));
    assert m[0] == roots[i].number;
  }

  lemma {:induction false} EntryOfNode(roots: seq<Root>, i: nat, j: nat)
    requires i < |roots| && j < |NodesOfRoot(roots[i])|
    ensures HasNode(AllNodes(roots), NodesOfRoot(roots[i])[j].parent, NodesOfRoot(roots[i])[j].field.number)
  {
    hide NodesOfRoot, AllNodes;
    var n := NodesOfRoot(roots[i])[j];
    AllNodesMeaning(roots, n);
    var l :| 0 <= l < |AllNodes(roots)| && AllNodes(roots)[l] == n;
  }

  /** A primitive field of the root's tree in the message at p or further down. */
  ghost predicate IsPrimitiveUnder(root: Root, p: Path, x: Path) {
    IsPrimitiveOf(root, x) && x != [] && p <= x[..|x| - 1]
  }

  /** Every column key under a path leads to a primitive field of the tree, and every primitive field has its key. */
  lemma {:induction false} ColumnKeys(h: Path -> int, roots: seq<Root>, i: nat, p: Path, m: Path, number: nat)
    requires ProperRoots(roots) && HashOk(h, roots) && i < |roots| && [roots[i].number] <= p
    ensures m in Subtree(AddRoots(h, roots), p) && IsColumn(h, AddRoots(h, roots), m, number) <==>
            IsPrimitiveUnder(roots[i], p, m + [number])
  {
    hide AddRoots, Shows, HashOk, ProperRoots, IsPlace, NodesOfRoot, AllNodes, IsKey, HasNode, IsMessageOf, Subtree;
    var s, root := AddRoots(h, roots), roots[i];
    assert (m + [number])[..|m + [number]| - 1] == m;
    RegistryShowsTheTrees(h, roots);
    SubtreeExactly(h, roots, p, m);
    FieldEntry(h, roots, m, number);
    if m in Subtree(s, p) && IsColumn(h, s, m, number) {
      NodeOfEntry(roots, i, m, number);
      var j :| 0 <= j < |NodesOfRoot(root)| && NodesOfRoot(root)[j].parent == m
        && NodesOfRoot(root)[j].field.number == number;
      NodeIsPlace(root, j);
      ShownPrimitive(h, s, root, m + [number]);
    }
    if IsPrimitiveUnder(root, p, m + [number]) {
      var j :| 0 <= j < |NodesOfRoot(root)| && PathOf(NodesOfRoot(root)[j]) == m + [number]
        && NodesOfRoot(root)[j].field.content.Primitive?;
      LastEntry(NodesOfRoot(root)[j], m, number);
      NodeIsPlace(root, j);
      ShownPrimitive(h, s, root, m + [number]);
      EntryOfNode(roots, i, j);
      EnclosingMessage(root, j);
    }
  }

  lemma LastEntry(n: Node, m: Path, number: nat)
    requires PathOf(n) == m + [number]
    ensures n.parent == m && n.field.number == number
  {
    assert PathOf(n)[..|m|] == m && PathOf(n)[|m|] == number;
  }

  /** By message, in path order, and by number within a message. */
  ghost predicate ComesBefore(a: Path, b: Path) {
    a != [] && b != [] && Before((a[..|a| - 1], a[|a| - 1]), (b[..|b| - 1], b[|b| - 1]))
  }

  /** Expanding a path under a root lists each primitive field in its subtree exactly once, message by message in path
      order and by number within a message. */
  lemma {:induction false} ExpandedPath(h: Path -> int, roots: seq<Root>, i: nat, p: Path, columns: seq<Path>,
    keys: seq<(Path, nat)>)
    requires ProperRoots(roots) && HashOk(h, roots) && i < |roots| && [roots[i].number] <= p
    requires Columns(h, AddRoots(h, roots), columns, keys) && Increasing(keys)
    requires forall m, number: nat :: (m, number) in keys <==>
      m in Subtree(AddRoots(h, roots), p) && IsColumn(h, AddRoots(h, roots), m, number)
    ensures forall x :: x in columns <==> IsPrimitiveUnder(roots[i], p, x)
    ensures forall a, b :: 0 <= a < b < |columns| ==> ComesBefore(columns[a], columns[b]) && columns[a] != columns[b]
  {
    hide AddRoots, HashOk, ProperRoots, NodesOfRoot, Subtree, IsColumn, IsPrimitiveOf, Before;
    var s := AddRoots(h, roots);
    forall a | 0 <= a < |columns|
      ensures columns[a] == keys[a].0 + [keys[a].1] && IsPrimitiveUnder(roots[i], p, columns[a])
    {
      assert keys[a] in keys && keys[a] == (keys[a].0, keys[a].1);
      FieldEntry(h, roots, keys[a].0, keys[a].1);
      ColumnKeys(h, roots, i, p, keys[a].0, keys[a].1);
    }
    forall a, b | 0 <= a < b < |columns| ensures ComesBefore(columns[a], columns[b]) && columns[a] != columns[b] {
      KeysDiffer(keys, columns, a, b);
    }
    forall x | IsPrimitiveUnder(roots[i], p, x) ensures x in columns {
      var m, number := x[..|x| - 1], x[|x| - 1];
      assert x == m + [number];
      ColumnKeys(h, roots, i, p, m, number);
      var a :| 0 <= a < |keys| && keys[a] == (m, number);
      assert columns[a] == x;
    }
  }

  /** Expanding a SELECT of a root's path lists each primitive field of its tree exactly once: the very columns
      CREATE TABLE makes. */
  lemma {:induction false} ExpandedRoot(h: Path -> int, roots: seq<Root>, i: nat, columns: seq<Path>,
    keys: seq<(Path, nat)>)
    requires ProperRoots(roots) && HashOk(h, roots) && i < |roots|
    requires Columns(h, AddRoots(h, roots), columns, keys) && Increasing(keys)
    requires forall m, number: nat :: (m, number) in keys <==>
      m in Subtree(AddRoots(h, roots), [roots[i].number]) && IsColumn(h, AddRoots(h, roots), m, number)
    ensures forall x :: x in columns <==> IsPrimitiveOf(roots[i], x)
    ensures forall a, b :: 0 <= a < b < |columns| ==> ComesBefore(columns[a], columns[b]) && columns[a] != columns[b]
  {
    hide AddRoots, HashOk, ProperRoots, NodesOfRoot, Subtree, IsColumn, IsPrimitiveOf, ComesBefore;
    ExpandedPath(h, roots, i, [roots[i].number], columns, keys);
    forall x | IsPrimitiveOf(roots[i], x) ensures IsPrimitiveUnder(roots[i], [roots[i].number], x) {
      PrimitiveIsUnder(roots[i], x);
    }
  }

  lemma PrimitiveIsUnder(root: Root, x: Path)
    requires IsPrimitiveOf(root, x)
    ensures IsPrimitiveUnder(root, [root.number], x)
  {
    hide NodesOfRoot;
    var j :| 0 <= j < |NodesOfRoot(root)| && PathOf(NodesOfRoot(root)[j]) == x;
    NodeIsPlace(root, j);
    PlaceStart(root, x);
    assert x[..|x| - 1] == NodesOfRoot(root)[j].parent;
  }

  lemma KeysDiffer(keys: seq<(Path, nat)>, columns: seq<Path>, a: nat, b: nat)
    requires Increasing(keys) && |columns| == |keys| && a < b < |keys|
    requires columns[a] == keys[a].0 + [keys[a].1] && columns[b] == keys[b].0 + [keys[b].1]
    ensures ComesBefore(columns[a], columns[b]) && columns[a] != columns[b]
  {
    assert Before(keys[a], keys[b]);
    Paths.LessIsTotal(keys[a].0, keys[b].0);
    var p, q := columns[a], columns[b];
    assert p[..|p| - 1] == keys[a].0 && q[..|q| - 1] == keys[b].0 && p[|p| - 1] == keys[a].1 && q[|q| - 1] == keys[b].1;
  }
}
