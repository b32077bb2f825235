/**
 The links the registry keeps: parents of objects, fields of messages, numbers of entry names. Each of these maps
 holds exactly the pairs that the trees of the registered roots call for, whatever was registered before and after.
 */
module RegistryLinks {
  import opened Common
  import opened Registry
  import opened RegistryTree
  import opened RegistryRoots

  // ---------------------------------------------------------------------------------- Fields of messages

  ghost predicate HasNode(nodes: seq<Node>, parent: Path, number: nat) {
    exists i :: 0 <= i < |nodes| && nodes[i].parent == parent && nodes[i].field.number == number
  }

  lemma HasNodeAppend(a: seq<Node>, b: seq<Node>, parent: Path, number: nat)
    ensures HasNode(a + b, parent, number) <==> HasNode(a, parent, number) || HasNode(b, parent, number)
  {
    var all := a + b;
    assert forall i :: 0 <= i < |a| ==> all[i] == a[i];
    assert forall i :: 0 <= i < |b| ==> all[|a| + i] == b[i];
  }

  /** Fields_ after some nodes: an entry for each of them. */
  ghost predicate Listed(m: map<(Path, nat), Path>, old_: map<(Path, nat), Path>, nodes: seq<Node>) {
    forall q, number :: Lookup(m, (q, number)) ==
      if HasNode(nodes, q, number) then Some(q + [number]) else Lookup(old_, (q, number))
  }

  lemma ListedAppend(m0: map<(Path, nat), Path>, m1: map<(Path, nat), Path>, m2: map<(Path, nat), Path>, a: seq<Node>,
                     b: seq<Node>)
    requires Listed(m1, m0, a) && Listed(m2, m1, b)
    ensures Listed(m2, m0, a + b)
  {
    hide HasNode, Lookup;
    forall q, number ensures Lookup(m2, (q, number)) ==
      if HasNode(a + b, q, number) then Some(q + [number]) else Lookup(m0, (q, number))
    {
      HasNodeAppend(a, b, q, number);
    }
  }

  lemma {:induction false} FieldsListed(h: Path -> int, s: State, base: Path, fields: seq<Field>)
    requires Sound(s) && h(base) in s.parentTable
    ensures Listed(AddFields(h, s, base, fields).fieldsOf, s.fieldsOf, Nodes(base, fields))
    decreases fields, 0
  {
    hide AddField, NodesOf, Listed;
    if fields == [] {
      NothingListed(s.fieldsOf);
    } else {
      var s1 := AddField(h, s, base, fields[0]);
      FieldListed(h, s, base, fields[0]);
      FieldsListed(h, s1, base, fields[1..]);
      ListedAppend(s.fieldsOf, s1.fieldsOf, AddFields(h, s, base, fields).fieldsOf, NodesOf(base, fields[0]),
        Nodes(base, fields[1..]));
    }
  }

  lemma NothingListed(m: map<(Path, nat), Path>)
    ensures Listed(m, m, [])
  {}

  lemma {:induction false} FieldListed(h: Path -> int, s: State, base: Path, f: Field)
    requires Sound(s) && h(base) in s.parentTable
    ensures Listed(AddField(h, s, base, f).fieldsOf, s.fieldsOf, NodesOf(base, f))
    decreases f, 1
  {
    hide AddNode, AddFields, Nodes, Listed;
    var n, path := Node(base, f), base + [f.number];
    var s1 := AddNode(h, s, n);
    NodeKeepsLinks(h, s, n);
    if f.content.Message? {
      var inner := AddFields(h, s1, path, f.content.fields);
      FieldsListed(h, s1, path, f.content.fields);
      ListedAtEnd(s.fieldsOf, inner.fieldsOf, Nodes(path, f.content.fields), n);
    } else {
      NothingListed(s.fieldsOf);
      ListedAtEnd(s.fieldsOf, s.fieldsOf, [], n);
      assert [n] + [] == [n];
    }
  }

  lemma NodeKeepsLinks(h: Path -> int, s: State, n: Node)
    requires Sound(s) && h(n.parent) in s.parentTable
    ensures AddNode(h, s, n).fieldsOf == s.fieldsOf && AddNode(h, s, n).parents == s.parents
  {}

  /** The field's own entry comes after those of the nodes beneath it. */
  lemma ListedAtEnd(m0: map<(Path, nat), Path>, m1: map<(Path, nat), Path>, inner: seq<Node>, n: Node)
    requires Listed(m1, m0, inner)
    ensures Listed(m1[(n.parent, n.field.number) := PathOf(n)], m0, [n] + inner)
  {
    hide HasNode;
    forall q, number ensures Lookup(m1[(n.parent, n.field.number) := PathOf(n)], (q, number)) ==
      if HasNode([n] + inner, q, number) then Some(q + [number]) else Lookup(m0, (q, number))
    {
      HasNodeAppend([n], inner, q, number);
      OneNode(n, q, number);
    }
  }

  lemma OneNode(n: Node, q: Path, number: nat)
    ensures HasNode([n], q, number) <==> n.parent == q && n.field.number == number
  {
    assert [n][0] == n;
  }

  // ---------------------------------------------------------------------------------- Parents

  /** The message nodes, without those directly under the base unless it is a known message. */
  ghost predicate HasParent(nodes: seq<Node>, base: Path, known: bool, p: Path) {
    exists i :: 0 <= i < |nodes| && PathOf(nodes[i]) == p && nodes[i].field.content.Message?
      && (known || nodes[i].parent != base)
  }

  ghost predicate Linked(m: map<Path, Path>, old_: map<Path, Path>, nodes: seq<Node>, base: Path, known: bool) {
    forall p :: Lookup(m, p) == if HasParent(nodes, base, known, p) then Some(Enclosing(p)) else Lookup(old_, p)
  }

  /** The path without its last entry. */
  function Enclosing(p: Path): Path { if p == [] then [] else p[..|p| - 1] }

  lemma HasParentAppend(a: seq<Node>, b: seq<Node>, base: Path, known: bool, p: Path)
    ensures HasParent(a + b, base, known, p) <==> HasParent(a, base, known, p) || HasParent(b, base, known, p)
  {
    var all := a + b;
    assert forall i :: 0 <= i < |a| ==> all[i] == a[i];
    assert forall i :: 0 <= i < |b| ==> all[|a| + i] == b[i];
  }

  lemma LinkedAppend(m0: map<Path, Path>, m1: map<Path, Path>, m2: map<Path, Path>, a: seq<Node>, b: seq<Node>,
                     base: Path, known: bool)
    requires Linked(m1, m0, a, base, known) && Linked(m2, m1, b, base, known)
    ensures Linked(m2, m0, a + b, base, known)
  {
    hide HasParent, Lookup, Enclosing;
    forall p ensures Lookup(m2, p) == if HasParent(a + b, base, known, p) then Some(Enclosing(p)) else Lookup(m0, p) {
      HasParentAppend(a, b, base, known, p);
    }
  }

  lemma NothingLinked(m: map<Path, Path>, base: Path, known: bool)
    ensures Linked(m, m, [], base, known)
  {}

  /** The base is registered as itself, or not at all; no node has its key. */
  ghost predicate BaseKnown(h: Path -> int, s: State, base: Path, nodes: seq<Node>, known: bool) {
    && Lookup(s.messages, h(base)) == (if known then Some(base) else None)
    && forall i :: 0 <= i < |nodes| ==> h(PathOf(nodes[i])) != h(base)
  }

  lemma {:induction false} FieldsLinked(h: Path -> int, s: State, base: Path, fields: seq<Field>, t: int, known: bool)
    requires Sound(s) && h(base) in s.parentTable && s.parentTable[h(base)] == t && t in s.tables
    requires Fresh(h, s, Nodes(base, fields)) && BaseKnown(h, s, base, Nodes(base, fields), known)
    ensures Linked(AddFields(h, s, base, fields).parents, s.parents, Nodes(base, fields), base, known)
    decreases fields, 0
  {
    hide AddField, NodesOf, Linked, Filled, Fresh, BaseKnown;
    if fields == [] {
      NothingLinked(s.parents, base, known);
    } else {
      var own, rest := NodesOf(base, fields[0]), Nodes(base, fields[1..]);
      var s1 := AddField(h, s, base, fields[0]);
      FreshParts(h, s, own, rest, t);
      FieldFills(h, s, base, fields[0], t);
      BaseStays(h, s, own, t, h(base));
      FreshCore(h, Filled(h, s, own, t), s1, rest, t);
      BaseKnownParts(h, s, s1, base, own, rest, t, known);
      FieldLinked(h, s, base, fields[0], t, known);
      FieldsLinked(h, s1, base, fields[1..], t, known);
      LinkedAppend(s.parents, s1.parents, AddFields(h, s, base, fields).parents, own, rest, base, known);
    }
  }

  lemma BaseKnownParts(h: Path -> int, s: State, s1: State, base: Path, a: seq<Node>, b: seq<Node>, t: int, known: bool)
    requires t in s.tables && BaseKnown(h, s, base, a + b, known) && Core(s1) == Core(Filled(h, s, a, t))
    ensures BaseKnown(h, s, base, a, known) && BaseKnown(h, s1, base, b, known)
  {
    hide Filled;
    var all := a + b;
    assert forall i :: 0 <= i < |a| ==> all[i] == a[i];
    assert forall i :: 0 <= i < |b| ==> all[|a| + i] == b[i];
    FilledMiss(h, s, a, t, h(base));
    CoreView(s1, Filled(h, s, a, t), h(base));
  }

  lemma {:induction false} FieldLinked(h: Path -> int, s: State, base: Path, f: Field, t: int, known: bool)
    requires Sound(s) && h(base) in s.parentTable && s.parentTable[h(base)] == t && t in s.tables
    requires Fresh(h, s, NodesOf(base, f)) && BaseKnown(h, s, base, NodesOf(base, f), known)
    ensures Linked(AddField(h, s, base, f).parents, s.parents, NodesOf(base, f), base, known)
    decreases f, 1
  {
    hide AddNode, AddFields, Nodes, Linked, Filled, Fresh;
    var n, path := Node(base, f), base + [f.number];
    var s1 := AddNode(h, s, n);
    NodeKeepsLinks(h, s, n);
    NodeFills(h, s, n, NodesOf(base, f), t);
    if f.content.Message? {
      var nodes := Nodes(path, f.content.fields);
      FreshParts(h, s, [n], nodes, t);
      NodeKnown(h, s, n, nodes);
      FieldsLinked(h, s1, path, f.content.fields, t, true);
      NodesBelow(path, f.content.fields);
      LinkedAtEnd(s.parents, AddFields(h, s1, path, f.content.fields).parents, nodes, n, known);
    } else {
      PrimitiveNotLinked(s.parents, n, known);
    }
  }

  lemma PrimitiveNotLinked(m: map<Path, Path>, n: Node, known: bool)
    requires n.field.content.Primitive?
    ensures Linked(m, m, [n], n.parent, known)
  {}

  lemma NodeKnown(h: Path -> int, s: State, n: Node, nodes: seq<Node>)
    requires Sound(s) && h(n.parent) in s.parentTable && n.field.content.Message? && Fresh(h, s, [n] + nodes)
    ensures BaseKnown(h, AddNode(h, s, n), PathOf(n), nodes, true)
  {
    var all := [n] + nodes;
    assert all[0] == n && forall i :: 0 <= i < |nodes| ==> all[i + 1] == nodes[i];
  }

  /** The field's own link comes after those of the nodes beneath it, all of which are linked. */
  lemma LinkedAtEnd(m0: map<Path, Path>, m1: map<Path, Path>, inner: seq<Node>, n: Node, known: bool)
    requires Linked(m1, m0, inner, PathOf(n), true) && Below(PathOf(n), inner) && n.field.content.Message?
    ensures Linked(if known then m1[PathOf(n) := n.parent] else m1, m0, [n] + inner, n.parent, known)
  {
    hide HasParent;
    var m2 := if known then m1[PathOf(n) := n.parent] else m1;
    forall p ensures Lookup(m2, p) == if HasParent([n] + inner, n.parent, known, p) then Some(Enclosing(p))
      else Lookup(m0, p) {
      HasParentAppend([n], inner, n.parent, known, p);
      OneParent(n, n.parent, known, p);
      DeepParents(inner, PathOf(n), n.parent, known, p);
      assert Enclosing(PathOf(n)) == n.parent;
    }
  }

  lemma OneParent(n: Node, base: Path, known: bool, p: Path)
    requires n.parent == base && n.field.content.Message?
    ensures HasParent([n], base, known, p) <==> known && PathOf(n) == p
  {
    assert [n][0] == n;
  }

  lemma DeepParents(inner: seq<Node>, path: Path, base: Path, known: bool, p: Path)
    requires Below(path, inner) && base < path
    ensures HasParent(inner, base, known, p) <==> HasParent(inner, path, true, p)
  {}

  // ---------------------------------------------------------------------------------- All roots

  /** The nodes of all the trees. */
  ghost function AllNodes(roots: seq<Root>): seq<Node> {
    if roots == [] then [] else AllNodes(roots[..|roots| - 1]) + NodesOfRoot(roots[|roots| - 1])
  }

  lemma {:induction false} AllNodesMeaning(roots: seq<Root>, n: Node)
    ensures n in AllNodes(roots) <==> exists i :: 0 <= i < |roots| && n in NodesOfRoot(roots[i])
  {
    if roots != [] {
      var init := roots[..|roots| - 1];
      AllNodesMeaning(init, n);
      assert forall i :: 0 <= i < |init| ==> init[i] == roots[i];
    }
  }

  /** Each message's fields are exactly those of its descriptor, wherever in the trees it stands. */
  lemma {:induction false} FieldsAreTheNodes(h: Path -> int, roots: seq<Root>)
    ensures Listed(AddRoots(h, roots).fieldsOf, map[], AllNodes(roots))
    decreases |roots|
  {
    hide AddFields, Listed, StartRoot, NodesOfRoot;
    if roots == [] {
      NothingListed(map[]);
    } else {
      var init, last := roots[..|roots| - 1], roots[|roots| - 1];
      var s := AddRoots(h, init);
      FieldsAreTheNodes(h, init);
      RootListed(h, s, last);
      ListedAppend(map[], s.fieldsOf, AddRoot(h, s, last).fieldsOf, AllNodes(init), NodesOfRoot(last));
    }
  }

  lemma RootListed(h: Path -> int, s: State, root: Root)
    requires Sound(s)
    ensures Listed(AddRoot(h, s, root).fieldsOf, s.fieldsOf, NodesOfRoot(root))
  {
    hide AddFields, Listed;
    FieldsListed(h, StartRoot(h, s, root), [root.number], root.fields);
  }

  /** What has a parent: the message nodes, and the fields directly under a root. */
  ghost predicate ParentIn(nodes: seq<Node>, p: Path) {
    exists i :: 0 <= i < |nodes| && PathOf(nodes[i]) == p && (nodes[i].field.content.Message? || |nodes[i].parent| == 1)
  }

  ghost predicate ParentsOf(m: map<Path, Path>, roots: seq<Root>) {
    forall p :: Lookup(m, p) == if ParentIn(AllNodes(roots), p) then Some(Enclosing(p)) else None
  }

  lemma {:induction false} SetParentsMeaning(m: map<Path, Path>, base: Path, fields: seq<Field>, p: Path)
    ensures Lookup(SetParents(m, base, fields), p) ==
            if FieldAt(base, fields, p) then Some(base) else Lookup(m, p)
  {
    if fields != [] {
      var init := fields[..|fields| - 1];
      SetParentsMeaning(m, base, init, p);
      assert forall i :: 0 <= i < |init| ==> init[i] == fields[i];
    }
  }

  ghost predicate FieldAt(base: Path, fields: seq<Field>,
                          p: Path) { exists i :: 0 <= i < |fields| && p == base + [fields[i].number] }

  ghost predicate DirectAt(nodes: seq<Node>, base: Path, p: Path) {
    exists i :: 0 <= i < |nodes| && PathOf(nodes[i]) == p && nodes[i].parent == base
  }

  /** The nodes directly under a base are its fields. */
  lemma {:induction false} DirectNodes(base: Path, fields: seq<Field>, p: Path)
    ensures FieldAt(base, fields, p) <==> DirectAt(Nodes(base, fields), base, p)
    decreases |fields|
  {
    hide NodesOf, DirectAt, FieldAt;
    if fields == [] {
      NothingDirect(base, p);
    } else {
      DirectNodes(base, fields[1..], p);
      DirectNodesOf(base, fields[0], p);
      DirectAppend(NodesOf(base, fields[0]), Nodes(base, fields[1..]), base, p);
      FirstFieldAt(base, fields, p);
    }
  }

  lemma NothingDirect(base: Path, p: Path)
    ensures !FieldAt(base, [], p) && !DirectAt([], base, p)
  {}

  lemma FirstFieldAt(base: Path, fields: seq<Field>, p: Path)
    requires fields != []
    ensures FieldAt(base, fields, p) <==> (p == base + [fields[0].number] || FieldAt(base, fields[1..], p))
  {
    assert forall i :: 0 <= i < |fields[1..]| ==> fields[1..][i] == fields[i + 1];
    if FieldAt(base, fields, p) && p != base + [fields[0].number] {
      var i :| 0 <= i < |fields| && p == base + [fields[i].number];
      assert p == base + [fields[1..][i - 1].number];
    }
    if FieldAt(base, fields[1..], p) {
      var i :| 0 <= i < |fields[1..]| && p == base + [fields[1..][i].number];
      assert p == base + [fields[i + 1].number];
    }
  }

  lemma DirectAppend(a: seq<Node>, b: seq<Node>, base: Path, p: Path)
    ensures DirectAt(a + b, base, p) <==> (DirectAt(a, base, p) || DirectAt(b, base, p))
  {
    var all := a + b;
    assert forall i :: 0 <= i < |a| ==> all[i] == a[i];
    assert forall i :: 0 <= i < |b| ==> all[|a| + i] == b[i];
  }

  lemma DirectNodesOf(base: Path, f: Field, p: Path)
    ensures p == base + [f.number] <==> DirectAt(NodesOf(base, f), base, p)
  {
    NodesOfBelow(base, f);
    var nodes := NodesOf(base, f);
    assert forall i :: 0 < i < |nodes| ==> nodes[i] == nodes[1..][i - 1];
    assert PathOf(nodes[0]) == base + [f.number] && nodes[0].parent == base;
  }

  lemma RootLinked(h: Path -> int, s: State, root: Root, p: Path)
    requires Sound(s) && NewRoot(h, s, root)
    ensures Lookup(AddRoot(h, s, root).parents, p) ==
            if ParentIn(NodesOfRoot(root), p) then Some(Enclosing(p)) else Lookup(s.parents, p)
  {
    hide AddFields, Linked, Nodes, SetParents;
    var base, t, nodes := [root.number], h([root.number]), NodesOfRoot(root);
    var s1 := StartRoot(h, s, root);
    StartIsReady(h, s, root);
    FieldsLinked(h, s1, base, root.fields, t, false);
    var inner := AddFields(h, s1, base, root.fields);
    SetParentsMeaning(inner.parents, base, root.fields, p);
    DirectNodes(base, root.fields, p);
    LinkedAt(inner.parents, s.parents, nodes, base, p);
    RootNodes(root);
  }

  lemma LinkedAt(m: map<Path, Path>, old_: map<Path, Path>, nodes: seq<Node>, base: Path, p: Path)
    requires Linked(m, old_, nodes, base, false)
    ensures Lookup(m, p) == if HasParent(nodes, base, false, p) then Some(Enclosing(p)) else Lookup(old_, p)
  {}

  lemma RootNodes(root: Root)
    ensures forall i :: 0 <= i < |NodesOfRoot(root)| ==>
      (|NodesOfRoot(root)[i].parent| == 1 <==> NodesOfRoot(root)[i].parent == [root.number]) &&
      (NodesOfRoot(root)[i].parent == [root.number] ==> Enclosing(PathOf(NodesOfRoot(root)[i])) == [root.number])
  {
    NodesBelow([root.number], root.fields);
  }

  lemma StartIsReady(h: Path -> int, s: State, root: Root)
    requires Sound(s) && NewRoot(h, s, root)
    ensures var t, s1 := h([root.number]), StartRoot(h, s, root);
            && t in s1.parentTable && s1.parentTable[t] == t && t in s1.tables && s1.parents == s.parents
            && Fresh(h, s1, NodesOfRoot(root)) && BaseKnown(h, s1, [root.number], NodesOfRoot(root), false)
  {
    var s1 := StartRoot(h, s, root);
    forall i | 0 <= i < |NodesOfRoot(root)| ensures h(PathOf(NodesOfRoot(root)[i])) !in s1.parentTable {
      assert At(s, h(PathOf(NodesOfRoot(root)[i]))).table == None;
    }
    assert At(s, h([root.number])).message == None && At(s, h([root.number])).table == None;
  }

  /** Exactly the message nodes and the fields directly under a root have a parent, and it is the place above. */
  lemma {:induction false} ParentsAreThePlacesAbove(h: Path -> int, roots: seq<Root>)
    requires ProperRoots(roots) && HashOk(h, roots)
    ensures ParentsOf(AddRoots(h, roots).parents, roots)
    decreases |roots|
  {
    hide AddRoot, NewRoot, HashOk, ProperRoots, NodesOfRoot, ParentsOf;
    if roots == [] {
      NoParents();
    } else {
      var init, last := roots[..|roots| - 1], roots[|roots| - 1];
      var s := AddRoots(h, init);
      PrefixOk(h, roots);
      ParentsAreThePlacesAbove(h, init);
      LastFindsRoom(h, roots);
      forall p { RootLinked(h, s, last, p); }
      MoreParents(s.parents, AddRoot(h, s, last).parents, init, last);
      assert roots == init + [last];
    }
  }

  lemma NoParents()
    ensures ParentsOf(map[], [])
  {}

  lemma MoreParents(m: map<Path, Path>, more: map<Path, Path>, init: seq<Root>, last: Root)
    requires ParentsOf(m, init)
    requires forall p :: Lookup(more, p) == if ParentIn(NodesOfRoot(last), p) then Some(Enclosing(p)) else Lookup(m, p)
    ensures ParentsOf(more, init + [last])
  {
    hide NodesOfRoot, Lookup, Enclosing, ParentIn;
    var all := init + [last];
    assert all[..|all| - 1] == init && all[|all| - 1] == last;
    forall p ensures Lookup(more, p) == if ParentIn(AllNodes(all), p) then Some(Enclosing(p)) else None {
      ParentInAppend(AllNodes(init), NodesOfRoot(last), p);
    }
  }

  lemma ParentInAppend(a: seq<Node>, b: seq<Node>, p: Path)
    ensures ParentIn(a + b, p) <==> (ParentIn(a, p) || ParentIn(b, p))
  {
    var all := a + b;
    assert forall i :: 0 <= i < |a| ==> all[i] == a[i];
    assert forall i :: 0 <= i < |b| ==> all[|a| + i] == b[i];
  }

  // ---------------------------------------------------------------------------------- Entry names

  /** The keys under which a root's tree enters names: the root's own name at 0, a field's at its message. */
  ghost predicate EntryKey(h: Path -> int, root: Root, key: (int, string)) {
    key == (0, root.name) ||
    exists i :: 0 <= i < |NodesOfRoot(root)| && key == (h(NodesOfRoot(root)[i].parent), NodesOfRoot(root)[i].field.name)
  }

  ghost predicate EntriesShown(h: Path -> int, m: map<(int, string), nat>, root: Root) {
    && Lookup(m, (0, root.name)) == Some(root.number)
    && forall i :: 0 <= i < |NodesOfRoot(root)| ==>
         Lookup(m, (h(NodesOfRoot(root)[i].parent), NodesOfRoot(root)[i].field.name)) ==
           Some(NodesOfRoot(root)[i].field.number)
  }

  /** The message around a node is a place of the tree. */
  lemma ParentIsPlace(root: Root, i: nat)
    requires i < |NodesOfRoot(root)|
    ensures IsPlace(root, NodesOfRoot(root)[i].parent)
  {
    NodesRooted([root.number], root.fields);
  }

  lemma {:induction false} NodeEntriesApart(h: Path -> int, roots: seq<Root>, i: nat)
    requires ProperRoots(roots) && HashOk(h, roots) && i < |roots|
    ensures KeysApart(NodesOfRoot(roots[i]), EntryRule(h))
    ensures forall j :: 0 <= j < |NodesOfRoot(roots[i])| ==> h(NodesOfRoot(roots[i])[j].parent) != 0
  {
    var nodes := NodesOfRoot(roots[i]);
    NodesApart([roots[i].number], roots[i].fields);
    forall j | 0 <= j < |nodes| ensures IsPlace(roots[i], nodes[j].parent) { ParentIsPlace(roots[i], j); }
  }

  /** No name is entered twice under one key. */
  lemma {:induction false} EntriesOfTwoRoots(h: Path -> int, roots: seq<Root>, i: nat, j: nat, key: (int, string))
    requires ProperRoots(roots) && HashOk(h, roots) && i < |roots| && j < |roots| && i != j
    ensures !(EntryKey(h, roots[i], key) && EntryKey(h, roots[j], key))
  {
    hide NodesOfRoot;
    if EntryKey(h, roots[i], key) && EntryKey(h, roots[j], key) {
      EntryKeyIsPlace(h, roots, i, key);
      EntryKeyIsPlace(h, roots, j, key);
      if key.0 != 0 { KeysOfTwoRoots(h, roots, i, j, key.0); }
    }
  }

  lemma {:induction false} EntryKeyIsPlace(h: Path -> int, roots: seq<Root>, i: nat, key: (int, string))
    requires ProperRoots(roots) && HashOk(h, roots) && i < |roots| && EntryKey(h, roots[i], key)
    ensures key == (0, roots[i].name) || (key.0 != 0 && IsKey(h, roots[i], key.0))
  {
    if key != (0, roots[i].name) {
      var j :| 0 <= j < |NodesOfRoot(roots[i])| &&
        key == (h(NodesOfRoot(roots[i])[j].parent), NodesOfRoot(roots[i])[j].field.name);
      ParentIsPlace(roots[i], j);
      KeyIntro(h, roots[i], NodesOfRoot(roots[i])[j].parent);
    }
  }

  lemma RootEntries(h: Path -> int, s: State, root: Root)
    requires Sound(s) && NewRoot(h, s, root)
    ensures AddRoot(h, s, root).entries ==
      Put(s.entries[(0, root.name) := root.number], NodesOfRoot(root), EntryRule(h))
  {
    hide Put, Picked, AddRoot;
    RootFills(h, s, root);
  }

  /** After a root: its own entries, and every other entry as it was. */
  lemma {:induction false} RootEntriesShown(h: Path -> int, m: map<(int, string), nat>, roots: seq<Root>, i: nat)
    requires ProperRoots(roots) && HashOk(h, roots) && i < |roots|
    ensures var more := Put(m[(0, roots[i].name) := roots[i].number], NodesOfRoot(roots[i]), EntryRule(h));
            && EntriesShown(h, more, roots[i])
            && forall key :: !EntryKey(h, roots[i], key) ==> Lookup(more, key) == Lookup(m, key)
  {
    hide Put, NodesOfRoot;
    var root, nodes := roots[i], NodesOfRoot(roots[i]);
    var start := m[(0, root.name) := root.number];
    NodeEntriesApart(h, roots, i);
    PutMiss(start, nodes, EntryRule(h), (0, root.name));
    forall j | 0 <= j < |nodes|
      ensures Lookup(Put(start, nodes, EntryRule(h)), (h(nodes[j].parent), nodes[j].field.name)) ==
        Some(nodes[j].field.number)
    {
      PutHit(start, nodes, EntryRule(h), j);
    }
    forall key | !EntryKey(h, root, key) ensures Lookup(Put(start, nodes, EntryRule(h)), key) == Lookup(m, key) {
      PutMiss(start, nodes, EntryRule(h), key);
    }
  }

  /** The entry names hold the number of each root under 0 and of each field under its message, and nothing else. */
  ghost predicate EntriesOf(h: Path -> int, m: map<(int, string), nat>, roots: seq<Root>) {
    && (forall i :: 0 <= i < |roots| ==> EntriesShown(h, m, roots[i]))
    && forall key :: (forall i :: 0 <= i < |roots| ==> !EntryKey(h, roots[i], key)) ==> Lookup(m, key) == None
  }

  lemma {:induction false} EntriesAreTheNames(h: Path -> int, roots: seq<Root>)
    requires ProperRoots(roots) && HashOk(h, roots)
    ensures EntriesOf(h, AddRoots(h, roots).entries, roots)
    decreases |roots|
  {
    hide AddRoot, NewRoot, HashOk, ProperRoots, NodesOfRoot, EntriesOf, EntryKey, EntriesShown, Put;
    if roots == [] {
      NoEntries(h);
    } else {
      var init, last := roots[..|roots| - 1], roots[|roots| - 1];
      var s := AddRoots(h, init);
      PrefixOk(h, roots);
      EntriesAreTheNames(h, init);
      LastFindsRoom(h, roots);
      RootEntries(h, s, last);
      RootEntriesShown(h, s.entries, roots, |roots| - 1);
      forall i, key | 0 <= i < |init| ensures !(EntryKey(h, roots[i], key) && EntryKey(h, last, key)) {
        EntriesOfTwoRoots(h, roots, i, |init|, key);
      }
      MoreEntries(h, s.entries, AddRoot(h, s, last).entries, roots);
    }
  }

  lemma NoEntries(h: Path -> int)
    ensures EntriesOf(h, map[], [])
  {}

  lemma {:induction false} MoreEntries(h: Path -> int, m: map<(int, string), nat>, more: map<(int, string),
                                       nat>, roots: seq<Root>)
    requires roots != [] && EntriesOf(h, m, roots[..|roots| - 1]) && EntriesShown(h, more, roots[|roots| - 1])
    requires forall key :: !EntryKey(h, roots[|roots| - 1], key) ==> Lookup(more, key) == Lookup(m, key)
    requires forall i, key :: 0 <= i < |roots| - 1 ==>
      !(EntryKey(h, roots[i], key) && EntryKey(h, roots[|roots| - 1], key))
    ensures EntriesOf(h, more, roots)
  {
    hide EntryKey, EntriesShown;
    var init, last := roots[..|roots| - 1], roots[|roots| - 1];
    forall i | 0 <= i < |roots| ensures EntriesShown(h, more, roots[i]) {
      if i < |init| {
        assert init[i] == roots[i];
        EntriesStay(h, m, more, roots[i]);
      }
    }
    assert forall i :: 0 <= i < |init| ==> init[i] == roots[i];
  }

  lemma EntriesStay(h: Path -> int, m: map<(int, string), nat>, more: map<(int, string), nat>, root: Root)
    requires EntriesShown(h, m, root) && forall key :: EntryKey(h, root, key) ==> Lookup(more, key) == Lookup(m, key)
    ensures EntriesShown(h, more, root)
  {
    hide Lookup;
    assert EntryKey(h, root, (0, root.name));
    forall i | 0 <= i < |NodesOfRoot(root)|
      ensures EntryKey(h, root, (h(NodesOfRoot(root)[i].parent), NodesOfRoot(root)[i].field.name)) {}
  }
}
