/** What the registry holds after any roots have been registered: exactly their trees. */
module RegistryRoots {
  import opened Common
  import opened Registry
  import opened RegistryTree

  // ---------------------------------------------------------------------------------- Places and hashes

  ghost function NodesOfRoot(root: Root): seq<Node> { Nodes([root.number], root.fields) }

  /** The root itself or a node of its tree stands at the path. */
  ghost predicate IsPlace(root: Root, p: Path) {
    p == [root.number] || exists i :: 0 <= i < |NodesOfRoot(root)| && PathOf(NodesOfRoot(root)[i]) == p
  }

  /** The roots have different numbers and names, and proper messages. */
  ghost predicate ProperRoots(roots: seq<Root>) {
    && (forall i :: 0 <= i < |roots| ==> Proper(roots[i].fields))
    && forall i, j :: 0 <= i < j < |roots| ==> roots[i].number != roots[j].number && roots[i].name != roots[j].name
  }

  /** The hash tells apart the paths of all places, and the empty path, whose hash is 0. */
  ghost predicate HashOk(h: Path -> int, roots: seq<Root>) {
    && h([]) == 0
    && (forall i, p :: 0 <= i < |roots| && IsPlace(roots[i], p) ==> h(p) != 0)
    && forall i, j, p, q ::
         0 <= i < |roots| && 0 <= j < |roots| && IsPlace(roots[i], p) && IsPlace(roots[j], q) && h(p) == h(q) ==> p == q
  }

  /** Every place of a root starts with the root's number; only the root has that path alone. */
  lemma PlaceStart(root: Root, p: Path)
    requires IsPlace(root, p)
    ensures p != [] && p[0] == root.number
    ensures forall i :: 0 <= i < |NodesOfRoot(root)| ==>
      |NodesOfRoot(root)[i].parent| >= 1 && NodesOfRoot(root)[i].parent[0] == root.number
  {
    NodesBelow([root.number], root.fields);
  }

  // ---------------------------------------------------------------------------------- Views

  function Lookup<K, V>(m: map<K, V>, k: K): Option<V> { if k in m then Some(m[k]) else None }

  /** What the maps keyed by hash alone hold for a key. */
  datatype View = View(name: Option<string>, table: Option<int>, field: Option<Path>, objectType: Option<ObjectType>,
                       message: Option<Path>, primitive: Option<Path>, root: Option<Path>)

  function At(s: State, k: int): View {
    View(Lookup(s.names, k), Lookup(s.parentTable, k), Lookup(s.fields, k), Lookup(s.types, k), Lookup(s.messages, k),
         Lookup(s.primitives, k), Lookup(s.roots, k))
  }

  const NOTHING := View(None, None, None, None, None, None, None)

  /** A message field is a field and a message, a primitive field a field and a primitive; both belong to the table
      t. */
  function NodeView(n: Node, t: int): View {
    match n.field.content
    case Message(_) => View(Some(n.field.name), Some(t), Some(PathOf(n)), Some(FieldMessage), Some(PathOf(n)), None,
      None)
    case Primitive => View(Some(n.field.name), Some(t), Some(PathOf(n)), Some(PrimitiveField), None, Some(PathOf(n)),
      None)
  }

  /** A root is a message and its own table. */
  function RootView(root: Root, key: int): View {
    View(Some(root.name), Some(key), None, Some(RootMessage), Some([root.number]), None, Some([root.number]))
  }

  // ---------------------------------------------------------------------------------- Looking up filled maps

  lemma PutHit<K(!new), V(!new)>(m: map<K, V>, nodes: seq<Node>, rule: Node -> Option<(K, V)>, i: nat)
    requires KeysApart(nodes, rule) && i < |nodes| && rule(nodes[i]).Some?
    ensures Lookup(Put(m, nodes, rule), rule(nodes[i]).value.0) == Some(rule(nodes[i]).value.1)
  {
    PutMeaning(m, nodes, rule);
  }

  lemma {:induction false} PutMiss<K(!new), V(!new)>(m: map<K, V>, nodes: seq<Node>, rule: Node -> Option<(K, V)>, k: K)
    requires forall i :: 0 <= i < |nodes| && rule(nodes[i]).Some? ==> rule(nodes[i]).value.0 != k
    ensures Lookup(Put(m, nodes, rule), k) == Lookup(m, k)
  {
    if nodes != [] {
      var init := nodes[..|nodes| - 1];
      assert forall i :: 0 <= i < |init| ==> init[i] == nodes[i];
      PutMiss(m, init, rule, k);
    }
  }

  /** The nodes have different keys. */
  ghost predicate Hashed(h: Path -> int, nodes: seq<Node>) {
    forall i, j :: 0 <= i < j < |nodes| ==> h(PathOf(nodes[i])) != h(PathOf(nodes[j]))
  }

  lemma FilledMiss(h: Path -> int, s: State, nodes: seq<Node>, t: int, k: int)
    requires t in s.tables && forall i :: 0 <= i < |nodes| ==> h(PathOf(nodes[i])) != k
    ensures At(Filled(h, s, nodes, t), k) == At(s, k)
  {
    hide Put, Picked;
    PutMiss(s.messages, nodes, MessageRule(h), k);
    PutMiss(s.primitives, nodes, PrimitiveRule(h), k);
    PutMiss(s.fields, nodes, PathRule(h), k);
    PutMiss(s.types, nodes, TypeRule(h), k);
    PutMiss(s.parentTable, nodes, TableRule(h, t), k);
    PutMiss(s.names, nodes, NameRule(h), k);
  }

  lemma FilledHit(h: Path -> int, s: State, nodes: seq<Node>, t: int, i: nat)
    requires t in s.tables && Hashed(h, nodes) && i < |nodes| && At(s, h(PathOf(nodes[i]))) == NOTHING
    ensures At(Filled(h, s, nodes, t), h(PathOf(nodes[i]))) == NodeView(nodes[i], t)
  {
    hide Put, Picked;
    PutHit(s.fields, nodes, PathRule(h), i);
    PutHit(s.types, nodes, TypeRule(h), i);
    PutHit(s.parentTable, nodes, TableRule(h, t), i);
    PutHit(s.names, nodes, NameRule(h), i);
    hide PathRule, TypeRule, TableRule, NameRule;
    KindHit(h, s.messages, s.primitives, nodes, i);
  }

  lemma KindHit(h: Path -> int, messages: map<int, Path>, primitives: map<int, Path>, nodes: seq<Node>, i: nat)
    requires Hashed(h, nodes) && i < |nodes|
    requires h(PathOf(nodes[i])) !in messages && h(PathOf(nodes[i])) !in primitives
    ensures Lookup(Put(messages, nodes, MessageRule(h)), h(PathOf(nodes[i]))) ==
            if nodes[i].field.content.Message? then Some(PathOf(nodes[i])) else None
    ensures Lookup(Put(primitives, nodes, PrimitiveRule(h)), h(PathOf(nodes[i]))) ==
            if nodes[i].field.content.Primitive? then Some(PathOf(nodes[i])) else None
  {
    hide Put;
    var k := h(PathOf(nodes[i]));
    if nodes[i].field.content.Message? {
      PutHit(messages, nodes, MessageRule(h), i);
      PutMiss(primitives, nodes, PrimitiveRule(h), k);
    } else {
      PutHit(primitives, nodes, PrimitiveRule(h), i);
      PutMiss(messages, nodes, MessageRule(h), k);
    }
  }

  // ---------------------------------------------------------------------------------- One root

  /** The key of a root and its nodes are new. */
  ghost predicate NewRoot(h: Path -> int, s: State, root: Root) {
    && At(s, h([root.number])) == NOTHING
    && (forall i :: 0 <= i < |NodesOfRoot(root)| ==> At(s, h(PathOf(NodesOfRoot(root)[i]))) == NOTHING)
    && Hashed(h, NodesOfRoot(root))
    && forall i :: 0 <= i < |NodesOfRoot(root)| ==> h(PathOf(NodesOfRoot(root)[i])) != h([root.number])
  }

  /** Up to the maps written late, registering a root fills in its nodes and then the root itself. */
  lemma RootFills(h: Path -> int, s: State, root: Root)
    requires Sound(s) && NewRoot(h, s, root)
    ensures var t := h([root.number]);
            var f := Filled(h, StartRoot(h, s, root), NodesOfRoot(root), t);
            Core(AddRoot(h, s, root)) == Core(f.(messages := f.messages[t := [root.number]],
                                                 roots := f.roots[t := [root.number]],
                                                 types := f.types[t := RootMessage]))
  {
    hide AddFields, Filled;
    var t, s1 := h([root.number]), StartRoot(h, s, root);
    assert t in s1.tables && s1.parentTable[t] == t;
    assert Fresh(h, s1, NodesOfRoot(root)) by {
      forall i | 0 <= i < |NodesOfRoot(root)| ensures h(PathOf(NodesOfRoot(root)[i])) !in s1.parentTable {
        assert At(s, h(PathOf(NodesOfRoot(root)[i]))).table == None;
      }
    }
    FieldsFill(h, s1, [root.number], root.fields, t);
  }

  lemma CoreView(a: State, b: State, k: int)
    requires Core(a) == Core(b)
    ensures At(a, k) == At(b, k) && a.tables == b.tables && a.entries == b.entries
  {}

  lemma StartView(h: Path -> int, s: State, root: Root, k: int)
    requires Sound(s) && At(s, h([root.number])) == NOTHING
    ensures var s1 := StartRoot(h, s, root);
            At(s1, k) == if k == h([root.number]) then NOTHING.(name := Some(root.name), table := Some(k)) else At(s, k)
  {}

  lemma EndView(f: State, t: int, path: Path, k: int)
    ensures At(f.(messages := f.messages[t := path], roots := f.roots[t := path],
      types := f.types[t := RootMessage]), k) ==
            if k == t then At(f, t).(message := Some(path), root := Some(path), objectType := Some(RootMessage))
              else At(f, k)
  {}

  /** After registering a root: its own key, the keys of its nodes, and every other key. */
  lemma RootKeys(h: Path -> int, s: State, root: Root)
    requires Sound(s) && NewRoot(h, s, root)
    ensures var r, t := AddRoot(h, s, root), h([root.number]);
            && At(r, t) == RootView(root, t)
            && (forall i :: 0 <= i < |NodesOfRoot(root)| ==>
                  At(r, h(PathOf(NodesOfRoot(root)[i]))) == NodeView(NodesOfRoot(root)[i], t))
            && forall k ::
                 k != t && (forall i :: 0 <= i < |NodesOfRoot(root)| ==> h(PathOf(NodesOfRoot(root)[i])) != k) ==>
                 At(r, k) == At(s, k)
  {
    hide AddRoot, StartRoot, Filled, At;
    var r, t, nodes := AddRoot(h, s, root), h([root.number]), NodesOfRoot(root);
    var s1 := StartRoot(h, s, root);
    TableStarted(h, s, root);
    var f := Filled(h, s1, nodes, t);
    var e := f.(messages := f.messages[t := [root.number]], roots := f.roots[t := [root.number]],
      types := f.types[t := RootMessage]);
    RootFills(h, s, root);
    StartView(h, s, root, t);
    FilledMiss(h, s1, nodes, t, t);
    CoreView(r, e, t);
    EndView(f, t, [root.number], t);
    forall i | 0 <= i < |nodes| ensures At(r, h(PathOf(nodes[i]))) == NodeView(nodes[i], t) {
      var k := h(PathOf(nodes[i]));
      StartView(h, s, root, k);
      FilledHit(h, s1, nodes, t, i);
      CoreView(r, e, k);
      EndView(f, t, [root.number], k);
    }
    forall k | k != t && (forall i :: 0 <= i < |nodes| ==> h(PathOf(nodes[i])) != k) ensures At(r, k) == At(s, k) {
      StartView(h, s, root, k);
      FilledMiss(h, s1, nodes, t, k);
      CoreView(r, e, k);
      EndView(f, t, [root.number], k);
    }
  }

  lemma TableStarted(h: Path -> int, s: State, root: Root)
    requires Sound(s)
    ensures h([root.number]) in StartRoot(h, s, root).tables
  {}

  // ---------------------------------------------------------------------------------- All roots

  /** Some place of the root has this key. */
  ghost predicate IsKey(h: Path -> int, root: Root, k: int) { exists p :: IsPlace(root, p) && h(p) == k }

  lemma KeyIntro(h: Path -> int, root: Root, p: Path)
    requires IsPlace(root, p)
    ensures IsKey(h, root, h(p))
  {}

  lemma NodeIsPlace(root: Root, i: nat)
    requires i < |NodesOfRoot(root)|
    ensures IsPlace(root, PathOf(NodesOfRoot(root)[i])) && IsPlace(root, [root.number])
    ensures PathOf(NodesOfRoot(root)[i]) != [root.number]
  {
    NodesBelow([root.number], root.fields);
  }

  /** No key belongs to two roots. */
  lemma {:induction false} KeysOfTwoRoots(h: Path -> int, roots: seq<Root>, i: nat, j: nat, k: int)
    requires ProperRoots(roots) && HashOk(h, roots) && i < |roots| && j < |roots| && i != j
    ensures !(IsKey(h, roots[i], k) && IsKey(h, roots[j], k))
  {
    if IsKey(h, roots[i], k) && IsKey(h, roots[j], k) {
      var p :| IsPlace(roots[i], p) && h(p) == k;
      var q :| IsPlace(roots[j], q) && h(q) == k;
      PlaceStart(roots[i], p);
      PlaceStart(roots[j], q);
    }
  }

  /** The nodes of a registered root have keys of their own. */
  lemma {:induction false} NodesHashed(h: Path -> int, roots: seq<Root>, i: nat)
    requires ProperRoots(roots) && HashOk(h, roots) && i < |roots|
    ensures Hashed(h, NodesOfRoot(roots[i]))
    ensures forall j :: 0 <= j < |NodesOfRoot(roots[i])| ==> h(PathOf(NodesOfRoot(roots[i])[j])) != h([roots[i].number])
  {
    var nodes := NodesOfRoot(roots[i]);
    NodesApart([roots[i].number], roots[i].fields);
    forall j, l | 0 <= j < l < |nodes| ensures h(PathOf(nodes[j])) != h(PathOf(nodes[l])) {
      NodeIsPlace(roots[i], j);
      NodeIsPlace(roots[i], l);
    }
    forall j | 0 <= j < |nodes| ensures h(PathOf(nodes[j])) != h([roots[i].number]) { NodeIsPlace(roots[i], j); }
  }

  /** What the registry is to hold for one root. */
  ghost predicate Shows(h: Path -> int, s: State, root: Root) {
    && At(s, h([root.number])) == RootView(root, h([root.number]))
    && forall i :: 0 <= i < |NodesOfRoot(root)| ==>
         At(s, h(PathOf(NodesOfRoot(root)[i]))) == NodeView(NodesOfRoot(root)[i], h([root.number]))
  }

  lemma {:induction false} PrefixOk(h: Path -> int, roots: seq<Root>)
    requires ProperRoots(roots) && HashOk(h, roots) && roots != []
    ensures ProperRoots(roots[..|roots| - 1]) && HashOk(h, roots[..|roots| - 1])
  {
    hide IsPlace;
    var init := roots[..|roots| - 1];
    assert forall i :: 0 <= i < |init| ==> init[i] == roots[i];
  }

  /** Another root, with other keys, does not disturb what is shown. */
  lemma StaysShown(h: Path -> int, s: State, r: State, root: Root)
    requires Shows(h, s, root) && forall k :: IsKey(h, root, k) ==> At(r, k) == At(s, k)
    ensures Shows(h, r, root)
  {
    hide At, IsKey;
    KeyIntro(h, root, [root.number]);
    forall i | 0 <= i < |NodesOfRoot(root)| ensures IsKey(h, root, h(PathOf(NodesOfRoot(root)[i]))) {
      NodeIsPlace(root, i);
      KeyIntro(h, root, PathOf(NodesOfRoot(root)[i]));
    }
  }

  /** After registering any proper roots, in any order: the maps show each root and each node of each tree, with
      its root as its table, and hold nothing else. */
  lemma {:induction false} RegistryShowsTheTrees(h: Path -> int, roots: seq<Root>)
    requires ProperRoots(roots) && HashOk(h, roots)
    ensures forall i :: 0 <= i < |roots| ==> Shows(h, AddRoots(h, roots), roots[i])
    ensures forall k :: (forall i :: 0 <= i < |roots| ==> !IsKey(h, roots[i], k)) ==>
      At(AddRoots(h, roots), k) == NOTHING
    decreases |roots|
  {
    hide At, IsKey, Shows, AddRoot, IsPlace;
    if roots == [] {
      NothingAtFirst();
    } else {
      var init, last := roots[..|roots| - 1], roots[|roots| - 1];
      var s := AddRoots(h, init);
      PrefixOk(h, roots);
      RegistryShowsTheTrees(h, init);
      LastIsNew(h, roots);
      RootKeysByKey(h, s, last);
      var r := AddRoots(h, roots);
      forall i | 0 <= i < |roots| ensures Shows(h, r, roots[i]) {
        if i < |init| {
          assert init[i] == roots[i];
          forall k | IsKey(h, roots[i], k) ensures At(r, k) == At(s, k) { KeysOfTwoRoots(h, roots, i, |init|, k); }
          StaysShown(h, s, r, roots[i]);
        }
      }
      forall k | forall i :: 0 <= i < |roots| ==> !IsKey(h, roots[i], k) ensures At(r, k) == NOTHING {
        assert forall i :: 0 <= i < |init| ==> init[i] == roots[i];
        assert !IsKey(h, last, k);
      }
    }
  }

  lemma NothingAtFirst()
    ensures forall k :: At(EMPTY, k) == NOTHING
  {}

  /** The last root finds none of its keys taken. */
  lemma {:induction false} LastIsNew(h: Path -> int, roots: seq<Root>)
    requires ProperRoots(roots) && HashOk(h, roots) && roots != []
    requires var init := roots[..|roots| - 1];
             forall k :: (forall i :: 0 <= i < |init| ==> !IsKey(h, init[i], k)) ==> At(AddRoots(h, init), k) == NOTHING
    ensures NewRoot(h, AddRoots(h, roots[..|roots| - 1]), roots[|roots| - 1])
  {
    hide At, IsKey, AddRoots;
    var init, last := roots[..|roots| - 1], roots[|roots| - 1];
    NodesHashed(h, roots, |roots| - 1);
    forall p | IsPlace(last, p) ensures At(AddRoots(h, init), h(p)) == NOTHING {
      KeyIntro(h, last, p);
      forall i | 0 <= i < |init| ensures !IsKey(h, init[i], h(p)) {
        assert init[i] == roots[i];
        KeysOfTwoRoots(h, roots, i, |roots| - 1, h(p));
      }
    }
    assert IsPlace(last, [last.number]);
    forall i | 0 <= i < |NodesOfRoot(last)| ensures At(AddRoots(h, init), h(PathOf(NodesOfRoot(last)[i]))) == NOTHING {
      NodeIsPlace(last, i);
    }
  }

  lemma {:induction false} LastFindsRoom(h: Path -> int, roots: seq<Root>)
    requires ProperRoots(roots) && HashOk(h, roots) && roots != []
    ensures NewRoot(h, AddRoots(h, roots[..|roots| - 1]), roots[|roots| - 1])
  {
    hide At, IsKey, AddRoots, Shows, NewRoot;
    PrefixOk(h, roots);
    RegistryShowsTheTrees(h, roots[..|roots| - 1]);
    LastIsNew(h, roots);
  }

  lemma RootKeysByKey(h: Path -> int, s: State, root: Root)
    requires Sound(s) && NewRoot(h, s, root)
    ensures Shows(h, AddRoot(h, s, root), root)
    ensures forall k :: !IsKey(h, root, k) ==> At(AddRoot(h, s, root), k) == At(s, k)
  {
    hide At, AddRoot;
    RootKeys(h, s, root);
    forall k | !IsKey(h, root, k) ensures At(AddRoot(h, s, root), k) == At(s, k) {
      assert IsPlace(root, [root.number]);
      forall i | 0 <= i < |NodesOfRoot(root)| ensures h(PathOf(NodesOfRoot(root)[i])) != k { NodeIsPlace(root, i); }
    }
  }

  // ---------------------------------------------------------------------------------- Tables

  /** The table of a root: the keys of its annotated fields, of its messages and of its primitive fields. */
  ghost function TableOf(h: Path -> int, root: Root): Table {
    var base, key := [root.number], h([root.number]);
    Widened(h, Table(base, PrimaryKeys(h, base, root.fields), {key}, {}), NodesOfRoot(root))
  }

  /** A table's related fields are exactly its primitive nodes, its related messages the root and its message nodes. */
  lemma RelatedExactly(h: Path -> int, root: Root, k: int)
    ensures k in TableOf(h, root).relatedFields <==>
      exists i :: 0 <= i < |NodesOfRoot(root)| && NodesOfRoot(root)[i].field.content.Primitive?
        && h(PathOf(NodesOfRoot(root)[i])) == k
    ensures k in TableOf(h, root).relatedMessages <==>
      (k == h([root.number]) ||
       exists i :: 0 <= i < |NodesOfRoot(root)| && NodesOfRoot(root)[i].field.content.Message?
         && h(PathOf(NodesOfRoot(root)[i])) == k)
  {
    hide Picked;
    var nodes := NodesOfRoot(root);
    PickedMeaning(nodes, MessageKey(h), k);
    PickedMeaning(nodes, PrimitiveKey(h), k);
  }

  lemma RootTables(h: Path -> int, s: State, root: Root)
    requires Sound(s) && NewRoot(h, s, root)
    ensures AddRoot(h, s, root).tables == s.tables[h([root.number]) := TableOf(h, root)]
  {
    hide Put, Picked, AddRoot;
    RootFills(h, s, root);
    var t := h([root.number]);
    var table := Table([root.number], PrimaryKeys(h, [root.number], root.fields), {t}, {});
    assert StartRoot(h, s, root).tables == s.tables[t := table];
    assert s.tables[t := table][t := TableOf(h, root)] == s.tables[t := TableOf(h, root)];
  }

  /** The tables are those of the roots, and nothing else is a table. */
  ghost predicate TablesOf(h: Path -> int, tables: map<int, Table>, roots: seq<Root>) {
    && (forall i :: 0 <= i < |roots| ==> Lookup(tables, h([roots[i].number])) == Some(TableOf(h, roots[i])))
    && forall k :: k in tables ==> exists i :: 0 <= i < |roots| && k == h([roots[i].number])
  }

  lemma {:induction false} TablesAreTheRoots(h: Path -> int, roots: seq<Root>)
    requires ProperRoots(roots) && HashOk(h, roots)
    ensures TablesOf(h, AddRoots(h, roots).tables, roots)
    decreases |roots|
  {
    hide AddRoot, TableOf, TablesOf, NewRoot, HashOk, ProperRoots;
    if roots == [] {
      NoTables(h);
    } else {
      var init, last := roots[..|roots| - 1], roots[|roots| - 1];
      PrefixOk(h, roots);
      TablesAreTheRoots(h, init);
      LastFindsRoom(h, roots);
      RootTables(h, AddRoots(h, init), last);
      forall i | 0 <= i < |init| ensures h([init[i].number]) != h([last.number]) {
        assert init[i] == roots[i];
        RootKeysDiffer(h, roots, i, |init|);
      }
      OneMoreTable(h, AddRoots(h, init).tables, init, last);
      assert roots == init + [last];
    }
  }

  lemma NoTables(h: Path -> int)
    ensures TablesOf(h, AddRoots(h, []).tables, [])
  {}

  lemma OneMoreTable(h: Path -> int, tables: map<int, Table>, init: seq<Root>, last: Root)
    requires TablesOf(h, tables, init) && forall i :: 0 <= i < |init| ==> h([init[i].number]) != h([last.number])
    ensures TablesOf(h, tables[h([last.number]) := TableOf(h, last)], init + [last])
  {
    hide TableOf;
    var all, more := init + [last], tables[h([last.number]) := TableOf(h, last)];
    assert all[|init|] == last;
    forall k | k in more ensures exists i :: 0 <= i < |all| && k == h([all[i].number]) {
      if k in tables {
        var i :| 0 <= i < |init| && k == h([init[i].number]);
        assert k == h([all[i].number]);
      } else {
        assert k == h([all[|init|].number]);
      }
    }
  }

  lemma {:induction false} RootKeysDiffer(h: Path -> int, roots: seq<Root>, i: nat, j: nat)
    requires ProperRoots(roots) && HashOk(h, roots) && i < |roots| && j < |roots| && i != j
    ensures h([roots[i].number]) != h([roots[j].number])
  {
    KeyIntro(h, roots[i], [roots[i].number]);
    KeyIntro(h, roots[j], [roots[j].number]);
    KeysOfTwoRoots(h, roots, i, j, h([roots[i].number]));
  }

  // ---------------------------------------------------------------------------------- Primary fields

  /** A node is at or under a repeated field of its tree. */
  ghost predicate Unrepeated(base: Path, fields: seq<Field>, n: Node)
    decreases fields
  {
    exists i :: 0 <= i < |fields| && UnrepeatedIn(base, fields[i], n)
  }

  ghost predicate UnrepeatedIn(base: Path, f: Field, n: Node)
    decreases f
  {
    !f.repeated && (n == Node(base, f) || (f.content.Message? && Unrepeated(base + [f.number], f.content.fields, n)))
  }

  /** FindPrimaryFields goes its own way through the descriptors, and finds exactly the annotated nodes that are not
      at or under a repeated field. */
  lemma {:induction false} PrimaryExactly(h: Path -> int, base: Path, fields: seq<Field>, k: int)
    ensures k in PrimaryKeys(h, base, fields) <==>
      exists n :: Unrepeated(base, fields, n) && n.field.annotated && h(PathOf(n)) == k
    decreases fields
  {
    hide UnrepeatedIn, PrimaryKeysOf;
    if fields != [] {
      PrimaryExactlyOf(h, base, fields[0], k);
      PrimaryExactly(h, base, fields[1..], k);
      forall n
        ensures Unrepeated(base, fields, n) <==> UnrepeatedIn(base, fields[0], n) || Unrepeated(base, fields[1..], n)
      {
        if Unrepeated(base, fields, n) {
          var i :| 0 <= i < |fields| && UnrepeatedIn(base, fields[i], n);
          if i > 0 { assert fields[1..][i - 1] == fields[i]; }
        }
        if Unrepeated(base, fields[1..], n) {
          var i :| 0 <= i < |fields[1..]| && UnrepeatedIn(base, fields[1..][i], n);
          assert fields[i + 1] == fields[1..][i];
        }
      }
    }
  }

  lemma {:induction false} PrimaryExactlyOf(h: Path -> int, base: Path, f: Field, k: int)
    ensures k in PrimaryKeysOf(h, base, f) <==>
      exists n :: UnrepeatedIn(base, f, n) && n.field.annotated && h(PathOf(n)) == k
    decreases f
  {
    hide Unrepeated, PrimaryKeys;
    if !f.repeated {
      assert UnrepeatedIn(base, f, Node(base, f));
      match f.content {
        case Primitive =>
        case Message(fields) => PrimaryExactly(h, base + [f.number], fields, k);
      }
    }
  }

  /** Those nodes are nodes of the tree. */
  lemma {:induction false} UnrepeatedIsNode(base: Path, fields: seq<Field>, n: Node)
    requires Unrepeated(base, fields, n)
    ensures n in Nodes(base, fields)
    decreases fields
  {
    var i :| 0 <= i < |fields| && UnrepeatedIn(base, fields[i], n);
    if n != Node(base, fields[i]) { UnrepeatedIsNode(base + [fields[i].number], fields[i].content.fields, n); }
    NodesHasField(base, fields, i);
  }

  lemma {:induction false} NodesHasField(base: Path, fields: seq<Field>, i: nat)
    requires i < |fields|
    ensures forall n :: n in NodesOf(base, fields[i]) ==> n in Nodes(base, fields)
    decreases |fields|
  {
    hide NodesOf;
    if i > 0 {
      NodesHasField(base, fields[1..], i - 1);
      assert fields[1..][i - 1] == fields[i];
    }
  }
}
