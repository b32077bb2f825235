/**
 The nodes of a schema tree, and the state of the registry described by them alone: registering a message and its
 fields recursively puts, map by map, one entry for each node of the tree and nothing else.
 */
module RegistryTree {
  import opened Common
  import opened Registry

  // ---------------------------------------------------------------------------------- The nodes

  /** What protobuf requires of a message: no two fields with one number or one name, at any level. */
  ghost predicate Proper(fields: seq<Field>)
    decreases fields
  {
    && (forall i, j :: 0 <= i < j < |fields| ==>
          fields[i].number != fields[j].number && fields[i].name != fields[j].name)
    && (forall i :: 0 <= i < |fields| ==> fields[i].content.Message? ==> Proper(fields[i].content.fields))
  }

  ghost predicate Below(base: Path, nodes: seq<Node>) {
    forall i :: 0 <= i < |nodes| ==> base <= nodes[i].parent
  }

  lemma BelowWider(base: Path, longer: Path, nodes: seq<Node>)
    requires base <= longer && Below(longer, nodes)
    ensures Below(base, nodes)
  {}

  lemma {:induction false} NodesBelow(base: Path, fields: seq<Field>)
    ensures Below(base, Nodes(base, fields))
    decreases fields
  {
    if fields != [] {
      NodesOfBelow(base, fields[0]);
      NodesBelow(base, fields[1..]);
    }
  }

  /** Beneath a field's own node, everything extends the path of the field. */
  lemma {:induction false} NodesOfBelow(base: Path, f: Field)
    ensures Below(base, NodesOf(base, f)) && Below(base + [f.number], NodesOf(base, f)[1..])
    decreases f
  {
    if f.content.Message? {
      NodesBelow(base + [f.number], f.content.fields);
      BelowWider(base, base + [f.number], Nodes(base + [f.number], f.content.fields));
    }
  }

  /** No two nodes have one path, or one name in one message. */
  ghost predicate Apart(nodes: seq<Node>) {
    forall i, j :: 0 <= i < j < |nodes| ==>
      PathOf(nodes[i]) != PathOf(nodes[j]) &&
      (nodes[i].parent == nodes[j].parent ==> nodes[i].field.name != nodes[j].field.name)
  }

  lemma {:induction false} NodesApart(base: Path, fields: seq<Field>)
    requires Proper(fields)
    ensures Apart(Nodes(base, fields))
    decreases fields
  {
    if fields != [] {
      NodesOfApart(base, fields[0]);
      NodesApart(base, fields[1..]);
      SiblingsApart(base, fields[0], fields[1..]);
    }
  }

  lemma {:induction false} NodesOfApart(base: Path, f: Field)
    requires f.content.Message? ==> Proper(f.content.fields)
    ensures Apart(NodesOf(base, f))
    decreases f
  {
    if f.content.Message? {
      var path := base + [f.number];
      var inner := Nodes(path, f.content.fields);
      NodesApart(path, f.content.fields);
      NodesBelow(path, f.content.fields);
      forall j | 0 <= j < |inner| ensures PathOf(inner[j]) != path && inner[j].parent != base {
        assert |inner[j].parent| >= |path|;
      }
    }
  }

  /** The nodes of one field and those of its later siblings do not meet. */
  lemma {:induction false} SiblingsApart(base: Path, f: Field, rest: seq<Field>)
    requires forall i :: 0 <= i < |rest| ==> rest[i].number != f.number && rest[i].name != f.name
    ensures forall n, m :: n in NodesOf(base, f) && m in Nodes(base, rest) ==>
      PathOf(n) != PathOf(m) && (n.parent == m.parent ==> n.field.name != m.field.name)
    decreases |rest|
  {
    if rest != [] {
      SiblingsApart(base, f, rest[1..]);
      TwoApart(base, f, rest[0]);
    }
  }

  /** A node of a field: the field itself, or one beneath it. */
  lemma NodesOfField(base: Path, f: Field, n: Node)
    requires n in NodesOf(base, f)
    ensures base + [f.number] <= PathOf(n) && (n == Node(base, f) || base + [f.number] <= n.parent)
  {
    NodesOfBelow(base, f);
    var i :| 0 <= i < |NodesOf(base, f)| && NodesOf(base, f)[i] == n;
    if i > 0 { assert NodesOf(base, f)[1..][i - 1] == n; }
  }

  lemma TwoApart(base: Path, f: Field, g: Field)
    requires f.number != g.number && f.name != g.name
    ensures forall n, m :: n in NodesOf(base, f) && m in NodesOf(base, g) ==>
      PathOf(n) != PathOf(m) && (n.parent == m.parent ==> n.field.name != m.field.name)
  {
    forall n, m | n in NodesOf(base, f) && m in NodesOf(base, g)
      ensures PathOf(n) != PathOf(m) && (n.parent == m.parent ==> n.field.name != m.field.name)
    {
      hide NodesOf;
      NodesOfField(base, f, n);
      NodesOfField(base, g, m);
      assert PathOf(n)[|base|] == f.number && PathOf(m)[|base|] == g.number;
    }
  }

  /** Each node's parent is the base or comes before it. */
  ghost predicate Rooted(base: Path, nodes: seq<Node>) {
    forall i :: 0 <= i < |nodes| ==>
      nodes[i].parent == base || exists j :: 0 <= j < i && PathOf(nodes[j]) == nodes[i].parent
  }

  lemma {:induction false} NodesRooted(base: Path, fields: seq<Field>)
    ensures Rooted(base, Nodes(base, fields))
    decreases fields
  {
    if fields != [] {
      NodesOfRooted(base, fields[0]);
      NodesRooted(base, fields[1..]);
      RootedAppend(base, NodesOf(base, fields[0]), Nodes(base, fields[1..]));
    }
  }

  lemma {:induction false} NodesOfRooted(base: Path, f: Field)
    ensures Rooted(base, NodesOf(base, f))
    decreases f
  {
    if f.content.Message? {
      var path := base + [f.number];
      var inner := Nodes(path, f.content.fields);
      NodesRooted(path, f.content.fields);
      var all := [Node(base, f)] + inner;
      forall i | 0 <= i < |all|
        ensures all[i].parent == base || exists j :: 0 <= j < i && PathOf(all[j]) == all[i].parent
      {
        if i > 0 {
          if inner[i - 1].parent == path {
            assert PathOf(all[0]) == all[i].parent;
          } else {
            var j :| 0 <= j < i - 1 && PathOf(inner[j]) == inner[i - 1].parent;
            assert PathOf(all[j + 1]) == all[i].parent;
          }
        }
      }
    }
  }

  lemma RootedAppend(base: Path, a: seq<Node>, b: seq<Node>)
    requires Rooted(base, a) && Rooted(base, b)
    ensures Rooted(base, a + b)
  {
    forall i | 0 <= i < |a + b|
      ensures (a + b)[i].parent == base || exists j :: 0 <= j < i && PathOf((a + b)[j]) == (a + b)[i].parent
    {
      if i >= |a| && b[i - |a|].parent != base {
        var j :| 0 <= j < i - |a| && PathOf(b[j]) == b[i - |a|].parent;
        assert PathOf((a + b)[|a| + j]) == (a + b)[i].parent;
      } else if i < |a| && a[i].parent != base {
        var j :| 0 <= j < i && PathOf(a[j]) == a[i].parent;
        assert PathOf((a + b)[j]) == (a + b)[i].parent;
      }
    }
  }

  // ---------------------------------------------------------------------------------- Maps filled by nodes

  /** A map after an entry for each node the rule gives one for. */
  ghost function Put<K, V>(m: map<K, V>, nodes: seq<Node>, rule: Node -> Option<(K, V)>): map<K, V> {
    if nodes == [] then m
    else
      var before := Put(m, nodes[..|nodes| - 1], rule);
      match rule(nodes[|nodes| - 1]) case Some((k, v)) => before[k := v] case None => before
  }

  ghost predicate KeysApart<K(!new), V(!new)>(nodes: seq<Node>, rule: Node -> Option<(K, V)>) {
    forall i, j :: 0 <= i < j < |nodes| && rule(nodes[i]).Some? && rule(nodes[j]).Some? ==>
      rule(nodes[i]).value.0 != rule(nodes[j]).value.0
  }

  ghost predicate Gives<K(!new), V(!new)>(nodes: seq<Node>, rule: Node -> Option<(K, V)>, k: K) {
    exists i :: 0 <= i < |nodes| && rule(nodes[i]).Some? && rule(nodes[i]).value.0 == k
  }

  /** Each node's entry is there, and nothing else has changed. */
  lemma {:induction false} PutMeaning<K(!new), V(!new)>(m: map<K, V>, nodes: seq<Node>, rule: Node -> Option<(K, V)>)
    requires KeysApart(nodes, rule)
    ensures forall i :: 0 <= i < |nodes| && rule(nodes[i]).Some? ==>
      rule(nodes[i]).value.0 in Put(m, nodes, rule)
        && Put(m, nodes, rule)[rule(nodes[i]).value.0] == rule(nodes[i]).value.1
    ensures forall k :: k in m ==> k in Put(m, nodes, rule)
    ensures forall k :: k in Put(m, nodes, rule) && !Gives(nodes, rule, k) ==> k in m && Put(m, nodes, rule)[k] == m[k]
  {
    if nodes != [] {
      var init := nodes[..|nodes| - 1];
      PutMeaning(m, init, rule);
      assert forall i :: 0 <= i < |init| ==> init[i] == nodes[i];
    }
  }

  /** The keys of the nodes the rule picks. */
  ghost function Picked(nodes: seq<Node>, rule: Node -> Option<int>): set<int> {
    if nodes == [] then {}
    else
      var before := Picked(nodes[..|nodes| - 1], rule);
      match rule(nodes[|nodes| - 1]) case Some(k) => before + {k} case None => before
  }

  lemma {:induction false} PickedMeaning(nodes: seq<Node>, rule: Node -> Option<int>, k: int)
    ensures k in Picked(nodes, rule) <==> exists i :: 0 <= i < |nodes| && rule(nodes[i]) == Some(k)
  {
    if nodes != [] {
      var init := nodes[..|nodes| - 1];
      PickedMeaning(init, rule, k);
      assert forall i :: 0 <= i < |init| ==> init[i] == nodes[i];
    }
  }

  // ---------------------------------------------------------------------------------- The rules

  ghost function PathRule(h: Path -> int): Node -> Option<(int, Path)> { (n: Node) => Some((h(PathOf(n)), PathOf(n))) }

  ghost function MessageRule(h: Path -> int): Node -> Option<(int, Path)> {
    (n: Node) => if n.field.content.Message? then Some((h(PathOf(n)), PathOf(n))) else None
  }

  ghost function PrimitiveRule(h: Path -> int): Node -> Option<(int, Path)> {
    (n: Node) => if n.field.content.Primitive? then Some((h(PathOf(n)), PathOf(n))) else None
  }

  ghost function TypeRule(h: Path -> int): Node -> Option<(int, ObjectType)> {
    (n: Node) => Some((h(PathOf(n)), if n.field.content.Message? then FieldMessage else PrimitiveField))
  }

  ghost function TableRule(h: Path -> int, t: int): Node -> Option<(int, int)> { (n: Node) => Some((h(PathOf(n)), t)) }

  ghost function NameRule(h: Path -> int): Node -> Option<(int,
    string)> { (n: Node) => Some((h(PathOf(n)), n.field.name)) }

  ghost function EntryRule(h: Path -> int): Node -> Option<((int, string), nat)> {
    (n: Node) => Some(((h(n.parent), n.field.name), n.field.number))
  }

  ghost function MessageKey(h: Path -> int): Node -> Option<int> {
    (n: Node) => if n.field.content.Message? then Some(h(PathOf(n))) else None
  }

  ghost function PrimitiveKey(h: Path -> int): Node -> Option<int> {
    (n: Node) => if n.field.content.Primitive? then Some(h(PathOf(n))) else None
  }

  /** The state with the entries of some nodes of the table t. */
  ghost function Filled(h: Path -> int, s: State, nodes: seq<Node>, t: int): State
    requires t in s.tables
  {
    s.(messages := Put(s.messages, nodes, MessageRule(h)),
       primitives := Put(s.primitives, nodes, PrimitiveRule(h)),
       fields := Put(s.fields, nodes, PathRule(h)),
       types := Put(s.types, nodes, TypeRule(h)),
       parentTable := Put(s.parentTable, nodes, TableRule(h, t)),
       names := Put(s.names, nodes, NameRule(h)),
       entries := Put(s.entries, nodes, EntryRule(h)),
       tables := s.tables[t := Widened(h, s.tables[t], nodes)])
  }

  ghost function Widened(h: Path -> int, table: Table, nodes: seq<Node>): Table {
    table.(relatedMessages := table.relatedMessages + Picked(nodes, MessageKey(h)),
           relatedFields := table.relatedFields + Picked(nodes, PrimitiveKey(h)))
  }

  /** One more node, whose parent is in the table and whose own key is new. */
  lemma FilledStep(h: Path -> int, s: State, init: seq<Node>, n: Node, t: int)
    requires t in s.tables && Sound(Filled(h, s, init, t))
    requires var f := Filled(h, s, init, t);
             h(n.parent) in f.parentTable && f.parentTable[h(n.parent)] == t && h(PathOf(n)) !in f.parentTable
    ensures AddNode(h, Filled(h, s, init, t), n) == Filled(h, s, init + [n], t)
  {
    hide Put, Picked;
    PutStep(s.messages, init, n, MessageRule(h));
    PutStep(s.primitives, init, n, PrimitiveRule(h));
    PutStep(s.fields, init, n, PathRule(h));
    PutStep(s.types, init, n, TypeRule(h));
    PutStep(s.parentTable, init, n, TableRule(h, t));
    PutStep(s.names, init, n, NameRule(h));
    PutStep(s.entries, init, n, EntryRule(h));
    WidenedStep(h, s.tables[t], init, n);
    assert s.tables[t := Widened(h, s.tables[t], init)][t := Widened(h, s.tables[t], init + [n])]
        == s.tables[t := Widened(h, s.tables[t], init + [n])];
  }

  lemma PutStep<K, V>(m: map<K, V>, init: seq<Node>, n: Node, rule: Node -> Option<(K, V)>)
    ensures Put(m, init + [n], rule) ==
            match rule(n) case Some((k, v)) => Put(m, init, rule)[k := v] case None => Put(m, init, rule)
  {
    assert (init + [n])[..|init|] == init;
  }

  lemma WidenedStep(h: Path -> int, table: Table, init: seq<Node>, n: Node)
    ensures var before, key := Widened(h, table, init), h(PathOf(n));
            Widened(h, table, init + [n]) ==
            if n.field.content.Message? then before.(relatedMessages := before.relatedMessages + {key})
            else before.(relatedFields := before.relatedFields + {key})
  {
    assert (init + [n])[..|init|] == init;
    var messages, fields := Picked(init, MessageKey(h)), Picked(init, PrimitiveKey(h));
    assert table.relatedMessages + (messages + {h(PathOf(n))}) == table.relatedMessages + messages + {h(PathOf(n))};
    assert table.relatedFields + (fields + {h(PathOf(n))}) == table.relatedFields + fields + {h(PathOf(n))};
  }

  lemma NothingFilled(h: Path -> int, s: State, t: int)
    requires t in s.tables
    ensures Filled(h, s, [], t) == s
  {
    var table := s.tables[t];
    assert table.relatedMessages + {} == table.relatedMessages && table.relatedFields + {} == table.relatedFields;
    assert s.tables[t := table] == s.tables;
  }

  lemma {:induction false} PutAppend<K, V>(m: map<K, V>, a: seq<Node>, b: seq<Node>, rule: Node -> Option<(K, V)>)
    ensures Put(m, a + b, rule) == Put(Put(m, a, rule), b, rule)
  {
    if b == [] {
      assert a + b == a;
    } else {
      var init := b[..|b| - 1];
      PutAppend(m, a, init, rule);
      assert (a + b)[..|a + b| - 1] == a + init;
    }
  }

  lemma {:induction false} PickedAppend(a: seq<Node>, b: seq<Node>, rule: Node -> Option<int>)
    ensures Picked(a + b, rule) == Picked(a, rule) + Picked(b, rule)
  {
    if b == [] {
      assert a + b == a;
    } else {
      PickedAppend(a, b[..|b| - 1], rule);
      assert (a + b)[..|a + b| - 1] == a + b[..|b| - 1];
    }
  }

  lemma FilledAppend(h: Path -> int, s: State, a: seq<Node>, b: seq<Node>, t: int)
    requires t in s.tables
    ensures Filled(h, Filled(h, s, a, t), b, t) == Filled(h, s, a + b, t)
  {
    hide Put, Picked;
    PutAppend(s.messages, a, b, MessageRule(h));
    PutAppend(s.primitives, a, b, PrimitiveRule(h));
    PutAppend(s.fields, a, b, PathRule(h));
    PutAppend(s.types, a, b, TypeRule(h));
    PutAppend(s.parentTable, a, b, TableRule(h, t));
    PutAppend(s.names, a, b, NameRule(h));
    PutAppend(s.entries, a, b, EntryRule(h));
    WidenedAppend(h, s.tables[t], a, b);
    assert s.tables[t := Widened(h, s.tables[t], a)][t := Widened(h, s.tables[t], a + b)]
        == s.tables[t := Widened(h, s.tables[t], a + b)];
  }

  lemma WidenedAppend(h: Path -> int, table: Table, a: seq<Node>, b: seq<Node>)
    ensures Widened(h, Widened(h, table, a), b) == Widened(h, table, a + b)
  {
    hide Picked;
    PickedAppend(a, b, MessageKey(h));
    PickedAppend(a, b, PrimitiveKey(h));
    assert table.relatedMessages + Picked(a, MessageKey(h)) + Picked(b, MessageKey(h))
        == table.relatedMessages + (Picked(a, MessageKey(h)) + Picked(b, MessageKey(h)));
    assert table.relatedFields + Picked(a, PrimitiveKey(h)) + Picked(b, PrimitiveKey(h))
        == table.relatedFields + (Picked(a, PrimitiveKey(h)) + Picked(b, PrimitiveKey(h)));
  }

  // ---------------------------------------------------------------------------------- Registration fills by nodes

  /** Everything but the maps that are written after the recursion. */
  function Core(s: State): State { s.(parents := map[], fieldsOf := map[]) }

  /** The keys of the nodes are new and differ from one another. */
  ghost predicate Fresh(h: Path -> int, s: State, nodes: seq<Node>) {
    && (forall i :: 0 <= i < |nodes| ==> h(PathOf(nodes[i])) !in s.parentTable)
    && (forall i, j :: 0 <= i < j < |nodes| ==> h(PathOf(nodes[i])) != h(PathOf(nodes[j])))
  }

  lemma {:induction false} TableKeys(h: Path -> int, m: map<int, int>, nodes: seq<Node>, t: int, k: int)
    ensures k in Put(m, nodes, TableRule(h, t)) <==> k in m || exists i :: 0 <= i < |nodes| && h(PathOf(nodes[i])) == k
    ensures k in Put(m, nodes, TableRule(h, t)) ==>
      Put(m, nodes, TableRule(h, t))[k] == t || (k in m && Put(m, nodes, TableRule(h, t))[k] == m[k])
  {
    if nodes != [] {
      var init := nodes[..|nodes| - 1];
      TableKeys(h, m, init, t, k);
      assert forall i :: 0 <= i < |init| ==> init[i] == nodes[i];
    }
  }

  /** Splitting the new nodes in two. */
  lemma FreshParts(h: Path -> int, s: State, a: seq<Node>, b: seq<Node>, t: int)
    requires t in s.tables && Fresh(h, s, a + b)
    ensures Fresh(h, s, a) && Fresh(h, Filled(h, s, a, t), b)
  {
    hide Put, Picked;
    var all := a + b;
    assert forall i :: 0 <= i < |a| ==> all[i] == a[i];
    assert forall i :: 0 <= i < |b| ==> all[|a| + i] == b[i];
    forall i | 0 <= i < |b| ensures h(PathOf(b[i])) !in Filled(h, s, a, t).parentTable {
      TableKeys(h, s.parentTable, a, t, h(PathOf(b[i])));
      assert h(PathOf(all[|a| + i])) !in s.parentTable;
    }
  }

  lemma FreshCore(h: Path -> int, s: State, r: State, nodes: seq<Node>, t: int)
    requires t in s.tables && Core(s) == Core(r)
    ensures Core(Filled(h, s, nodes, t)) == Core(Filled(h, r, nodes, t))
    ensures Fresh(h, s, nodes) <==> Fresh(h, r, nodes)
  {
    hide Put, Picked;
  }

  lemma {:induction false} FieldsFill(h: Path -> int, s: State, base: Path, fields: seq<Field>, t: int)
    requires Sound(s) && h(base) in s.parentTable && s.parentTable[h(base)] == t
    requires t in s.tables && Fresh(h, s, Nodes(base, fields))
    ensures Core(AddFields(h, s, base, fields)) == Core(Filled(h, s, Nodes(base, fields), t))
    decreases fields, 0
  {
    hide Filled, Fresh, AddField, NodesOf;
    if fields == [] {
      NothingFilled(h, s, t);
    } else {
      var own, rest := NodesOf(base, fields[0]), Nodes(base, fields[1..]);
      FreshParts(h, s, own, rest, t);
      FieldFills(h, s, base, fields[0], t);
      var s1 := AddField(h, s, base, fields[0]);
      BaseStays(h, s, own, t, h(base));
      var f1 := Filled(h, s, own, t);
      FreshCore(h, f1, s1, rest, t);
      FieldsFill(h, s1, base, fields[1..], t);
      FilledAppend(h, s, own, rest, t);
    }
  }

  /** What has a table keeps it, and the table stays a table. */
  lemma BaseStays(h: Path -> int, s: State, nodes: seq<Node>, t: int, k: int)
    requires t in s.tables && k in s.parentTable && s.parentTable[k] == t
    ensures var f := Filled(h, s, nodes, t); t in f.tables && k in f.parentTable && f.parentTable[k] == t
  {
    hide Put, Picked;
    TableKeys(h, s.parentTable, nodes, t, k);
  }

  lemma {:induction false} FieldFills(h: Path -> int, s: State, base: Path, f: Field, t: int)
    requires Sound(s) && h(base) in s.parentTable && s.parentTable[h(base)] == t
    requires t in s.tables && Fresh(h, s, NodesOf(base, f))
    ensures Core(AddField(h, s, base, f)) == Core(Filled(h, s, NodesOf(base, f), t))
    decreases f, 1
  {
    hide Filled, Fresh, AddFields, AddNode, Nodes;
    var n, path := Node(base, f), base + [f.number];
    NodeFills(h, s, n, NodesOf(base, f), t);
    if f.content.Message? {
      var inner := Nodes(path, f.content.fields);
      FreshParts(h, s, [n], inner, t);
      FieldsFill(h, AddNode(h, s, n), path, f.content.fields, t);
      FilledAppend(h, s, [n], inner, t);
    }
  }

  lemma NodeFills(h: Path -> int, s: State, n: Node, nodes: seq<Node>, t: int)
    requires Sound(s) && h(n.parent) in s.parentTable && s.parentTable[h(n.parent)] == t
    requires t in s.tables && |nodes| > 0 && nodes[0] == n && Fresh(h, s, nodes)
    ensures AddNode(h, s, n) == Filled(h, s, [n], t)
    ensures var r := AddNode(h, s, n);
            Sound(r) && t in r.tables && h(PathOf(n)) in r.parentTable && r.parentTable[h(PathOf(n))] == t
  {
    hide AddNode, Put, Picked;
    NothingFilled(h, s, t);
    hide Filled;
    FilledStep(h, s, [], n, t);
    assert [] + [n] == [n];
    OwnTable(h, s, n, t);
  }

  lemma OwnTable(h: Path -> int, s: State, n: Node, t: int)
    requires t in s.tables
    ensures var r := Filled(h, s, [n], t);
            t in r.tables && h(PathOf(n)) in r.parentTable && r.parentTable[h(PathOf(n))] == t
  {
    hide Picked;
    assert [] + [n] == [n];
    PutStep(s.parentTable, [], n, TableRule(h, t));
  }
}
