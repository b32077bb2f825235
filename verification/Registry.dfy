/**
 TRelationManager: registering a message schema, a finite tree, into maps keyed by the hash of paths.
 The state is one value; RelationManager keeps it field by field as the code does.
 */
module Registry {
  import opened Common

  type Path = seq<nat>

  // ---------------------------------------------------------------------------------- Schemas

  /** A field descriptor; a message field carries the fields of its message. Repeated covers maps. */
  datatype Field = Field(number: nat, name: string, repeated: bool, annotated: bool, content: Content)

  datatype Content = Primitive | Message(fields: seq<Field>)

  /** A root message: its table number, its name, its fields. */
  datatype Root = Root(number: nat, name: string, fields: seq<Field>)

  /** A place in a schema tree: the path of the enclosing message and the field. */
  datatype Node = Node(parent: Path, field: Field)

  function PathOf(n: Node): Path { n.parent + [n.field.number] }

  /** The nodes below a message, each before its own fields. */
  function Nodes(base: Path, fields: seq<Field>): seq<Node>
    decreases fields
  {
    if fields == [] then []
    else NodesOf(base, fields[0]) + Nodes(base, fields[1..])
  }

  function NodesOf(base: Path, f: Field): (r: seq<Node>)
    ensures |r| > 0 && r[0] == Node(base, f)
    decreases f
  {
    match f.content
    case Primitive => [Node(base, f)]
    case Message(fields) => [Node(base, f)] + Nodes(base + [f.number], fields)
  }

  // ---------------------------------------------------------------------------------- The state

  datatype ObjectType = RootMessage | FieldMessage | PrimitiveField

  datatype Table = Table(path: Path, primary: set<int>, relatedMessages: set<int>, relatedFields: set<int>)

  /** The maps of the singleton. An object registered for a path is represented by the path; the maps from
      entry names and the fields of each message are flattened to pairs of keys. */
  datatype State = State(
    messages: map<int, Path>,
    primitives: map<int, Path>,
    roots: map<int, Path>,
    fields: map<int, Path>,
    types: map<int, ObjectType>,
    parentTable: map<int, int>,
    tables: map<int, Table>,
    names: map<int, string>,
    entries: map<(int, string), nat>,
    parents: map<Path, Path>,
    fieldsOf: map<(Path, nat), Path>
  )

  const EMPTY := State(map[], map[], map[], map[], map[], map[], map[], map[], map[], map[], map[])

  /** unordered_map::emplace: an entry that is there stays. */
  function Emplace<K, V>(m: map<K, V>, k: K, v: V): map<K, V> { if k in m then m else m[k := v] }

  /** Every path's table is a table. */
  predicate Sound(s: State) { forall k :: k in s.parentTable ==> s.parentTable[k] in s.tables }

  lemma TableExists(s: State, k: int)
    requires Sound(s) && k in s.parentTable
    ensures s.parentTable[k] in s.tables
  {}

  // ---------------------------------------------------------------------------------- Specification

  /** The first part of RegisterField: the names, and the table of the parent. */
  function NameNode(h: Path -> int, s: State, n: Node): (r: State)
    requires Sound(s) && h(n.parent) in s.parentTable
    ensures Sound(r) && h(PathOf(n)) in r.parentTable && s.parentTable.Keys <= r.parentTable.Keys
    ensures r.tables == s.tables
  {
    TableExists(s, h(n.parent));
    s.(names := s.names[h(PathOf(n)) := n.field.name],
       entries := s.entries[(h(n.parent), n.field.name) := n.field.number],
       parentTable := Emplace(s.parentTable, h(PathOf(n)), s.parentTable[h(n.parent)]))
  }

  /** The second part: the maps of messages or of primitive fields. */
  function FileNode(h: Path -> int, s: State, n: Node): (r: State)
    requires Sound(s) && h(PathOf(n)) in s.parentTable
    ensures Sound(r) && r.parentTable == s.parentTable
  {
    if n.field.content.Message? then FileMessage(s, h(PathOf(n)), PathOf(n))
      else FilePrimitive(s, h(PathOf(n)), PathOf(n))
  }

  function FileMessage(s: State, key: int, path: Path): (r: State)
    requires Sound(s) && key in s.parentTable
    ensures Sound(r) && r.parentTable == s.parentTable
  {
    var owner := s.parentTable[key];
    var table := s.tables[owner];
    s.(tables := s.tables[owner := table.(relatedMessages := table.relatedMessages + {key})],
       messages := s.messages[key := path],
       fields := s.fields[key := path],
       types := s.types[key := FieldMessage])
  }

  function FilePrimitive(s: State, key: int, path: Path): (r: State)
    requires Sound(s) && key in s.parentTable
    ensures Sound(r) && r.parentTable == s.parentTable
  {
    var owner := s.parentTable[key];
    var table := s.tables[owner];
    s.(tables := s.tables[owner := table.(relatedFields := table.relatedFields + {key})],
       fields := s.fields[key := path],
       primitives := s.primitives[key := path],
       types := s.types[key := PrimitiveField])
  }

  /** RegisterField, before any recursion. */
  function AddNode(h: Path -> int, s: State, n: Node): (r: State)
    requires Sound(s) && h(n.parent) in s.parentTable
    ensures Sound(r) && h(PathOf(n)) in r.parentTable && s.parentTable.Keys <= r.parentTable.Keys
  {
    FileNode(h, NameNode(h, s, n), n)
  }

  /** RegisterMessageField or RegisterPrimitiveField, and the entry in the enclosing message. */
  function AddField(h: Path -> int, s: State, base: Path, f: Field): (r: State)
    requires Sound(s) && h(base) in s.parentTable
    ensures Sound(r) && s.parentTable.Keys <= r.parentTable.Keys
    decreases f, 1
  {
    var path := base + [f.number];
    var s1 := AddNode(h, s, Node(base, f));
    var s2 :=
      if f.content.Primitive? then s1
      else
        var inner := AddFields(h, s1, path, f.content.fields);
        if h(base) in s.messages then inner.(parents := inner.parents[path := s.messages[h(base)]]) else inner;
    s2.(fieldsOf := s2.fieldsOf[(base, f.number) := path])
  }

  /** TMessageInfo::Process. */
  function AddFields(h: Path -> int, s: State, base: Path, fields: seq<Field>): (r: State)
    requires Sound(s) && h(base) in s.parentTable
    ensures Sound(r) && s.parentTable.Keys <= r.parentTable.Keys
    decreases fields, 0
  {
    if fields == [] then s
    else
      var s1 := AddField(h, s, base, fields[0]);
      AddFields(h, s1, base, fields[1..])
  }

  /** FindPrimaryFields: the hashes of the annotated fields not at or under a repeated one. */
  function PrimaryKeys(h: Path -> int, base: Path, fields: seq<Field>): set<int>
    decreases fields
  {
    if fields == [] then {} else PrimaryKeysOf(h, base, fields[0]) + PrimaryKeys(h, base, fields[1..])
  }

  function PrimaryKeysOf(h: Path -> int, base: Path, f: Field): set<int>
    decreases f
  {
    if f.repeated then {}
    else
      (if f.annotated then {h(base + [f.number])} else {}) +
      (match f.content case Primitive => {} case Message(fields) => PrimaryKeys(h, base + [f.number], fields))
  }

  /** RegisterRoot up to the call of Process. */
  function StartRoot(h: Path -> int, s: State, root: Root): (r: State)
    requires Sound(s)
    ensures Sound(r) && h([root.number]) in r.parentTable
  {
    var key := h([root.number]);
    var table := Table([root.number], PrimaryKeys(h, [root.number], root.fields), {key}, {});
    s.(tables := s.tables[key := table],
       parentTable := Emplace(s.parentTable, key, key),
       names := s.names[key := root.name],
       entries := s.entries[(0, root.name) := root.number])
  }

  /** The last loop of RegisterRoot. */
  function SetParents(parents: map<Path, Path>, base: Path, fields: seq<Field>): map<Path, Path> {
    if fields == [] then parents
    else SetParents(parents, base, fields[..|fields| - 1])[base + [fields[|fields| - 1].number] := base]
  }

  function AddRoot(h: Path -> int, s: State, root: Root): (r: State)
    requires Sound(s)
    ensures Sound(r)
  {
    var base := [root.number];
    var s1 := StartRoot(h, s, root);
    var s2 := AddFields(h, s1, base, root.fields);
    s2.(messages := s2.messages[h(base) := base],
        roots := s2.roots[h(base) := base],
        types := s2.types[h(base) := RootMessage],
        parents := SetParents(s2.parents, base, root.fields))
  }

  /** The state after registering some roots one after another. */
  function AddRoots(h: Path -> int, roots: seq<Root>): (r: State)
    ensures Sound(r)
  {
    if roots == [] then EMPTY else AddRoot(h, AddRoots(h, roots[..|roots| - 1]), roots[|roots| - 1])
  }

  // ---------------------------------------------------------------------------------- The class

  class RelationManager {
    const h: Path -> int
    var messages: map<int, Path>
    var primitives: map<int, Path>
    var roots: map<int, Path>
    var fields: map<int, Path>
    var types: map<int, ObjectType>
    var parentTable: map<int, int>
    var tables: map<int, Table>
    var names: map<int, string>
    var entries: map<(int, string), nat>
    var parents: map<Path, Path>
    var fieldsOf: map<(Path, nat), Path>

    ghost function Now(): State
      reads this
    {
      State(messages, primitives, roots, fields, types, parentTable, tables, names, entries, parents, fieldsOf)
    }

    constructor (h: Path -> int)
      ensures this.h == h && Now() == EMPTY
    {
      this.h := h;
      messages, primitives, roots, fields, types := map[], map[], map[], map[], map[];
      parentTable, tables, names, entries, parents, fieldsOf := map[], map[], map[], map[], map[], map[];
    }

    method NameEntry(n: Node)
      requires Sound(Now()) && h(n.parent) in parentTable
      modifies this
      ensures Now() == NameNode(h, old(Now()), n)
    {
      var key, parentKey := h(PathOf(n)), h(n.parent);
      names := names[key := n.field.name];
      entries := entries[(parentKey, n.field.name) := n.field.number];
      parentTable := Emplace(parentTable, key, parentTable[parentKey]);
    }

    method FileAsMessage(key: int, path: Path)
      requires Sound(Now()) && key in parentTable
      modifies this
      ensures Now() == FileMessage(old(Now()), key, path)
    {
      var table := tables[parentTable[key]];
      tables := tables[parentTable[key] := table.(relatedMessages := table.relatedMessages + {key})];
      messages := messages[key := path];
      fields := fields[key := path];
      types := types[key := FieldMessage];
    }

    method FileAsPrimitive(key: int, path: Path)
      requires Sound(Now()) && key in parentTable
      modifies this
      ensures Now() == FilePrimitive(old(Now()), key, path)
    {
      var table := tables[parentTable[key]];
      tables := tables[parentTable[key] := table.(relatedFields := table.relatedFields + {key})];
      fields := fields[key := path];
      primitives := primitives[key := path];
      types := types[key := PrimitiveField];
    }

    /** RegisterField up to the recursion; each lookup with at() finds its key. */
    method RegisterNode(n: Node)
      requires Sound(Now()) && h(n.parent) in parentTable
      modifies this
      ensures Now() == AddNode(h, old(Now()), n)
    {
      hide NameNode, FileMessage, FilePrimitive;
      NameEntry(n);
      if n.field.content.Message? { FileAsMessage(h(PathOf(n)), PathOf(n)); }
        else { FileAsPrimitive(h(PathOf(n)), PathOf(n)); }
    }

    method RegisterMessageField(base: Path, f: Field)
      requires f.content.Message? && Sound(Now()) && h(base) in parentTable
      modifies this
      ensures Now().(fieldsOf := map[]) == AddField(h, old(Now()), base, f).(fieldsOf := map[])
      ensures fieldsOf[(base, f.number) := base + [f.number]] == AddField(h, old(Now()), base, f).fieldsOf
      decreases f, 1
    {
      hide AddNode, AddFields;
      var path := base + [f.number];
      var parentMessage := if h(base) in messages then Some(messages[h(base)]) else None;
      RegisterNode(Node(base, f));
      Process(path, f.content.fields);
      if parentMessage.Some? { parents := parents[path := parentMessage.value]; }
    }

    /** One round of the loop of Process. */
    method RegisterField(base: Path, f: Field)
      requires Sound(Now()) && h(base) in parentTable
      modifies this
      ensures Now() == AddField(h, old(Now()), base, f)
      decreases f, 2
    {
      hide AddNode, AddFields;
      if f.content.Message? { RegisterMessageField(base, f); } else { RegisterNode(Node(base, f)); }
      fieldsOf := fieldsOf[(base, f.number) := base + [f.number]];
    }

    method Process(base: Path, fs: seq<Field>)
      requires Sound(Now()) && h(base) in parentTable
      modifies this
      ensures Now() == AddFields(h, old(Now()), base, fs)
      decreases fs, 0
    {
      hide AddField;
      ghost var start := Now();
      assert fs[0..] == fs;
      for i := 0 to |fs|
        invariant Sound(Now()) && h(base) in parentTable
        invariant AddFields(h, Now(), base, fs[i..]) == AddFields(h, start, base, fs)
      {
        assert fs[i..][0] == fs[i] && fs[i..][1..] == fs[i + 1..];
        RegisterField(base, fs[i]);
      }
    }

    method OpenRoot(root: Root)
      requires Sound(Now())
      modifies this
      ensures Now() == StartRoot(h, old(Now()), root)
    {
      var base := [root.number];
      var key := h(base);
      var primary := FindPrimaryFields(h, base, root.fields);
      tables := tables[key := Table(base, primary, {key}, {})];
      parentTable := Emplace(parentTable, key, key);
      names := names[key := root.name];
      entries := entries[(0, root.name) := root.number];
    }

    method SetParentOfAll(base: Path, fs: seq<Field>)
      modifies this`parents
      ensures parents == SetParents(old(parents), base, fs)
    {
      for i := 0 to |fs|
        invariant parents == SetParents(old(parents), base, fs[..i])
      {
        assert fs[..i + 1][..i] == fs[..i];
        parents := parents[base + [fs[i].number] := base];
      }
      assert fs[..|fs|] == fs;
    }

    method RegisterRoot(root: Root)
      requires Sound(Now())
      modifies this
      ensures Now() == AddRoot(h, old(Now()), root) && Sound(Now())
    {
      hide StartRoot, AddFields, SetParents;
      var base := [root.number];
      OpenRoot(root);
      Process(base, root.fields);
      messages := messages[h(base) := base];
      roots := roots[h(base) := base];
      types := types[h(base) := RootMessage];
      SetParentOfAll(base, root.fields);
    }
  }

  method FindPrimaryFields(h: Path -> int, base: Path, fields: seq<Field>) returns (result: set<int>)
    ensures result == PrimaryKeys(h, base, fields)
    decreases fields
  {
    result := {};
    var i := 0;
    while i < |fields|
      invariant i <= |fields| && result + PrimaryKeys(h, base, fields[i..]) == PrimaryKeys(h, base, fields)
    {
      var f := fields[i];
      assert fields[i..][0] == f && fields[i..][1..] == fields[i + 1..];
      i := i + 1;
      if f.repeated { continue; }
      var path := base + [f.number];
      if f.annotated { result := result + {h(path)}; }
      if f.content.Message? {
        var inner := FindPrimaryFields(h, path, f.content.fields);
        result := result + inner;
      }
    }
  }
}
