/**
 What a request means as SQL text: TransformClause, ExpandSelector and OrganizeSelect turn a request tree into a builder
 tree, its paths resolved by the registry. The flat form, the registry, the organizer, the printer and the reader of SQL
 text meet here: a condition is followed from the client's tree over the wire to the text and back, and a request is
 shown to be refused exactly when it looks at a column that is not registered.
 */
module RequestTransform {
  import opened Common
  import R = Registry
  import opened RegistryRoots
  import opened RegistryQueries
  import opened RegistryAnswers
  import RegistryPaths
  import Paths
  import F = FlatProto
  import FlatProtoRoundTrip
  import S = SqlTree
  import SqlReader

  type Path = seq<nat>

  type Tree = F.Tree

  type Clause = S.Clause

  /** What the organizer depends on: the registry, the answers of the subtree query as columns, the text of a double,
      and the number that an unset table of a SELECT reads as. */
  datatype Context = Context(h: Path -> int, s: R.State, expand: Path -> seq<Path>, digits: real -> string, unset: nat)

  // ---------------------------------------------------------------------------------- Columns

  /** A builder column by GetTable() and GetField(). */
  function ColumnAt(x: Context, p: Path): Result<Clause> {
    match RegistryPaths.TableOfPath(x.h, x.s, p)
    case None => Throw
    case Some(table) => if |table| > |p| then Throw else Ok(S.Column(table, p[|table|..], S.Simple, false))
  }

  /** The column of a request path: its table, and the field of the registered primitive field or of the path itself. */
  function TransformColumn(x: Context, p: Path): Result<Clause> {
    match RegistryPaths.TableOfPath(x.h, x.s, p)
    case None => Throw
    case Some(table) =>
      match ColumnAt(x, if x.h(p) in x.s.primitives then x.s.primitives[x.h(p)] else p)
      case Ok(Column(_, field, _, _)) => Ok(S.Column(table, field, S.Simple, false))
      case _ => Throw
  }

  predicate IsMessageType(x: Context, p: Path) { x.h(p) in x.s.types && x.s.types[x.h(p)] != R.PrimitiveField }

  function ColumnsAt(x: Context, paths: seq<Path>): Result<seq<Clause>> {
    if paths == [] then Ok([])
    else
      match (ColumnAt(x, paths[0]), ColumnsAt(x, paths[1..]))
      case (Ok(c), Ok(cs)) => Ok([c] + cs)
      case _ => Throw
  }

  // ---------------------------------------------------------------------------------- Clauses

  /** TransformClause; clauses it has no case for become null. */
  function Transform(x: Context, t: Tree): Result<Clause>
    decreases t, 1
  {
    match t
    case Str(text) => Ok(S.Str(text))
    case Int(number) => Ok(S.Int(number))
    case Float(value) => Ok(S.Float(x.digits(value)))
    case Bool(truth) => Ok(S.Bool(truth))
    case Expression(op, operands) =>
      (match TransformAll(x, operands) case Ok(cs) => Ok(S.Expression(op, cs)) case Throw => Throw)
    case All => Ok(S.All)
    case Column(path, _) => TransformColumn(x, path)
    case Default => Ok(S.Default)
    case Select(_, _, _, _, _, _, _) => OrganizeSelect(x, t)
    case _ => Ok(S.Null)
  }

  function TransformAll(x: Context, ts: seq<Tree>): (r: Result<seq<Clause>>)
    ensures r.Ok? ==> |r.value| == |ts|
    decreases ts, 0
  {
    if ts == [] then Ok([])
    else
      match (Transform(x, ts[0]), TransformAll(x, ts[1..]))
      case (Ok(c), Ok(cs)) => Ok([c] + cs)
      case _ => Throw
  }

  function TransformOptional(x: Context, o: Option<Tree>): Result<Clause>
    decreases o, 0
  {
    match o case None => Ok(S.Null) case Some(t) => Transform(x, t)
  }

  /** A column of a message becomes the columns of its subtree. */
  function ExpandSelector(x: Context, t: Tree): Result<seq<Clause>>
    decreases t, 2
  {
    if t.Column? then
      if IsMessageType(x, t.path) then ColumnsAt(x, x.expand(t.path))
      else match ColumnAt(x, t.path) case Ok(c) => Ok([c]) case Throw => Throw
    else match Transform(x, t) case Ok(c) => Ok([c]) case Throw => Throw
  }

  function ExpandAll(x: Context, ts: seq<Tree>): Result<seq<Clause>>
    decreases ts, 0
  {
    if ts == [] then Ok([])
    else
      match (ExpandSelector(x, ts[0]), ExpandAll(x, ts[1..]))
      case (Ok(a), Ok(b)) => Ok(a + b)
      case _ => Throw
  }

  function OrganizeSelect(x: Context, t: Tree): Result<Clause>
    requires t.Select?
    decreases t, 0
  {
    var number := match t.table case Some(n) => n case None => x.unset;
    match (ExpandAll(x, t.selectors), TransformOptional(x, t.where), TransformOptional(x, t.having),
           TransformOptional(x, t.groupBy), TransformOptional(x, t.orderBy), TransformOptional(x, t.limit))
    case (Ok(selectors), Ok(where), Ok(having), Ok(groupBy), Ok(orderBy), Ok(limit)) =>
      Ok(S.Select(selectors, S.Table([number]), [], where, groupBy, having, orderBy, limit))
    case _ => Throw
  }

  // ---------------------------------------------------------------------------------- The registry behind it

  /** A possible answer of ExpandSelector's loops for a message path. */
  ghost predicate Expands(x: Context, p: Path, columns: seq<Path>) {
    exists keys: seq<(Path, nat)> ::
      && Columns(x.h, x.s, columns, keys) && Increasing(keys)
      && forall m, number: nat :: (m, number) in keys <==> m in Subtree(x.s, p) && IsColumn(x.h, x.s, m, number)
  }

  /** The context is a registry with these roots and the answers of its queries. */
  ghost predicate Over(x: Context, roots: seq<R.Root>) {
    && ProperRoots(roots) && HashOk(x.h, roots) && x.s == R.AddRoots(x.h, roots)
    && forall p :: Expands(x, p, x.expand(p))
  }

  /** Any set of column keys can be listed in order. */
  lemma {:induction false} KeysInOrder(all: set<(Path, nat)>) returns (keys: seq<(Path, nat)>)
    ensures Increasing(keys) && forall k :: k in keys <==> k in all
    decreases |all|
  {
    hide Before;
    if all == {} {
      keys := [];
    } else {
      var last := LastKey(all);
      var init := KeysInOrder(all - {last});
      keys := init + [last];
      assert forall k :: k in keys <==> k in init || k == last;
      forall i, j | 0 <= i < j < |keys| ensures Before(keys[i], keys[j]) {
        if j == |init| { assert keys[i] in init; }
      }
    }
  }

  lemma {:induction false} LastKey(all: set<(Path, nat)>) returns (last: (Path, nat))
    requires all != {}
    ensures last in all && forall k :: k in all && k != last ==> Before(k, last)
    decreases |all|
  {
    hide Before;
    last :| last in all;
    if all != {last} {
      var other := LastKey(all - {last});
      KeyOrder(last, other);
      if Before(last, other) {
        forall k | k in all && k != other ensures Before(k, other) {}
        last := other;
      } else {
        forall k | k in all && k != last ensures Before(k, last) { if k != other { KeysChain(k, other, last); } }
      }
    }
  }

  lemma KeyOrder(a: (Path, nat), b: (Path, nat))
    requires a != b
    ensures Before(a, b) || Before(b, a)
  {
    Paths.LessIsTotal(a.0, b.0);
  }

  lemma KeysChain(a: (Path, nat), b: (Path, nat), c: (Path, nat))
    requires Before(a, b) && Before(b, c)
    ensures Before(a, c)
  {
    if a.0 != b.0 && b.0 != c.0 { Paths.LessIsTransitive(a.0, b.0, c.0); }
  }

  ghost predicate HasExpansion(x: Context, p: Path) { exists columns :: Expands(x, p, columns) }

  /** Every path has an expansion. */
  lemma {:induction false} ExpansionExists(x: Context, p: Path)
    ensures HasExpansion(x, p)
  {
    hide Increasing, Subtree;
    var all := set k | k in x.s.fieldsOf && k.0 in Subtree(x.s, p) && IsColumn(x.h, x.s, k.0, k.1);
    var keys := KeysInOrder(all);
    var columns := seq(|keys|, i requires 0 <= i < |keys| => Looked(x, keys[i]));
    forall i | 0 <= i < |keys| ensures keys[i] in x.s.fieldsOf { assert keys[i] in keys; }
    forall m, number: nat ensures (m, number) in keys <==> m in Subtree(x.s, p) && IsColumn(x.h, x.s, m, number) {}
    assert Expands(x, p, columns);
  }

  function Looked(x: Context, key: (Path, nat)): Path { if key in x.s.fieldsOf then x.s.fieldsOf[key] else [] }

  /** Every registry answers its queries: there is a context over any proper roots. */
  lemma {:induction false} ContextExists(h: Path -> int, roots: seq<R.Root>, digits: real -> string, unset: nat)
    requires ProperRoots(roots) && HashOk(h, roots)
    ensures exists expand: Path -> seq<Path> :: Over(Context(h, R.AddRoots(h, roots), expand, digits, unset), roots)
  {
    hide R.AddRoots, ProperRoots, HashOk;
    var x0 := Context(h, R.AddRoots(h, roots), (p: Path) => [], digits, unset);
    forall p ensures HasExpansion(x0, p) { ExpansionExists(x0, p); }
    var expand := (p: Path) requires HasExpansion(x0, p) => var columns :| Expands(x0, p, columns); columns;
    var x := Context(h, R.AddRoots(h, roots), expand, digits, unset);
    forall p ensures Expands(x, p, x.expand(p)) { assert Expands(x0, p, expand(p)); }
  }

  /** Some place has the hash of this path. */
  ghost predicate Known(x: Context, roots: seq<R.Root>, p: Path) {
    exists i :: 0 <= i < |roots| && IsKey(x.h, roots[i], x.h(p))
  }

  lemma {:induction false} KnownTable(x: Context, roots: seq<R.Root>, p: Path)
    requires Over(x, roots)
    ensures RegistryPaths.TableOfPath(x.h, x.s, p).Some? <==> Known(x, roots, p)
    ensures Known(x, roots, p) ==> ColumnAt(x, p).Ok?
  {
    hide R.AddRoots, IsPlace, Expands, Shows, ProperRoots;
    if Known(x, roots, p) {
      var i :| 0 <= i < |roots| && IsKey(x.h, roots[i], x.h(p));
      var q :| IsPlace(roots[i], q) && x.h(q) == x.h(p);
      RegistryPaths.PathIsTableAndField(x.h, roots, i, q);
      assert p != [];
    } else {
      RegistryShowsTheTrees(x.h, roots);
      assert At(x.s, x.h(p)) == NOTHING;
    }
  }

  lemma {:induction false} PrimitiveIsKnown(x: Context, roots: seq<R.Root>, p: Path)
    requires Over(x, roots) && x.h(p) in x.s.primitives
    ensures Known(x, roots, p)
  {
    hide R.AddRoots, IsPlace, Expands, Shows, ProperRoots, HashOk, IsKey;
    RegistryShowsTheTrees(x.h, roots);
    assert At(x.s, x.h(p)).primitive != None;
  }

  // ---------------------------------------------------------------------------------- When a request is refused

  /** The clause, or a part of it that is looked at, is a column no place stands behind. */
  ghost predicate Unknown(x: Context, roots: seq<R.Root>, t: Tree)
    decreases t
  {
    || (t.Column? && !Known(x, roots, t.path))
    || ((t.Expression? || t.Select?) && exists i :: 0 <= i < |F.Children(t)| && Unknown(x, roots, F.Children(t)[i]))
  }

  ghost predicate AnyUnknown(x: Context, roots: seq<R.Root>, ts: seq<Tree>) {
    exists i :: 0 <= i < |ts| && Unknown(x, roots, ts[i])
  }

  lemma AnyOfSum(x: Context, roots: seq<R.Root>, a: seq<Tree>, b: seq<Tree>)
    ensures AnyUnknown(x, roots, a + b) <==> AnyUnknown(x, roots, a) || AnyUnknown(x, roots, b)
  {
    hide Unknown;
    var all := a + b;
    if AnyUnknown(x, roots, a) {
      var i :| 0 <= i < |a| && Unknown(x, roots, a[i]);
      assert all[i] == a[i];
    }
    if AnyUnknown(x, roots, b) {
      var i :| 0 <= i < |b| && Unknown(x, roots, b[i]);
      assert all[|a| + i] == b[i];
    }
  }

  lemma AnyOfNext(x: Context, roots: seq<R.Root>, ts: seq<Tree>)
    requires ts != []
    ensures AnyUnknown(x, roots, ts) <==> Unknown(x, roots, ts[0]) || AnyUnknown(x, roots, ts[1..])
  {
    hide Unknown;
    AnyOfSum(x, roots, [ts[0]], ts[1..]);
    assert ts == [ts[0]] + ts[1..];
    assert [ts[0]][0] == ts[0];
  }

  lemma AnyOfOption(x: Context, roots: seq<R.Root>, o: Option<Tree>)
    ensures AnyUnknown(x, roots, F.Present(o)) <==> o.Some? && Unknown(x, roots, o.value)
  {
    hide Unknown;
    if o.Some? { assert F.Present(o)[0] == o.value; }
  }

  lemma SelectUnknown(x: Context, roots: seq<R.Root>, t: Tree)
    requires t.Select?
    ensures Unknown(x, roots, t) <==>
      || AnyUnknown(x, roots, t.selectors)
      || (t.where.Some? && Unknown(x, roots, t.where.value)) || (t.groupBy.Some? && Unknown(x, roots, t.groupBy.value))
      || (t.having.Some? && Unknown(x, roots, t.having.value))
        || (t.orderBy.Some? && Unknown(x, roots, t.orderBy.value))
      || (t.limit.Some? && Unknown(x, roots, t.limit.value))
  {
    hide F.Present, Unknown, AnyUnknown;
    var w, g, v, o, l := F.Present(t.where), F.Present(t.groupBy), F.Present(t.having), F.Present(t.orderBy),
      F.Present(t.limit);
    AnyOfSum(x, roots, t.selectors, w);
    AnyOfSum(x, roots, t.selectors + w, g);
    AnyOfSum(x, roots, t.selectors + w + g, v);
    AnyOfSum(x, roots, t.selectors + w + g + v, o);
    AnyOfSum(x, roots, t.selectors + w + g + v + o, l);
    AnyOfOption(x, roots, t.where);
    AnyOfOption(x, roots, t.groupBy);
    AnyOfOption(x, roots, t.having);
    AnyOfOption(x, roots, t.orderBy);
    AnyOfOption(x, roots, t.limit);
    UnknownChildren(x, roots, t);
  }

  lemma UnknownChildren(x: Context, roots: seq<R.Root>, t: Tree)
    requires t.Expression? || t.Select?
    ensures Unknown(x, roots, t) <==> AnyUnknown(x, roots, F.Children(t))
  {
    hide F.Children;
  }

  /** The columns of a known path or of an expansion are there. */
  lemma {:induction false} ColumnsFound(x: Context, roots: seq<R.Root>, paths: seq<Path>)
    requires Over(x, roots) && forall i :: 0 <= i < |paths| ==> x.h(paths[i]) in x.s.primitives
    ensures ColumnsAt(x, paths).Ok? && |ColumnsAt(x, paths).value| == |paths|
    ensures forall i :: 0 <= i < |paths| ==> ColumnAt(x, paths[i]) == Ok(ColumnsAt(x, paths).value[i])
  {
    hide Over, Known, ColumnAt;
    if paths != [] {
      PrimitiveIsKnown(x, roots, paths[0]);
      KnownTable(x, roots, paths[0]);
      ColumnsFound(x, roots, paths[1..]);
    }
  }

  lemma ExpansionIsPrimitive(x: Context, roots: seq<R.Root>, p: Path)
    requires Over(x, roots)
    ensures forall i :: 0 <= i < |x.expand(p)| ==> x.h(x.expand(p)[i]) in x.s.primitives
  {
    hide R.AddRoots, HashOk, ProperRoots, Subtree, Increasing;
    var columns := x.expand(p);
    assert Expands(x, p, columns);
    var keys: seq<(Path, nat)> :| Columns(x.h, x.s, columns, keys) && Increasing(keys) &&
      forall m, number: nat :: (m, number) in keys <==> m in Subtree(x.s, p) && IsColumn(x.h, x.s, m, number);
    forall i | 0 <= i < |columns| ensures x.h(columns[i]) in x.s.primitives {
      assert keys[i] in keys && keys[i] == (keys[i].0, keys[i].1);
    }
  }

  lemma {:induction false} ColumnTransforms(x: Context, roots: seq<R.Root>, p: Path)
    requires Over(x, roots)
    ensures TransformColumn(x, p).Ok? <==> Known(x, roots, p)
  {
    hide Over, Known, ColumnAt, RegistryPaths.TableOfPath;
    KnownTable(x, roots, p);
    if x.h(p) in x.s.primitives {
      SameHashKnown(x, roots, p);
      KnownTable(x, roots, x.s.primitives[x.h(p)]);
    }
    ColumnAtIsColumn(x, if x.h(p) in x.s.primitives then x.s.primitives[x.h(p)] else p);
  }

  lemma ColumnAtIsColumn(x: Context, p: Path)
    ensures ColumnAt(x, p).Ok? ==> ColumnAt(x, p).value.Column?
  {}

  /** The path registered under a key is known. */
  lemma {:induction false} SameHashKnown(x: Context, roots: seq<R.Root>, p: Path)
    requires Over(x, roots) && x.h(p) in x.s.primitives
    ensures Known(x, roots, x.s.primitives[x.h(p)])
  {
    hide R.AddRoots, IsPlace, Expands, Shows, ProperRoots, HashOk;
    PrimitiveIsKnown(x, roots, p);
    var i :| 0 <= i < |roots| && IsKey(x.h, roots[i], x.h(p));
    var q :| IsPlace(roots[i], q) && x.h(q) == x.h(p);
    RegistryShowsTheTrees(x.h, roots);
    ShownPrimitive(x.h, x.s, roots[i], q);
    KeyIntro(x.h, roots[i], q);
  }

  lemma {:induction false} SelectorThrows(x: Context, roots: seq<R.Root>, t: Tree)
    requires Over(x, roots)
    requires Transform(x, t).Throw? <==> Unknown(x, roots, t)
    ensures ExpandSelector(x, t).Throw? <==> Unknown(x, roots, t)
  {
    hide Over, Known, Transform, ColumnAt, ColumnsAt;
    if t.Column? {
      KnownTable(x, roots, t.path);
      if IsMessageType(x, t.path) {
        TypeIsKnown(x, roots, t.path);
        ExpansionIsPrimitive(x, roots, t.path);
        ColumnsFound(x, roots, x.expand(t.path));
      } else {
        ColumnThrows(x, roots, t.path);
      }
    }
  }

  lemma {:induction false} ColumnThrows(x: Context, roots: seq<R.Root>, p: Path)
    requires Over(x, roots)
    ensures ColumnAt(x, p).Throw? <==> !Known(x, roots, p)
  {
    hide Over, Known;
    KnownTable(x, roots, p);
  }

  lemma {:induction false} TypeIsKnown(x: Context, roots: seq<R.Root>, p: Path)
    requires Over(x, roots) && x.h(p) in x.s.types
    ensures Known(x, roots, p)
  {
    hide R.AddRoots, IsPlace, Expands, Shows, ProperRoots, HashOk, IsKey;
    RegistryShowsTheTrees(x.h, roots);
    assert At(x.s, x.h(p)).objectType != None;
  }

  /** A request is refused exactly when an expression or SELECT in it looks at a column that is not registered. */
  lemma {:induction false} TransformThrows(x: Context, roots: seq<R.Root>, t: Tree)
    requires Over(x, roots)
    ensures Transform(x, t).Throw? <==> Unknown(x, roots, t)
    decreases t, 2
  {
    hide Over, Known;
    match t
    case Column(path, _) => ColumnTransforms(x, roots, path);
    case Expression(_, operands) =>
      AllThrow(x, roots, operands);
      UnknownChildren(x, roots, t);
    case Select(_, _, _, _, _, _, _) => SelectThrows(x, roots, t);
    case _ =>
  }

  lemma {:induction false} AllThrow(x: Context, roots: seq<R.Root>, ts: seq<Tree>)
    requires Over(x, roots)
    ensures TransformAll(x, ts).Throw? <==> AnyUnknown(x, roots, ts)
    decreases ts, 0
  {
    hide Over, Transform, Unknown, AnyUnknown;
    if ts == [] {
      NoneUnknown(x, roots);
    } else {
      TransformThrows(x, roots, ts[0]);
      AllThrow(x, roots, ts[1..]);
      AnyOfNext(x, roots, ts);
    }
  }

  lemma NoneUnknown(x: Context, roots: seq<R.Root>)
    ensures !AnyUnknown(x, roots, [])
  {}

  lemma {:induction false} SelectorsThrow(x: Context, roots: seq<R.Root>, ts: seq<Tree>)
    requires Over(x, roots)
    ensures ExpandAll(x, ts).Throw? <==> AnyUnknown(x, roots, ts)
    decreases ts, 0
  {
    hide Over, Transform, ExpandSelector, Unknown, AnyUnknown;
    if ts == [] {
      NoneUnknown(x, roots);
    } else {
      TransformThrows(x, roots, ts[0]);
      SelectorThrows(x, roots, ts[0]);
      SelectorsThrow(x, roots, ts[1..]);
      AnyOfNext(x, roots, ts);
    }
  }

  lemma {:induction false} OptionalThrows(x: Context, roots: seq<R.Root>, o: Option<Tree>)
    requires Over(x, roots)
    ensures TransformOptional(x, o).Throw? <==> o.Some? && Unknown(x, roots, o.value)
    decreases o, 0
  {
    hide Over, Transform, Unknown;
    if o.Some? { TransformThrows(x, roots, o.value); }
  }

  lemma {:induction false} SelectThrows(x: Context, roots: seq<R.Root>, t: Tree)
    requires Over(x, roots) && t.Select?
    ensures OrganizeSelect(x, t).Throw? <==> Unknown(x, roots, t)
    decreases t, 1
  {
    hide Over, ExpandAll, TransformOptional, Unknown, AnyUnknown;
    SelectorsThrow(x, roots, t.selectors);
    OptionalThrows(x, roots, t.where);
    OptionalThrows(x, roots, t.groupBy);
    OptionalThrows(x, roots, t.having);
    OptionalThrows(x, roots, t.orderBy);
    OptionalThrows(x, roots, t.limit);
    SelectUnknown(x, roots, t);
  }

  // ---------------------------------------------------------------------------------- What the text of a request means

  /** Conditions over the columns of registered places. */
  ghost predicate Condition(roots: seq<R.Root>, t: Tree)
    decreases t
  {
    match t
    case Str(_) => true
    case Int(_) => true
    case Bool(_) => true
    case Column(path, _) => exists i :: 0 <= i < |roots| && IsPlace(roots[i], path)
    case Expression(op, operands) =>
      && S.ArityOk(S.ShapeOf(op), |operands|)
      && forall i :: 0 <= i < |operands| ==> Condition(roots, operands[i])
    case _ => false
  }

  /** The request clause a builder clause stands for; a column's path is its table's and its field's. */
  function Request(c: Clause): Tree {
    match c
    case Str(text) => F.Str(text)
    case Int(number) => F.Int(number)
    case Bool(truth) => F.Bool(truth)
    case Column(table, field, _, _) => F.Column(table + field, false)
    case Expression(op, operands) => F.Expression(op, Requests(operands))
    case _ => F.Default
  }

  function Requests(cs: seq<Clause>): (r: seq<Tree>)
    ensures |r| == |cs|
  {
    if cs == [] then [] else [Request(cs[0])] + Requests(cs[1..])
  }

  /** A request clause under IS NULL, IS NOT NULL, IN or NOT IN, with every NOT of the clause moved over it. */
  function Hoisted(t: Tree, op: S.ExprType, list: seq<Tree>): Tree {
    if t.Expression? && t.op == S.Not && |t.operands| == 1 then F.Expression(S.Not, [Hoisted(t.operands[0], op, list)])
    else F.Expression(op, [t] + list)
  }

  /** What a condition loses on the way: EXPONENT and POWER become one, no column is EXCLUDED, and NOT under IS NULL, IN
      and their negations becomes NOT over them. */
  function Plain(t: Tree): Tree {
    match t
    case Column(path, _) => F.Column(path, false)
    case Expression(op, operands) =>
      var all := Plains(operands);
      if SqlReader.IsSuffix(op) && all != [] then Hoisted(all[0], op, all[1..])
      else F.Expression(if op == S.Exponent then S.Power else op, all)
    case _ => t
  }

  function Plains(ts: seq<Tree>): (r: seq<Tree>)
    ensures |r| == |ts|
  {
    if ts == [] then [] else [Plain(ts[0])] + Plains(ts[1..])
  }

  lemma {:induction false} PlaceColumn(x: Context, roots: seq<R.Root>, i: nat, p: Path)
    requires Over(x, roots) && i < |roots| && IsPlace(roots[i], p)
    ensures p != [] && TransformColumn(x, p) == Ok(S.Column([roots[i].number], p[1..], S.Simple, false))
    ensures [roots[i].number] + p[1..] == p
  {
    hide R.AddRoots, IsPlace, Expands, Shows, ProperRoots, HashOk;
    RegistryPaths.PathIsTableAndField(x.h, roots, i, p);
    RegistryShowsTheTrees(x.h, roots);
    ShownPrimitive(x.h, x.s, roots[i], p);
    PlaceStart(roots[i], p);
    if x.h(p) in x.s.primitives { assert x.s.primitives[x.h(p)] == p; }
  }

  lemma {:induction false} HoistedRequest(c: Clause, suffix: SqlReader.Suffix)
    ensures Request(SqlReader.Suffixed(c, suffix)) == Hoisted(Request(c), suffix.op, Requests(suffix.list))
    decreases c
  {
    if c.Expression? && c.op == S.Not && |c.operands| == 1 {
      HoistedRequest(c.operands[0], suffix);
      OneRequest(c.operands[0]);
      OneRequest(SqlReader.Suffixed(c.operands[0], suffix));
      assert c.operands == [c.operands[0]];
    } else {
      NextRequest(c, suffix.list);
      if c.Expression? { assert |Requests(c.operands)| == |c.operands|; }
    }
  }

  lemma OneRequest(c: Clause)
    ensures Requests([c]) == [Request(c)]
  {
    assert [c][1..] == [];
  }

  lemma NextRequest(c: Clause, cs: seq<Clause>)
    ensures Requests([c] + cs) == [Request(c)] + Requests(cs)
  {
    assert ([c] + cs)[1..] == cs;
  }

  lemma RequestsSplit(cs: seq<Clause>)
    requires cs != []
    ensures Requests(cs)[0] == Request(cs[0]) && Requests(cs)[1..] == Requests(cs[1..])
  {}

  lemma ExpressionKept(op: S.ExprType, cs: seq<Clause>, ts: seq<Tree>)
    requires Requests(SqlReader.CanonicalAll(cs)) == Plains(ts)
    ensures Request(SqlReader.Canonical(S.Expression(op, cs))) == Plain(F.Expression(op, ts))
  {
    hide SqlReader.Suffixed, Hoisted;
    var all := SqlReader.CanonicalAll(cs);
    if SqlReader.IsSuffix(op) && all != [] {
      HoistedRequest(all[0], SqlReader.Suffix(op, all[1..]));
      RequestsSplit(all);
    }
  }

  /** The organizer makes a readable clause that stands for the condition. */
  lemma {:induction false} ConditionKept(x: Context, roots: seq<R.Root>, t: Tree)
    requires Over(x, roots) && Condition(roots, t)
    ensures Transform(x, t).Ok? && SqlReader.Readable(Transform(x, t).value)
    ensures Request(SqlReader.Canonical(Transform(x, t).value)) == Plain(t)
    decreases t, 1
  {
    hide Over, S.ShapeOf, S.ArityOk, IsPlace, TransformColumn;
    match t
    case Column(path, _) =>
      var i :| 0 <= i < |roots| && IsPlace(roots[i], path);
      PlaceColumn(x, roots, i, path);
    case Expression(op, operands) =>
      ConditionsKept(x, roots, operands);
      ExpressionKept(op, TransformAll(x, operands).value, operands);
    case _ =>
  }

  lemma {:induction false} ConditionsKept(x: Context, roots: seq<R.Root>, ts: seq<Tree>)
    requires Over(x, roots) && forall i :: 0 <= i < |ts| ==> Condition(roots, ts[i])
    ensures TransformAll(x, ts).Ok? && forall i :: 0 <= i < |ts| ==> SqlReader.Readable(TransformAll(x, ts).value[i])
    ensures Requests(SqlReader.CanonicalAll(TransformAll(x, ts).value)) == Plains(ts)
    decreases ts, 0
  {
    hide Over, Transform, Request, Plain, Condition, SqlReader.Readable, SqlReader.Canonical;
    if ts != [] {
      ConditionKept(x, roots, ts[0]);
      ConditionsKept(x, roots, ts[1..]);
      var cs := TransformAll(x, ts).value;
      assert cs[1..] == TransformAll(x, ts[1..]).value;
      var all := SqlReader.CanonicalAll(cs);
      assert all[0] == SqlReader.Canonical(cs[0]) && all[1..] == SqlReader.CanonicalAll(cs[1..]);
    }
  }

  /** The SQL text of a request clause. */
  function SqlText(x: Context, tables: map<Path, Path>, t: Tree, parent: Option<S.ClauseKind>): Result<string> {
    match Transform(x, t) case Ok(c) => S.Text(tables, c, parent) case Throw => Throw
  }

  /** From request to text and back: the reader finds, before whatever ends a clause, one that stands for the
      condition. */
  lemma ConditionReadsBack(x: Context, roots: seq<R.Root>, tables: map<Path, Path>, t: Tree,
                           parent: Option<S.ClauseKind>, rest: string)
    requires Over(x, roots) && Condition(roots, t) && SqlReader.Ends(rest)
    ensures SqlText(x, tables, t, parent).Ok?
    ensures var r := SqlReader.ReadClause(SqlText(x, tables, t, parent).value + rest);
            r.Some? && r.value.1 == rest && Request(r.value.0) == Plain(t)
  {
    hide Over, Transform, S.Text, SqlReader.ReadClause, SqlReader.Canonical, Condition, Request, Plain;
    ConditionKept(x, roots, t);
    SqlReader.ReadsBack(tables, Transform(x, t).value, parent, rest);
  }

  predicate IsOtherStatement(t: Tree) {
    || t.Insert? || t.Update? || t.Delete? || t.Truncate?
    || t.StartTransaction? || t.CommitTransaction? || t.RollbackTransaction?
  }

  /** What is no condition: a floating-point literal is printed as the text of its value, which need not determine the
      value; ALL and DEFAULT have texts of their own; other statements inside a clause leave no text at all. */
  lemma OtherTexts(x: Context, tables: map<Path, Path>, t: Tree, parent: Option<S.ClauseKind>)
    ensures t.Float? ==> SqlText(x, tables, t, parent) == Ok(x.digits(t.value))
    ensures t.All? ==> SqlText(x, tables, t, parent) == Ok("*")
    ensures t.Default? ==> SqlText(x, tables, t, parent) == Ok("DEFAULT")
    ensures IsOtherStatement(t) ==> SqlText(x, tables, t, parent) == Ok("")
  {}

  lemma {:induction false} HoistedTransforms(x: Context, t: Tree, op: S.ExprType, list: seq<Tree>)
    requires Transform(x, t).Ok? && TransformAll(x, list).Ok?
    ensures Transform(x, Hoisted(t, op, list)) ==
            Ok(SqlReader.Suffixed(Transform(x, t).value, SqlReader.Suffix(op, TransformAll(x, list).value)))
    decreases t
  {
    hide ColumnAt, TransformColumn, OrganizeSelect, TransformAll;
    if t.Expression? && t.op == S.Not && |t.operands| == 1 {
      var y := t.operands[0];
      assert t == F.Expression(S.Not, [y]);
      NotTransforms(x, y);
      HoistedTransforms(x, y, op, list);
      NotTransforms(x, Hoisted(y, op, list));
    } else {
      NextTransforms(x, t, list);
      if Transform(x, t).value.Expression? { NotStaysNot(x, t); }
    }
  }

  lemma NotTransforms(x: Context, y: Tree)
    ensures Transform(x, F.Expression(S.Not, [y])).Ok? <==> Transform(x, y).Ok?
    ensures Transform(x, y).Ok? ==>
      Transform(x, F.Expression(S.Not, [y])) == Ok(S.Expression(S.Not, [Transform(x, y).value]))
  {
    NoneTransforms(x);
    NextTransforms(x, y, []);
    assert [y] + [] == [y];
    if Transform(x, y).Ok? { assert [Transform(x, y).value] + [] == [Transform(x, y).value]; }
  }

  lemma NoneTransforms(x: Context)
    ensures TransformAll(x, []) == Ok([])
  {}

  lemma NextTransforms(x: Context, t: Tree, list: seq<Tree>)
    requires TransformAll(x, list).Ok?
    ensures TransformAll(x, [t] + list).Ok? <==> Transform(x, t).Ok?
    ensures Transform(x, t).Ok? ==>
      TransformAll(x, [t] + list) == Ok([Transform(x, t).value] + TransformAll(x, list).value)
  {
    hide Transform;
    assert ([t] + list)[1..] == list;
  }

  lemma NotStaysNot(x: Context, t: Tree)
    requires Transform(x, t).Ok? && Transform(x, t).value.Expression?
    ensures t.Expression? && t.op == Transform(x, t).value.op && |t.operands| == |Transform(x, t).value.operands|
  {
    hide ColumnAt;
  }

  /** The plain form of a condition becomes the canonical form of its clause. */
  lemma {:induction false} PlainTransforms(x: Context, roots: seq<R.Root>, t: Tree)
    requires Over(x, roots) && Condition(roots, t)
    ensures Transform(x, t).Ok? && Transform(x, Plain(t)) == Ok(SqlReader.Canonical(Transform(x, t).value))
    decreases t, 1
  {
    hide Over, S.ShapeOf, S.ArityOk, IsPlace, TransformColumn;
    match t
    case Column(path, _) =>
      var i :| 0 <= i < |roots| && IsPlace(roots[i], path);
      PlaceColumn(x, roots, i, path);
    case Expression(op, operands) =>
      PlainsTransform(x, roots, operands);
      var all := Plains(operands);
      if SqlReader.IsSuffix(op) && all != [] {
        assert all == [all[0]] + all[1..];
        SplitTransforms(x, all);
        HoistedTransforms(x, all[0], op, all[1..]);
      }
    case _ =>
  }

  lemma SplitTransforms(x: Context, ts: seq<Tree>)
    requires ts != [] && TransformAll(x, ts).Ok?
    ensures Transform(x, ts[0]) == Ok(TransformAll(x, ts).value[0])
    ensures TransformAll(x, ts[1..]) == Ok(TransformAll(x, ts).value[1..])
  {
    hide Transform;
  }

  lemma {:induction false} PlainsTransform(x: Context, roots: seq<R.Root>, ts: seq<Tree>)
    requires Over(x, roots) && forall i :: 0 <= i < |ts| ==> Condition(roots, ts[i])
    ensures TransformAll(x, ts).Ok?
    ensures TransformAll(x, Plains(ts)) == Ok(SqlReader.CanonicalAll(TransformAll(x, ts).value))
    decreases ts, 0
  {
    hide Over, Transform, Plain, Condition, SqlReader.Canonical;
    if ts != [] {
      PlainTransforms(x, roots, ts[0]);
      PlainsTransform(x, roots, ts[1..]);
      assert Plains(ts)[0] == Plain(ts[0]) && Plains(ts)[1..] == Plains(ts[1..]);
      var cs := TransformAll(x, ts).value;
      assert cs[1..] == TransformAll(x, ts[1..]).value && cs[0] == Transform(x, ts[0]).value;
    }
  }

  /** Two conditions have the same SQL text exactly when they are the same condition, up to EXPONENT being POWER, to the
      EXCLUDED flag of columns, which the organizer drops, and to NOT standing over or under a suffix. */
  lemma SameTextSameCondition(x: Context, roots: seq<R.Root>, tables: map<Path, Path>, a: Tree, b: Tree,
                              parent: Option<S.ClauseKind>)
    requires Over(x, roots) && Condition(roots, a) && Condition(roots, b)
    ensures SqlText(x, tables, a, parent) == SqlText(x, tables, b, parent) <==> Plain(a) == Plain(b)
  {
    hide Over, Transform, S.Text, SqlReader.Canonical, SqlReader.Readable, Condition, Request, Plain;
    ConditionKept(x, roots, a);
    ConditionKept(x, roots, b);
    PlainTransforms(x, roots, a);
    PlainTransforms(x, roots, b);
    SqlReader.SameTextSameTree(tables, Transform(x, a).value, Transform(x, b).value, parent);
  }

  /** A condition crosses the wire unchanged. */
  lemma {:induction false} ConditionSurvives(roots: seq<R.Root>, t: Tree, narrow: real -> real)
    requires Condition(roots, t)
    ensures F.Survives(t, narrow) && !F.HasUnknown(t)
    decreases t
  {
    hide S.ShapeOf, S.ArityOk, IsPlace;
    forall i | 0 <= i < |F.Children(t)|
      ensures F.Survives(F.Children(t)[i], narrow) && !F.HasUnknown(F.Children(t)[i])
    {
      ConditionSurvives(roots, t.operands[i], narrow);
    }
  }

  /** The whole way of a condition: written to the flat form behind any entries, read back, organized and printed,
      it is text that a reader turns into the condition again. */
  lemma {:induction false} ConditionOverTheWire(x: Context, roots: seq<R.Root>, tables: map<Path, Path>, t: Tree,
                                                narrow: real -> real,
                                                base: nat, input: seq<F.Message>, depth: nat,
                                                  parent: Option<S.ClauseKind>, rest: string)
    requires Over(x, roots) && Condition(roots, t) && SqlReader.Ends(rest)
    requires FlatProtoRoundTrip.Placed(input, base, F.Flatten(t, base, narrow)) && depth >= |F.Flatten(t, base, narrow)|
    ensures var got := F.Read(input, base + |F.Flatten(t, base, narrow)| - 1, depth);
            && got == F.Done(t) && SqlText(x, tables, got.value, parent).Ok?
            && var r := SqlReader.ReadClause(SqlText(x, tables, got.value, parent).value + rest);
               r.Some? && r.value.1 == rest && Request(r.value.0) == Plain(t)
  {
    hide Over, Condition, SqlText, SqlReader.ReadClause, Request, Plain, F.Flatten, F.Read, F.Stored, F.HasUnknown,
      F.Survives;
    ConditionSurvives(roots, t, narrow);
    FlatProtoRoundTrip.StoredUnchanged(t, narrow);
    FlatProtoRoundTrip.TreeReadsBack(t, base, narrow, input, depth);
    ConditionReadsBack(x, roots, tables, t, parent, rest);
  }

  // ---------------------------------------------------------------------------------- Selecting a table

  function EverythingOf(number: nat): Tree {
    F.Select(Some(number), [F.Column([number], false)], None, None, None, None, None)
  }

  lemma {:induction false} RootType(x: Context, roots: seq<R.Root>, i: nat)
    requires Over(x, roots) && i < |roots|
    ensures IsMessageType(x, [roots[i].number])
  {
    hide R.AddRoots, IsPlace, Expands, ProperRoots, HashOk, IsKey, NodesOfRoot;
    RegistryShowsTheTrees(x.h, roots);
    assert Shows(x.h, x.s, roots[i]);
    assert At(x.s, x.h([roots[i].number])).objectType == Some(R.RootMessage);
  }

  /** SELECT of a root's own path becomes a select from the root's table that lists, by table and field, every
      primitive field of the tree exactly once. */
  lemma {:induction false} SelectsEverything(x: Context, roots: seq<R.Root>, i: nat)
    requires Over(x, roots) && i < |roots|
    ensures var n := roots[i].number;
            var r := Transform(x, EverythingOf(n));
            && r.Ok? && r.value.Select? && r.value.from == S.Table([n]) && r.value.where == S.Null
            && (forall c :: c in r.value.selectors ==>
                 c.Column? && c.tablePath == [n] && c.key == S.Simple && !c.excluded
                   && IsPrimitiveOf(roots[i], [n] + c.fieldPath))
            && (forall p :: IsPrimitiveOf(roots[i], p) ==> S.Column([n], p[1..], S.Simple, false) in r.value.selectors)
            && forall a, b :: 0 <= a < b < |r.value.selectors| ==> r.value.selectors[a] != r.value.selectors[b]
  {
    hide Over, IsPrimitiveOf, ColumnAt, ColumnsAt, IsMessageType;
    var n := roots[i].number;
    var columns := x.expand([n]);
    RootType(x, roots, i);
    ExpansionIsPrimitive(x, roots, [n]);
    ColumnsFound(x, roots, columns);
    RootColumns(x, roots, i);
    var cs := ColumnsAt(x, columns).value;
    forall k | 0 <= k < |columns|
      ensures columns[k] != [] && cs[k] == S.Column([n], columns[k][1..], S.Simple, false)
      && [n] + columns[k][1..] == columns[k] {
      PrimitiveColumn(x, roots, i, columns[k]);
    }
    OneSelector(x, n, cs);
  }

  lemma OneSelector(x: Context, n: nat, cs: seq<Clause>)
    requires IsMessageType(x, [n]) && ColumnsAt(x, x.expand([n])) == Ok(cs)
    ensures Transform(x, EverythingOf(n)) == Ok(S.Select(cs, S.Table([n]), [], S.Null, S.Null, S.Null, S.Null, S.Null))
  {
    hide IsMessageType, ColumnsAt;
    var ts := EverythingOf(n).selectors;
    assert ts[1..] == [] && ExpandAll(x, []) == Ok([]);
    assert ExpandSelector(x, ts[0]) == Ok(cs);
    assert cs + [] == cs;
    assert ExpandAll(x, ts) == Ok(cs);
    assert OrganizeSelect(x, EverythingOf(n)) ==
      Ok(S.Select(cs, S.Table([n]), [], S.Null, S.Null, S.Null, S.Null, S.Null));
  }

  lemma {:induction false} RootColumns(x: Context, roots: seq<R.Root>, i: nat)
    requires Over(x, roots) && i < |roots|
    ensures forall p :: p in x.expand([roots[i].number]) <==> IsPrimitiveOf(roots[i], p)
    ensures forall a, b :: 0 <= a < b < |x.expand([roots[i].number])| ==>
      x.expand([roots[i].number])[a] != x.expand([roots[i].number])[b]
  {
    hide R.AddRoots, IsPrimitiveOf, ProperRoots, HashOk, IsColumn, Subtree;
    var p := [roots[i].number];
    var columns := x.expand(p);
    assert Expands(x, p, columns);
    var keys: seq<(Path, nat)> :| Columns(x.h, x.s, columns, keys) && Increasing(keys) &&
      forall m, number: nat :: (m, number) in keys <==> m in Subtree(x.s, p) && IsColumn(x.h, x.s, m, number);
    ExpandedRoot(x.h, roots, i, columns, keys);
  }

  lemma {:induction false} PrimitiveColumn(x: Context, roots: seq<R.Root>, i: nat, p: Path)
    requires Over(x, roots) && i < |roots| && IsPrimitiveOf(roots[i], p)
    ensures p != [] && ColumnAt(x, p) == Ok(S.Column([roots[i].number], p[1..], S.Simple, false))
    ensures [roots[i].number] + p[1..] == p
  {
    hide R.AddRoots, Expands, ProperRoots, HashOk, NodesOfRoot;
    var j :| 0 <= j < |NodesOfRoot(roots[i])| && R.PathOf(NodesOfRoot(roots[i])[j]) == p;
    NodeIsPlace(roots[i], j);
    RegistryPaths.PathIsTableAndField(x.h, roots, i, p);
    PlaceStart(roots[i], p);
  }
}
