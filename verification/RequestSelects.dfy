/** Which part of a request becomes which part of the SELECT it is organized into. */
module RequestSelects {
  import opened Common
  import R = Registry
  import opened RegistryRoots
  import opened RegistryQueries
  import opened RegistryAnswers
  import RegistryPaths
  import F = FlatProto
  import S = SqlTree
  import SqlReader
  import SqlStatements
  import opened RequestTransform

  // ---------------------------------------------------------------------------------- Requests

  /** A selector: everything, a path of a registered place, or a condition over such paths. */
  ghost predicate Selectable(roots: seq<R.Root>, t: Tree) { t.All? || Condition(roots, t) }

  ghost predicate OptionalCondition(roots: seq<R.Root>, o: Option<Tree>) { o.Some? ==> Condition(roots, o.value) }

  /** A SELECT over registered places, of a table that has been set. */
  ghost predicate SelectRequest(roots: seq<R.Root>, t: Tree) {
    && t.Select? && t.table.Some?
    && (forall i :: 0 <= i < |t.selectors| ==> Selectable(roots, t.selectors[i]))
    && OptionalCondition(roots, t.where) && OptionalCondition(roots, t.groupBy) && OptionalCondition(roots, t.having)
    && OptionalCondition(roots, t.orderBy) && OptionalCondition(roots, t.limit)
  }

  // ---------------------------------------------------------------------------------- What they stand for

  /** The builder clause stands for the condition. */
  ghost predicate StandsFor(c: Clause, t: Tree) {
    SqlReader.Readable(c) && Request(SqlReader.Canonical(c)) == Plain(t)
  }

  /** It is null where there is no condition. */
  ghost predicate StandsForOptional(c: Clause, o: Option<Tree>) {
    match o case None => c == S.Null case Some(t) => StandsFor(c, t)
  }

  /** A plain column, not EXCLUDED and no key, of the place at the path. */
  predicate IsColumnOf(roots: seq<R.Root>, i: nat, c: Clause, p: Path)
    requires i < |roots|
  {
    && c.Column? && c.tablePath == [roots[i].number] && c.tablePath + c.fieldPath == p && c.key == S.Simple
    && !c.excluded
  }

  /** The columns of all primitive fields in the subtree of a message, each once, by message and number. */
  ghost predicate AreColumnsUnder(roots: seq<R.Root>, i: nat, cs: seq<Clause>, p: Path)
    requires i < |roots|
  {
    exists columns: seq<Path> ::
      && |columns| == |cs|
      && (forall k :: 0 <= k < |cs| ==> IsColumnOf(roots, i, cs[k], columns[k]))
      && (forall x :: x in columns <==> IsPrimitiveUnder(roots[i], p, x))
      && forall a, b :: 0 <= a < b < |columns| ==> ComesBefore(columns[a], columns[b]) && columns[a] != columns[b]
  }

  /** The columns a selector stands for: its own for a primitive field, those of the subtree for a message. */
  ghost predicate AreColumnsOf(roots: seq<R.Root>, cs: seq<Clause>, t: Tree) {
    if t.Column? then
      exists i :: 0 <= i < |roots| && IsPlace(roots[i], t.path) &&
        if IsMessageOf(roots[i], t.path) then AreColumnsUnder(roots, i, cs, t.path)
        else |cs| == 1 && IsColumnOf(roots, i, cs[0], t.path)
    else |cs| == 1 && if t.All? then cs[0] == S.All else StandsFor(cs[0], t)
  }

  /** The clauses fall into consecutive parts, one for each selector. */
  ghost predicate AreSelectors(roots: seq<R.Root>, cs: seq<Clause>, ts: seq<Tree>) {
    if ts == [] then cs == []
    else exists n :: 0 <= n <= |cs| && AreColumnsOf(roots, cs[..n], ts[0]) && AreSelectors(roots, cs[n..], ts[1..])
  }

  /** The builder's SELECT stands for the request's: each part in its own place. */
  ghost predicate SelectStandsFor(roots: seq<R.Root>, c: Clause, t: Tree)
    requires t.Select?
  {
    && c.Select? && t.table.Some? && c.from == S.Table([t.table.value]) && c.joins == []
    && AreSelectors(roots, c.selectors, t.selectors)
    && StandsForOptional(c.where, t.where) && StandsForOptional(c.groupBy, t.groupBy)
    && StandsForOptional(c.having, t.having) && StandsForOptional(c.orderBy, t.orderBy)
    && StandsForOptional(c.limit, t.limit)
  }

  // ---------------------------------------------------------------------------------- Selectors

  lemma {:induction false} OptionalKept(x: Context, roots: seq<R.Root>, o: Option<Tree>)
    requires Over(x, roots) && OptionalCondition(roots, o)
    ensures TransformOptional(x, o).Ok? && StandsForOptional(TransformOptional(x, o).value, o)
  {
    hide Over, Condition, Transform, SqlReader.Readable, SqlReader.Canonical, Request, Plain;
    if o.Some? { ConditionKept(x, roots, o.value); }
  }

  lemma {:induction false} PlaceType(x: Context, roots: seq<R.Root>, i: nat, p: Path)
    requires Over(x, roots) && i < |roots| && IsPlace(roots[i], p)
    ensures IsMessageType(x, p) <==> IsMessageOf(roots[i], p)
  {
    hide R.AddRoots, Expands, ProperRoots, HashOk, NodesOfRoot;
    RegistryShowsTheTrees(x.h, roots);
    assert Shows(x.h, x.s, roots[i]);
    ShownType(x.h, x.s, roots[i], p);
    NodesHashed(x.h, roots, i);
    ShownMessage(x.h, x.s, roots[i], p);
  }

  /** The type of a place tells messages and primitive fields apart. */
  lemma ShownType(h: Path -> int, s: R.State, root: R.Root, p: Path)
    requires Shows(h, s, root) && IsPlace(root, p)
    ensures (h(p) in s.types && s.types[h(p)] != R.PrimitiveField) <==> h(p) in s.messages
  {
    hide NodesOfRoot;
    assert At(s, h([root.number])).objectType == Some(R.RootMessage);
    assert At(s, h([root.number])).message == Some([root.number]);
    if p != [root.number] {
      var j :| 0 <= j < |NodesOfRoot(root)| && R.PathOf(NodesOfRoot(root)[j]) == p;
      var v := NodeView(NodesOfRoot(root)[j], h([root.number]));
      assert At(s, h(R.PathOf(NodesOfRoot(root)[j]))) == v;
      assert Lookup(s.types, h(p)) == v.objectType && Lookup(s.messages, h(p)) == v.message;
    }
  }

  lemma {:induction false} ColumnOfPlace(x: Context, roots: seq<R.Root>, i: nat, p: Path)
    requires Over(x, roots) && i < |roots| && IsPlace(roots[i], p)
    ensures ColumnAt(x, p).Ok? && IsColumnOf(roots, i, ColumnAt(x, p).value, p)
  {
    hide R.AddRoots, Expands, ProperRoots, HashOk, IsPlace;
    RegistryPaths.PathIsTableAndField(x.h, roots, i, p);
    PlaceStart(roots[i], p);
    assert [roots[i].number] + p[1..] == p;
  }

  lemma {:induction false} PathExpands(x: Context, roots: seq<R.Root>, i: nat, p: Path)
    requires Over(x, roots) && i < |roots| && [roots[i].number] <= p
    ensures forall q :: q in x.expand(p) <==> IsPrimitiveUnder(roots[i], p, q)
    ensures forall a, b :: 0 <= a < b < |x.expand(p)| ==>
      ComesBefore(x.expand(p)[a], x.expand(p)[b]) && x.expand(p)[a] != x.expand(p)[b]
  {
    hide R.AddRoots, IsPrimitiveUnder, ProperRoots, HashOk, IsColumn, Subtree, ComesBefore;
    var columns := x.expand(p);
    assert Expands(x, p, columns);
    var keys: seq<(Path, nat)> :| Columns(x.h, x.s, columns, keys) && Increasing(keys) &&
      forall m, number: nat :: (m, number) in keys <==> m in Subtree(x.s, p) && IsColumn(x.h, x.s, m, number);
    ExpandedPath(x.h, roots, i, p, columns, keys);
  }

  lemma UnderIsPlace(root: R.Root, p: Path, q: Path)
    requires IsPrimitiveUnder(root, p, q)
    ensures IsPlace(root, q)
  {
    hide NodesOfRoot;
  }

  lemma {:induction false} MessageColumns(x: Context, roots: seq<R.Root>, i: nat, p: Path)
    requires Over(x, roots) && i < |roots| && IsPlace(roots[i], p)
    ensures ColumnsAt(x, x.expand(p)).Ok? && AreColumnsUnder(roots, i, ColumnsAt(x, x.expand(p)).value, p)
  {
    hide Over, IsPlace, ColumnAt, ColumnsAt, IsPrimitiveUnder, ComesBefore, IsColumnOf;
    var columns := x.expand(p);
    PlaceStart(roots[i], p);
    PathExpands(x, roots, i, p);
    ExpansionIsPrimitive(x, roots, p);
    ColumnsFound(x, roots, columns);
    var cs := ColumnsAt(x, columns).value;
    forall k | 0 <= k < |cs| ensures IsColumnOf(roots, i, cs[k], columns[k]) {
      UnderIsPlace(roots[i], p, columns[k]);
      ColumnOfPlace(x, roots, i, columns[k]);
    }
  }

  lemma {:induction false} SelectorKept(x: Context, roots: seq<R.Root>, t: Tree)
    requires Over(x, roots) && Selectable(roots, t)
    ensures ExpandSelector(x, t).Ok? && AreColumnsOf(roots, ExpandSelector(x, t).value, t)
  {
    hide Over, IsPlace, IsMessageOf, ColumnAt, ColumnsAt, IsMessageType, IsColumnOf, AreColumnsUnder;
    if t.Column? {
      var i :| 0 <= i < |roots| && IsPlace(roots[i], t.path);
      PlaceType(x, roots, i, t.path);
      MessageColumns(x, roots, i, t.path);
      ColumnOfPlace(x, roots, i, t.path);
    } else if !t.All? {
      hide Transform, Condition, SqlReader.Readable, SqlReader.Canonical, Request, Plain;
      ConditionKept(x, roots, t);
    }
  }

  lemma {:induction false} SelectorsKept(x: Context, roots: seq<R.Root>, ts: seq<Tree>)
    requires Over(x, roots) && forall i :: 0 <= i < |ts| ==> Selectable(roots, ts[i])
    ensures ExpandAll(x, ts).Ok? && AreSelectors(roots, ExpandAll(x, ts).value, ts)
  {
    hide Over, Selectable, ExpandSelector, AreColumnsOf;
    if ts != [] {
      SelectorKept(x, roots, ts[0]);
      SelectorsKept(x, roots, ts[1..]);
      var a, b := ExpandSelector(x, ts[0]).value, ExpandAll(x, ts[1..]).value;
      assert ExpandAll(x, ts).value == a + b;
      assert (a + b)[..|a|] == a && (a + b)[|a|..] == b;
    }
  }

  /** Any SELECT over registered places is organized into a SELECT that stands for it: the selectors in order, each with
      its own columns, and WHERE, GROUP BY, HAVING, ORDER BY and LIMIT each in its place, or missing where the
      request has none. */
  lemma {:induction false} SelectKept(x: Context, roots: seq<R.Root>, t: Tree)
    requires Over(x, roots) && SelectRequest(roots, t)
    ensures Transform(x, t).Ok? && SelectStandsFor(roots, Transform(x, t).value, t)
  {
    hide Over, Selectable, OptionalCondition, AreSelectors, StandsForOptional, ExpandAll, TransformOptional;
    SelectorsKept(x, roots, t.selectors);
    OptionalKept(x, roots, t.where);
    OptionalKept(x, roots, t.groupBy);
    OptionalKept(x, roots, t.having);
    OptionalKept(x, roots, t.orderBy);
    OptionalKept(x, roots, t.limit);
  }

  // ---------------------------------------------------------------------------------- And its text

  lemma {:induction false} ColumnsReadable(roots: seq<R.Root>, cs: seq<Clause>, t: Tree)
    requires AreColumnsOf(roots, cs, t)
    ensures SqlStatements.ReadableAll(cs)
  {
    hide IsPlace, IsMessageOf, IsPrimitiveUnder, ComesBefore, SqlReader.Canonical, Request, Plain;
    if t.Column? {
      var i :| 0 <= i < |roots| && IsPlace(roots[i], t.path) &&
        if IsMessageOf(roots[i], t.path) then AreColumnsUnder(roots, i, cs, t.path)
        else |cs| == 1 && IsColumnOf(roots, i, cs[0], t.path);
      forall k | 0 <= k < |cs| ensures SqlReader.Readable(cs[k]) { assert cs[k].Column?; }
    }
  }

  lemma {:induction false} SelectorsReadable(roots: seq<R.Root>, cs: seq<Clause>, ts: seq<Tree>)
    requires AreSelectors(roots, cs, ts)
    ensures SqlStatements.ReadableAll(cs)
    decreases |ts|
  {
    hide AreColumnsOf, SqlReader.Readable;
    if ts != [] {
      var n :| 0 <= n <= |cs| && AreColumnsOf(roots, cs[..n], ts[0]) && AreSelectors(roots, cs[n..], ts[1..]);
      ColumnsReadable(roots, cs[..n], ts[0]);
      SelectorsReadable(roots, cs[n..], ts[1..]);
      forall k | 0 <= k < |cs| ensures SqlReader.Readable(cs[k]) {
        if k < n { assert cs[k] == cs[..n][k]; } else { assert cs[k] == cs[n..][k - n]; }
      }
    }
  }

  /** A part read from the text stands for the part of the request, and is missing where the request has none. */
  ghost predicate ReadFor(c: Clause, o: Option<Tree>) {
    match o case None => c == S.Null case Some(t) => c != S.Null && Request(c) == Plain(t)
  }

  lemma PartReadsFor(c: Clause, o: Option<Tree>)
    requires StandsForOptional(c, o)
    ensures SqlStatements.ReadableOrNull(c) && ReadFor(SqlReader.Canonical(c), o)
  {
    hide Request, Plain;
    if c != S.Null { SqlStatements.CanonicalIsThere(c); }
  }

  /** From a SELECT request to its text and back: the statement that is read has the request's table and its WHERE,
      GROUP BY, HAVING, ORDER BY and LIMIT, each in its place, and the selectors the request stands for. */
  lemma {:induction false} SelectReadsBack(x: Context, roots: seq<R.Root>, tables: map<Path, Path>, t: Tree)
    requires Over(x, roots) && SelectRequest(roots, t) && [t.table.value] in tables
    ensures SqlText(x, tables, t, None).Ok?
    ensures var r := SqlStatements.ReadStatement(SqlText(x, tables, t, None).value);
            && r.Some? && r.value.1 == "" && r.value.0.Select?
            && r.value.0.from == S.Table(tables[[t.table.value]]) && r.value.0.joins == []
            && ReadFor(r.value.0.where, t.where) && ReadFor(r.value.0.groupBy, t.groupBy)
            && ReadFor(r.value.0.having, t.having) && ReadFor(r.value.0.orderBy, t.orderBy)
            && ReadFor(r.value.0.limit, t.limit)
            && exists cs :: AreSelectors(roots, cs, t.selectors) &&
                 r.value.0.selectors == if cs == [] then [S.All] else SqlReader.CanonicalAll(cs)
  {
    hide Over, SelectRequest, Transform, S.Text, SqlStatements.ReadStatement, AreSelectors, StandsForOptional, ReadFor,
      SqlReader.Canonical, SqlStatements.ReadableOrNull, SqlStatements.ReadableAll;
    assert t.Select? && t.table.Some? by { IsSelect(roots, t); }
    SelectKept(x, roots, t);
    var c := Transform(x, t).value;
    SelectorsReadable(roots, c.selectors, t.selectors);
    PartReadsFor(c.where, t.where);
    PartReadsFor(c.groupBy, t.groupBy);
    PartReadsFor(c.having, t.having);
    PartReadsFor(c.orderBy, t.orderBy);
    PartReadsFor(c.limit, t.limit);
    SqlStatements.StatementReads(tables, c);
  }

  lemma IsSelect(roots: seq<R.Root>, t: Tree)
    requires SelectRequest(roots, t)
    ensures t.Select? && t.table.Some?
  {}
}
