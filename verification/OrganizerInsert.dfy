/** OrganizeInsert: aligning the attributes of several rows into the columns of one INSERT. */
module OrganizerInsert {
  import opened Common
  import opened SqlTree
  import opened Organizer

  // ---------------------------------------------------------------------------------- Specification

  function PathsOf(attributes: seq<Attribute>): (r: seq<Path>)
    ensures |r| == |attributes| && forall i :: 0 <= i < |r| ==> r[i] == attributes[i].path
  {
    if attributes == [] then [] else PathsOf(attributes[..|attributes| - 1]) + [attributes[|attributes| - 1].path]
  }

  /** The columns after one more row: its new paths, in order. */
  function Extend(columns: seq<Path>, attributes: seq<Attribute>): seq<Path> {
    if attributes == [] then columns
    else
      var before := Extend(columns, attributes[..|attributes| - 1]);
      var path := attributes[|attributes| - 1].path;
      if path in before then before else before + [path]
  }

  function ExtendAll(columns: seq<Path>, subrequests: seq<seq<Attribute>>): seq<Path> {
    if subrequests == [] then columns
    else Extend(ExtendAll(columns, subrequests[..|subrequests| - 1]), subrequests[|subrequests| - 1])
  }

  /** The paths of the selectors: those of the first row as they stand, then the new ones in order. */
  function ColumnPaths(subrequests: seq<seq<Attribute>>): seq<Path> {
    if subrequests == [] then [] else ExtendAll(PathsOf(subrequests[0]), subrequests)
  }

  /** The last position of a path among the columns, or the number of columns. */
  function LastIndex(columns: seq<Path>, path: Path): (r: nat)
    ensures r <= |columns|
    ensures path in columns <==> r < |columns|
    ensures r < |columns| ==> columns[r] == path && forall i :: r < i < |columns| ==> columns[i] != path
  {
    if columns == [] then 0
    else if columns[|columns| - 1] == path then |columns| - 1
    else
      var r := LastIndex(columns[..|columns| - 1], path);
      if r < |columns| - 1 then r else |columns|
  }

  /** The value of a row in a column: the last value the row gives for the column's path, or DEFAULT. Of
      several columns with one path only the last gets the value. */
  predicate IsCell(cell: Clause, attributes: seq<Attribute>, columns: seq<Path>, c: nat)
    requires c < |columns|
  {
    Gives(cell, if LastIndex(columns, columns[c]) == c then LastValue(attributes, columns[c]) else None)
  }

  ghost predicate IsRow(cells: seq<Clause>, attributes: seq<Attribute>, columns: seq<Path>) {
    |cells| == |columns| && forall c :: 0 <= c < |columns| ==> IsCell(cells[c], attributes, columns, c)
  }

  ghost predicate AreColumns(schema: Schema, selectors: seq<Clause>, columns: seq<Path>) {
    && |selectors| == |columns|
    && forall c :: 0 <= c < |columns| ==> Names(schema, selectors[c], columns[c])
  }

  // ---------------------------------------------------------------------------------- The columns

  lemma {:induction false} ExtendHolds(columns: seq<Path>, attributes: seq<Attribute>)
    ensures columns <= Extend(columns, attributes)
    ensures forall p :: p in Extend(columns, attributes) <==> p in columns || p in PathsOf(attributes)
  {
    if attributes != [] {
      ExtendHolds(columns, attributes[..|attributes| - 1]);
    }
  }

  predicate NoRepeats(paths: seq<Path>) { forall i, j :: 0 <= i < j < |paths| ==> paths[i] != paths[j] }

  lemma {:induction false} ExtendKeepsNoRepeats(columns: seq<Path>, attributes: seq<Attribute>)
    ensures NoRepeats(columns) <==> NoRepeats(Extend(columns, attributes))
  {
    if attributes != [] {
      var init := attributes[..|attributes| - 1];
      ExtendKeepsNoRepeats(columns, init);
      var path := attributes[|attributes| - 1].path;
      if path !in Extend(columns, init) { NoRepeatsAppend(Extend(columns, init), path); }
    }
  }

  lemma NoRepeatsAppend(paths: seq<Path>, path: Path)
    requires path !in paths
    ensures NoRepeats(paths + [path]) <==> NoRepeats(paths)
  {
    if NoRepeats(paths + [path]) {
      assert forall i :: 0 <= i < |paths| ==> (paths + [path])[i] == paths[i];
    }
  }

  lemma {:induction false} ExtendAllHolds(columns: seq<Path>, subrequests: seq<seq<Attribute>>)
    ensures columns <= ExtendAll(columns, subrequests)
    ensures forall p :: p in ExtendAll(columns, subrequests) <==>
      p in columns || exists r :: 0 <= r < |subrequests| && p in PathsOf(subrequests[r])
    ensures NoRepeats(columns) <==> NoRepeats(ExtendAll(columns, subrequests))
  {
    if subrequests != [] {
      var init, last := subrequests[..|subrequests| - 1], subrequests[|subrequests| - 1];
      ExtendAllHolds(columns, init);
      ExtendHolds(ExtendAll(columns, init), last);
      ExtendKeepsNoRepeats(ExtendAll(columns, init), last);
    }
  }

  /** The paths in the order they first occur. */
  function Distinct(paths: seq<Path>): seq<Path> {
    if paths == [] then []
    else
      var before := Distinct(paths[..|paths| - 1]);
      if paths[|paths| - 1] in before then before else before + [paths[|paths| - 1]]
  }

  function AllPaths(subrequests: seq<seq<Attribute>>): seq<Path> {
    if subrequests == [] then []
    else AllPaths(subrequests[..|subrequests| - 1]) + PathsOf(subrequests[|subrequests| - 1])
  }

  function FirstIndex(paths: seq<Path>, path: Path): nat {
    if paths == [] || paths[0] == path then 0 else 1 + FirstIndex(paths[1..], path)
  }

  lemma {:induction false} FirstIndexAppend(paths: seq<Path>, last: Path, path: Path)
    ensures path in paths ==> FirstIndex(paths + [last], path) == FirstIndex(paths, path) < |paths|
    ensures path !in paths && path == last ==> FirstIndex(paths + [last], path) == |paths|
  {
    if paths != [] {
      assert (paths + [last])[1..] == paths[1..] + [last];
      FirstIndexAppend(paths[1..], last, path);
    }
  }

  /** The paths of d come in the order in which they first occur among the given ones. */
  ghost predicate InFirstOrder(paths: seq<Path>, d: seq<Path>) {
    forall i, j :: 0 <= i < j < |d| ==> FirstIndex(paths, d[i]) < FirstIndex(paths, d[j])
  }

  /** Distinct keeps every path once, in the order of first occurrence. */
  lemma {:induction false} DistinctMeaning(paths: seq<Path>)
    ensures forall p :: p in Distinct(paths) <==> p in paths
    ensures InFirstOrder(paths, Distinct(paths))
  {
    if paths != [] {
      var init, last := paths[..|paths| - 1], paths[|paths| - 1];
      assert paths == init + [last];
      DistinctMeaning(init);
      forall p ensures p in paths ==> p in init || p == last {}
      AppendInFirstOrder(init, last, Distinct(init));
    }
  }

  lemma AppendInFirstOrder(init: seq<Path>, last: Path, before: seq<Path>)
    requires InFirstOrder(init, before) && forall p :: p in before <==> p in init
    ensures InFirstOrder(init + [last], if last in before then before else before + [last])
  {
    var d := if last in before then before else before + [last];
    forall i, j | 0 <= i < j < |d| ensures FirstIndex(init + [last], d[i]) < FirstIndex(init + [last], d[j]) {
      hide FirstIndex;
      assert d[i] == before[i] && before[i] in before;
      assert j < |before| ==> d[j] == before[j] && before[j] in before;
      FirstIndexAppend(init, last, d[i]);
      FirstIndexAppend(init, last, d[j]);
    }
  }

  lemma {:induction false} ExtendIsDistinct(paths: seq<Path>, attributes: seq<Attribute>)
    ensures Extend(Distinct(paths), attributes) == Distinct(paths + PathsOf(attributes))
  {
    if attributes == [] {
      assert paths + PathsOf(attributes) == paths;
    } else {
      var init, last := attributes[..|attributes| - 1], attributes[|attributes| - 1].path;
      ExtendIsDistinct(paths, init);
      var all := paths + PathsOf(attributes);
      assert all[..|all| - 1] == paths + PathsOf(init) && all[|all| - 1] == last;
    }
  }

  lemma {:induction false} DistinctOfNoRepeats(paths: seq<Path>)
    requires NoRepeats(paths)
    ensures Distinct(paths) == paths
  {
    if paths != [] {
      DistinctOfNoRepeats(paths[..|paths| - 1]);
    }
  }

  lemma {:induction false} ExtendByKnown(columns: seq<Path>, attributes: seq<Attribute>)
    requires forall p :: p in PathsOf(attributes) ==> p in columns
    ensures Extend(columns, attributes) == columns
  {
    if attributes != [] {
      ExtendByKnown(columns, attributes[..|attributes| - 1]);
      assert attributes[|attributes| - 1].path == PathsOf(attributes)[|attributes| - 1];
    }
  }

  /** When the first row repeats no path, the columns are the distinct attribute paths of all rows, in the
      order they first occur. */
  lemma {:induction false} ColumnsInFirstOccurrenceOrder(subrequests: seq<seq<Attribute>>)
    requires subrequests != [] && NoRepeats(PathsOf(subrequests[0]))
    ensures ColumnPaths(subrequests) == Distinct(AllPaths(subrequests))
    decreases |subrequests|
  {
    var init, last := subrequests[..|subrequests| - 1], subrequests[|subrequests| - 1];
    if |subrequests| == 1 {
      assert init == [] && AllPaths(init) == [];
      assert AllPaths(subrequests) == PathsOf(subrequests[0]);
      DistinctOfNoRepeats(PathsOf(subrequests[0]));
      ExtendByKnown(PathsOf(subrequests[0]), subrequests[0]);
      assert ExtendAll(PathsOf(subrequests[0]), init) == PathsOf(subrequests[0]);
    } else {
      ColumnsInFirstOccurrenceOrder(init);
      ExtendIsDistinct(AllPaths(init), last);
    }
  }

  /** The selectors name each column once exactly when the first row repeats no path; they are the columns of
      the attribute paths and of nothing else. */
  lemma ColumnsOncePerPath(subrequests: seq<seq<Attribute>>)
    requires subrequests != []
    ensures NoRepeats(ColumnPaths(subrequests)) <==> NoRepeats(PathsOf(subrequests[0]))
    ensures forall p :: p in ColumnPaths(subrequests) <==>
      exists r :: 0 <= r < |subrequests| && p in PathsOf(subrequests[r])
  {
    ExtendAllHolds(PathsOf(subrequests[0]), subrequests);
  }

  // ---------------------------------------------------------------------------------- The rows

  /** The index map gives the position a path's value goes to. */
  ghost predicate Indexes(index: map<Path, nat>, columns: seq<Path>) {
    && (forall p :: p in index <==> p in columns)
    && forall p :: p in index ==> index[p] == LastIndex(columns, p)
  }

  /** Every path of the attributes has a column. */
  ghost predicate Covers(columns: seq<Path>, attributes: seq<Attribute>) {
    forall i :: 0 <= i < |attributes| ==> attributes[i].path in columns
  }

  lemma LastIndexAppend(columns: seq<Path>, path: Path, p: Path)
    ensures LastIndex(columns + [path], p) ==
            if p == path then |columns| else if p in columns then LastIndex(columns, p) else |columns| + 1
  {
    assert (columns + [path])[..|columns|] == columns;
  }

  lemma IndexesOverwrite(index: map<Path, nat>, columns: seq<Path>, path: Path)
    requires Indexes(index, columns)
    ensures Indexes(index[path := |columns|], columns + [path])
  {
    hide LastIndex;
    forall p | p in index[path := |columns|] ensures index[path := |columns|][p] == LastIndex(columns + [path], p) {
      LastIndexAppend(columns, path, p);
    }
  }

  /** A new column is DEFAULT in a row that does not mention it. */
  lemma RowWidened(cells: seq<Clause>, attributes: seq<Attribute>, columns: seq<Path>, path: Path)
    requires IsRow(cells, attributes, columns) && Covers(columns, attributes) && path !in columns
    ensures IsRow(cells + [Default], attributes, columns + [path])
  {
    hide LastIndex, LastValue, Means;
    forall c | 0 <= c < |columns| + 1 ensures IsCell((cells + [Default])[c], attributes, columns + [path], c) {
      LastIndexAppend(columns, path, (columns + [path])[c]);
      if c == |columns| { LastValueMeaning(attributes, path); }
    }
  }

  lemma RowSet(cells: seq<Clause>, attributes: seq<Attribute>, columns: seq<Path>, a: Attribute)
    requires IsRow(cells, attributes, columns) && a.path in columns
    ensures IsRow(cells[LastIndex(columns, a.path) := Convert(a.data)], attributes + [a], columns)
  {
    hide LastIndex, Convert, Means;
    var more, after := attributes + [a], cells[LastIndex(columns, a.path) := Convert(a.data)];
    assert more[..|more| - 1] == attributes;
    ConvertMeaning(Convert(a.data), a.data);
    forall c | 0 <= c < |columns| ensures IsCell(after[c], more, columns, c) {
      assert LastValue(more, columns[c]) == if columns[c] == a.path then Some(a.data)
        else LastValue(attributes, columns[c]);
      assert IsCell(cells[c], attributes, columns, c);
    }
  }

  lemma {:induction false} FreshRow(columns: seq<Path>, cells: seq<Clause>)
    requires |cells| == |columns| && forall c :: 0 <= c < |cells| ==> cells[c] == Default
    ensures IsRow(cells, [], columns)
  {}

  lemma CoversMore(columns: seq<Path>, path: Path, attributes: seq<Attribute>)
    requires Covers(columns, attributes)
    ensures Covers(columns + [path], attributes)
  {}

  ghost predicate Rows(values: seq<seq<Clause>>, subrequests: seq<seq<Attribute>>, columns: seq<Path>) {
    && |values| <= |subrequests|
    && forall r :: 0 <= r < |values| ==> IsRow(values[r], subrequests[r], columns) && Covers(columns, subrequests[r])
  }

  /** A DEFAULT at the end of every row. */
  method WidenRows(values: seq<seq<Clause>>, ghost subrequests: seq<seq<Attribute>>, ghost columns: seq<Path>,
                   ghost path: Path) returns (wider: seq<seq<Clause>>)
    requires Rows(values, subrequests, columns) && path !in columns
    ensures |wider| == |values| && Rows(wider, subrequests, columns + [path])
  {
    hide IsRow, Covers;
    wider := [];
    for r := 0 to |values|
      invariant |wider| == r && Rows(wider, subrequests, columns + [path])
    {
      RowWidened(values[r], subrequests[r], columns, path);
      CoversMore(columns, path, subrequests[r]);
      wider := wider + [values[r] + [Default]];
    }
  }

  // ---------------------------------------------------------------------------------- The method

  /** The state of OrganizeInsert between two rows. */
  datatype Sheet = Sheet(selectors: seq<Clause>, index: map<Path, nat>, values: seq<seq<Clause>>)

  ghost predicate Holds(schema: Schema, s: Sheet, subrequests: seq<seq<Attribute>>, columns: seq<Path>) {
    && AreColumns(schema, s.selectors, columns) && Indexes(s.index, columns) && Rows(s.values, subrequests, columns)
  }

  /** The selectors of the first row. */
  method FirstSelectors(schema: Schema, attributes: seq<Attribute>) returns (r: Result<Sheet>)
    requires Consistent(schema)
    ensures r.Ok? <==> AllRegistered(schema, attributes)
    ensures r.Ok? ==> r.value.values == [] && Holds(schema, r.value, [], PathsOf(attributes))
  {
    var s := Sheet([], map[], []);
    for i := 0 to |attributes|
      invariant AllRegistered(schema, attributes[..i])
      invariant s.values == [] && Holds(schema, s, [], PathsOf(attributes[..i]))
    {
      var path := attributes[i].path;
      if path !in schema.tables { return Throw; }
      ghost var before := PathsOf(attributes[..i]);
      assert PathsOf(attributes[..i + 1]) == before + [path] by {
        assert attributes[..i + 1][..i] == attributes[..i];
      }
      IndexesOverwrite(s.index, before, path);
      s := Sheet(s.selectors + [ColumnOf(schema, path)], s.index[path := |s.selectors|], []);
    }
    assert attributes[..|attributes|] == attributes;
    r := Ok(s);
  }

  /** One attribute of a row: a column for its path if there is none yet, then its value in that column. */
  method SetCell(schema: Schema, s: Sheet, row: seq<Clause>, attribute: Attribute, ghost done: seq<Attribute>,
                 ghost subrequests: seq<seq<Attribute>>, ghost columns: seq<Path>)
    returns (r: Result<(Sheet, seq<Clause>)>, ghost wider: seq<Path>)
    requires Consistent(schema) && Holds(schema, s, subrequests, columns)
    requires IsRow(row, done, columns) && Covers(columns, done)
    ensures r.Throw? ==> attribute.path !in schema.tables
    ensures r.Ok? ==> attribute.path in schema.tables && wider == Extend(columns, [attribute])
    ensures r.Ok? ==> Holds(schema, r.value.0, subrequests, wider) && |r.value.0.values| == |s.values|
    ensures r.Ok? ==> IsRow(r.value.1, done + [attribute], wider) && Covers(wider, done + [attribute])
  {
    hide IsRow, LastIndex;
    var path := attribute.path;
    wider := columns;
    var sheet, cells := s, row;
    assert [attribute][..0] == [];
    if path !in s.index {
      if path !in schema.tables { r := Throw; return; }
      wider := columns + [path];
      var values := WidenRows(s.values, subrequests, columns, path);
      IndexesOverwrite(s.index, columns, path);
      RowWidened(row, done, columns, path);
      CoversMore(columns, path, done);
      sheet := Sheet(s.selectors + [ColumnOf(schema, path)], s.index[path := |s.selectors|], values);
      cells := row + [Default];
    } else {
      assert columns[LastIndex(columns, path)] == path;
    }
    RowSet(cells, done, wider, attribute);
    RowLength(cells, done, wider);
    r := Ok((sheet, cells[sheet.index[path] := Convert(attribute.data)]));
  }

  lemma RowLength(cells: seq<Clause>, attributes: seq<Attribute>, columns: seq<Path>)
    requires IsRow(cells, attributes, columns)
    ensures |cells| == |columns|
  {}

  lemma ExtendAppend(columns: seq<Path>, attributes: seq<Attribute>, last: Attribute)
    ensures Extend(columns, attributes + [last]) == Extend(Extend(columns, attributes), [last])
  {
    assert (attributes + [last])[..|attributes|] == attributes && [last][..0] == [];
    assert Extend(Extend(columns, attributes), [last][..0]) == Extend(columns, attributes);
  }

  /** One row: its cells in the columns there are, all DEFAULT, then its attributes one by one. */
  method AddRow(schema: Schema, s: Sheet, ghost subrequests: seq<seq<Attribute>>, attributes: seq<Attribute>,
                ghost columns: seq<Path>) returns (r: Result<Sheet>)
    requires Consistent(schema) && Holds(schema, s, subrequests, columns) && |s.values| == |subrequests|
    ensures r.Ok? <==> AllRegistered(schema, attributes)
    ensures r.Ok? ==> Holds(schema, r.value, subrequests + [attributes], Extend(columns, attributes))
    ensures r.Ok? ==> |r.value.values| == |subrequests| + 1
  {
    hide IsRow, Covers, AreColumns, Indexes, Extend;
    var sheet := s;
    ghost var wider := columns;
    var cells := seq(|s.selectors|, i => Default);
    StartRow(schema, s, columns, cells);
    NothingExtended(columns);
    for i := 0 to |attributes|
      invariant AllRegistered(schema, attributes[..i])
      invariant wider == Extend(columns, attributes[..i])
      invariant Holds(schema, sheet, subrequests, wider) && |sheet.values| == |subrequests|
      invariant IsRow(cells, attributes[..i], wider) && Covers(wider, attributes[..i])
    {
      assert attributes[..i + 1] == attributes[..i] + [attributes[i]];
      ExtendAppend(columns, attributes[..i], attributes[i]);
      var step;
      step, wider := SetCell(schema, sheet, cells, attributes[i], attributes[..i], subrequests, wider);
      if step.Throw? { return Throw; }
      sheet, cells := step.value.0, step.value.1;
    }
    assert attributes[..|attributes|] == attributes;
    r := Ok(sheet.(values := sheet.values + [cells]));
  }

  lemma StartRow(schema: Schema, s: Sheet, columns: seq<Path>, cells: seq<Clause>)
    requires AreColumns(schema, s.selectors, columns) && |cells| == |s.selectors|
    requires forall c :: 0 <= c < |cells| ==> cells[c] == Default
    ensures IsRow(cells, [], columns) && Covers(columns, [])
  {
    FreshRow(columns, cells);
  }

  lemma NothingExtended(columns: seq<Path>)
    ensures Extend(columns, []) == columns
  {}

  /** The pairs "column = EXCLUDED.column" of every selector. */
  ghost predicate ArePairs(pairs: seq<Assignment>, selectors: seq<Clause>) {
    && |pairs| == |selectors|
    && forall c :: 0 <= c < |pairs| ==>
      selectors[c].Column? && pairs[c] == Assignment(selectors[c], selectors[c].(excluded := true))
  }

  /** What an INSERT clause has to be for the given rows. */
  ghost predicate IsInsertOf(schema: Schema, c: Clause, table: nat, subrequests: seq<seq<Attribute>>,
                             updateIfExists: bool) {
    var columns := ColumnPaths(subrequests);
    && c.Insert? && c.into == [table]
    && AreColumns(schema, c.columns, columns)
    && c.isValues == (subrequests != [])
    && |c.rows| == |subrequests|
    && (forall r :: 0 <= r < |c.rows| ==> IsRow(c.rows[r].cells, subrequests[r], columns))
    && c.isDoUpdate == (subrequests != [] && updateIfExists)
    && if c.isDoUpdate then ArePairs(c.doUpdate, c.columns) else c.doUpdate == []
  }

  method ExcludedPairs(schema: Schema, selectors: seq<Clause>,
                       ghost columns: seq<Path>) returns (pairs: seq<Assignment>)
    requires AreColumns(schema, selectors, columns)
    ensures ArePairs(pairs, selectors)
  {
    pairs := [];
    for c := 0 to |selectors|
      invariant |pairs| == c && ArePairs(pairs, selectors[..c])
    {
      pairs := pairs + [Assignment(selectors[c], selectors[c].(excluded := true))];
    }
    assert selectors[..|selectors|] == selectors;
  }

  lemma ExtendAllStep(columns: seq<Path>, subrequests: seq<seq<Attribute>>, r: nat)
    requires r < |subrequests|
    ensures ExtendAll(columns, subrequests[..r + 1]) == Extend(ExtendAll(columns, subrequests[..r]), subrequests[r])
  {
    assert subrequests[..r + 1][..r] == subrequests[..r];
  }

  /** OrganizeInsert throws exactly when some attribute's path is not registered; otherwise the INSERT has
      the columns, rows and pairs its rows call for. */
  method OrganizeInsert(schema: Schema, table: nat, subrequests: seq<seq<Attribute>>, updateIfExists: bool)
    returns (r: Result<Clause>)
    requires Consistent(schema)
    ensures r.Ok? <==> forall i :: 0 <= i < |subrequests| ==> AllRegistered(schema, subrequests[i])
    ensures r.Ok? ==> IsInsertOf(schema, r.value, table, subrequests, updateIfExists)
  {
    hide IsRow, AllRegistered, Indexes, Extend, Covers, PathsOf;
    if subrequests == [] { return Ok(Insert([table], [], false, [], false, [])); }
    var first := FirstSelectors(schema, subrequests[0]);
    if first.Throw? { return Throw; }
    var s := first.value;
    ghost var columns := PathsOf(subrequests[0]);
    for i := 0 to |subrequests|
      invariant forall j :: 0 <= j < i ==> AllRegistered(schema, subrequests[j])
      invariant Holds(schema, s, subrequests[..i], columns) && |s.values| == i
      invariant columns == ExtendAll(PathsOf(subrequests[0]), subrequests[..i])
    {
      ExtendAllStep(PathsOf(subrequests[0]), subrequests, i);
      assert subrequests[..i + 1] == subrequests[..i] + [subrequests[i]];
      var next := AddRow(schema, s, subrequests[..i], subrequests[i], columns);
      if next.Throw? { return Throw; }
      s, columns := next.value, Extend(columns, subrequests[i]);
    }
    assert subrequests[..|subrequests|] == subrequests;
    var rows := seq(|s.values|, i requires 0 <= i < |s.values| => Row(s.values[i]));
    var pairs := [];
    if updateIfExists { pairs := ExcludedPairs(schema, s.selectors, columns); }
    r := Ok(Insert([table], s.selectors, true, rows, updateIfExists, pairs));
  }

  /** In an INSERT whose first row repeats no path, no column is named twice, every row has a cell for every
      column, and the cell under a path's column is the last value the row gives for that path, or DEFAULT. */
  lemma InsertMeaning(schema: Schema, c: Clause, table: nat, subrequests: seq<seq<Attribute>>, updateIfExists: bool)
    requires IsInsertOf(schema, c, table, subrequests, updateIfExists)
    requires subrequests != [] && NoRepeats(PathsOf(subrequests[0]))
    ensures forall i, j :: 0 <= i < j < |c.columns| ==> c.columns[i] != c.columns[j]
    ensures forall r :: 0 <= r < |c.rows| ==> |c.rows[r].cells| == |c.columns|
    ensures forall r, k, p ::
      0 <= r < |c.rows| && 0 <= k < |c.columns| && Names(schema, c.columns[k], p) ==>
      Gives(c.rows[r].cells[k], LastValue(subrequests[r], p))
  {
    hide LastIndex, LastValue, ColumnPaths, Gives;
    var columns := ColumnPaths(subrequests);
    ColumnsOncePerPath(subrequests);
    forall i, j | 0 <= i < j < |columns| ensures c.columns[i] != c.columns[j] {
      if c.columns[i] == c.columns[j] { ColumnDeterminesPath(schema, columns[i], columns[j]); }
    }
    forall r, k, p | 0 <= r < |c.rows| && 0 <= k < |c.columns| && Names(schema, c.columns[k], p)
      ensures Gives(c.rows[r].cells[k], LastValue(subrequests[r], p))
    {
      assert columns[k] == p;
      assert LastIndex(columns, columns[k]) == k;
      assert IsCell(c.rows[r].cells[k], subrequests[r], columns, k);
    }
  }

  /** A column named twice in the INSERT: it is, exactly when the first row repeats a path. */
  ghost predicate NamesTwice(columns: seq<Clause>, i: nat, j: nat) { i < j < |columns| && columns[i] == columns[j] }

  ghost predicate IsLastCopy(columns: seq<Clause>,
                             k: nat) { k < |columns| && forall j: nat :: !NamesTwice(columns, k, j) }

  /** Whatever the first row: in every row of the INSERT all copies of a column but the last are DEFAULT, and the
      last one has the last value the row gives for the path. */
  lemma RepeatedColumnIsDefault(schema: Schema, c: Clause, table: nat, subrequests: seq<seq<Attribute>>,
                                updateIfExists: bool)
    requires IsInsertOf(schema, c, table, subrequests, updateIfExists) && subrequests != []
    ensures (exists i: nat, j: nat :: NamesTwice(c.columns, i, j)) <==> !NoRepeats(PathsOf(subrequests[0]))
    ensures forall r, i: nat, j: nat :: 0 <= r < |c.rows| && NamesTwice(c.columns, i, j) ==>
      i < |c.rows[r].cells| && c.rows[r].cells[i] == Default
    ensures forall r, k: nat, p ::
      0 <= r < |c.rows| && IsLastCopy(c.columns, k) && Names(schema, c.columns[k], p) ==>
      k < |c.rows[r].cells| && Gives(c.rows[r].cells[k], LastValue(subrequests[r], p))
  {
    hide LastIndex, LastValue, ColumnPaths, Gives, NamesTwice, IsRow;
    var columns := ColumnPaths(subrequests);
    ColumnsOncePerPath(subrequests);
    SameColumns(schema, c.columns, columns);
    TwiceExactly(c.columns, columns);
    forall r, i: nat, j: nat | 0 <= r < |c.rows| && NamesTwice(c.columns, i, j)
      ensures i < |c.rows[r].cells| && c.rows[r].cells[i] == Default
    {
      EarlierCopy(c.rows[r].cells, subrequests[r], c.columns, columns, i, j);
    }
    forall r, k: nat, p | 0 <= r < |c.rows| && IsLastCopy(c.columns, k) && Names(schema, c.columns[k], p)
      ensures k < |c.rows[r].cells| && Gives(c.rows[r].cells[k], LastValue(subrequests[r], p))
    {
      LastCopyGiven(schema, c.rows[r].cells, subrequests[r], c.columns, columns, k, p);
    }
  }

  /** The columns are those of the paths, so they repeat where the paths do. */
  predicate SameRepeats(selectors: seq<Clause>, columns: seq<Path>) {
    |selectors| == |columns| &&
    forall i, j :: 0 <= i < |columns| && 0 <= j < |columns| ==>
      (selectors[i] == selectors[j] <==> columns[i] == columns[j])
  }

  lemma TwiceExactly(selectors: seq<Clause>, columns: seq<Path>)
    requires SameRepeats(selectors, columns)
    ensures (exists i: nat, j: nat :: NamesTwice(selectors, i, j)) <==> !NoRepeats(columns)
  {
    if !NoRepeats(columns) {
      var i: nat, j: nat :| i < j < |columns| && columns[i] == columns[j];
      assert NamesTwice(selectors, i, j);
    }
  }

  lemma EarlierCopy(cells: seq<Clause>, attributes: seq<Attribute>, selectors: seq<Clause>, columns: seq<Path>,
                    i: nat, j: nat)
    requires IsRow(cells, attributes, columns) && SameRepeats(selectors, columns) && NamesTwice(selectors, i, j)
    ensures i < |cells| && cells[i] == Default
  {
    hide LastIndex, LastValue, Means;
    LastCopy(columns, i);
    assert IsCell(cells[i], attributes, columns, i);
    assert columns[i] == columns[j];
  }

  lemma LastCopyGiven(schema: Schema, cells: seq<Clause>, attributes: seq<Attribute>, selectors: seq<Clause>,
                      columns: seq<Path>,
                      k: nat, p: Path)
    requires IsRow(cells, attributes, columns) && SameRepeats(selectors, columns)
    requires AreColumns(schema, selectors, columns)
    requires IsLastCopy(selectors, k) && Names(schema, selectors[k], p)
    ensures k < |cells| && Gives(cells[k], LastValue(attributes, p))
  {
    hide LastIndex, LastValue, Means;
    assert columns[k] == p;
    LastCopy(columns, k);
    forall j | k < j < |columns| ensures columns[j] != columns[k] { assert !NamesTwice(selectors, k, j); }
    assert IsCell(cells[k], attributes, columns, k);
  }

  lemma SameColumns(schema: Schema, selectors: seq<Clause>, columns: seq<Path>)
    requires AreColumns(schema, selectors, columns)
    ensures SameRepeats(selectors, columns)
  {
    hide Names;
    forall i, j | 0 <= i < |columns| && 0 <= j < |columns|
      ensures selectors[i] == selectors[j] <==> columns[i] == columns[j]
    {
      OneColumn(schema, selectors[i], columns[i], selectors[j], columns[j]);
    }
  }

  lemma {:induction false} LastCopy(columns: seq<Path>, k: nat)
    requires k < |columns|
    ensures LastIndex(columns, columns[k]) == k <==> forall j :: k < j < |columns| ==> columns[j] != columns[k]
  {}
}
