/** The text of what OrganizeInsert and OrganizeUpdate emit, read back: what reaches the database is what was asked. */
module OrganizerText {
  import opened Common
  import opened SqlTree
  import opened Organizer
  import opened OrganizerInsert
  import opened OrganizerUpdate
  import SqlReader
  import SqlStatements

  // ---------------------------------------------------------------------------------- Values and columns

  /** Floating-point values have texts with a point: they are finite numbers. */
  ghost predicate Finite(data: Data) {
    (data.FloatData? || data.DoubleData?) ==> SqlReader.IsDecimal(data.digits)
  }

  ghost predicate AllFinite(attributes: seq<Attribute>) {
    forall i :: 0 <= i < |attributes| ==> Finite(attributes[i].data)
  }

  lemma {:induction false} LiteralReads(c: Clause, data: Data)
    requires Means(c, data) && Finite(data)
    ensures SqlReader.Readable(c) && SqlReader.Canonical(c) == c && c != Null
  {
    hide Means, SqlReader.IsDecimal;
    ConvertMeaning(c, data);
  }

  lemma {:induction false} ColumnReads(schema: Schema, c: Clause, path: Path)
    requires Names(schema, c, path)
    ensures SqlReader.Readable(c) && SqlReader.Canonical(c) == c
  {}

  // ---------------------------------------------------------------------------------- UPDATE

  lemma {:induction false} SetsRead(schema: Schema, sets: seq<Assignment>, attributes: seq<Attribute>)
    requires AreSets(schema, sets, attributes) && AllFinite(attributes)
    ensures SqlStatements.ReadablePairs(sets) && SqlStatements.CanonicalPairs(sets) == sets
  {
    hide Names, Means, SqlReader.Readable, SqlReader.Canonical;
    forall i | 0 <= i < |sets|
      ensures SqlReader.Readable(sets[i].target) && SqlReader.Readable(sets[i].value)
      ensures SqlStatements.CanonicalPairs(sets)[i] == sets[i]
    {
      ColumnReads(schema, sets[i].target, attributes[i].path);
      LiteralReads(sets[i].value, attributes[i].data);
    }
  }

  lemma {:induction false} EqualityReads(schema: Schema, c: Clause, a: Attribute)
    requires IsEquality(schema, c, a) && Finite(a.data)
    ensures SqlReader.Readable(c) && SqlReader.Canonical(c) == c && c != Null
  {
    hide Names, Means, Finite;
    ColumnReads(schema, c.operands[0], a.path);
    LiteralReads(c.operands[1], a.data);
    TwoOperands(c, Equals);
  }

  /** An expression of two operands that are their own canonical form is its own. */
  lemma {:induction false} TwoOperands(c: Clause, op: ExprType)
    requires c.Expression? && c.op == op && |c.operands| == 2 && (op == Equals || op == And)
    requires SqlReader.Readable(c.operands[0]) && SqlReader.Canonical(c.operands[0]) == c.operands[0]
    requires SqlReader.Readable(c.operands[1]) && SqlReader.Canonical(c.operands[1]) == c.operands[1]
    ensures SqlReader.Readable(c) && SqlReader.Canonical(c) == c
  {
    var all := SqlReader.CanonicalAll(c.operands);
    assert all[0] == c.operands[0];
    assert all[1] == c.operands[1] by { assert all[1..] == SqlReader.CanonicalAll(c.operands[1..]); }
    assert all == c.operands;
  }

  lemma {:induction false} ConjunctionReads(schema: Schema, c: Clause, conditions: seq<Clause>,
                                            attributes: seq<Attribute>)
    requires IsConjunction(c, conditions) && AreEqualities(schema, conditions, attributes) && AllFinite(attributes)
    ensures SqlStatements.ReadableOrNull(c) && SqlReader.Canonical(c) == c && (conditions != [] ==> c != Null)
    decreases |conditions|
  {
    hide IsEquality, SqlReader.Readable, SqlReader.Canonical, Finite;
    if conditions == [] {
      NullIsCanonical();
    } else {
      var n := |conditions| - 1;
      EqualityReads(schema, conditions[n], attributes[n]);
      if n > 0 {
        ConjunctionReads(schema, c.operands[0], conditions[..n], attributes[..n]);
        TwoOperands(c, And);
      }
    }
  }

  lemma {:induction false} NullIsCanonical()
    ensures SqlReader.Canonical(Null) == Null
  {}

  lemma {:induction false} ChosenAreFinite(keys: set<Path>, attributes: seq<Attribute>, inKey: bool)
    requires AllFinite(attributes)
    ensures AllFinite(Chosen(keys, attributes, inKey))
  {
    hide Finite;
    if attributes != [] { ChosenAreFinite(keys, attributes[..|attributes| - 1], inKey); }
  }

  /** The text of an UPDATE reads back to the UPDATE itself, of its registered table: the same pairs in order, and the
      same condition. So executing what was read does to every row what the attribute set asks for. */
  lemma {:induction false} UpdateReadsBack(schema: Schema, table: nat, attributes: seq<Attribute>)
    requires AllRegistered(schema, attributes) && [table] in schema.tables && AllFinite(attributes)
    requires UpdateOf(schema, table, attributes) != []
    ensures var u := UpdateOf(schema, table, attributes)[0];
            && u.Update? && Text(schema.tables, u, None).Ok?
            && var read := SqlStatements.ReadStatement(Text(schema.tables, u, None).value);
               && read == Some((u.(updated := schema.tables[[table]]), ""))
               && forall row: TableRow ::
                    Updated(row, read.value.0) == Requested(row, KeysOf(schema, table), attributes)
  {
    hide Text, UpdateOf, SqlStatements.ReadStatement, Requested, Updated, Chosen, IsConjunction, AreSets, AreEqualities,
      SqlReader.Canonical, SqlReader.Readable, Finite;
    var u, keys := UpdateOf(schema, table, attributes)[0], KeysOf(schema, table);
    UpdateIs(schema, table, attributes);
    ChosenAreFinite(keys, attributes, false);
    ChosenAreFinite(keys, attributes, true);
    SetsRead(schema, u.sets, Chosen(keys, attributes, false));
    var conditions :| AreEqualities(schema, conditions, Chosen(keys, attributes, true)) &&
      IsConjunction(u.where, conditions);
    ConjunctionReads(schema, u.where, conditions, Chosen(keys, attributes, true));
    SqlStatements.StatementReads(schema.tables, u);
    forall row: TableRow
      ensures Updated(row, u.(updated := schema.tables[[table]])) == Requested(row, keys, attributes)
    {
      UpdateMeaning(schema, table, row, attributes);
      OneUpdate(row, u);
      OtherTable(row, u, schema.tables[[table]]);
      assert UpdateOf(schema, table, attributes) == [u];
    }
  }

  lemma {:induction false} OtherTable(row: TableRow, u: Clause, table: Path)
    requires u.Update?
    ensures Updated(row, u.(updated := table)) == Updated(row, u)
  {}

  // ---------------------------------------------------------------------------------- INSERT

  lemma {:induction false} RowReads(cells: seq<Clause>, attributes: seq<Attribute>, columns: seq<Path>)
    requires IsRow(cells, attributes, columns) && AllFinite(attributes)
    ensures SqlStatements.ReadableAll(cells) && SqlReader.CanonicalAll(cells) == cells
  {
    hide LastIndex, LastValue, SqlReader.Readable, SqlReader.Canonical, Means, Finite;
    forall k | 0 <= k < |cells| ensures SqlReader.Readable(cells[k]) && SqlReader.Canonical(cells[k]) == cells[k] {
      assert IsCell(cells[k], attributes, columns, k);
      DefaultReads();
      if LastIndex(columns, columns[k]) == k && LastValue(attributes, columns[k]).Some? {
        LastValueMeaning(attributes, columns[k]);
        LiteralReads(cells[k], LastValue(attributes, columns[k]).value);
      }
    }
    AllCanonical(cells);
  }

  lemma {:induction false} DefaultReads()
    ensures SqlReader.Readable(Default) && SqlReader.Canonical(Default) == Default
  {}

  lemma {:induction false} AllCanonical(cs: seq<Clause>)
    requires forall k :: 0 <= k < |cs| ==> SqlReader.Canonical(cs[k]) == cs[k]
    ensures SqlReader.CanonicalAll(cs) == cs
  {
    hide SqlReader.Canonical;
    if cs != [] {
      AllCanonical(cs[1..]);
      assert cs == [cs[0]] + cs[1..];
    }
  }

  lemma {:induction false} ColumnListReads(schema: Schema, selectors: seq<Clause>, columns: seq<Path>)
    requires AreColumns(schema, selectors, columns)
    ensures SqlStatements.ReadableAll(selectors) && SqlReader.CanonicalAll(selectors) == selectors
  {
    hide Names, SqlReader.Readable, SqlReader.Canonical;
    forall k | 0 <= k < |selectors|
      ensures SqlReader.Readable(selectors[k]) && SqlReader.Canonical(selectors[k]) == selectors[k]
    {
      ColumnReads(schema, selectors[k], columns[k]);
    }
    AllCanonical(selectors);
  }

  /** EXCLUDED columns are printed without their table. */
  function WithoutTables(pairs: seq<Assignment>): (r: seq<Assignment>)
    requires forall k :: 0 <= k < |pairs| ==> pairs[k].value.Column?
    ensures |r| == |pairs|
    ensures forall k :: 0 <= k < |r| ==> r[k] == pairs[k].(value := pairs[k].value.(tablePath := []))
  {
    if pairs == [] then []
    else [pairs[0].(value := pairs[0].value.(tablePath := []))] + WithoutTables(pairs[1..])
  }

  lemma {:induction false} PairsRead(schema: Schema, pairs: seq<Assignment>, selectors: seq<Clause>, columns: seq<Path>)
    requires ArePairs(pairs, selectors) && AreColumns(schema, selectors, columns)
    ensures forall k :: 0 <= k < |pairs| ==> pairs[k].value.Column?
    ensures SqlStatements.ReadablePairs(pairs) && SqlStatements.CanonicalPairs(pairs) == WithoutTables(pairs)
  {
    forall k | 0 <= k < |pairs|
      ensures SqlStatements.CanonicalPairs(pairs)[k] == pairs[k].(value := pairs[k].value.(tablePath := []))
    {
      ColumnReads(schema, selectors[k], columns[k]);
    }
  }

  /** The text of an INSERT reads back to the INSERT itself: the same columns in order, the same cells row by row, and
      the pairs of ON CONFLICT, whose EXCLUDED columns show no table. */
  lemma {:induction false} InsertReadsBack(schema: Schema, c: Clause, table: nat, subrequests: seq<seq<Attribute>>,
                                           updateIfExists: bool)
    requires IsInsertOf(schema, c, table, subrequests, updateIfExists)
    requires forall r :: 0 <= r < |subrequests| ==> AllFinite(subrequests[r])
    ensures Text(schema.tables, c, None).Ok?
    ensures forall k :: 0 <= k < |c.doUpdate| ==> c.doUpdate[k].value.Column?
    ensures SqlStatements.ReadStatement(Text(schema.tables, c, None).value) ==
            Some((c.(doUpdate := WithoutTables(c.doUpdate)), ""))
  {
    hide Text, SqlStatements.ReadStatement, IsRow, AreColumns, ArePairs, ColumnPaths, AllFinite, SqlReader.Canonical,
      SqlReader.Readable;
    var columns := ColumnPaths(subrequests);
    ColumnListReads(schema, c.columns, columns);
    forall r | 0 <= r < |c.rows|
      ensures SqlStatements.ReadableAll(c.rows[r].cells) && SqlStatements.CanonicalRows(c.rows)[r] == c.rows[r]
    {
      RowReads(c.rows[r].cells, subrequests[r], columns);
    }
    assert SqlStatements.CanonicalRows(c.rows) == c.rows;
    if c.isDoUpdate { PairsRead(schema, c.doUpdate, c.columns, columns); }
    SqlStatements.StatementReads(schema.tables, c);
  }
}
