/** OrganizeUpdate: splitting each attribute set into SET and WHERE, and what the resulting UPDATEs do to rows. */
module OrganizerUpdate {
  import opened Common
  import opened SqlTree
  import opened Organizer

  // ---------------------------------------------------------------------------------- Specification

  ghost predicate GivesAllKeys(keys: set<Path>, attributes: seq<Attribute>) {
    forall k :: k in keys ==> exists i :: 0 <= i < |attributes| && attributes[i].path == k
  }

  /** The equalities of the key attributes, in order. */
  function Conditions(schema: Schema, keys: set<Path>, attributes: seq<Attribute>): seq<Clause>
    requires AllRegistered(schema, attributes)
  {
    if attributes == [] then []
    else
      var before := Conditions(schema, keys, attributes[..|attributes| - 1]);
      var a := attributes[|attributes| - 1];
      if a.path in keys then before + [Expression(Equals, [ColumnOf(schema, a.path), Convert(a.data)])] else before
  }

  /** The assignments of the other attributes, in order. */
  function Assignments(schema: Schema, keys: set<Path>, attributes: seq<Attribute>): seq<Assignment>
    requires AllRegistered(schema, attributes)
  {
    if attributes == [] then []
    else
      var before := Assignments(schema, keys, attributes[..|attributes| - 1]);
      var a := attributes[|attributes| - 1];
      if a.path in keys then before else before + [Assignment(ColumnOf(schema, a.path), Convert(a.data))]
  }

  /** Conditions joined by AND from the left; no clause for no conditions. */
  function Conjoined(conditions: seq<Clause>): Clause {
    if conditions == [] then Null
    else if |conditions| == 1 then conditions[0]
    else Expression(And, [Conjoined(conditions[..|conditions| - 1]), conditions[|conditions| - 1]])
  }

  /** An attribute set the update can be built from. */
  ghost predicate Buildable(schema: Schema, table: nat, attributes: seq<Attribute>) {
    && Registered(schema, [table]) && schema.tables[[table]] in schema.primary
    && GivesAllKeys(schema.primary[schema.tables[[table]]], attributes)
    && AllRegistered(schema, attributes)
  }

  function KeysOf(schema: Schema, table: nat): set<Path> {
    if [table] in schema.tables
      && schema.tables[[table]] in schema.primary then schema.primary[schema.tables[[table]]] else {}
  }

  /** The UPDATE of an attribute set: none if it is empty or sets nothing. */
  function UpdateOf(schema: Schema, table: nat, attributes: seq<Attribute>): seq<Clause>
    requires AllRegistered(schema, attributes)
  {
    var keys := KeysOf(schema, table);
    var sets := Assignments(schema, keys, attributes);
    if sets == [] then [] else [Update([table], sets, Conjoined(Conditions(schema, keys, attributes)))]
  }

  function UpdatesOf(schema: Schema, table: nat, updates: seq<seq<Attribute>>): seq<Clause>
    requires forall i :: 0 <= i < |updates| ==> AllRegistered(schema, updates[i])
  {
    if updates == [] then []
    else UpdatesOf(schema, table, updates[..|updates| - 1]) + UpdateOf(schema, table, updates[|updates| - 1])
  }

  // ---------------------------------------------------------------------------------- The method

  /** The paths among the first attributes that are primary keys. */
  method FoundKeys(keys: set<Path>, attributes: seq<Attribute>) returns (found: set<Path>)
    ensures found <= keys
    ensures found == keys <==> GivesAllKeys(keys, attributes)
  {
    found := {};
    for i := 0 to |attributes|
      invariant found <= keys
      invariant forall k :: k in found ==> exists j :: 0 <= j < i && attributes[j].path == k
      invariant forall j :: 0 <= j < i && attributes[j].path in keys ==> attributes[j].path in found
    {
      if attributes[i].path in keys { found := found + {attributes[i].path}; }
    }
  }

  lemma SameSize(a: set<Path>, b: set<Path>)
    requires a <= b
    ensures |a| == |b| <==> a == b
  {
    if a != b {
      assert !(b <= a);
      var x :| x in b && x !in a;
      SubsetSize(a, b - {x});
    }
  }

  lemma SubsetSize(a: set<Path>, b: set<Path>)
    requires a <= b
    ensures |a| <= |b|
    decreases |a|
  {
    if a != {} {
      var x :| x in a;
      SubsetSize(a - {x}, b - {x});
    }
  }

  /** The split of one attribute set. */
  method Split(schema: Schema, keys: set<Path>, attributes: seq<Attribute>)
    returns (r: Result<(seq<Assignment>, seq<Clause>)>)
    requires Consistent(schema)
    ensures r.Ok? <==> AllRegistered(schema, attributes)
    ensures r.Ok? ==> r.value == (Assignments(schema, keys, attributes), Conditions(schema, keys, attributes))
  {
    var setValues, whereConditions := [], [];
    for i := 0 to |attributes|
      invariant AllRegistered(schema, attributes[..i])
      invariant setValues == Assignments(schema, keys, attributes[..i])
      invariant whereConditions == Conditions(schema, keys, attributes[..i])
    {
      var a := attributes[i];
      if a.path !in schema.tables { return Throw; }
      assert attributes[..i + 1][..i] == attributes[..i];
      var column := ColumnOf(schema, a.path);
      if a.path in keys {
        whereConditions := whereConditions + [Expression(Equals, [column, Convert(a.data)])];
      } else {
        setValues := setValues + [Assignment(column, Convert(a.data))];
      }
    }
    assert attributes[..|attributes|] == attributes;
    r := Ok((setValues, whereConditions));
  }

  method JoinByAnd(conditions: seq<Clause>) returns (where: Clause)
    ensures where == Conjoined(conditions)
  {
    if conditions == [] { return Null; }
    where := conditions[0];
    for i := 1 to |conditions|
      invariant where == Conjoined(conditions[..i])
    {
      assert conditions[..i + 1][..i] == conditions[..i];
      where := Expression(And, [where, conditions[i]]);
    }
    assert conditions[..|conditions|] == conditions;
  }

  /** OrganizeUpdate throws exactly when a set that is not empty misses a primary key, or it or the table has a
      path that is not registered; otherwise it emits the UPDATE of each set, in order. */
  method OrganizeUpdate(schema: Schema, table: nat, updates: seq<seq<Attribute>>) returns (r: Result<seq<Clause>>)
    requires Consistent(schema)
    ensures r.Ok? <==> forall i :: 0 <= i < |updates| && updates[i] != [] ==> Buildable(schema, table, updates[i])
    ensures r.Ok? ==> (forall i :: 0 <= i < |updates| ==> AllRegistered(schema, updates[i]))
    ensures r.Ok? ==> r.value == UpdatesOf(schema, table, updates)
  {
    hide Conditions, Assignments;
    var clauses := [];
    for i := 0 to |updates|
      invariant forall j :: 0 <= j < i && updates[j] != [] ==> Buildable(schema, table, updates[j])
      invariant forall j :: 0 <= j < i ==> AllRegistered(schema, updates[j])
      invariant clauses == UpdatesOf(schema, table, updates[..i])
    {
      assert updates[..i + 1][..i] == updates[..i];
      if updates[i] == [] {
        NoUpdate(schema, table);
        continue;
      }
      if [table] !in schema.tables { return Throw; }
      var keys := schema.primary[schema.tables[[table]]];
      var found := FoundKeys(keys, updates[i]);
      SameSize(found, keys);
      if |found| != |keys| { return Throw; }
      var split := Split(schema, keys, updates[i]);
      if split.Throw? { return Throw; }
      var (setValues, whereConditions) := split.value;
      if setValues != [] {
        var where := JoinByAnd(whereConditions);
        clauses := clauses + [Update([table], setValues, where)];
      }
    }
    assert updates[..|updates|] == updates;
    r := Ok(clauses);
  }

  lemma NoUpdate(schema: Schema, table: nat)
    ensures UpdateOf(schema, table, []) == []
  {}

  // ---------------------------------------------------------------------------------- What the UPDATEs are

  /** The attributes of the key, or the others, in order. */
  function Chosen(keys: set<Path>, attributes: seq<Attribute>, inKey: bool): seq<Attribute> {
    if attributes == [] then []
    else
      var before := Chosen(keys, attributes[..|attributes| - 1], inKey);
      var last := attributes[|attributes| - 1];
      if (last.path in keys) == inKey then before + [last] else before
  }

  /** The assignments set the column of each attribute to its value. */
  ghost predicate AreSets(schema: Schema, sets: seq<Assignment>, attributes: seq<Attribute>) {
    && |sets| == |attributes|
    && forall i :: 0 <= i < |sets| ==>
         Names(schema, sets[i].target, attributes[i].path) && Means(sets[i].value, attributes[i].data)
  }

  /** The conditions compare the column of each attribute with its value. */
  ghost predicate AreEqualities(schema: Schema, conditions: seq<Clause>, attributes: seq<Attribute>) {
    && |conditions| == |attributes|
    && forall i :: 0 <= i < |conditions| ==> IsEquality(schema, conditions[i], attributes[i])
  }

  predicate IsEquality(schema: Schema, c: Clause, a: Attribute) {
    && c.Expression? && c.op == Equals && |c.operands| == 2
    && Names(schema, c.operands[0], a.path) && Means(c.operands[1], a.data)
  }

  /** The conjunction of some conditions, from the left. */
  ghost predicate IsConjunction(c: Clause, conditions: seq<Clause>) {
    if conditions == [] then c == Null
    else if |conditions| == 1 then c == conditions[0]
    else
      && c.Expression? && c.op == And && |c.operands| == 2
      && IsConjunction(c.operands[0], conditions[..|conditions| - 1])
      && c.operands[1] == conditions[|conditions| - 1]
  }

  /** SET and WHERE hold the columns and values of the attribute set, split by the key, in order. */
  lemma {:induction false} SplitMeaning(schema: Schema, keys: set<Path>, attributes: seq<Attribute>)
    requires AllRegistered(schema, attributes)
    ensures AreSets(schema, Assignments(schema, keys, attributes), Chosen(keys, attributes, false))
    ensures AreEqualities(schema, Conditions(schema, keys, attributes), Chosen(keys, attributes, true))
  {
    hide Convert, ColumnOf, Means, Names;
    if attributes != [] {
      var a := attributes[|attributes| - 1];
      SplitMeaning(schema, keys, attributes[..|attributes| - 1]);
      ConvertMeaning(Convert(a.data), a.data);
      ColumnMeaning(schema, ColumnOf(schema, a.path), a.path);
    }
  }

  lemma {:induction false} ConjoinedIsConjunction(conditions: seq<Clause>)
    ensures IsConjunction(Conjoined(conditions), conditions)
  {
    if |conditions| > 1 { ConjoinedIsConjunction(conditions[..|conditions| - 1]); }
  }

  /** The one UPDATE of an attribute set is of its table, has the values outside the key in SET, and selects by those of
      the key; there is none if the set has nothing outside the key. */
  lemma UpdateIs(schema: Schema, table: nat, attributes: seq<Attribute>)
    requires AllRegistered(schema, attributes)
    ensures var us, keys := UpdateOf(schema, table, attributes), KeysOf(schema, table);
            if Chosen(keys, attributes, false) == [] then us == []
            else
              && |us| == 1 && us[0].Update? && us[0].updated == [table]
              && AreSets(schema, us[0].sets, Chosen(keys, attributes, false))
              && exists conditions ::
                   AreEqualities(schema, conditions, Chosen(keys, attributes, true)) &&
                   IsConjunction(us[0].where, conditions)
  {
    hide Conditions, Assignments, Conjoined, IsConjunction;
    SplitMeaning(schema, KeysOf(schema, table), attributes);
    ConjoinedIsConjunction(Conditions(schema, KeysOf(schema, table), attributes));
  }

  // ---------------------------------------------------------------------------------- What the UPDATEs do

  /** A row of a table: the value of each column, by the path the column stands for. */
  type TableRow = map<Path, Clause>

  function PathOfColumn(c: Clause): Path { if c.Column? then c.tablePath + c.fieldPath else [] }

  /** The condition of an UPDATE on a row. */
  predicate Satisfies(row: TableRow, c: Clause) {
    match c
    case Expression(op, operands) =>
      if op == And && |operands| == 2 then Satisfies(row, operands[0]) && Satisfies(row, operands[1])
      else if op == Equals && |operands| == 2 && operands[0].Column? then
        PathOfColumn(operands[0]) in row && row[PathOfColumn(operands[0])] == operands[1]
      else false
    case _ => false
  }

  /** A row after the assignments of SET, in order. */
  function Assign(row: TableRow, sets: seq<Assignment>): TableRow {
    if sets == [] then row
    else
      var last := sets[|sets| - 1];
      Assign(row, sets[..|sets| - 1])[PathOfColumn(last.target) := last.value]
  }

  /** A row after an UPDATE: changed if there is no condition or the row satisfies it. */
  function Updated(row: TableRow, u: Clause): TableRow
    requires u.Update?
  {
    if u.where == Null || Satisfies(row, u.where) then Assign(row, u.sets) else row
  }

  function UpdatedByAll(row: TableRow, us: seq<Clause>): TableRow
    requires forall i :: 0 <= i < |us| ==> us[i].Update?
  {
    if us == [] then row else Updated(UpdatedByAll(row, us[..|us| - 1]), us[|us| - 1])
  }

  /** The row has the values the set gives for the primary keys. */
  predicate HasKeys(row: TableRow, keys: set<Path>, attributes: seq<Attribute>) {
    forall i :: 0 <= i < |attributes| && attributes[i].path in keys ==>
      attributes[i].path in row && Means(row[attributes[i].path], attributes[i].data)
  }

  /** What an attribute set asks for: in a row with the given keys, each other path gets its last value. */
  function Requested(row: TableRow, keys: set<Path>, attributes: seq<Attribute>): TableRow {
    if HasKeys(row, keys, attributes) then Overwritten(row, keys, attributes) else row
  }

  function Overwritten(row: TableRow, keys: set<Path>, attributes: seq<Attribute>): TableRow {
    if attributes == [] then row
    else
      var before := Overwritten(row, keys, attributes[..|attributes| - 1]);
      var a := attributes[|attributes| - 1];
      if a.path in keys then before else before[a.path := Convert(a.data)]
  }

  function RequestedByAll(row: TableRow, keys: set<Path>, updates: seq<seq<Attribute>>): TableRow {
    if updates == [] then row
    else Requested(RequestedByAll(row, keys, updates[..|updates| - 1]), keys, updates[|updates| - 1])
  }

  /** Only the listed columns that are no keys change, each to the last value given for it. */
  lemma {:induction false} OverwrittenMeaning(row: TableRow, keys: set<Path>, attributes: seq<Attribute>, p: Path)
    ensures var after := Overwritten(row, keys, attributes);
            if p !in keys && LastValue(attributes, p).Some?
            then p in after && Means(after[p], LastValue(attributes, p).value)
            else (p in after <==> p in row) && (p in row ==> after[p] == row[p])
  {
    hide Convert, Means;
    if attributes != [] {
      var last := attributes[|attributes| - 1].data;
      ConvertMeaning(Convert(last), last);
      OverwrittenMeaning(row, keys, attributes[..|attributes| - 1], p);
    }
  }

  predicate AllSatisfied(row: TableRow, conditions: seq<Clause>) {
    forall i :: 0 <= i < |conditions| ==> Satisfies(row, conditions[i])
  }

  /** The left-folded AND means the conjunction of all its conditions. */
  lemma {:induction false} ConjoinedMeaning(row: TableRow, conditions: seq<Clause>)
    requires conditions != []
    ensures Satisfies(row, Conjoined(conditions)) <==> AllSatisfied(row, conditions)
  {
    if |conditions| > 1 {
      var init, last := conditions[..|conditions| - 1], conditions[|conditions| - 1];
      ConjoinedMeaning(row, init);
      assert forall i :: 0 <= i < |init| ==> init[i] == conditions[i];
      AndMeaning(row, Conjoined(init), last);
    }
  }

  lemma AndMeaning(row: TableRow, a: Clause, b: Clause)
    ensures Satisfies(row, Expression(And, [a, b])) <==> Satisfies(row, a) && Satisfies(row, b)
  {}

  lemma EqualityMeaning(schema: Schema, row: TableRow, path: Path, value: Clause)
    requires Registered(schema, path)
    ensures Satisfies(row, Expression(Equals, [ColumnOf(schema, path), value])) <==> path in row && row[path] == value
  {
    PathOfColumnOf(schema, path);
  }

  lemma PathOfColumnOf(schema: Schema, path: Path)
    requires Registered(schema, path)
    ensures PathOfColumn(ColumnOf(schema, path)) == path
  {}

  lemma {:induction false} ConditionsMeaning(schema: Schema, row: TableRow, keys: set<Path>, attributes: seq<Attribute>)
    requires AllRegistered(schema, attributes)
    ensures var cs := Conditions(schema, keys, attributes);
            AllSatisfied(row, cs) <==> HasKeys(row, keys, attributes)
    ensures forall i :: 0 <= i < |Conditions(schema, keys, attributes)| ==>
      Conditions(schema, keys, attributes)[i] != Null
  {
    hide AllSatisfied, HasKeys, Satisfies, ColumnOf, Convert, Means;
    if attributes == [] {
      NothingAsked(row, keys);
    } else {
      var init, a := attributes[..|attributes| - 1], attributes[|attributes| - 1];
      ConditionsMeaning(schema, row, keys, init);
      EqualityMeaning(schema, row, a.path, Convert(a.data));
      if a.path in row { ConvertMeaning(row[a.path], a.data); }
      HasKeysAppend(row, keys, init, a);
      assert attributes == init + [a];
      var before := Conditions(schema, keys, init);
      if a.path in keys {
        AllOfAppend(row, before, Expression(Equals, [ColumnOf(schema, a.path), Convert(a.data)]));
      } else {
        assert Conditions(schema, keys, attributes) == before;
      }
    }
  }

  lemma NothingAsked(row: TableRow, keys: set<Path>)
    ensures AllSatisfied(row, []) && HasKeys(row, keys, [])
  {}

  lemma AllOfAppend(row: TableRow, cs: seq<Clause>, c: Clause)
    ensures AllSatisfied(row, cs + [c]) <==> AllSatisfied(row, cs) && Satisfies(row, c)
  {
    hide Satisfies;
    assert (cs + [c])[|cs|] == c;
    assert forall i :: 0 <= i < |cs| ==> (cs + [c])[i] == cs[i];
  }

  lemma HasKeysAppend(row: TableRow, keys: set<Path>, attributes: seq<Attribute>, a: Attribute)
    ensures HasKeys(row, keys, attributes + [a]) <==>
            HasKeys(row, keys, attributes) && (a.path in keys ==> a.path in row && Means(row[a.path], a.data))
  {
    hide Means;
    var more := attributes + [a];
    assert more[|attributes|] == a;
    assert forall i :: 0 <= i < |attributes| ==> more[i] == attributes[i];
  }

  lemma {:induction false} AssignmentsMeaning(schema: Schema, row: TableRow, keys: set<Path>,
                                              attributes: seq<Attribute>)
    requires AllRegistered(schema, attributes)
    ensures Assign(row, Assignments(schema, keys, attributes)) == Overwritten(row, keys, attributes)
  {
    hide ColumnOf, Convert, PathOfColumn;
    if attributes != [] {
      var init, a := attributes[..|attributes| - 1], attributes[|attributes| - 1];
      AssignmentsMeaning(schema, row, keys, init);
      PathOfColumnOf(schema, a.path);
      if a.path !in keys {
        AssignAppend(row, Assignments(schema, keys, init), Assignment(ColumnOf(schema, a.path), Convert(a.data)));
      }
    }
  }

  lemma AssignAppend(row: TableRow, sets: seq<Assignment>, last: Assignment)
    ensures Assign(row, sets + [last]) == Assign(row, sets)[PathOfColumn(last.target) := last.value]
  {
    assert (sets + [last])[..|sets|] == sets;
  }

  /** The UPDATE of a set does to any row what the set asks for; a set without one asks for nothing. */
  lemma UpdateMeaning(schema: Schema, table: nat, row: TableRow, attributes: seq<Attribute>)
    requires AllRegistered(schema, attributes)
    ensures forall i :: 0 <= i < |UpdateOf(schema, table, attributes)| ==>
      UpdateOf(schema, table, attributes)[i].Update?
    ensures UpdatedByAll(row, UpdateOf(schema, table, attributes)) == Requested(row, KeysOf(schema, table), attributes)
  {
    hide Satisfies, AllSatisfied, Conditions, Conjoined, Assignments, HasKeys, Overwritten, Assign;
    var keys := KeysOf(schema, table);
    var sets, cs := Assignments(schema, keys, attributes), Conditions(schema, keys, attributes);
    ConditionsMeaning(schema, row, keys, attributes);
    AssignmentsMeaning(schema, row, keys, attributes);
    WhereMeaning(row, cs);
    if sets == [] {
      NothingAssigned(row);
      assert UpdateOf(schema, table, attributes) == [];
    } else {
      var u := Update([table], sets, Conjoined(cs));
      assert UpdateOf(schema, table, attributes) == [u];
      OneUpdate(row, u);
    }
  }

  lemma NothingAssigned(row: TableRow)
    ensures Assign(row, []) == row
  {}

  lemma OneUpdate(row: TableRow, u: Clause)
    requires u.Update?
    ensures UpdatedByAll(row, [u]) == Updated(row, u)
  {
    assert [u][..0] == [];
    assert UpdatedByAll(row, []) == row;
  }

  /** The WHERE of no conditions is none. */
  lemma WhereMeaning(row: TableRow, conditions: seq<Clause>)
    requires forall i :: 0 <= i < |conditions| ==> conditions[i] != Null
    ensures Conjoined(conditions) == Null || Satisfies(row, Conjoined(conditions)) <==> AllSatisfied(row, conditions)
  {
    hide Satisfies, AllSatisfied;
    if conditions == [] {
      NothingAsked(row, {});
    } else {
      ConjoinedMeaning(row, conditions);
      ConjoinedNotNull(conditions);
    }
  }

  lemma ConjoinedNotNull(conditions: seq<Clause>)
    requires conditions != [] && forall i :: 0 <= i < |conditions| ==> conditions[i] != Null
    ensures Conjoined(conditions) != Null
  {}

  /** So running the emitted UPDATEs in order does to each row what the sets ask for, one after another. */
  lemma {:induction false} UpdatesMeaning(schema: Schema, table: nat, row: TableRow, updates: seq<seq<Attribute>>)
    requires forall i :: 0 <= i < |updates| ==> AllRegistered(schema, updates[i])
    ensures forall i :: 0 <= i < |UpdatesOf(schema, table, updates)| ==> UpdatesOf(schema, table, updates)[i].Update?
    ensures UpdatedByAll(row, UpdatesOf(schema, table, updates)) == RequestedByAll(row, KeysOf(schema, table), updates)
  {
    hide UpdateOf, Requested, Updated;
    if updates != [] {
      var init, last := updates[..|updates| - 1], updates[|updates| - 1];
      UpdatesMeaning(schema, table, row, init);
      var middle := UpdatedByAll(row, UpdatesOf(schema, table, init));
      UpdateMeaning(schema, table, middle, last);
      UpdatedByParts(row, UpdatesOf(schema, table, init), UpdateOf(schema, table, last));
    }
  }

  lemma {:induction false} UpdatedByParts(row: TableRow, us: seq<Clause>, more: seq<Clause>)
    requires forall i :: 0 <= i < |us| ==> us[i].Update?
    requires forall i :: 0 <= i < |more| ==> more[i].Update?
    ensures UpdatedByAll(row, us + more) == UpdatedByAll(UpdatedByAll(row, us), more)
  {
    hide Updated;
    if more == [] {
      assert us + more == us;
    } else {
      var init := more[..|more| - 1];
      UpdatedByParts(row, us, init);
      assert (us + more)[..|us + more| - 1] == us + init;
    }
  }

  /** A set that gives every key changes at most one of the rows of a table whose keys are unique, and no key. */
  lemma AtMostOneRowChanges(keys: set<Path>, attributes: seq<Attribute>, a: TableRow, b: TableRow)
    requires GivesAllKeys(keys, attributes)
    requires exists k :: k in keys && !(k in a && k in b && a[k] == b[k])
    ensures Requested(a, keys, attributes) == a || Requested(b, keys, attributes) == b
    ensures forall k :: k in keys && k in a ==>
      k in Requested(a, keys, attributes) && Requested(a, keys, attributes)[k] == a[k]
  {
    hide Overwritten, Means;
    var d :| d in keys && !(d in a && d in b && a[d] == b[d]);
    var i :| 0 <= i < |attributes| && attributes[i].path == d;
    if HasKeys(a, keys, attributes) && HasKeys(b, keys, attributes) { OneLiteral(a[d], b[d], attributes[i].data); }
    forall k | k in keys && k in a
      ensures k in Requested(a, keys, attributes) && Requested(a, keys, attributes)[k] == a[k]
    {
      OverwrittenMeaning(a, keys, attributes, k);
    }
  }
}
