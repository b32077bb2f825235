/** PostgresBuilder: the printer as the source has it, with the clause stack that every Build method
    pushes on entry and pops on every exit, normal or throwing. */
module SqlBuilder {
  import opened Common
  import opened SqlTree
  import Decimal

  // ---------------------------------------------------------------------------------- Lists of texts

  lemma {:induction false} JoinAppend(texts: seq<string>, text: string, separator: string)
    ensures JoinTexts(texts + [text], separator) ==
            if texts == [] then text else JoinTexts(texts, separator) + separator + text
  {
    if |texts| > 1 {
      assert (texts + [text])[1..] == texts[1..] + [text];
      JoinAppend(texts[1..], text, separator);
    } else if |texts| == 1 {
      assert (texts + [text])[1..] == [text];
    }
  }

  lemma {:induction false} SpacedAppend(texts: seq<string>, text: string)
    ensures Spaced(texts + [text]) == Spaced(texts) + " " + text
  {
    if texts == [] {
      assert [text][1..] == [];
    } else {
      assert (texts + [text])[1..] == texts[1..] + [text];
      SpacedAppend(texts[1..], text);
    }
  }

  lemma {:induction false} TextsAre(tables: map<Path, Path>, cs: seq<Clause>, parent: ClauseKind, ts: seq<string>)
    requires |ts| == |cs| && forall i :: 0 <= i < |cs| ==> Text(tables, cs[i], Some(parent)) == Ok(ts[i])
    ensures Texts(tables, cs, parent) == Ok(ts)
  {
    if cs != [] {
      TextsAre(tables, cs[1..], parent, ts[1..]);
      assert ts == [ts[0]] + ts[1..];
    }
  }

  lemma {:induction false} TextsThrow(tables: map<Path, Path>, cs: seq<Clause>, parent: ClauseKind, i: nat)
    requires i < |cs| && Text(tables, cs[i], Some(parent)) == Throw
    ensures Texts(tables, cs, parent) == Throw
  {
    if i > 0 { TextsThrow(tables, cs[1..], parent, i - 1); }
  }

  lemma {:induction false} RowsAre(tables: map<Path, Path>, rows: seq<Row>, ts: seq<string>)
    requires |ts| == |rows| && forall i :: 0 <= i < |rows| ==> RowText(tables, rows[i]) == Ok(ts[i])
    ensures RowTexts(tables, rows) == Ok(ts)
  {
    if rows != [] {
      RowsAre(tables, rows[1..], ts[1..]);
      assert ts == [ts[0]] + ts[1..];
    }
  }

  lemma {:induction false} RowsThrow(tables: map<Path, Path>, rows: seq<Row>, i: nat)
    requires i < |rows| && RowText(tables, rows[i]) == Throw
    ensures RowTexts(tables, rows) == Throw
  {
    if i > 0 { RowsThrow(tables, rows[1..], i - 1); }
  }

  lemma {:induction false} AssignsAre(tables: map<Path, Path>, pairs: seq<Assignment>, parent: ClauseKind,
                                      ts: seq<string>)
    requires |ts| == |pairs| && forall i :: 0 <= i < |pairs| ==> AssignText(tables, pairs[i], parent) == Ok(ts[i])
    ensures AssignTexts(tables, pairs, parent) == Ok(ts)
  {
    if pairs != [] {
      AssignsAre(tables, pairs[1..], parent, ts[1..]);
      assert ts == [ts[0]] + ts[1..];
    }
  }

  lemma {:induction false} AssignsThrow(tables: map<Path, Path>, pairs: seq<Assignment>, parent: ClauseKind, i: nat)
    requires i < |pairs| && AssignText(tables, pairs[i], parent) == Throw
    ensures AssignTexts(tables, pairs, parent) == Throw
  {
    if i > 0 { AssignsThrow(tables, pairs[1..], parent, i - 1); }
  }

  /** A text in front of a join that gets one text more. */
  lemma JoinOnto(before: string, texts: seq<string>, text: string)
    ensures before + JoinTexts(texts, ", ") + (if texts == [] then "" else ", ") + text == before +
      JoinTexts(texts + [text], ", ")
  {
    JoinAppend(texts, text, ", ");
    hide JoinTexts;
    if texts == [] { NoTexts(); }
  }

  lemma NoTexts()
    ensures JoinTexts([], ", ") == ""
  {}

  /** The WHEN/THEN pairs of a CASE. */
  function WhenPart(texts: seq<string>): string
    requires |texts| % 2 == 0
  {
    if texts == [] then "" else " WHEN " + texts[0] + " THEN " + texts[1] + WhenPart(texts[2..])
  }

  lemma EmptyWhen()
    ensures WhenPart([]) == ""
  {}

  lemma {:induction false} WhenAppend(texts: seq<string>, condition: string, result: string)
    requires |texts| % 2 == 0
    ensures WhenPart(texts + [condition, result]) == WhenPart(texts) + (" WHEN " + condition + " THEN " + result)
  {
    var all, last := texts + [condition, result], " WHEN " + condition + " THEN " + result;
    if texts == [] {
      assert all == [condition, result] && all[2..] == [];
    } else {
      assert all[2..] == texts[2..] + [condition, result];
      WhenAppend(texts[2..], condition, result);
      var first := " WHEN " + texts[0] + " THEN " + texts[1];
      assert first + (WhenPart(texts[2..]) + last) == first + WhenPart(texts[2..]) + last;
    }
  }

  lemma CaseOnto(before: string, texts: seq<string>, condition: string, result: string)
    requires |texts| % 2 == 0
    requires WhenPart(texts + [condition, result]) == WhenPart(texts) + (" WHEN " + condition + " THEN " + result)
    ensures before + WhenPart(texts) + (" WHEN " + condition + " THEN " + result) == before +
      WhenPart(texts + [condition, result])
  {
    hide WhenPart;
  }

  lemma {:induction false} CaseEnds(texts: seq<string>, last: string)
    requires |texts| % 2 == 0
    ensures CaseTail(texts + [last]) == WhenPart(texts) + (" ELSE " + last + " END")
  {
    var all, end := texts + [last], " ELSE " + last + " END";
    if texts != [] {
      assert all[2..] == texts[2..] + [last] && all[0] == texts[0] && all[1] == texts[1];
      CaseEnds(texts[2..], last);
      var first := " WHEN " + texts[0] + " THEN " + texts[1];
      assert first + (WhenPart(texts[2..]) + end) == first + WhenPart(texts[2..]) + end;
    }
  }

  // ---------------------------------------------------------------------------------- The builder

  class PostgresBuilder {
    const tables: map<Path, Path>
    var stack: seq<ClauseKind>

    constructor (tables: map<Path, Path>)
      ensures this.tables == tables && stack == []
    {
      this.tables := tables;
      stack := [];
    }

    function Parent(): Option<ClauseKind>
      reads this
    {
      if stack == [] then None else Some(stack[|stack| - 1])
    }

    /** Whatever the clause, and whether or not it throws, the stack is left as it was found; the text
        depends on the stack only through its top element. */
    method BuildClause(c: Clause) returns (r: Result<string>)
      modifies this`stack
      ensures stack == old(stack)
      ensures r == Text(tables, c, old(Parent()))
      decreases c, 4
    {
      if c == Null { return Ok(""); }
      stack := stack + [KindOf(c)];
      match c {
        case Str(text) => var body := BuildString(text); r := Ok(body);
        case Int(number) => r := Ok(Decimal.ToString(number));
        case Float(digits) => r := Ok(digits);
        case Bool(truth) => r := Ok(if truth then "TRUE" else "FALSE");
        case Expression(op, operands) => r := BuildExpression(op, operands);
        case All => r := Ok("*");
        case Column(tablePath, fieldPath, key, excluded) => r := Ok(ColumnText(tablePath, fieldPath, key, excluded));
        case Table(table) => r := TableName(tables, table);
        case Default => r := Ok("DEFAULT");
        case Join(joinType, joined, on) =>
          var condition := BuildOptional("ON ", on);
          r := Concat2(Concat2(Ok(JoinKeyword(joinType)), Concat2(TableName(tables, joined), Ok(" "))), condition);
        case Select(_, _, _, _, _, _, _, _) => r := BuildSelect(c);
        case Insert(_, _, _, _, _, _) => r := BuildInsert(c);
        case Update(updated, sets, where) =>
          var list := BuildAssignments(sets);
          var condition := BuildOptional(" WHERE ", where);
          r := Concat2(Concat2(Concat2(Ok("UPDATE "), Concat2(TableName(tables, updated), Ok(" SET "))), list),
            condition);
        case Delete(deleted, where) =>
          var condition := BuildOptional(" WHERE ", where);
          r := Concat2(Concat2(Ok("DELETE FROM "), TableName(tables, deleted)), condition);
        case Truncate(truncated) => r := Concat2(Ok("TRUNCATE TABLE "), TableName(tables, truncated));
        case StartTransaction(readOnly) => r := Ok(if readOnly then "BEGIN READ ONLY" else "BEGIN");
        case CommitTransaction => r := Ok("COMMIT");
        case RollbackTransaction => r := Ok("ROLLBACK");
      }
      assert stack[..|stack| - 1] == old(stack);
      stack := stack[..|stack| - 1];
    }

    method BuildString(text: string) returns (r: string)
      ensures r == "'" + EscapeBody(text) + "'"
    {
      r := "'";
      for i := 0 to |text|
        invariant r + EscapeBody(text[i..]) == "'" + EscapeBody(text)
      {
        assert text[i..][1..] == text[i + 1..];
        assert r + (EscapeChar(text[i]) + EscapeBody(text[i + 1..])) == (r + EscapeChar(text[i])) +
          EscapeBody(text[i + 1..]);
        r := r + EscapeChar(text[i]);
      }
      assert text[|text|..] == "";
      r := r + "'";
    }

    /** BuildVector: the text of every clause, in order. */
    method BuildVector(cs: seq<Clause>) returns (r: Result<seq<string>>)
      requires stack != []
      modifies this`stack
      ensures stack == old(stack)
      ensures r == Texts(tables, cs, old(stack[|stack| - 1]))
      decreases cs, 0
    {
      hide Text, Texts;
      var texts: seq<string> := [];
      for i := 0 to |cs|
        invariant stack == old(stack) && |texts| == i
        invariant forall k :: 0 <= k < i ==> Text(tables, cs[k], Some(stack[|stack| - 1])) == Ok(texts[k])
      {
        var t := BuildClause(cs[i]);
        if t.Throw? {
          TextsThrow(tables, cs, stack[|stack| - 1], i);
          return Throw;
        }
        texts := texts + [t.value];
      }
      TextsAre(tables, cs, stack[|stack| - 1], texts);
      return Ok(texts);
    }

    method BuildExpression(op: ExprType, operands: seq<Clause>) returns (r: Result<string>)
      requires stack != [] && stack[|stack| - 1] == ExpressionKind
      modifies this`stack
      ensures stack == old(stack)
      ensures r == if !ArityOk(ShapeOf(op), |operands|) then Throw
                   else match Texts(tables, operands,
                     ExpressionKind) case Ok(ts) => Ok(Layout(ShapeOf(op), ts)) case Throw => Throw
      decreases operands, 1
    {
      var shape := ShapeOf(op);
      hide ShapeOf, JoinTexts, CaseTail;
      if !ArityOk(shape, |operands|) { return Throw; }
      if shape.InForm? {
        r := BuildIn(shape.keyword, operands);
      } else if shape.Call? {
        r := BuildCall(shape.name, operands);
      } else if shape.CaseForm? {
        r := BuildCase(operands);
      } else {
        var texts := BuildVector(operands);
        r := if texts.Throw? then Throw else Ok(Layout(shape, texts.value));
      }
    }

    /** IN and NOT IN: the list starts at the second operand. */
    method BuildIn(keyword: string, operands: seq<Clause>) returns (r: Result<string>)
      requires |operands| >= 2 && stack != [] && stack[|stack| - 1] == ExpressionKind
      modifies this`stack
      ensures stack == old(stack)
      ensures r == match Texts(tables, operands,
        ExpressionKind) case Throw => Throw case Ok(ts) => Ok(Layout(InForm(keyword), ts))
      decreases operands, 0
    {
      hide Text, Texts;
      var first := BuildClause(operands[0]);
      if first.Throw? {
        TextsThrow(tables, operands, ExpressionKind, 0);
        return Throw;
      }
      var oss := first.value + keyword;
      ghost var texts := [first.value];
      ghost var list: seq<string> := [];
      for i := 1 to |operands|
        invariant stack == old(stack) && |texts| == i && texts == [first.value] + list
        invariant oss == first.value + keyword + JoinTexts(list, ", ")
        invariant forall k :: 0 <= k < i ==> Text(tables, operands[k], Some(ExpressionKind)) == Ok(texts[k])
      {
        if i > 1 { oss := oss + ", "; }
        var t := BuildClause(operands[i]);
        if t.Throw? {
          TextsThrow(tables, operands, ExpressionKind, i);
          return Throw;
        }
        oss := oss + t.value;
        JoinOnto(first.value + keyword, list, t.value);
        list, texts := list + [t.value], texts + [t.value];
      }
      TextsAre(tables, operands, ExpressionKind, texts);
      assert texts[1..] == list;
      return Ok(oss + ")");
    }

    /** NAME(operands): one loop for those that take any number. */
    method BuildCall(name: string, operands: seq<Clause>) returns (r: Result<string>)
      requires stack != [] && stack[|stack| - 1] == ExpressionKind
      modifies this`stack
      ensures stack == old(stack)
      ensures r == match Texts(tables, operands, ExpressionKind)
                   case Throw => Throw
                   case Ok(ts) => Ok(name + "(" + JoinTexts(ts, ", ") + ")")
      decreases operands, 0
    {
      hide Text, Texts;
      var oss := name + "(";
      ghost var texts: seq<string> := [];
      for i := 0 to |operands|
        invariant stack == old(stack) && |texts| == i && oss == name + "(" + JoinTexts(texts, ", ")
        invariant forall k :: 0 <= k < i ==> Text(tables, operands[k], Some(ExpressionKind)) == Ok(texts[k])
      {
        if i > 0 { oss := oss + ", "; }
        var t := BuildClause(operands[i]);
        if t.Throw? {
          TextsThrow(tables, operands, ExpressionKind, i);
          return Throw;
        }
        oss := oss + t.value;
        JoinOnto(name + "(", texts, t.value);
        texts := texts + [t.value];
      }
      TextsAre(tables, operands, ExpressionKind, texts);
      return Ok(oss + ")");
    }

    /** CASE: two operands a round, and the last one for ELSE. */
    method BuildCase(operands: seq<Clause>) returns (r: Result<string>)
      requires |operands| >= 3 && |operands| % 2 == 1 && stack != [] && stack[|stack| - 1] == ExpressionKind
      modifies this`stack
      ensures stack == old(stack)
      ensures r == match Texts(tables, operands, ExpressionKind) case Throw => Throw case Ok(ts) => Ok("CASE" +
        CaseTail(ts))
      decreases operands, 0
    {
      hide CaseTail, Text, Texts, WhenPart;
      EmptyWhen();
      var oss := "CASE";
      ghost var texts: seq<string> := [];
      var i := 0;
      while i < |operands| - 1
        invariant i <= |operands| - 1 && i % 2 == 0 && |texts| == i && stack == old(stack)
          && oss == "CASE" + WhenPart(texts)
        invariant forall k :: 0 <= k < i ==> Text(tables, operands[k], Some(ExpressionKind)) == Ok(texts[k])
      {
        var condition := BuildClause(operands[i]);
        if condition.Throw? {
          TextsThrow(tables, operands, ExpressionKind, i);
          return Throw;
        }
        var result := BuildClause(operands[i + 1]);
        if result.Throw? {
          TextsThrow(tables, operands, ExpressionKind, i + 1);
          return Throw;
        }
        WhenAppend(texts, condition.value, result.value);
        CaseOnto("CASE", texts, condition.value, result.value);
        oss := oss + (" WHEN " + condition.value + " THEN " + result.value);
        texts := texts + [condition.value, result.value];
        i := i + 2;
      }
      var last := BuildClause(operands[|operands| - 1]);
      if last.Throw? {
        TextsThrow(tables, operands, ExpressionKind, |operands| - 1);
        return Throw;
      }
      CaseEnds(texts, last.value);
      TextsAre(tables, operands, ExpressionKind, texts + [last.value]);
      r := Ok(oss + (" ELSE " + last.value + " END"));
      assert "CASE" + WhenPart(texts) + (" ELSE " + last.value + " END") == "CASE" +
        (WhenPart(texts) + (" ELSE " + last.value + " END"));
    }

    /** A keyword and a clause, when the clause pointer is not null. */
    method BuildOptional(keyword: string, c: Clause) returns (r: Result<string>)
      requires stack != []
      modifies this`stack
      ensures stack == old(stack)
      ensures r == Optional(tables, keyword, c, old(stack[|stack| - 1]))
      decreases c, 5
    {
      if c == Null { return Ok(""); }
      var t := BuildClause(c);
      return if t.Ok? then Ok(keyword + t.value) else Throw;
    }

    /** The loop over selectors, columns, cells: clauses separated by ", ". */
    method BuildList(cs: seq<Clause>) returns (r: Result<string>)
      requires stack != []
      modifies this`stack
      ensures stack == old(stack)
      ensures r == Joined(Texts(tables, cs, old(stack[|stack| - 1])), ", ")
      decreases cs, 0
    {
      hide Text, Texts;
      var oss := "";
      ghost var texts: seq<string> := [];
      for i := 0 to |cs|
        invariant stack == old(stack) && |texts| == i && oss == JoinTexts(texts, ", ")
        invariant forall k :: 0 <= k < i ==> Text(tables, cs[k], Some(stack[|stack| - 1])) == Ok(texts[k])
      {
        if i > 0 { oss := oss + ", "; }
        var t := BuildClause(cs[i]);
        if t.Throw? {
          TextsThrow(tables, cs, stack[|stack| - 1], i);
          return Throw;
        }
        oss := oss + t.value;
        JoinAppend(texts, t.value, ", ");
        texts := texts + [t.value];
      }
      TextsAre(tables, cs, stack[|stack| - 1], texts);
      return Ok(oss);
    }

    method BuildJoins(cs: seq<Clause>) returns (r: Result<string>)
      requires stack != []
      modifies this`stack
      ensures stack == old(stack)
      ensures r == match Texts(tables, cs, old(stack[|stack| - 1])) case Ok(ts) => Ok(Spaced(ts)) case Throw => Throw
      decreases cs, 0
    {
      hide Text, Texts;
      var oss := "";
      ghost var texts: seq<string> := [];
      for i := 0 to |cs|
        invariant stack == old(stack) && |texts| == i && oss == Spaced(texts)
        invariant forall k :: 0 <= k < i ==> Text(tables, cs[k], Some(stack[|stack| - 1])) == Ok(texts[k])
      {
        var t := BuildClause(cs[i]);
        if t.Throw? {
          TextsThrow(tables, cs, stack[|stack| - 1], i);
          return Throw;
        }
        oss := oss + " " + t.value;
        SpacedAppend(texts, t.value);
        texts := texts + [t.value];
      }
      TextsAre(tables, cs, stack[|stack| - 1], texts);
      return Ok(oss);
    }

    method BuildAssignments(pairs: seq<Assignment>) returns (r: Result<string>)
      requires stack != []
      modifies this`stack
      ensures stack == old(stack)
      ensures r == Joined(AssignTexts(tables, pairs, old(stack[|stack| - 1])), ", ")
      decreases pairs, 0
    {
      hide AssignText, AssignTexts;
      var oss := "";
      ghost var texts: seq<string> := [];
      for i := 0 to |pairs|
        invariant stack == old(stack) && |texts| == i && oss == JoinTexts(texts, ", ")
        invariant forall k :: 0 <= k < i ==> AssignText(tables, pairs[k], stack[|stack| - 1]) == Ok(texts[k])
      {
        if i > 0 { oss := oss + ", "; }
        var t := BuildAssignment(pairs[i]);
        if t.Throw? {
          AssignsThrow(tables, pairs, stack[|stack| - 1], i);
          return Throw;
        }
        oss := oss + t.value;
        JoinAppend(texts, t.value, ", ");
        texts := texts + [t.value];
      }
      AssignsAre(tables, pairs, stack[|stack| - 1], texts);
      return Ok(oss);
    }

    method BuildAssignment(pair: Assignment) returns (r: Result<string>)
      requires stack != []
      modifies this`stack
      ensures stack == old(stack)
      ensures r == AssignText(tables, pair, old(stack[|stack| - 1]))
      decreases pair, 0
    {
      var left := BuildClause(pair.target);
      if left.Throw? { return Throw; }
      var right := BuildClause(pair.value);
      return if right.Throw? then Throw else Ok(left.value + " = " + right.value);
    }

    method BuildRows(rows: seq<Row>) returns (r: Result<string>)
      requires stack != [] && stack[|stack| - 1] == InsertKind
      modifies this`stack
      ensures stack == old(stack)
      ensures r == Joined(RowTexts(tables, rows), ", ")
      decreases rows, 0
    {
      hide RowText, RowTexts;
      var oss := "";
      ghost var texts: seq<string> := [];
      for i := 0 to |rows|
        invariant stack == old(stack) && |texts| == i && oss == JoinTexts(texts, ", ")
        invariant forall k :: 0 <= k < i ==> RowText(tables, rows[k]) == Ok(texts[k])
      {
        if i > 0 { oss := oss + ", "; }
        var t := BuildRow(rows[i]);
        if t.Throw? {
          RowsThrow(tables, rows, i);
          return Throw;
        }
        oss := oss + t.value;
        JoinAppend(texts, t.value, ", ");
        texts := texts + [t.value];
      }
      RowsAre(tables, rows, texts);
      return Ok(oss);
    }

    method BuildRow(row: Row) returns (r: Result<string>)
      requires stack != [] && stack[|stack| - 1] == InsertKind
      modifies this`stack
      ensures stack == old(stack)
      ensures r == RowText(tables, row)
      decreases row, 0
    {
      var cells := BuildList(row.cells);
      return if cells.Throw? then Throw else Ok("(" + cells.value + ")");
    }

    method BuildSelect(c: Clause) returns (r: Result<string>)
      requires c.Select? && stack != [] && stack[|stack| - 1] == SelectKind
      modifies this`stack
      ensures stack == old(stack)
      ensures r == Text(tables, c, if |stack| > 1 then Some(stack[|stack| - 2]) else None)
      ensures r.Ok? ==> r.value != "" && (r.value[0] == '(' <==> |stack| > 1 && TakesBraces(stack[|stack| - 2]))
      decreases c, 3
    {
      var body := BuildSelectBody(c);
      if body.Ok? { SelectStarts(tables, c); }
      if |stack| > 1 && stack[|stack| - 2] in WITH_BRACES {
        return Concat2(Concat2(Ok("("), body), Ok(")"));
      }
      return body;
    }

    method BuildSelectBody(c: Clause) returns (r: Result<string>)
      requires c.Select? && stack != [] && stack[|stack| - 1] == SelectKind
      modifies this`stack
      ensures stack == old(stack)
      ensures r == SelectText(tables, c)
      decreases c, 2
    {
      hide Text, Texts, Joined, Optional, Concat2;
      var list := Ok("*");
      if c.selectors != [] { list := BuildList(c.selectors); }
      var from := BuildOptional(" FROM ", c.from);
      var joins := BuildJoins(c.joins);
      var where := BuildOptional(" WHERE ", c.where);
      var groupBy := BuildOptional(" GROUP BY ", c.groupBy);
      var having := BuildOptional(" HAVING ", c.having);
      var orderBy := BuildOptional(" ORDER BY ", c.orderBy);
      var limit := BuildOptional(" LIMIT ", c.limit);
      return Concat2(Concat2(Concat2(Concat2(Concat2(Concat2(Concat2(Concat2(
        Ok("SELECT "), list), from), joins), where), groupBy), having), orderBy), limit);
    }

    method BuildInsert(c: Clause) returns (r: Result<string>)
      requires c.Insert? && stack != [] && stack[|stack| - 1] == InsertKind
      modifies this`stack
      ensures stack == old(stack)
      ensures r == InsertText(tables, c)
      decreases c, 3
    {
      var columns := Ok("");
      if c.columns != [] {
        var list := BuildList(c.columns);
        columns := if list.Ok? then Ok("(" + list.value + ") ") else Throw;
      }
      var values := Ok("");
      if c.isValues {
        if c.rows == [] {
          values := Ok("DEFAULT VALUES");
        } else {
          var rows := BuildRows(c.rows);
          values := Concat2(Ok("VALUES "), rows);
        }
      }
      var conflict := Ok("");
      if c.isDoUpdate {
        var list := BuildAssignments(c.doUpdate);
        conflict := Concat2(Ok(" ON CONFLICT DO UPDATE SET "), list);
      }
      return Concat2(Concat2(Concat2(Ok("INSERT INTO " + TableText(c.into) + " "), columns), values), conflict);
    }
  }

  /** The parents under which a SELECT is a subquery. */
  predicate TakesBraces(parent: ClauseKind) {
    || parent == ExpressionKind || parent == SelectKind || parent == UpdateKind || parent == InsertKind
    || parent == DeleteKind
  }

  lemma SelectStarts(tables: map<Path, Path>, c: Clause)
    requires c.Select? && SelectText(tables, c).Ok?
    ensures "SELECT" <= SelectText(tables, c).value
  {
    hide Texts, Joined, Optional;
  }
}
