/** The builder's clause trees and the SQL text PostgresBuilder produces for them, as a pure printer. */
module SqlTree {
  import opened Common
  import Decimal

  type Path = seq<nat>

  /** EClauseType, for the clauses modelled here. */
  datatype ClauseKind =
    | StringKind | IntKind | FloatKind | BoolKind | ExpressionKind | AllKind | ColumnKind | TableKind | DefaultKind
    | JoinKind | SelectKind | InsertKind | UpdateKind | DeleteKind | TruncateKind
    | StartTransactionKind | CommitTransactionKind | RollbackTransactionKind

  /** EExpressionType. */
  datatype ExprType =
    | UnknownType
    | Add | Subtract | Multiply | Divide | Modulo | Exponent
    | Equals | NotEquals | GreaterThan | LessThan | GreaterThanOrEquals | LessThanOrEquals
    | And | Or | Not
    | Like | ILike | SimilarTo | RegexpMatch
    | IsNull | IsNotNull | BetweenType | InType | NotInType | ExistsType
    | CountType | Sum | Avg | Min | Max | ArrayAgg | StringAgg | JsonAgg
    | Abs | Round | Ceil | Floor | Sqrt | LogType | Random | Sin | Cos | Tan | Power
    | Concat | Lower | Upper | SubstringType | Length | Replace | Trim | LeftType | RightType | PositionType | SplitPart
    | CaseType | Coalesce | Greatest | Least

  datatype KeyType = Simple | Primary | Index

  datatype JoinType = LeftJoin | InnerJoin | ExclusiveLeftJoin

  /** A clause tree; Null is the null clause pointer. A float is given by the text std::to_string has for it. */
  datatype Clause =
    | Null
    | Str(text: string)
    | Int(number: int)
    | Float(digits: string)
    | Bool(truth: bool)
    | Expression(op: ExprType, operands: seq<Clause>)
    | All
    | Column(tablePath: Path, fieldPath: Path, key: KeyType, excluded: bool)
    | Table(table: Path)
    | Default
    | Join(joinType: JoinType, joined: Path, on: Clause)
    | Select(selectors: seq<Clause>, from: Clause, joins: seq<Clause>, where: Clause, groupBy: Clause,
             having: Clause, orderBy: Clause, limit: Clause)
    | Insert(into: Path, columns: seq<Clause>, isValues: bool, rows: seq<Row>,
             isDoUpdate: bool, doUpdate: seq<Assignment>)
    | Update(updated: Path, sets: seq<Assignment>, where: Clause)
    | Delete(deleted: Path, where: Clause)
    | Truncate(truncated: Path)
    | StartTransaction(readOnly: bool)
    | CommitTransaction
    | RollbackTransaction

  /** One row of VALUES. */
  datatype Row = Row(cells: seq<Clause>)

  /** One "column = value" of SET. */
  datatype Assignment = Assignment(target: Clause, value: Clause)

  function KindOf(c: Clause): ClauseKind
    requires c != Null
  {
    match c
    case Str(_) => StringKind
    case Int(_) => IntKind
    case Float(_) => FloatKind
    case Bool(_) => BoolKind
    case Expression(_, _) => ExpressionKind
    case All => AllKind
    case Column(_, _, _, _) => ColumnKind
    case Table(_) => TableKind
    case Default => DefaultKind
    case Join(_, _, _) => JoinKind
    case Select(_, _, _, _, _, _, _, _) => SelectKind
    case Insert(_, _, _, _, _, _) => InsertKind
    case Update(_, _, _) => UpdateKind
    case Delete(_, _) => DeleteKind
    case Truncate(_) => TruncateKind
    case StartTransaction(_) => StartTransactionKind
    case CommitTransaction => CommitTransactionKind
    case RollbackTransaction => RollbackTransactionKind
  }

  // ---------------------------------------------------------------------------------- Leaves

  /** One character inside a quoted SQL string. */
  function EscapeChar(c: char): string {
    if c == '\'' then "''"
    else if c == '\\' then "\\\\"
    else if c == '\n' then "\\n"
    else if c == '\r' then "\\r"
    else if c == '\t' then "\\t"
    else [c]
  }

  function EscapeBody(text: string): string {
    if text == "" then "" else EscapeChar(text[0]) + EscapeBody(text[1..])
  }

  /** Texts joined by a separator. */
  function JoinTexts(texts: seq<string>, separator: string): string {
    if texts == [] then ""
    else if |texts| == 1 then texts[0]
    else texts[0] + separator + JoinTexts(texts[1..], separator)
  }

  function Numerals(path: Path): seq<string> {
    if path == [] then [] else [Decimal.Numeral(path[0])] + Numerals(path[1..])
  }

  /** A path as it appears in identifiers: its numbers joined by underscores. */
  function PathText(path: Path): string { JoinTexts(Numerals(path), "_") }

  function KeyPrefix(key: KeyType): string {
    match key case Simple => "f_" case Primary => "p_" case Index => "i_"
  }

  function FieldText(path: Path, key: KeyType): string { KeyPrefix(key) + PathText(path) }

  function TableText(path: Path): string { "t_" + PathText(path) }

  function ColumnText(tablePath: Path, fieldPath: Path, key: KeyType, excluded: bool): string {
    if excluded then "EXCLUDED." + FieldText(fieldPath, key)
    else if tablePath == [] then FieldText(fieldPath, key)
    else TableText(tablePath) + "." + FieldText(fieldPath, key)
  }

  // ---------------------------------------------------------------------------------- Expressions

  /** How the operands of an expression are laid out. */
  datatype Shape =
    | Infix(sign: string)
    | Call(name: string, least: nat, most: Option<nat>)
    | NotForm
    | Postfix(suffix: string)
    | BetweenForm
    | InForm(keyword: string)
    | SubstringForm
    | PositionForm
    | ExistsForm
    | LogForm
    | CaseForm
    | NoShape

  function ShapeOf(op: ExprType): Shape {
    if IsBinary(op) then Infix(SignOf(op))
    else if HasName(op) then Call(NameOf(op), LeastOf(op), MostOf(op))
    else if op == Exponent then Call("POWER", 2, Some(2))
    else if op == Not then NotForm
    else if op == IsNull then Postfix(" IS NULL")
    else if op == IsNotNull then Postfix(" IS NOT NULL")
    else if op == BetweenType then BetweenForm
    else if op == InType then InForm(" IN (")
    else if op == NotInType then InForm(" NOT IN (")
    else if op == ExistsType then ExistsForm
    else if op == SubstringType then SubstringForm
    else if op == PositionType then PositionForm
    else if op == LogType then LogForm
    else if op == CaseType then CaseForm
    else NoShape
  }

  /** The functions written NAME(argument, ...). */
  predicate HasName(op: ExprType) {
    IsAggregate(op) || IsMath(op) || IsStringFunction(op) || IsConditional(op)
  }

  predicate IsConditional(op: ExprType) { op == Coalesce || op == Greatest || op == Least }

  /** The expressions written (left sign right). */
  predicate IsBinary(op: ExprType) { IsArithmetic(op) || IsComparison(op) || IsLogicalOrMatch(op) }

  predicate IsArithmetic(op: ExprType) {
    || op == Add || op == Subtract || op == Multiply || op == Divide || op == Modulo
  }

  predicate IsComparison(op: ExprType) {
    || op == Equals || op == NotEquals || op == GreaterThan || op == LessThan
    || op == GreaterThanOrEquals || op == LessThanOrEquals
  }

  predicate IsLogicalOrMatch(op: ExprType) {
    || op == And || op == Or || op == Like || op == ILike || op == SimilarTo || op == RegexpMatch
  }

  /** The sign of a binary operator, with its spaces. */
  function SignOf(op: ExprType): string {
    if IsArithmetic(op) then ArithmeticSign(op) else if IsComparison(op) then ComparisonSign(op) else LogicalSign(op)
  }

  function ArithmeticSign(op: ExprType): string {
    if op == Add then " + "
    else if op == Subtract then " - "
    else if op == Multiply then " * "
    else if op == Divide then " / "
    else " % "
  }

  function ComparisonSign(op: ExprType): string {
    if op == Equals then " = "
    else if op == NotEquals then " <> "
    else if op == GreaterThan then " > "
    else if op == LessThan then " < "
    else if op == GreaterThanOrEquals then " >= "
    else " <= "
  }

  function LogicalSign(op: ExprType): string {
    if op == And then " AND "
    else if op == Or then " OR "
    else if op == Like then " LIKE "
    else if op == ILike then " ILIKE "
    else if op == SimilarTo then " SIMILAR TO "
    else " ~ "
  }

  /** The fewest operands of a function. */
  function LeastOf(op: ExprType): nat {
    if op == Random then 0
    else if op == Power || op == StringAgg || op == Concat || op == LeftType || op == RightType then 2
    else if op == Replace || op == SplitPart then 3
    else 1
  }

  /** The most operands of a function; CONCAT, COALESCE, GREATEST and LEAST take any number. */
  function MostOf(op: ExprType): Option<nat> {
    if op == Concat || op == Coalesce || op == Greatest || op == Least then None
    else if op == Round then Some(2)
    else Some(LeastOf(op))
  }

  predicate IsAggregate(op: ExprType) {
    || op == CountType || op == Sum || op == Avg || op == Min || op == Max
    || op == ArrayAgg || op == StringAgg || op == JsonAgg
  }

  predicate IsMath(op: ExprType) {
    || op == Abs || op == Round || op == Ceil || op == Floor || op == Sqrt
    || op == Random || op == Sin || op == Cos || op == Tan || op == Power
  }

  predicate IsStringFunction(op: ExprType) {
    || op == Concat || op == Lower || op == Upper || op == Length || op == Replace
    || op == Trim || op == LeftType || op == RightType || op == SplitPart
  }

  /** The SQL name of a function. */
  function NameOf(op: ExprType): string {
    if IsAggregate(op) then AggregateName(op)
    else if IsMath(op) then MathName(op)
    else if IsStringFunction(op) then StringName(op)
    else ConditionalName(op)
  }

  function ConditionalName(op: ExprType): string {
    if op == Coalesce then "COALESCE" else if op == Greatest then "GREATEST" else "LEAST"
  }

  function AggregateName(op: ExprType): string {
    if op == CountType then "COUNT"
    else if op == Sum then "SUM"
    else if op == Avg then "AVG"
    else if op == Min then "MIN"
    else if op == Max then "MAX"
    else if op == ArrayAgg then "ARRAY_AGG"
    else if op == StringAgg then "STRING_AGG"
    else "JSON_AGG"
  }

  function MathName(op: ExprType): string {
    if op == Abs then "ABS"
    else if op == Round then "ROUND"
    else if op == Ceil then "CEIL"
    else if op == Floor then "FLOOR"
    else if op == Sqrt then "SQRT"
    else if op == Random then "RANDOM"
    else if op == Sin then "SIN"
    else if op == Cos then "COS"
    else if op == Tan then "TAN"
    else "POWER"
  }

  function StringName(op: ExprType): string {
    if op == Concat then "CONCAT"
    else if op == Lower then "LOWER"
    else if op == Upper then "UPPER"
    else if op == Length then "LENGTH"
    else if op == Replace then "REPLACE"
    else if op == Trim then "TRIM"
    else if op == LeftType then "LEFT"
    else if op == RightType then "RIGHT"
    else "SPLIT_PART"
  }

  /** The operand counts an expression type accepts; any other count throws. */
  predicate ArityOk(shape: Shape, n: nat) {
    match shape
    case Infix(_) => n == 2
    case Call(_, least, most) => n >= least && (most.Some? ==> n <= most.value)
    case NotForm => n == 1
    case Postfix(_) => n == 1
    case BetweenForm => n == 3
    case InForm(_) => n >= 2
    case SubstringForm => n == 2 || n == 3
    case PositionForm => n == 2
    case ExistsForm => n == 1
    case LogForm => n == 1 || n == 2
    case CaseForm => n >= 3 && n % 2 == 1
    case NoShape => false
  }

  /** WHEN/THEN pairs, then ELSE. */
  function CaseTail(texts: seq<string>): string
    requires |texts| % 2 == 1
  {
    if |texts| == 1 then " ELSE " + texts[0] + " END"
    else " WHEN " + texts[0] + " THEN " + texts[1] + CaseTail(texts[2..])
  }

  /** The text of an expression, given the texts of its operands. */
  function Layout(shape: Shape, texts: seq<string>): string
    requires ArityOk(shape, |texts|)
  {
    match shape
    case Infix(sign) => "(" + texts[0] + sign + texts[1] + ")"
    case Call(name, _, _) => name + "(" + JoinTexts(texts, ", ") + ")"
    case NotForm => "NOT " + texts[0]
    case Postfix(suffix) => texts[0] + suffix
    case BetweenForm => "(" + texts[0] + " BETWEEN " + texts[1] + " AND " + texts[2] + ")"
    case InForm(keyword) => texts[0] + keyword + JoinTexts(texts[1..], ", ") + ")"
    case SubstringForm =>
      "SUBSTRING(" + texts[0] + " FROM " + texts[1] + (if |texts| == 3 then " FOR " + texts[2] else "") + ")"
    case PositionForm => "POSITION(" + texts[0] + " IN " + texts[1] + ")"
    case ExistsForm => "EXISTS (" + texts[0] + ")"
    case LogForm => if |texts| == 1 then "LN(" + texts[0] + ")" else "LOG(" + texts[1] + ", " + texts[0] + ")"
    case CaseForm => "CASE" + CaseTail(texts)
  }

  // ---------------------------------------------------------------------------------- Clauses

  /** The parent clause kinds under which a SELECT is put in parentheses. */
  const WITH_BRACES: set<ClauseKind> := {ExpressionKind, SelectKind, UpdateKind, InsertKind, DeleteKind}

  /** TMessagePath::GetTable: the registered table of a path; an unregistered path throws. */
  function TableOf(tables: map<Path, Path>, path: Path): Result<Path> {
    if path in tables then Ok(tables[path]) else Throw
  }

  /** The text of a keyword and a clause, or nothing for a null clause. */
  function Optional(tables: map<Path, Path>, keyword: string, c: Clause, parent: ClauseKind): Result<string>
    decreases c, 2
  {
    if c == Null then Ok("")
    else match Text(tables, c, Some(parent)) case Ok(t) => Ok(keyword + t) case Throw => Throw
  }

  function Texts(tables: map<Path, Path>, cs: seq<Clause>, parent: ClauseKind): (r: Result<seq<string>>)
    ensures r.Ok? ==> |r.value| == |cs|
    decreases cs, 0
  {
    if cs == [] then Ok([])
    else
      match (Text(tables, cs[0], Some(parent)), Texts(tables, cs[1..], parent))
      case (Ok(t), Ok(ts)) => Ok([t] + ts)
      case _ => Throw
  }

  /** A row of VALUES in its own parentheses. */
  function RowText(tables: map<Path, Path>, row: Row): Result<string>
    decreases row, 0
  {
    match Texts(tables, row.cells, InsertKind)
    case Ok(cells) => Ok("(" + JoinTexts(cells, ", ") + ")")
    case Throw => Throw
  }

  function RowTexts(tables: map<Path, Path>, rows: seq<Row>): Result<seq<string>>
    decreases rows, 0
  {
    if rows == [] then Ok([])
    else
      match (RowText(tables, rows[0]), RowTexts(tables, rows[1..]))
      case (Ok(t), Ok(ts)) => Ok([t] + ts)
      case _ => Throw
  }

  function AssignText(tables: map<Path, Path>, pair: Assignment, parent: ClauseKind): Result<string>
    decreases pair, 0
  {
    match (Text(tables, pair.target, Some(parent)), Text(tables, pair.value, Some(parent)))
    case (Ok(left), Ok(right)) => Ok(left + " = " + right)
    case _ => Throw
  }

  function AssignTexts(tables: map<Path, Path>, pairs: seq<Assignment>, parent: ClauseKind): Result<seq<string>>
    decreases pairs, 0
  {
    if pairs == [] then Ok([])
    else
      match (AssignText(tables, pairs[0], parent), AssignTexts(tables, pairs[1..], parent))
      case (Ok(t), Ok(ts)) => Ok([t] + ts)
      case _ => Throw
  }

  function Concat2(a: Result<string>, b: Result<string>): Result<string> {
    match (a, b) case (Ok(x), Ok(y)) => Ok(x + y) case _ => Throw
  }

  function Joined(texts: Result<seq<string>>, separator: string): Result<string> {
    match texts case Ok(ts) => Ok(JoinTexts(ts, separator)) case Throw => Throw
  }

  /** Each text preceded by a space. */
  function Spaced(texts: seq<string>): string {
    if texts == [] then "" else " " + texts[0] + Spaced(texts[1..])
  }

  function JoinKeyword(t: JoinType): string {
    match t case LeftJoin => "LEFT JOIN " case InnerJoin => "INNER JOIN " case ExclusiveLeftJoin => "LEFT OUTER JOIN "
  }

  function TableName(tables: map<Path, Path>, path: Path): Result<string> {
    match TableOf(tables, path) case Ok(t) => Ok(TableText(t)) case Throw => Throw
  }

  function SelectText(tables: map<Path, Path>, c: Clause): Result<string>
    requires c.Select?
    decreases c, 0
  {
    var list := if c.selectors == [] then Ok("*") else Joined(Texts(tables, c.selectors, SelectKind), ", ");
    var joins := match Texts(tables, c.joins, SelectKind) case Ok(ts) => Ok(Spaced(ts)) case Throw => Throw;
    Concat2(Concat2(Concat2(Concat2(Concat2(Concat2(Concat2(Concat2(
      Ok("SELECT "), list),
      Optional(tables, " FROM ", c.from, SelectKind)),
      joins),
      Optional(tables, " WHERE ", c.where, SelectKind)),
      Optional(tables, " GROUP BY ", c.groupBy, SelectKind)),
      Optional(tables, " HAVING ", c.having, SelectKind)),
      Optional(tables, " ORDER BY ", c.orderBy, SelectKind)),
      Optional(tables, " LIMIT ", c.limit, SelectKind))
  }

  function InsertText(tables: map<Path, Path>, c: Clause): Result<string>
    requires c.Insert?
    decreases c, 0
  {
    var columns :=
      if c.columns == [] then Ok("")
      else
        match Joined(Texts(tables, c.columns, InsertKind), ", ")
        case Ok(t) => Ok("(" + t + ") ")
        case Throw => Throw;
    var values :=
      if !c.isValues then Ok("") else if c.rows == [] then Ok("DEFAULT VALUES")
      else Concat2(Ok("VALUES "), Joined(RowTexts(tables, c.rows), ", "));
    var conflict :=
      if !c.isDoUpdate then Ok("")
      else Concat2(Ok(" ON CONFLICT DO UPDATE SET "), Joined(AssignTexts(tables, c.doUpdate, InsertKind), ", "));
    Concat2(Concat2(Concat2(Ok("INSERT INTO " + TableText(c.into) + " "), columns), values), conflict)
  }

  /** The text of a clause below a parent of the given kind (None at the top). */
  function Text(tables: map<Path, Path>, c: Clause, parent: Option<ClauseKind>): Result<string>
    decreases c, 1
  {
    match c
    case Null => Ok("")
    case Str(text) => Ok("'" + EscapeBody(text) + "'")
    case Int(number) => Ok(Decimal.ToString(number))
    case Float(digits) => Ok(digits)
    case Bool(truth) => Ok(if truth then "TRUE" else "FALSE")
    case Expression(op, operands) =>
      if !ArityOk(ShapeOf(op), |operands|) then Throw
      else (match Texts(tables, operands,
        ExpressionKind) case Ok(ts) => Ok(Layout(ShapeOf(op), ts)) case Throw => Throw)
    case All => Ok("*")
    case Column(tablePath, fieldPath, key, excluded) => Ok(ColumnText(tablePath, fieldPath, key, excluded))
    case Table(table) => TableName(tables, table)
    case Default => Ok("DEFAULT")
    case Join(joinType, joined, on) =>
      Concat2(Concat2(Ok(JoinKeyword(joinType)), Concat2(TableName(tables, joined), Ok(" "))),
        Optional(tables, "ON ", on, JoinKind))
    case Select(_, _, _, _, _, _, _, _) =>
      var body := SelectText(tables, c);
      if parent.Some? && parent.value in WITH_BRACES then Concat2(Concat2(Ok("("), body), Ok(")")) else body
    case Insert(_, _, _, _, _, _) => InsertText(tables, c)
    case Update(updated, sets, where) =>
      Concat2(Concat2(Concat2(Ok("UPDATE "), Concat2(TableName(tables, updated), Ok(" SET "))),
                      Joined(AssignTexts(tables, sets, UpdateKind), ", ")),
              Optional(tables, " WHERE ", where, UpdateKind))
    case Delete(deleted, where) =>
      Concat2(Concat2(Ok("DELETE FROM "), TableName(tables, deleted)), Optional(tables, " WHERE ", where, DeleteKind))
    case Truncate(truncated) => Concat2(Ok("TRUNCATE TABLE "), TableName(tables, truncated))
    case StartTransaction(readOnly) => Ok(if readOnly then "BEGIN READ ONLY" else "BEGIN")
    case CommitTransaction => Ok("COMMIT")
    case RollbackTransaction => Ok("ROLLBACK")
  }
}
