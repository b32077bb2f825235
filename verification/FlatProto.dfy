/**
 Request trees and their flat protobuf form: ToProto appends the clauses of a tree in post-order, each
 naming its children by position; CreateClauseFromProto follows the positions back.
 */
module FlatProto {
  import opened Common
  import SqlTree

  type Path = SqlTree.Path

  /** An attribute of INSERT or UPDATE, kept in its encoded form. */
  datatype Attribute = Attribute(path: Path, payload: seq<bv8>)

  /** A request clause. Select's table is None when nothing has set it. */
  datatype Tree =
    | Str(text: string)
    | Int(number: int)
    | Float(value: real)
    | Bool(truth: bool)
    | Expression(op: SqlTree.ExprType, operands: seq<Tree>)
    | All
    | Column(path: Path, excluded: bool)
    | Default
    | Select(table: Option<nat>, selectors: seq<Tree>, where: Option<Tree>, groupBy: Option<Tree>, having: Option<Tree>,
             orderBy: Option<Tree>, limit: Option<Tree>)
    | Insert(into: nat, subrequests: seq<seq<Attribute>>, updateIfExists: bool)
    | Update(updated: nat, updates: seq<seq<Attribute>>)
    | Delete(deleted: nat, condition: Option<Tree>)
    | Truncate(truncated: nat)
    | StartTransaction
    | CommitTransaction
    | RollbackTransaction

  /** One entry of TQuery.clauses; children are given by their positions. */
  datatype Message =
    | StringMsg(text: string)
    | IntegerMsg(number: int)
    | FloatMsg(value: real)
    | BoolMsg(truth: bool)
    | ExpressionMsg(op: SqlTree.ExprType, operands: seq<int>)
    | AllMsg
    | ColumnMsg(path: Path, excluded: bool)
    | DefaultMsg
    | SelectMsg(selectors: seq<int>, where: Option<int>, groupBy: Option<int>, having: Option<int>,
                orderBy: Option<int>, limit: Option<int>)
    | InsertMsg(into: nat, subrequests: seq<seq<Attribute>>, updateIfExists: bool)
    | UpdateMsg(updated: nat, updates: seq<seq<Attribute>>)
    | DeleteMsg(deleted: nat, condition: Option<int>)
    | TruncateMsg(truncated: nat)
    | StartTransactionMsg
    | CommitTransactionMsg
    | RollbackTransactionMsg
    | NotSet

  // ---------------------------------------------------------------------------------- Children

  function Present<T>(o: Option<T>): seq<T> {
    match o case Some(x) => [x] case None => []
  }

  /** The children of a clause, in the order ToProto writes them. */
  function Children(t: Tree): (r: seq<Tree>)
    ensures forall i :: 0 <= i < |r| ==> r[i] < t
  {
    match t
    case Expression(_, operands) => operands
    case Select(_, selectors, where, groupBy, having, orderBy, limit) =>
      selectors + Present(where) + Present(groupBy) + Present(having) + Present(orderBy) + Present(limit)
    case Delete(_, condition) => Present(condition)
    case _ => []
  }

  /** The references of an entry, in the order FromProto follows them. */
  function Refs(m: Message): seq<int> {
    match m
    case ExpressionMsg(_, operands) => operands
    case SelectMsg(selectors, where, groupBy, having, orderBy, limit) =>
      selectors + Present(where) + Present(groupBy) + Present(having) + Present(orderBy) + Present(limit)
    case DeleteMsg(_, condition) => Present(condition)
    case _ => []
  }

  /** The item for an optional clause, the first of what is left, if the clause is there. */
  function First<S, T>(o: Option<S>, items: seq<T>): Option<T>
    requires |Present(o)| <= |items|
  {
    if o.Some? then Some(items[0]) else None
  }

  function Rest<S, T>(o: Option<S>, items: seq<T>): (r: seq<T>)
    requires |Present(o)| <= |items|
    ensures |r| == |items| - |Present(o)|
  {
    items[|Present(o)|..]
  }

  /** The entry of a clause whose children stand at the given positions. */
  function MessageOf(t: Tree, roots: seq<int>, narrow: real -> real): Message
    requires |roots| == |Children(t)|
  {
    match t
    case Str(text) => StringMsg(text)
    case Int(number) => IntegerMsg(number)
    case Float(value) => FloatMsg(narrow(value))
    case Bool(truth) => BoolMsg(truth)
    case Expression(op, _) => ExpressionMsg(op, roots)
    case All => AllMsg
    case Column(path, excluded) => ColumnMsg(path, excluded)
    case Default => DefaultMsg
    case Select(_, selectors, where, groupBy, having, orderBy, limit) =>
      var r0 := roots[|selectors|..];
      var r1 := Rest(where, r0);
      var r2 := Rest(groupBy, r1);
      var r3 := Rest(having, r2);
      var r4 := Rest(orderBy, r3);
      SelectMsg(roots[..|selectors|], First(where, r0), First(groupBy, r1), First(having, r2), First(orderBy, r3),
                First(limit, r4))
    case Insert(into, subrequests, updateIfExists) => InsertMsg(into, subrequests, updateIfExists)
    case Update(updated, updates) => UpdateMsg(updated, updates)
    case Delete(deleted, condition) => DeleteMsg(deleted, First(condition, roots))
    case Truncate(truncated) => TruncateMsg(truncated)
    case StartTransaction => StartTransactionMsg
    case CommitTransaction => CommitTransactionMsg
    case RollbackTransaction => RollbackTransactionMsg
  }

  /** CreateClauseFromProto has no case for these. */
  predicate Unknown(m: Message) { m == AllMsg || m == DefaultMsg || m == NotSet }

  /** The clause of an entry, given the clauses its references stand for. */
  function Assemble(m: Message, trees: seq<Tree>): Tree
    requires |trees| == |Refs(m)| && !Unknown(m)
  {
    match m
    case StringMsg(text) => Str(text)
    case IntegerMsg(number) => Int(number)
    case FloatMsg(value) => Float(value)
    case BoolMsg(truth) => Bool(truth)
    case ExpressionMsg(op, _) => Expression(op, trees)
    case ColumnMsg(path, excluded) => Column(path, excluded)
    case SelectMsg(selectors, where, groupBy, having, orderBy, limit) =>
      var r0 := trees[|selectors|..];
      var r1 := Rest(where, r0);
      var r2 := Rest(groupBy, r1);
      var r3 := Rest(having, r2);
      var r4 := Rest(orderBy, r3);
      Select(None, trees[..|selectors|], First(where, r0), First(groupBy, r1), First(having, r2), First(orderBy, r3),
             First(limit, r4))
    case InsertMsg(into, subrequests, updateIfExists) => Insert(into, subrequests, updateIfExists)
    case UpdateMsg(updated, updates) => Update(updated, updates)
    case DeleteMsg(deleted, condition) => Delete(deleted, First(condition, trees))
    case TruncateMsg(truncated) => Truncate(truncated)
    case StartTransactionMsg => StartTransaction
    case CommitTransactionMsg => CommitTransaction
    case RollbackTransactionMsg => RollbackTransaction
  }

  // ---------------------------------------------------------------------------------- Writing

  /** Entries appended for some children, and the positions of those children. */
  datatype Part = Part(entries: seq<Message>, roots: seq<int>)

  /** The entries ToProto appends for a clause to a query that has `base` entries. */
  function Flatten(t: Tree, base: nat, narrow: real -> real): (r: seq<Message>)
    ensures r != []
    decreases t, 1, 0
  {
    var part := FlattenChildren(t, |Children(t)|, base, narrow);
    part.entries + [MessageOf(t, part.roots, narrow)]
  }

  /** The entries of the first k children. */
  function FlattenChildren(t: Tree, k: nat, base: nat, narrow: real -> real): (r: Part)
    requires k <= |Children(t)|
    ensures |r.roots| == k
    decreases t, 0, k
  {
    if k == 0 then Part([], [])
    else
      var before := FlattenChildren(t, k - 1, base, narrow);
      var own := Flatten(Children(t)[k - 1], base + |before.entries|, narrow);
      Part(before.entries + own, before.roots + [base + |before.entries| + |own| - 1])
  }

  /** TQuery::ToProto: the clauses one after another, and the position of each. */
  function FlattenQuery(ts: seq<Tree>, base: nat, narrow: real -> real): (r: Part)
    ensures |r.roots| == |ts|
  {
    if ts == [] then Part([], [])
    else
      var before := FlattenQuery(ts[..|ts| - 1], base, narrow);
      var own := Flatten(ts[|ts| - 1], base + |before.entries|, narrow);
      Part(before.entries + own, before.roots + [base + |before.entries| + |own| - 1])
  }

  // ---------------------------------------------------------------------------------- Reading

  /** What following references ends in: a value, an exception, or a stack that is too deep. */
  datatype Outcome<+T> = Done(value: T) | Throws | TooDeep
  {
    predicate IsFailure() { !Done? }

    function PropagateFailure<U>(): Outcome<U>
      requires IsFailure()
    {
      if Throws? then Throws else TooDeep
    }

    function Extract(): T
      requires !IsFailure()
    {
      value
    }
  }

  /** CreateClauseFromProto on a stack with room for `depth` nested calls. */
  function Read(input: seq<Message>, i: int, depth: nat): Outcome<Tree>
    decreases depth, 0
  {
    if depth == 0 then TooDeep
    else if !(0 <= i < |input|) || Unknown(input[i]) then Throws
    else
      match ReadAll(input, Refs(input[i]), depth - 1)
      case Done(trees) => Done(Assemble(input[i], trees))
      case Throws => Throws
      case TooDeep => TooDeep
  }

  function ReadAll(input: seq<Message>, refs: seq<int>, depth: nat): (r: Outcome<seq<Tree>>)
    ensures r.Done? ==> |r.value| == |refs|
    decreases depth, 1 + |refs|
  {
    if refs == [] then Done([])
    else
      match Read(input, refs[0], depth)
      case Throws => Throws
      case TooDeep => TooDeep
      case Done(t) =>
        match ReadAll(input, refs[1..], depth)
        case Done(ts) => Done([t] + ts)
        case Throws => Throws
        case TooDeep => TooDeep
  }

  // ---------------------------------------------------------------------------------- What is kept

  /** A tree after the round trip: floats are narrowed and Select forgets its table. */
  function Stored(t: Tree, narrow: real -> real): Tree {
    match t
    case Float(value) => Float(narrow(value))
    case Expression(op, operands) => Expression(op, StoredAll(operands, narrow))
    case Select(_, selectors, where, groupBy, having, orderBy, limit) =>
      Select(None, StoredAll(selectors, narrow), StoredOption(where, narrow), StoredOption(groupBy, narrow),
             StoredOption(having, narrow), StoredOption(orderBy, narrow), StoredOption(limit, narrow))
    case Delete(deleted, condition) => Delete(deleted, StoredOption(condition, narrow))
    case _ => t
  }

  function StoredAll(ts: seq<Tree>, narrow: real -> real): (r: seq<Tree>)
    ensures |r| == |ts|
    ensures forall i :: 0 <= i < |ts| ==> r[i] == Stored(ts[i], narrow)
  {
    if ts == [] then [] else [Stored(ts[0], narrow)] + StoredAll(ts[1..], narrow)
  }

  function StoredOption(o: Option<Tree>, narrow: real -> real): Option<Tree> {
    match o case Some(t) => Some(Stored(t, narrow)) case None => None
  }

  /** The tree has a part the reader does not know: ALL or DEFAULT. */
  ghost predicate HasUnknown(t: Tree)
    decreases t
  {
    t == All || t == Default || exists i :: 0 <= i < |Children(t)| && HasUnknown(Children(t)[i])
  }

  /** Nothing in the tree is changed by the round trip. */
  ghost predicate Survives(t: Tree, narrow: real -> real)
    decreases t
  {
    && (t.Float? ==> narrow(t.value) == t.value)
    && (t.Select? ==> t.table == None)
    && forall i :: 0 <= i < |Children(t)| ==> Survives(Children(t)[i], narrow)
  }
}
