/**
 The code that writes and reads TQuery, step by step, against the specification in FlatProto: ToProto appends to the
 clauses of its output, FromProto follows references from an entry to the entries before it.
 */
module RequestQuery {
  import opened Common
  import opened FlatProto
  import opened FlatProtoRoundTrip

  // ---------------------------------------------------------------------------------- Writing

  /** The first k children of t have been written after `before`, giving `now`; they stand at `roots`. */
  ghost predicate Written(t: Tree, k: nat, before: seq<Message>, now: seq<Message>, roots: seq<int>,
                          narrow: real -> real) {
    && k <= |Children(t)|
    && now == before + FlattenChildren(t, k, |before|, narrow).entries
    && roots == FlattenChildren(t, k, |before|, narrow).roots
  }

  lemma NothingWritten(t: Tree, before: seq<Message>, narrow: real -> real)
    ensures Written(t, 0, before, before, [], narrow)
  {
    assert before + [] == before;
  }

  lemma ChildWritten(t: Tree, k: nat, before: seq<Message>, now: seq<Message>, roots: seq<int>, narrow: real -> real)
    requires Written(t, k, before, now, roots, narrow) && k < |Children(t)|
    ensures var after := now + Flatten(Children(t)[k], |now|, narrow);
            Written(t, k + 1, before, after, roots + [|after| - 1], narrow)
  {
    hide Flatten, Children;
    var part := FlattenChildren(t, k, |before|, narrow);
    var own := Flatten(Children(t)[k], |before| + |part.entries|, narrow);
    assert before + (part.entries + own) == before + part.entries + own;
  }

  lemma AllWritten(t: Tree, before: seq<Message>, now: seq<Message>, roots: seq<int>, narrow: real -> real)
    requires Written(t, |Children(t)|, before, now, roots, narrow)
    ensures now + [MessageOf(t, roots, narrow)] == before + Flatten(t, |before|, narrow)
  {
    hide MessageOf, FlattenChildren, Children;
    var part := FlattenChildren(t, |Children(t)|, |before|, narrow);
    assert before + (part.entries + [MessageOf(t, roots, narrow)]) == before + part.entries +
      [MessageOf(t, roots, narrow)];
  }

  /** The children of t from k on start with the given ones. */
  ghost predicate ChildrenAt(t: Tree, k: nat, some: seq<Tree>) {
    k + |some| <= |Children(t)| && some == Children(t)[k..k + |some|]
  }

  lemma ChildAt(t: Tree, k: nat, o: Option<Tree>)
    requires ChildrenAt(t, k, Present(o)) && o.Some?
    ensures k < |Children(t)| && o.value == Children(t)[k] && o.value < t
  {
    assert Present(o)[0] == o.value;
  }

  lemma SelectOrder(t: Tree)
    requires t.Select?
    ensures ChildrenAt(t, 0, t.selectors)
    ensures var k := |t.selectors|; ChildrenAt(t, k, Present(t.where))
    ensures var k := |t.selectors| + |Present(t.where)|; ChildrenAt(t, k, Present(t.groupBy))
    ensures var k := |t.selectors| + |Present(t.where)| + |Present(t.groupBy)|; ChildrenAt(t, k, Present(t.having))
    ensures var k := |t.selectors| + |Present(t.where)| + |Present(t.groupBy)| + |Present(t.having)|;
            ChildrenAt(t, k, Present(t.orderBy))
    ensures var k := |t.selectors| + |Present(t.where)| + |Present(t.groupBy)| + |Present(t.having)| +
      |Present(t.orderBy)|;
            ChildrenAt(t, k, Present(t.limit)) && k + |Present(t.limit)| == |Children(t)|
  {
    hide Present;
  }

  lemma SelectEntry(t: Tree, s: seq<int>, w: Option<int>, g: Option<int>, h: Option<int>, o: Option<int>,
                    l: Option<int>,
                    narrow: real -> real)
    requires t.Select? && |s| == |t.selectors|
    requires (w.Some? <==> t.where.Some?) && (g.Some? <==> t.groupBy.Some?) && (h.Some? <==> t.having.Some?)
    requires (o.Some? <==> t.orderBy.Some?) && (l.Some? <==> t.limit.Some?)
    ensures var roots := s + Present(w) + Present(g) + Present(h) + Present(o) + Present(l);
            |roots| == |Children(t)| && MessageOf(t, roots, narrow) == SelectMsg(s, w, g, h, o, l)
  {
    var roots := s + Present(w) + Present(g) + Present(h) + Present(o) + Present(l);
    hide First, Rest, Present;
    LengthsAgree(t.where, w);
    LengthsAgree(t.groupBy, g);
    LengthsAgree(t.having, h);
    LengthsAgree(t.orderBy, o);
    LengthsAgree(t.limit, l);
    Regroup(s, Present(w), Present(g), Present(h), Present(o), Present(l));
    var r4 := Present(l) + [];
    var r3 := Present(o) + r4;
    var r2 := Present(h) + r3;
    var r1 := Present(g) + r2;
    var r0 := Present(w) + r1;
    assert roots[|t.selectors|..] == r0 && roots[..|t.selectors|] == s;
    TakeFirst(t.where, w, r1);
    TakeFirst(t.groupBy, g, r2);
    TakeFirst(t.having, h, r3);
    TakeFirst(t.orderBy, o, r4);
    TakeFirst(t.limit, l, []);
  }

  lemma LengthsAgree<S, T>(a: Option<S>, b: Option<T>)
    requires a.Some? <==> b.Some?
    ensures |Present(a)| == |Present(b)|
  {}

  lemma TakeFirst<S, T>(mark: Option<S>, o: Option<T>, more: seq<T>)
    requires mark.Some? <==> o.Some?
    ensures |Present(mark)| <= |Present(o) + more|
    ensures First(mark, Present(o) + more) == o && Rest(mark, Present(o) + more) == more
  {}

  /** NApi::TQuery. */
  class ProtoQuery {
    var clauses: seq<Message>
    var startPoints: seq<int>

    constructor ()
      ensures clauses == [] && startPoints == []
    {
      clauses, startPoints := [], [];
    }

    /** ToProto of a clause: its children first, then the entry that names them. */
    method Write(t: Tree, narrow: real -> real)
      modifies this`clauses
      ensures clauses == old(clauses) + Flatten(t, |old(clauses)|, narrow)
      decreases t, 2
    {
      match t {
        case Expression(_, _) => WriteExpression(t, narrow);
        case Select(_, _, _, _, _, _, _) => WriteSelect(t, narrow);
        case Delete(_, _) => WriteDelete(t, narrow);
        case _ =>
          NothingWritten(t, clauses, narrow);
          clauses := clauses + [MessageOf(t, [], narrow)];
          AllWritten(t, old(clauses), old(clauses), [], narrow);
      }
    }

    method WriteExpression(t: Tree, narrow: real -> real)
      requires t.Expression?
      modifies this`clauses
      ensures clauses == old(clauses) + Flatten(t, |old(clauses)|, narrow)
      decreases t, 1
    {
      NothingWritten(t, clauses, narrow);
      var operands := WriteList(t, t.operands, clauses, narrow);
      AllWritten(t, old(clauses), clauses, operands, narrow);
      clauses := clauses + [ExpressionMsg(t.op, operands)];
    }

    method WriteDelete(t: Tree, narrow: real -> real)
      requires t.Delete?
      modifies this`clauses
      ensures clauses == old(clauses) + Flatten(t, |old(clauses)|, narrow)
      decreases t, 1
    {
      NothingWritten(t, clauses, narrow);
      var where := WriteOptional(t, 0, t.condition, clauses, [], narrow);
      AllWritten(t, old(clauses), clauses, Present(where), narrow);
      clauses := clauses + [DeleteMsg(t.deleted, where)];
    }

    method WriteSelect(t: Tree, narrow: real -> real)
      requires t.Select?
      modifies this`clauses
      ensures clauses == old(clauses) + Flatten(t, |old(clauses)|, narrow)
      decreases t, 1
    {
      ghost var before := clauses;
      hide Written, ChildrenAt, Present, Flatten, MessageOf, Children;
      NothingWritten(t, clauses, narrow);
      SelectOrder(t);
      var selectors := WriteList(t, t.selectors, before, narrow);
      ghost var k, roots := |selectors|, selectors;
      var where := WriteOptional(t, k, t.where, before, roots, narrow);
      k, roots := k + |Present(t.where)|, roots + Present(where);
      var groupBy := WriteOptional(t, k, t.groupBy, before, roots, narrow);
      k, roots := k + |Present(t.groupBy)|, roots + Present(groupBy);
      var having := WriteOptional(t, k, t.having, before, roots, narrow);
      k, roots := k + |Present(t.having)|, roots + Present(having);
      var orderBy := WriteOptional(t, k, t.orderBy, before, roots, narrow);
      k, roots := k + |Present(t.orderBy)|, roots + Present(orderBy);
      var limit := WriteOptional(t, k, t.limit, before, roots, narrow);
      k, roots := k + |Present(t.limit)|, roots + Present(limit);
      SelectEntry(t, selectors, where, groupBy, having, orderBy, limit, narrow);
      AllWritten(t, before, clauses, roots, narrow);
      clauses := clauses + [SelectMsg(selectors, where, groupBy, having, orderBy, limit)];
    }

    /** Writes the first children of t one after another, noting where each ends up. */
    method WriteList(ghost t: Tree, list: seq<Tree>, ghost before: seq<Message>,
                     narrow: real -> real) returns (roots: seq<int>)
      requires ChildrenAt(t, 0, list) && Written(t, 0, before, clauses, [], narrow)
      modifies this`clauses
      ensures Written(t, |list|, before, clauses, roots, narrow) && |roots| == |list|
      decreases t, 0
    {
      roots := [];
      for i := 0 to |list|
        invariant Written(t, i, before, clauses, roots, narrow) && |roots| == i
      {
        ChildWritten(t, i, before, clauses, roots, narrow);
        Write(list[i], narrow);
        roots := roots + [|clauses| - 1];
      }
    }

    /** Writes the child k of t, if that optional clause is there. */
    method WriteOptional(ghost t: Tree, ghost k: nat, o: Option<Tree>, ghost before: seq<Message>,
                         ghost roots: seq<int>,
                         narrow: real -> real) returns (root: Option<int>)
      requires ChildrenAt(t, k, Present(o)) && Written(t, k, before, clauses, roots, narrow)
      modifies this`clauses
      ensures Written(t, k + |Present(o)|, before, clauses, roots + Present(root), narrow)
      ensures root.Some? <==> o.Some?
      decreases t, 0
    {
      hide Written, Flatten, Children, ChildrenAt;
      if o.Some? {
        ChildAt(t, k, o);
        ChildWritten(t, k, before, clauses, roots, narrow);
        Write(o.value, narrow);
        root := Some(|clauses| - 1);
      } else {
        root := None;
        assert roots + Present(root) == roots;
      }
    }

    /** TQuery::ToProto. */
    method WriteQuery(ts: seq<Tree>, narrow: real -> real)
      modifies this
      ensures clauses == old(clauses) + FlattenQuery(ts, |old(clauses)|, narrow).entries
      ensures startPoints == old(startPoints) + FlattenQuery(ts, |old(clauses)|, narrow).roots
    {
      hide Flatten;
      ghost var base := |clauses|;
      for i := 0 to |ts|
        invariant clauses == old(clauses) + FlattenQuery(ts[..i], base, narrow).entries
        invariant startPoints == old(startPoints) + FlattenQuery(ts[..i], base, narrow).roots
      {
        assert ts[..i + 1][..i] == ts[..i] && ts[..i + 1][i] == ts[i];
        Write(ts[i], narrow);
        startPoints := startPoints + [|clauses| - 1];
      }
      assert ts[..|ts|] == ts;
    }
  }

  // ---------------------------------------------------------------------------------- Reading

  /** The list with an optional item after it, and the position after an optional reference. */
  function With<T>(items: seq<T>, o: Option<T>): seq<T> { items + Present(o) }

  function Past<T>(k: nat, o: Option<T>): nat { k + |Present(o)| }

  /** Following the first k references gives these clauses. */
  ghost predicate ReadSoFar(input: seq<Message>, refs: seq<int>, k: nat, trees: seq<Tree>, depth: nat) {
    k <= |refs| && ReadAll(input, refs[..k], depth) == Done(trees)
  }

  /** The references from k on start with the given ones. */
  ghost predicate RefsAt(refs: seq<int>, k: nat, some: seq<int>) {
    k + |some| <= |refs| && some == refs[k..k + |some|]
  }

  /** A failure among the first references is the failure of all. */
  lemma {:induction false} PrefixFails(input: seq<Message>, a: seq<int>, b: seq<int>, depth: nat)
    requires !ReadAll(input, a, depth).Done?
    ensures ReadAll(input, a + b, depth) == ReadAll(input, a, depth)
  {
    hide Read;
    assert (a + b)[0] == a[0] && (a + b)[1..] == a[1..] + b;
    if Read(input, a[0], depth).Done? { PrefixFails(input, a[1..], b, depth); }
  }

  lemma NextRead(input: seq<Message>, refs: seq<int>, k: nat, trees: seq<Tree>, depth: nat)
    requires ReadSoFar(input, refs, k, trees, depth) && k < |refs|
    ensures var r := Read(input, refs[k], depth);
            if r.Done? then ReadSoFar(input, refs, k + 1, trees + [r.value], depth)
            else ReadAll(input, refs, depth) == r.PropagateFailure()
  {
    hide Read, ReadAll;
    ReadAllAppend(input, refs[..k], refs[k], depth);
    assert refs[..k] + [refs[k]] == refs[..k + 1];
    if !Read(input, refs[k], depth).Done? {
      PrefixFails(input, refs[..k + 1], refs[k + 1..], depth);
      assert refs[..k + 1] + refs[k + 1..] == refs;
    }
  }

  lemma NothingRead(input: seq<Message>, refs: seq<int>, depth: nat)
    ensures ReadSoFar(input, refs, 0, [], depth)
  {}

  lemma AllRead(input: seq<Message>, refs: seq<int>, trees: seq<Tree>, depth: nat)
    requires ReadSoFar(input, refs, |refs|, trees, depth)
    ensures ReadAll(input, refs, depth) == Done(trees) && |trees| == |refs|
  {
    assert refs[..|refs|] == refs;
  }

  /** Following the references of an entry and assembling the clause. */
  ghost function Assembled(input: seq<Message>, m: Message, depth: nat): Outcome<Tree>
    requires !Unknown(m)
  {
    match ReadAll(input, Refs(m), depth)
    case Done(trees) => Done(Assemble(m, trees))
    case Throws => Throws
    case TooDeep => TooDeep
  }

  lemma NextAssembled(input: seq<Message>, m: Message, k: nat, trees: seq<Tree>, depth: nat)
    requires !Unknown(m) && ReadSoFar(input, Refs(m), k, trees, depth) && k < |Refs(m)|
    ensures var r := Read(input, Refs(m)[k], depth);
            if r.Done? then ReadSoFar(input, Refs(m), k + 1, trees + [r.value], depth)
            else Assembled(input, m, depth) == r.PropagateFailure()
  {
    hide Read, ReadAll, Refs, ReadSoFar;
    NextRead(input, Refs(m), k, trees, depth);
  }

  lemma RefAt(refs: seq<int>, k: nat, o: Option<int>)
    requires RefsAt(refs, k, Present(o)) && o.Some?
    ensures k < |refs| && o.value == refs[k]
  {
    assert Present(o)[0] == o.value;
  }

  lemma SelectRefOrder(m: Message)
    requires m.SelectMsg?
    ensures var k0 := |m.selectors|;
            var k1 := Past(k0, m.where);
            var k2 := Past(k1, m.groupBy);
            var k3 := Past(k2, m.having);
            var k4 := Past(k3, m.orderBy);
            && RefsAt(Refs(m), 0, m.selectors) && RefsAt(Refs(m), k0, Present(m.where))
              && RefsAt(Refs(m), k1, Present(m.groupBy))
            && RefsAt(Refs(m), k2, Present(m.having)) && RefsAt(Refs(m), k3, Present(m.orderBy))
            && RefsAt(Refs(m), k4, Present(m.limit)) && Past(k4, m.limit) == |Refs(m)|
  {
    hide Present;
  }

  lemma SelectAssembled(m: Message, s: seq<Tree>, w: Option<Tree>, g: Option<Tree>, h: Option<Tree>, o: Option<Tree>,
                        l: Option<Tree>)
    requires m.SelectMsg? && |s| == |m.selectors|
    requires (w.Some? <==> m.where.Some?) && (g.Some? <==> m.groupBy.Some?) && (h.Some? <==> m.having.Some?)
    requires (o.Some? <==> m.orderBy.Some?) && (l.Some? <==> m.limit.Some?)
    ensures var trees := s + Present(w) + Present(g) + Present(h) + Present(o) + Present(l);
            |trees| == |Refs(m)| && Assemble(m, trees) == Select(None, s, w, g, h, o, l)
  {
    var trees := s + Present(w) + Present(g) + Present(h) + Present(o) + Present(l);
    hide First, Rest, Present;
    LengthsAgree(m.where, w);
    LengthsAgree(m.groupBy, g);
    LengthsAgree(m.having, h);
    LengthsAgree(m.orderBy, o);
    LengthsAgree(m.limit, l);
    Regroup(s, Present(w), Present(g), Present(h), Present(o), Present(l));
    var r4 := Present(l) + [];
    var r3 := Present(o) + r4;
    var r2 := Present(h) + r3;
    var r1 := Present(g) + r2;
    var r0 := Present(w) + r1;
    assert trees[|m.selectors|..] == r0 && trees[..|m.selectors|] == s;
    TakeFirst(m.where, w, r1);
    TakeFirst(m.groupBy, g, r2);
    TakeFirst(m.having, h, r3);
    TakeFirst(m.orderBy, o, r4);
    TakeFirst(m.limit, l, []);
  }

  lemma SelectRead(input: seq<Message>, m: Message, depth: nat, t: Tree, k: nat, trees: seq<Tree>)
    requires m.SelectMsg? && t.Select? && t.table == None && |t.selectors| == |m.selectors|
    requires (t.where.Some? <==> m.where.Some?) && (t.groupBy.Some? <==> m.groupBy.Some?)
    requires (t.having.Some? <==> m.having.Some?) && (t.orderBy.Some? <==> m.orderBy.Some?)
    requires t.limit.Some? <==> m.limit.Some?
    requires trees == With(With(With(With(With(t.selectors, t.where), t.groupBy), t.having), t.orderBy), t.limit)
    requires ReadSoFar(input, Refs(m), k, trees, depth) && k == |Refs(m)|
    ensures Assembled(input, m, depth) == Done(t)
  {
    hide ReadAll, Assemble, Refs, Present, ReadSoFar;
    AllRead(input, Refs(m), trees, depth);
    SelectAssembled(m, t.selectors, t.where, t.groupBy, t.having, t.orderBy, t.limit);
  }

  lemma ReadIs(input: seq<Message>, i: int, depth: nat)
    requires depth > 0 && 0 <= i < |input| && !Unknown(input[i])
    ensures Read(input, i, depth) == Assembled(input, input[i], depth - 1)
  {
    hide Refs, Assemble, Unknown;
  }

  /** CreateClauseFromProto: each failure ends the whole reading at once. */
  method CreateClause(input: seq<Message>, i: int, depth: nat) returns (r: Outcome<Tree>)
    ensures r == Read(input, i, depth)
    decreases depth, 2
  {
    if depth == 0 { return TooDeep; }
    if !(0 <= i < |input|) { return Throws; }
    var m := input[i];
    match m {
      case ExpressionMsg(op, operands) =>
        ReadIs(input, i, depth);
        var trees :- ReadList(input, operands, depth - 1, m);
        AllRead(input, operands, trees, depth - 1);
        return Done(Expression(op, trees));
      case SelectMsg(_, _, _, _, _, _) => r := CreateSelect(input, i, depth);
      case DeleteMsg(deleted, condition) =>
        ReadIs(input, i, depth);
        NothingRead(input, Refs(m), depth - 1);
        var where :- ReadOptional(input, condition, depth - 1, m, 0, []);
        AllRead(input, Refs(m), With([], where), depth - 1);
        return Done(Delete(deleted, where));
      case AllMsg => return Throws;
      case DefaultMsg => return Throws;
      case NotSet => return Throws;
      case _ =>
        ReadIs(input, i, depth);
        return Done(Assemble(m, []));
    }
  }

  method CreateSelect(input: seq<Message>, i: int, depth: nat) returns (r: Outcome<Tree>)
    requires depth > 0 && 0 <= i < |input| && input[i].SelectMsg?
    ensures r == Read(input, i, depth)
    decreases depth, 1
  {
    var m := input[i];
    assert !Unknown(m);
    ReadIs(input, i, depth);
    SelectRefOrder(m);
    hide RefsAt, ReadSoFar, Refs, Present, Read, Assembled, With, Past;
    NothingRead(input, Refs(m), depth - 1);
    var selectors :- ReadList(input, m.selectors, depth - 1, m);
    ghost var k, trees := |selectors|, selectors;
    var where :- ReadOptional(input, m.where, depth - 1, m, k, trees);
    k, trees := Past(k, m.where), With(trees, where);
    var groupBy :- ReadOptional(input, m.groupBy, depth - 1, m, k, trees);
    k, trees := Past(k, m.groupBy), With(trees, groupBy);
    r := CreateSelectEnd(input, m, depth - 1, k, trees, selectors, where, groupBy);
  }

  /** The last three optional clauses of a Select. */
  method CreateSelectEnd(input: seq<Message>, m: Message, depth: nat, ghost k0: nat, ghost trees0: seq<Tree>,
                         selectors: seq<Tree>, where: Option<Tree>, groupBy: Option<Tree>) returns (r: Outcome<Tree>)
    requires m.SelectMsg? && |selectors| == |m.selectors|
    requires (where.Some? <==> m.where.Some?) && (groupBy.Some? <==> m.groupBy.Some?)
    requires k0 == Past(Past(|m.selectors|, m.where), m.groupBy)
    requires trees0 == With(With(selectors, where), groupBy) && ReadSoFar(input, Refs(m), k0, trees0, depth)
    ensures r == Assembled(input, m, depth)
    decreases depth, 4
  {
    SelectRefOrder(m);
    hide RefsAt, ReadSoFar, Refs, Present, Assembled, With, Past;
    ghost var k, trees := k0, trees0;
    var having :- ReadOptional(input, m.having, depth, m, k, trees);
    k, trees := Past(k, m.having), With(trees, having);
    var orderBy :- ReadOptional(input, m.orderBy, depth, m, k, trees);
    k, trees := Past(k, m.orderBy), With(trees, orderBy);
    var limit :- ReadOptional(input, m.limit, depth, m, k, trees);
    k, trees := Past(k, m.limit), With(trees, limit);
    r := Done(Select(None, selectors, where, groupBy, having, orderBy, limit));
    SelectRead(input, m, depth, r.value, k, trees);
  }

  /** Follows the first references of an entry one after another. */
  method ReadList(input: seq<Message>, list: seq<int>, depth: nat, ghost m: Message) returns (r: Outcome<seq<Tree>>)
    requires !Unknown(m) && RefsAt(Refs(m), 0, list)
    ensures r.Done? ==> ReadSoFar(input, Refs(m), |list|, r.value, depth) && |r.value| == |list|
    ensures !r.Done? ==> Assembled(input, m, depth) == r.PropagateFailure()
    decreases depth, 3
  {
    var trees := [];
    NothingRead(input, Refs(m), depth);
    for k := 0 to |list|
      invariant ReadSoFar(input, Refs(m), k, trees, depth) && |trees| == k
    {
      hide Read, Assembled, ReadSoFar, Refs;
      NextAssembled(input, m, k, trees, depth);
      var tree :- CreateClause(input, list[k], depth);
      trees := trees + [tree];
    }
    return Done(trees);
  }

  /** Follows the reference k, if that optional clause is there. */
  method ReadOptional(input: seq<Message>, o: Option<int>, depth: nat, ghost m: Message, ghost k: nat,
                      ghost trees: seq<Tree>) returns (r: Outcome<Option<Tree>>)
    requires !Unknown(m) && ReadSoFar(input, Refs(m), k, trees, depth) && RefsAt(Refs(m), k, Present(o))
    ensures r.Done? ==>
      ReadSoFar(input, Refs(m), Past(k, o), With(trees, r.value), depth) && (r.value.Some? <==> o.Some?)
    ensures !r.Done? ==> Assembled(input, m, depth) == r.PropagateFailure()
    decreases depth, 3
  {
    hide Read, Assembled, ReadSoFar, RefsAt, Refs;
    if o.None? {
      assert trees + Present<Tree>(None) == trees;
      return Done(None);
    }
    RefAt(Refs(m), k, o);
    NextAssembled(input, m, k, trees, depth);
    var tree :- CreateClause(input, o.value, depth);
    return Done(Some(tree));
  }

  /** TQuery on the request side. */
  class Query {
    var clauses: seq<Tree>

    constructor ()
      ensures clauses == []
    {
      clauses := [];
    }

    method ToProto(output: ProtoQuery, narrow: real -> real)
      modifies output
      ensures output.clauses == old(output.clauses) + FlattenQuery(clauses, |old(output.clauses)|, narrow).entries
      ensures output.startPoints == old(output.startPoints) + FlattenQuery(clauses, |old(output.clauses)|, narrow).roots
    {
      output.WriteQuery(clauses, narrow);
    }

    /** On a failure the clauses read before it stay in the query. */
    method FromProto(input: ProtoQuery, depth: nat) returns (r: Outcome<()>)
      modifies this
      ensures r.Done? ==> ReadAll(input.clauses, input.startPoints, depth) == Done(clauses)
      ensures !r.Done? ==> ReadAll(input.clauses, input.startPoints, depth) == r.PropagateFailure()
      ensures |clauses| <= |input.startPoints|
      ensures ReadSoFar(input.clauses, input.startPoints, |clauses|, clauses, depth)
    {
      clauses := [];
      NothingRead(input.clauses, input.startPoints, depth);
      for k := 0 to |input.startPoints|
        invariant ReadSoFar(input.clauses, input.startPoints, k, clauses, depth) && |clauses| == k
      {
        hide Read, ReadAll, ReadSoFar;
        NextRead(input.clauses, input.startPoints, k, clauses, depth);
        var clause :- CreateClause(input.clauses, input.startPoints[k], depth);
        clauses := clauses + [clause];
      }
      AllRead(input.clauses, input.startPoints, clauses, depth);
      return Done(());
    }
  }
}
