/** What ToProto and FromProto keep: the flat form is well founded, and reading it back rebuilds the tree. */
module FlatProtoRoundTrip {
  import opened Common
  import opened FlatProto

  // ---------------------------------------------------------------------------------- Reading terminates

  lemma {:induction false} DepthIsEnough(input: seq<Message>, i: int, depth: nat, more: nat)
    requires depth <= more && Read(input, i, depth) != TooDeep
    ensures Read(input, i, more) == Read(input, i, depth)
    decreases depth, 0
  {
    hide Refs, Unknown, Assemble;
    if 0 <= i < |input| && !Unknown(input[i]) {
      DepthIsEnoughForAll(input, Refs(input[i]), depth - 1, more - 1);
    }
  }

  lemma {:induction false} DepthIsEnoughForAll(input: seq<Message>, refs: seq<int>, depth: nat, more: nat)
    requires depth <= more && ReadAll(input, refs, depth) != TooDeep
    ensures ReadAll(input, refs, more) == ReadAll(input, refs, depth)
    decreases depth, 1 + |refs|
  {
    if refs != [] {
      DepthIsEnough(input, refs[0], depth, more);
      if Read(input, refs[0], depth).Done? {
        DepthIsEnoughForAll(input, refs[1..], depth, more);
      }
    }
  }

  // ---------------------------------------------------------------------------------- When reading succeeds

  /** The ranked entries are known, and each of their references leads to a ranked entry of a lower rank. */
  ghost predicate Ranked(input: seq<Message>, ranks: map<int, nat>) {
    forall j :: j in ranks ==> 0 <= j < |input| && !Unknown(input[j]) && RefsFall(Refs(input[j]), ranks, ranks[j])
  }

  predicate RefsFall(refs: seq<int>, ranks: map<int, nat>, rank: nat) {
    forall k :: 0 <= k < |refs| ==> refs[k] in ranks && ranks[refs[k]] < rank
  }

  lemma {:induction false} RankedIsRead(input: seq<Message>, ranks: map<int, nat>, i: int, depth: nat)
    requires Ranked(input, ranks) && i in ranks && depth > ranks[i]
    ensures Read(input, i, depth).Done?
    decreases depth, 0
  {
    hide Refs, Unknown, Assemble;
    AllRankedAreRead(input, ranks, Refs(input[i]), depth - 1);
  }

  lemma {:induction false} AllRankedAreRead(input: seq<Message>, ranks: map<int, nat>, refs: seq<int>, depth: nat)
    requires Ranked(input, ranks) && RefsFall(refs, ranks, depth)
    ensures ReadAll(input, refs, depth).Done?
    decreases depth, 1 + |refs|
  {
    hide Refs, Unknown, Assemble;
    if refs != [] {
      RankedIsRead(input, ranks, refs[0], depth);
      AllRankedAreRead(input, ranks, refs[1..], depth);
    }
  }

  /** Reading from here succeeds on some stack. */
  ghost predicate Succeeds(input: seq<Message>, i: int) { exists d: nat :: Read(input, i, d).Done? }

  /** The least stack on which it does. */
  ghost function Least(input: seq<Message>, i: int, d: nat): (r: nat)
    requires Read(input, i, d).Done?
    ensures r <= d && Read(input, i, r).Done? && forall e: nat :: e < r ==> !Read(input, i, e).Done?
  {
    if e: nat :| e < d && Read(input, i, e).Done? then Least(input, i, e) else d
  }

  ghost function LeastDepth(input: seq<Message>, i: int): (r: nat)
    requires Succeeds(input, i)
    ensures Read(input, i, r).Done? && forall e: nat :: e < r ==> !Read(input, i, e).Done?
  {
    var d: nat :| Read(input, i, d).Done?;
    Least(input, i, d)
  }

  lemma {:induction false} PartsAreRead(input: seq<Message>, refs: seq<int>, depth: nat, k: nat)
    requires ReadAll(input, refs, depth).Done? && k < |refs|
    ensures Read(input, refs[k], depth).Done?
  {
    hide Read;
    if k > 0 { PartsAreRead(input, refs[1..], depth, k - 1); }
  }

  /** Where reading succeeds it does so on a smaller stack for every reference. */
  lemma ReferencesAreShallower(input: seq<Message>, i: int)
    requires Succeeds(input, i)
    ensures 0 <= i < |input| && !Unknown(input[i])
    ensures forall k :: 0 <= k < |Refs(input[i])| ==>
      Succeeds(input, Refs(input[i])[k]) && LeastDepth(input, Refs(input[i])[k]) < LeastDepth(input, i)
  {
    hide Refs, Unknown, Assemble;
    var d := LeastDepth(input, i);
    assert d > 0;
    forall k | 0 <= k < |Refs(input[i])|
      ensures Succeeds(input, Refs(input[i])[k]) && LeastDepth(input, Refs(input[i])[k]) < d
    {
      PartsAreRead(input, Refs(input[i]), d - 1, k);
    }
  }

  /** All entries from which reading succeeds, with their least depths. */
  ghost function Successes(input: seq<Message>): map<int, nat> {
    map j | 0 <= j < |input| && Succeeds(input, j) :: LeastDepth(input, j)
  }

  lemma SuccessesAreRanked(input: seq<Message>)
    ensures Ranked(input, Successes(input))
    ensures forall j :: Succeeds(input, j) ==> j in Successes(input)
  {
    hide Read, Refs, Unknown;
    var ranks := Successes(input);
    forall j | j in ranks ensures 0 <= j < |input| && !Unknown(input[j]) && RefsFall(Refs(input[j]), ranks, ranks[j]) {
      ReferencesAreShallower(input, j);
      forall k | 0 <= k < |Refs(input[j])| ensures Refs(input[j])[k] in ranks && ranks[Refs(input[j])[k]] < ranks[j] {
        ReferencesAreShallower(input, Refs(input[j])[k]);
      }
    }
    forall j | Succeeds(input, j) ensures j in ranks { ReferencesAreShallower(input, j); }
  }

  /** For every input and position: reading succeeds, given enough stack, exactly when the entries it can come to have
      ranks that fall along every reference. */
  lemma SucceedsExactly(input: seq<Message>, i: int)
    ensures Succeeds(input, i) <==> exists ranks :: Ranked(input, ranks) && i in ranks
  {
    hide Ranked;
    if Succeeds(input, i) { SuccessesAreRanked(input); }
    if ranks :| Ranked(input, ranks) && i in ranks { RankedIsRead(input, ranks, i, ranks[i] + 1); }
  }

  // ---------------------------------------------------------------------------------- When reading never returns

  /** No stack is deep enough. */
  ghost predicate Endless(input: seq<Message>, i: int) { forall d: nat :: Read(input, i, d) == TooDeep }

  /** Every entry of the ring is known and refers back into the ring, behind references that can be read. */
  ghost predicate Ring(input: seq<Message>, ranks: map<int, nat>, ring: set<int>) {
    forall j :: j in ring ==> 0 <= j < |input| && !Unknown(input[j]) && ComesTo(Refs(input[j]), ranks, ring)
  }

  predicate ComesTo(refs: seq<int>, ranks: map<int, nat>, ring: set<int>) {
    exists m :: 0 <= m < |refs| && refs[m] in ring && forall l :: 0 <= l < m ==> refs[l] in ranks
  }

  lemma RankedNeverThrows(input: seq<Message>, ranks: map<int, nat>, i: int, depth: nat)
    requires Ranked(input, ranks) && i in ranks
    ensures !Read(input, i, depth).Throws?
  {
    hide Read, Ranked;
    var enough := depth + ranks[i] + 1;
    RankedIsRead(input, ranks, i, enough);
    if Read(input, i, depth) != TooDeep { DepthIsEnough(input, i, depth, enough); }
  }

  /** Reading never returns from such a ring. */
  lemma {:induction false} RingNeverReturns(
    input: seq<Message>, ranks: map<int, nat>, ring: set<int>, i: int, depth: nat)
    requires Ranked(input, ranks) && Ring(input, ranks, ring) && i in ring
    ensures Read(input, i, depth) == TooDeep
    decreases depth, 0
  {
    hide Refs, Unknown, Assemble, Ranked;
    if depth > 0 {
      var refs := Refs(input[i]);
      var m :| 0 <= m < |refs| && refs[m] in ring && forall l :: 0 <= l < m ==> refs[l] in ranks;
      RingStops(input, ranks, ring, refs, m, depth - 1);
    }
  }

  lemma {:induction false} RingStops(
    input: seq<Message>, ranks: map<int, nat>, ring: set<int>, refs: seq<int>, m: nat, depth: nat)
    requires Ranked(input, ranks) && Ring(input, ranks, ring)
    requires m < |refs| && refs[m] in ring && forall l :: 0 <= l < m ==> refs[l] in ranks
    ensures ReadAll(input, refs, depth) == TooDeep
    decreases depth, 1 + |refs|
  {
    hide Read, Ranked, Ring;
    if m == 0 {
      RingNeverReturns(input, ranks, ring, refs[0], depth);
    } else {
      RankedNeverThrows(input, ranks, refs[0], depth);
      RingStops(input, ranks, ring, refs[1..], m - 1, depth);
    }
  }

  /** Reading a list of references ends on some stack, or comes to one from which reading never returns. */
  lemma {:induction false} EndsOrNot(input: seq<Message>, refs: seq<int>) returns (d: nat, m: nat)
    ensures ReadAll(input, refs, d) != TooDeep ||
      (m < |refs| && Endless(input, refs[m]) && forall l :: 0 <= l < m ==> Succeeds(input, refs[l]))
  {
    hide Read;
    d, m := 0, 0;
    if refs != [] && !Endless(input, refs[0]) {
      var d0: nat :| Read(input, refs[0], d0) != TooDeep;
      if Read(input, refs[0], d0).Throws? { return d0, 0; }
      assert Succeeds(input, refs[0]);
      var d1, m1 := EndsOrNot(input, refs[1..]);
      d, m := if d0 < d1 then d1 else d0, m1 + 1;
      DepthIsEnough(input, refs[0], d0, d);
      if ReadAll(input, refs[1..], d1) != TooDeep {
        DepthIsEnoughForAll(input, refs[1..], d1, d);
      } else {
        forall l | 0 <= l < m ensures Succeeds(input, refs[l]) { if l > 0 { assert refs[1..][l - 1] == refs[l]; } }
      }
    }
  }

  lemma EndlessGoesOn(input: seq<Message>, j: int, ring: set<int>)
    requires Endless(input, j) && forall k :: Endless(input, k) && 0 <= k < |input| ==> k in ring
    ensures 0 <= j < |input| && !Unknown(input[j]) && ComesTo(Refs(input[j]), Successes(input), ring)
  {
    hide Refs, Unknown, Assemble, Successes;
    assert Read(input, j, 1) == TooDeep;
    var refs := Refs(input[j]);
    var d, m := EndsOrNot(input, refs);
    assert Read(input, j, d + 1) == TooDeep;
    assert Read(input, refs[m], 1) == TooDeep;
    SuccessesAreRanked(input);
    assert refs[m] in ring;
  }

  /** For every input and position: reading never returns exactly when the entry lies on a ring as above, and hence is
      known; whatever else the input holds. */
  lemma NeverReturnsExactly(input: seq<Message>, i: int)
    ensures Endless(input, i) <==> exists ranks, ring :: Ranked(input, ranks) && Ring(input, ranks, ring) && i in ring
  {
    hide Read, Refs, Unknown, Ranked;
    if Endless(input, i) {
      var ring := set j | 0 <= j < |input| && Endless(input, j);
      SuccessesAreRanked(input);
      forall j | j in ring
        ensures 0 <= j < |input| && !Unknown(input[j]) && ComesTo(Refs(input[j]), Successes(input), ring)
      {
        EndlessGoesOn(input, j, ring);
      }
      EndlessGoesOn(input, i, ring);
      assert Ring(input, Successes(input), ring);
    }
    if ranks, ring :| Ranked(input, ranks) && Ring(input, ranks, ring) && i in ring {
      forall d: nat ensures Read(input, i, d) == TooDeep { RingNeverReturns(input, ranks, ring, i, d); }
    }
  }

  /** The third outcome: reading throws, on every stack that is deep enough, exactly when there are neither such ranks
      nor such a ring. */
  lemma ThrowsExactly(input: seq<Message>, i: int)
    ensures (exists d: nat :: ThrowsFrom(input, i, d)) <==>
      !(exists ranks :: Ranked(input, ranks) && i in ranks) &&
      !(exists ranks, ring :: Ranked(input, ranks) && Ring(input, ranks, ring) && i in ring)
  {
    hide Read, Ranked, Ring;
    SucceedsExactly(input, i);
    NeverReturnsExactly(input, i);
    if d: nat :| ThrowsFrom(input, i, d) {
      assert Read(input, i, d).Throws?;
      if e: nat :| Read(input, i, e).Done? { DepthIsEnough(input, i, e, d + e); }
    }
    if !Succeeds(input, i) && !Endless(input, i) {
      var d: nat :| Read(input, i, d) != TooDeep;
      forall e: nat | e >= d ensures Read(input, i, e).Throws? { DepthIsEnough(input, i, d, e); }
      assert ThrowsFrom(input, i, d);
    }
  }

  ghost predicate ThrowsFrom(input: seq<Message>, i: int, d: nat) {
    forall e: nat :: e >= d ==> Read(input, i, e).Throws?
  }

  // ---------------------------------------------------------------------------------- Simple conditions

  /** Every entry refers only to entries before it. */
  ghost predicate Backward(input: seq<Message>) {
    forall i, k :: 0 <= i < |input| && 0 <= k < |Refs(input[i])| ==> Refs(input[i])[k] < i
  }

  /** On such an input reading always returns, within one call per position and one for a bad position. */
  lemma {:induction false} ReadTerminates(input: seq<Message>, i: int, depth: nat)
    requires Backward(input) && depth > 0 && depth > i + 1
    ensures Read(input, i, depth) != TooDeep
    decreases depth, 0
  {
    hide Refs, Unknown, Assemble;
    if 0 <= i < |input| && !Unknown(input[i]) {
      ReadAllTerminates(input, Refs(input[i]), depth - 1, i);
    }
  }

  lemma {:induction false} ReadAllTerminates(input: seq<Message>, refs: seq<int>, depth: nat, bound: int)
    requires Backward(input) && depth > 0 && depth > bound && forall k :: 0 <= k < |refs| ==> refs[k] < bound
    ensures ReadAll(input, refs, depth) != TooDeep
    decreases depth, 1 + |refs|
  {
    hide Refs, Unknown, Assemble;
    if refs != [] {
      ReadTerminates(input, refs[0], depth);
      ReadAllTerminates(input, refs[1..], depth, bound);
    }
  }

  // ---------------------------------------------------------------------------------- The flat form

  lemma MessageRefs(t: Tree, roots: seq<int>, narrow: real -> real)
    requires |roots| == |Children(t)|
    ensures Refs(MessageOf(t, roots, narrow)) == roots
    ensures Unknown(MessageOf(t, roots, narrow)) <==> t == All || t == Default
  {
    if t.Select? { SelectRefs(t, roots, narrow); }
  }

  lemma FirstAndRest<S, T>(o: Option<S>, items: seq<T>)
    requires |Present(o)| <= |items|
    ensures items == Present(First(o, items)) + Rest(o, items)
  {}

  lemma SelectRefs(t: Tree, roots: seq<int>, narrow: real -> real)
    requires t.Select? && |roots| == |Children(t)|
    ensures Refs(MessageOf(t, roots, narrow)) == roots
  {
    hide First, Rest, Present;
    var r0 := roots[|t.selectors|..];
    var r1 := Rest(t.where, r0);
    var r2 := Rest(t.groupBy, r1);
    var r3 := Rest(t.having, r2);
    var r4 := Rest(t.orderBy, r3);
    var r5 := Rest(t.limit, r4);
    FirstAndRest(t.where, r0);
    FirstAndRest(t.groupBy, r1);
    FirstAndRest(t.having, r2);
    FirstAndRest(t.orderBy, r3);
    FirstAndRest(t.limit, r4);
    assert roots == roots[..|t.selectors|] + r0 && r5 == [];
    Regroup(roots[..|t.selectors|], Present(First(t.where, r0)), Present(First(t.groupBy, r1)),
            Present(First(t.having, r2)), Present(First(t.orderBy, r3)), Present(First(t.limit, r4)));
  }

  lemma Regroup<T>(s: seq<T>, a: seq<T>, b: seq<T>, c: seq<T>, d: seq<T>, e: seq<T>)
    ensures s + (a + (b + (c + (d + (e + []))))) == s + a + b + c + d + e
  {}

  /** Taking an optional child off a list of children commutes with storing. */
  lemma StoredStep<S>(o: Option<Tree>, mark: Option<S>, more: seq<Tree>, narrow: real -> real)
    requires mark.Some? <==> o.Some?
    ensures var items := StoredAll(Present(o) + more, narrow);
            First(mark, items) == StoredOption(o, narrow) && Rest(mark, items) == StoredAll(more, narrow)
  {
    var items := StoredAll(Present(o) + more, narrow);
    assert Rest(mark, items) == StoredAll(more, narrow);
  }

  /** The optional children of a Select from one on, as one list. */
  function Options(t: Tree, from: nat): seq<Tree>
    requires t.Select?
    decreases 5 - from
  {
    if from == 0 then Present(t.where) + Options(t, 1)
    else if from == 1 then Present(t.groupBy) + Options(t, 2)
    else if from == 2 then Present(t.having) + Options(t, 3)
    else if from == 3 then Present(t.orderBy) + Options(t, 4)
    else if from == 4 then Present(t.limit) + Options(t, 5)
    else []
  }

  lemma SelectChildren(t: Tree)
    requires t.Select?
    ensures Children(t) == t.selectors + Options(t, 0)
  {
    hide Present;
    Regroup(t.selectors, Present(t.where), Present(t.groupBy), Present(t.having), Present(t.orderBy), Present(t.limit));
    assert Options(t, 3) == Present(t.orderBy) + (Present(t.limit) + []);
    assert Options(t, 1) == Present(t.groupBy) + (Present(t.having) + Options(t, 3));
  }

  lemma AssembleSelect(t: Tree, roots: seq<int>, narrow: real -> real)
    requires t.Select? && |roots| == |Children(t)| == |Refs(MessageOf(t, roots, narrow))|
    ensures Assemble(MessageOf(t, roots, narrow), StoredAll(Children(t), narrow)) == Stored(t, narrow)
  {
    hide First, Rest, Present, Children, MessageOf, StoredAll, StoredOption, Refs;
    var m := MessageOf(t, roots, narrow);
    MarksAgree(t, roots, narrow);
    SelectChildren(t);
    StoredSplit(t.selectors, Options(t, 0), narrow);
    StoredStep(t.where, m.where, Options(t, 1), narrow);
    StoredStep(t.groupBy, m.groupBy, Options(t, 2), narrow);
    StoredStep(t.having, m.having, Options(t, 3), narrow);
    StoredStep(t.orderBy, m.orderBy, Options(t, 4), narrow);
    StoredStep(t.limit, m.limit, Options(t, 5), narrow);
  }

  lemma MarksAgree(t: Tree, roots: seq<int>, narrow: real -> real)
    requires t.Select? && |roots| == |Children(t)|
    ensures var m := MessageOf(t, roots, narrow);
            && m.SelectMsg? && |m.selectors| == |t.selectors| && (m.where.Some? <==> t.where.Some?)
            && (m.groupBy.Some? <==> t.groupBy.Some?) && (m.having.Some? <==> t.having.Some?)
            && (m.orderBy.Some? <==> t.orderBy.Some?) && (m.limit.Some? <==> t.limit.Some?)
  {}

  lemma StoredSplit(a: seq<Tree>, b: seq<Tree>, narrow: real -> real)
    ensures StoredAll(a + b, narrow)[..|a|] == StoredAll(a, narrow)
    ensures StoredAll(a + b, narrow)[|a|..] == StoredAll(b, narrow)
  {}

  /** Assembling an entry from its stored children gives the stored tree. */
  lemma AssembleStored(t: Tree, roots: seq<int>, narrow: real -> real)
    requires |roots| == |Children(t)| && t != All && t != Default
    ensures var m := MessageOf(t, roots, narrow);
            !Unknown(m) && |Refs(m)| == |Children(t)|
              && Assemble(m, StoredAll(Children(t), narrow)) == Stored(t, narrow)
  {
    hide MessageOf, Refs, Unknown, Assemble, Children, Stored, StoredAll;
    MessageRefs(t, roots, narrow);
    if t.Select? {
      AssembleSelect(t, roots, narrow);
    } else if t.Delete? {
      AssembleDelete(t, roots, narrow);
    } else {
      AssembleOther(t, roots, narrow);
    }
  }

  lemma AssembleDelete(t: Tree, roots: seq<int>, narrow: real -> real)
    requires t.Delete? && |roots| == |Children(t)| == |Refs(MessageOf(t, roots, narrow))|
    ensures Assemble(MessageOf(t, roots, narrow), StoredAll(Children(t), narrow)) == Stored(t, narrow)
  {
    assert t.condition.Some? ==> StoredAll([t.condition.value], narrow) == [Stored(t.condition.value, narrow)];
  }

  lemma AssembleOther(t: Tree, roots: seq<int>, narrow: real -> real)
    requires !t.Select? && !t.Delete? && |roots| == |Children(t)| && !Unknown(MessageOf(t, roots, narrow))
    requires |roots| == |Refs(MessageOf(t, roots, narrow))|
    ensures Assemble(MessageOf(t, roots, narrow), StoredAll(Children(t), narrow)) == Stored(t, narrow)
  {
    hide First, Rest;
  }

  /** The entries stand in the input from `base` on. */
  ghost predicate Placed(input: seq<Message>, base: nat, entries: seq<Message>) {
    base + |entries| <= |input| && forall k :: 0 <= k < |entries| ==> input[base + k] == entries[k]
  }

  lemma PlacedParts(input: seq<Message>, base: nat, a: seq<Message>, b: seq<Message>)
    requires Placed(input, base, a + b)
    ensures Placed(input, base, a) && Placed(input, base + |a|, b)
  {
    forall k | 0 <= k < |a| ensures input[base + k] == a[k] { assert (a + b)[k] == a[k]; }
    forall k | 0 <= k < |b| ensures input[base + |a| + k] == b[k] { assert (a + b)[|a| + k] == b[k]; }
  }

  /** One more result after the others; the first failure wins. */
  function Append(all: Outcome<seq<Tree>>, last: Outcome<Tree>): Outcome<seq<Tree>> {
    match all
    case Throws => Throws
    case TooDeep => TooDeep
    case Done(ts) => match last case Done(t) => Done(ts + [t]) case Throws => Throws case TooDeep => TooDeep
  }

  lemma {:induction false} ReadAllAppend(input: seq<Message>, refs: seq<int>, last: int, depth: nat)
    ensures ReadAll(input, refs + [last], depth) == Append(ReadAll(input, refs, depth), Read(input, last, depth))
  {
    hide Read;
    if refs == [] {
      assert refs + [last] == [last] && [last][1..] == [];
      assert ReadAll(input, [last][1..], depth) == Done([]);
      if Read(input, last, depth).Done? {
        assert [Read(input, last, depth).value] + [] == [] + [Read(input, last, depth).value];
      }
    } else {
      assert (refs + [last])[1..] == refs[1..] + [last] && (refs + [last])[0] == refs[0];
      ReadAllAppend(input, refs[1..], last, depth);
      var tail := ReadAll(input, refs[1..], depth);
      if Read(input, refs[0], depth).Done? && tail.Done? && Read(input, last, depth).Done? {
        var t, u := Read(input, refs[0], depth).value, Read(input, last, depth).value;
        assert [t] + (tail.value + [u]) == ([t] + tail.value) + [u];
      }
    }
  }

  /** What reading a flattened tree gives. */
  ghost function Recovered(t: Tree, narrow: real -> real): Outcome<Tree> {
    if HasUnknown(t) then Throws else Done(Stored(t, narrow))
  }

  ghost function RecoveredAll(ts: seq<Tree>, narrow: real -> real): Outcome<seq<Tree>> {
    if exists i :: 0 <= i < |ts| && HasUnknown(ts[i]) then Throws else Done(StoredAll(ts, narrow))
  }

  lemma RecoveredAppend(ts: seq<Tree>, t: Tree, narrow: real -> real)
    ensures RecoveredAll(ts + [t], narrow) == Append(RecoveredAll(ts, narrow), Recovered(t, narrow))
  {
    hide HasUnknown, Stored;
    var all := ts + [t];
    assert forall i :: 0 <= i < |ts| ==> all[i] == ts[i];
    assert all[|ts|] == t;
    assert StoredAll(all, narrow) == StoredAll(ts, narrow) + [Stored(t, narrow)];
    if RecoveredAll(ts, narrow).Throws? {
      var i :| 0 <= i < |ts| && HasUnknown(ts[i]);
      assert HasUnknown(all[i]);
    }
  }

  /** Reading the last entry of a flattened tree, wherever it stands in a larger query, rebuilds the tree,
      or throws exactly when the tree contains ALL or DEFAULT. */
  lemma {:induction false} TreeReadsBack(t: Tree, base: nat, narrow: real -> real, input: seq<Message>, depth: nat)
    requires Placed(input, base, Flatten(t, base, narrow)) && depth >= |Flatten(t, base, narrow)|
    ensures Read(input, base + |Flatten(t, base, narrow)| - 1, depth) == Recovered(t, narrow)
    decreases t, 1, 0
  {
    hide Refs, Unknown, Assemble, Children, MessageOf, FlattenChildren, ReadAll, Stored, StoredAll;
    var part := FlattenChildren(t, |Children(t)|, base, narrow);
    var m := MessageOf(t, part.roots, narrow);
    PlacedParts(input, base, part.entries, [m]);
    assert input[base + |part.entries| + 0] == [m][0];
    assert Children(t)[..|Children(t)|] == Children(t);
    ChildrenReadBack(t, |Children(t)|, base, narrow, input, depth - 1);
    MessageRefs(t, part.roots, narrow);
    if t != All && t != Default {
      AssembleStored(t, part.roots, narrow);
    }
  }

  lemma {:induction false} ChildrenReadBack(t: Tree, k: nat, base: nat,
                                            narrow: real -> real, input: seq<Message>, depth: nat)
    requires k <= |Children(t)|
    requires Placed(input, base, FlattenChildren(t, k, base, narrow).entries)
    requires depth >= |FlattenChildren(t, k, base, narrow).entries|
    ensures ReadAll(input, FlattenChildren(t, k, base, narrow).roots, depth) == RecoveredAll(Children(t)[..k], narrow)
    decreases t, 0, k
  {
    hide Read, Flatten, Children, Recovered, RecoveredAll;
    if k == 0 {
      NothingRecovered(narrow);
    } else {
      hide ReadAll;
      var before := FlattenChildren(t, k - 1, base, narrow);
      var child := Children(t)[k - 1];
      var at := base + |before.entries|;
      var own := Flatten(child, at, narrow);
      PlacedParts(input, base, before.entries, own);
      ChildrenReadBack(t, k - 1, base, narrow, input, depth);
      TreeReadsBack(child, at, narrow, input, depth);
      ReadAllAppend(input, before.roots, at + |own| - 1, depth);
      assert Children(t)[..k] == Children(t)[..k - 1] + [child];
      RecoveredAppend(Children(t)[..k - 1], child, narrow);
    }
  }

  lemma NothingRecovered(narrow: real -> real)
    ensures RecoveredAll([], narrow) == Done([])
  {}

  // ---------------------------------------------------------------------------------- Shape of the flat form

  /** The entries, placed from `base` on, refer only to one another, each to earlier ones. */
  ghost predicate Nests(entries: seq<Message>, base: nat) {
    forall i, k :: 0 <= i < |entries| && 0 <= k < |Refs(entries[i])| ==> base <= Refs(entries[i])[k] < base + i
  }

  /** Every reference a clause writes is to a position of its own, before the referring entry. */
  lemma {:induction false} FlattenNests(t: Tree, base: nat, narrow: real -> real)
    ensures Nests(Flatten(t, base, narrow), base)
    decreases t, 1, 0
  {
    hide Refs, Children, MessageOf;
    var part := FlattenChildren(t, |Children(t)|, base, narrow);
    ChildrenNest(t, |Children(t)|, base, narrow);
    MessageRefs(t, part.roots, narrow);
  }

  lemma {:induction false} ChildrenNest(t: Tree, k: nat, base: nat, narrow: real -> real)
    requires k <= |Children(t)|
    ensures var part := FlattenChildren(t, k, base, narrow);
            && Nests(part.entries, base)
            && forall j :: 0 <= j < k ==> base <= part.roots[j] < base + |part.entries|
    decreases t, 0, k
  {
    hide Refs, Children, MessageOf;
    if k > 0 {
      var before := FlattenChildren(t, k - 1, base, narrow);
      var own := Flatten(Children(t)[k - 1], base + |before.entries|, narrow);
      ChildrenNest(t, k - 1, base, narrow);
      FlattenNests(Children(t)[k - 1], base + |before.entries|, narrow);
      NestsAppend(before.entries, own, base);
    }
  }

  lemma NestsAppend(a: seq<Message>, b: seq<Message>, base: nat)
    requires Nests(a, base) && Nests(b, base + |a|)
    ensures Nests(a + b, base)
  {
    hide Refs;
    forall i, k | 0 <= i < |a + b| && 0 <= k < |Refs((a + b)[i])| ensures base <= Refs((a + b)[i])[k] < base + i {
      if i >= |a| { assert (a + b)[i] == b[i - |a|]; }
    }
  }

  /** So appending a clause keeps every reference backward, whatever the query held before. */
  lemma AppendKeepsBackward(input: seq<Message>, t: Tree, narrow: real -> real)
    requires Backward(input)
    ensures Backward(input + Flatten(t, |input|, narrow))
  {
    hide Flatten, Refs;
    FlattenNests(t, |input|, narrow);
    var entries := Flatten(t, |input|, narrow);
    var all := input + entries;
    forall i, k | 0 <= i < |all| && 0 <= k < |Refs(all[i])| ensures Refs(all[i])[k] < i {
      if i >= |input| { assert all[i] == entries[i - |input|]; }
    }
  }

  /** How often the entries refer to a position. */
  ghost function ReferencesTo(entries: seq<Message>, p: int): nat {
    if entries == [] then 0
    else ReferencesTo(entries[..|entries| - 1], p) + multiset(Refs(entries[|entries| - 1]))[p]
  }

  lemma {:induction false} ReferencesAppend(a: seq<Message>, b: seq<Message>, p: int)
    ensures ReferencesTo(a + b, p) == ReferencesTo(a, p) + ReferencesTo(b, p)
  {
    hide Refs;
    if b == [] {
      assert a + b == a;
    } else {
      ReferencesAppend(a, b[..|b| - 1], p);
      assert (a + b)[..|a + b| - 1] == a + b[..|b| - 1];
    }
  }

  /** Together, the entries and the list of roots refer to each of the positions from base on once. */
  ghost predicate Balanced(part: Part, base: nat, p: int) {
    ReferencesTo(part.entries, p) + multiset(part.roots)[p] == if base <= p < base + |part.entries| then 1 else 0
  }

  /** A flattened tree refers to each of its entries exactly once, except the last, its root, which nothing
      refers to, and to no other position: no entry is shared or left unused. */
  lemma {:induction false} ReferredOnce(t: Tree, base: nat, narrow: real -> real, p: int)
    ensures ReferencesTo(Flatten(t, base, narrow), p) ==
            if base <= p < base + |Flatten(t, base, narrow)| - 1 then 1 else 0
    decreases t, 1, 0
  {
    hide Refs, Children, MessageOf, FlattenChildren;
    var part := FlattenChildren(t, |Children(t)|, base, narrow);
    var m := MessageOf(t, part.roots, narrow);
    ChildrenReferredOnce(t, |Children(t)|, base, narrow, p);
    MessageRefs(t, part.roots, narrow);
    assert (part.entries + [m])[..|part.entries|] == part.entries;
  }

  lemma {:induction false} ChildrenReferredOnce(t: Tree, k: nat, base: nat, narrow: real -> real, p: int)
    requires k <= |Children(t)|
    ensures Balanced(FlattenChildren(t, k, base, narrow), base, p)
    decreases t, 0, k
  {
    hide Refs, Children, Flatten, ReferencesTo, Balanced;
    if k == 0 {
      NothingBalanced(base, p);
    } else {
      var before := FlattenChildren(t, k - 1, base, narrow);
      var at := base + |before.entries|;
      ChildrenReferredOnce(t, k - 1, base, narrow, p);
      ReferredOnce(Children(t)[k - 1], at, narrow, p);
      ReferredStep(before, Flatten(Children(t)[k - 1], at, narrow), base, p);
    }
  }

  lemma NothingBalanced(base: nat, p: int)
    ensures Balanced(Part([], []), base, p)
  {
    assert multiset([])[p] == 0;
  }

  lemma ReferredStep(before: Part, own: seq<Message>, base: nat, p: int)
    requires own != [] && Balanced(before, base, p)
    requires var at := base + |before.entries|; ReferencesTo(own, p) == if at <= p < at + |own| - 1 then 1 else 0
    ensures Balanced(Part(before.entries + own, before.roots + [base + |before.entries| + |own| - 1]), base, p)
  {
    hide ReferencesTo;
    ReferencesAppend(before.entries, own, p);
    TimesAppend(before.roots, base + |before.entries| + |own| - 1, p);
  }

  lemma TimesAppend(refs: seq<int>, last: int, p: int)
    ensures multiset(refs + [last])[p] == multiset(refs)[p] + if p == last then 1 else 0
  {}

  // ---------------------------------------------------------------------------------- Main results

  /** A tree comes back unchanged exactly when its floats fit and no Select has a table. */
  lemma {:induction false} StoredUnchanged(t: Tree, narrow: real -> real)
    ensures Stored(t, narrow) == t <==> Survives(t, narrow)
    decreases t, 1
  {
    hide Children, Stored;
    ChildrenStored(Children(t), narrow, t);
    StoredOfChildren(t, narrow);
  }

  lemma {:induction false} ChildrenStored(ts: seq<Tree>, narrow: real -> real, parent: Tree)
    requires forall i :: 0 <= i < |ts| ==> ts[i] < parent
    ensures StoredAll(ts, narrow) == ts <==> forall i :: 0 <= i < |ts| ==> Survives(ts[i], narrow)
    decreases parent, 0
  {
    hide Stored, Survives;
    forall i | 0 <= i < |ts| ensures Stored(ts[i], narrow) == ts[i] <==> Survives(ts[i], narrow) {
      StoredUnchanged(ts[i], narrow);
    }
  }

  lemma StoredOfChildren(t: Tree, narrow: real -> real)
    ensures Stored(t, narrow) == t <==>
      && (t.Float? ==> narrow(t.value) == t.value) && (t.Select? ==> t.table == None)
      && StoredAll(Children(t), narrow) == Children(t)
  {
    hide StoredAll, StoredOption, Present;
    if t.Select? {
      hide Children;
      SelectUnchanged(t, narrow);
    } else if t.Delete? {
      SameOption(t.condition, [], narrow);
      NothingStored(narrow);
      assert Children(t) == Present(t.condition) + [];
    } else if !t.Expression? {
      NothingStored(narrow);
    }
  }

  lemma SelectUnchanged(t: Tree, narrow: real -> real)
    requires t.Select?
    ensures StoredAll(Children(t), narrow) == Children(t) <==>
      && StoredAll(t.selectors, narrow) == t.selectors && StoredOption(t.where, narrow) == t.where
      && StoredOption(t.groupBy, narrow) == t.groupBy && StoredOption(t.having, narrow) == t.having
      && StoredOption(t.orderBy, narrow) == t.orderBy && StoredOption(t.limit, narrow) == t.limit
  {
    hide Present, StoredOption, StoredAll, Children;
    SelectChildren(t);
    SameParts(t.selectors, Options(t, 0), narrow);
    SameOption(t.where, Options(t, 1), narrow);
    SameOption(t.groupBy, Options(t, 2), narrow);
    SameOption(t.having, Options(t, 3), narrow);
    SameOption(t.orderBy, Options(t, 4), narrow);
    SameOption(t.limit, Options(t, 5), narrow);
    NothingStored(narrow);
  }

  lemma NothingStored(narrow: real -> real)
    ensures StoredAll([], narrow) == []
  {}

  lemma SameParts(a: seq<Tree>, b: seq<Tree>, narrow: real -> real)
    ensures StoredAll(a + b, narrow) == a + b <==> StoredAll(a, narrow) == a && StoredAll(b, narrow) == b
  {
    hide StoredAll, Stored;
    StoredSplit(a, b, narrow);
    var all := StoredAll(a + b, narrow);
    assert all == all[..|a|] + all[|a|..];
    if all == a + b {
      assert (a + b)[..|a|] == a && (a + b)[|a|..] == b;
    }
  }

  lemma SameOption(o: Option<Tree>, more: seq<Tree>, narrow: real -> real)
    ensures StoredAll(Present(o) + more, narrow) == Present(o) + more <==>
            StoredOption(o, narrow) == o && StoredAll(more, narrow) == more
  {
    hide StoredAll;
    SameParts(Present(o), more, narrow);
    if o.Some? {
      assert StoredAll([o.value], narrow)[0] == Stored(o.value, narrow);
      assert StoredAll([o.value], narrow) == [Stored(o.value, narrow)];
    } else {
      assert StoredAll([], narrow) == [];
    }
  }

  /** A whole query, written after whatever the output held, comes back clause by clause through its start
      points; reading throws exactly when some clause contains ALL or DEFAULT. */
  lemma {:induction false} QueryReadsBack(ts: seq<Tree>, base: nat,
                                          narrow: real -> real, input: seq<Message>, depth: nat)
    requires Placed(input, base, FlattenQuery(ts, base, narrow).entries)
    requires depth >= |FlattenQuery(ts, base, narrow).entries|
    ensures ReadAll(input, FlattenQuery(ts, base, narrow).roots, depth) == RecoveredAll(ts, narrow)
    decreases |ts|
  {
    hide Read, Flatten, Recovered, RecoveredAll;
    if ts == [] {
      NothingRecovered(narrow);
    } else {
      hide ReadAll;
      var init, last := ts[..|ts| - 1], ts[|ts| - 1];
      var before := FlattenQuery(init, base, narrow);
      var at := base + |before.entries|;
      var own := Flatten(last, at, narrow);
      PlacedParts(input, base, before.entries, own);
      QueryReadsBack(init, base, narrow, input, depth);
      TreeReadsBack(last, at, narrow, input, depth);
      ReadAllAppend(input, before.roots, at + |own| - 1, depth);
      assert ts == init + [last];
      RecoveredAppend(init, last, narrow);
    }
  }
}
