/** TLogManager::Log and Flush by any number of threads. */
module LogQueue {
  // Entries gather in a buffer; a flush takes the whole buffer and, holding the handlers' lock, hands each entry to
  // each handler. The threads' critical sections interleave freely.

  import opened Common

  type Thread = nat

  /** Registered handlers are numbered in the order they were added. */
  type Handler = nat

  type Entry = nat

  /** Where a thread is: outside, about to flush, holding taken batch b before the lock, or under the lock with the
      entry i of batch b to be handed to the j-th handler next. */
  datatype Phase = Outside | Flushing | Holding(b: nat) | Delivering(b: nat, i: nat, j: nat)

  /** The shared state; `logged`, `taken`, `order` and `present` record the history: all logged entries, the batches
      as they were taken, the batches in the order they got the lock, and the handlers each of these found. */
  datatype State = State(
    buffer: seq<Entry>,
    limit: nat,
    handlers: seq<Handler>,
    added: nat,
    phases: map<Thread, Phase>,
    lock: Option<Thread>,
    delivered: map<Handler, seq<Entry>>,
    logged: seq<Entry>,
    taken: seq<seq<Entry>>,
    order: seq<nat>,
    present: seq<seq<Handler>>
  )

  function PhaseOf(s: State, t: Thread): Phase { if t in s.phases then s.phases[t] else Outside }

  function Received(s: State, h: Handler): seq<Entry> { if h in s.delivered then s.delivered[h] else [] }

  const START := State([], 1024, [], 0, map[], None, map[], [], [], [], [])

  // ---------------------------------------------------------------------------------- Steps

  datatype Step =
    | Append(t: Thread, e: Entry)
    | StartFlush(t: Thread)
    | Take(t: Thread)
    | Acquire(t: Thread)
    | Deliver(t: Thread)
    | AddHandler
    | RemoveHandlers(gone: set<Handler>)
    | SetLimit(limit: nat)

  predicate Enabled(s: State, step: Step) {
    match step
    case Append(t, _) => PhaseOf(s, t).Outside?
    case StartFlush(t) => PhaseOf(s, t).Outside?
    case Take(t) => PhaseOf(s, t).Flushing?
    case Acquire(t) => PhaseOf(s, t).Holding? && s.lock.None?
    case Deliver(t) => PhaseOf(s, t).Delivering?
    case AddHandler => s.lock.None?
    case RemoveHandlers(_) => s.lock.None?
    case SetLimit(_) => true
  }

  function Moved(s: State, t: Thread, p: Phase): State { s.(phases := s.phases[t := p]) }

  /** Log under the buffer's lock; a full buffer makes the thread flush. */
  function AppendStep(s: State, t: Thread, e: Entry): State {
    var buffer := s.buffer + [e];
    Moved(s.(buffer := buffer, logged := s.logged + [e]), t, if |buffer| >= s.limit then Flushing else Outside)
  }

  /** Flush under the buffer's lock: the whole buffer is moved out; nothing more happens for an empty one. */
  function TakeStep(s: State, t: Thread): State {
    if s.buffer == [] then Moved(s, t, Outside)
    else Moved(s.(buffer := [], taken := s.taken + [s.buffer]), t, Holding(|s.taken|))
  }

  /** Getting the lock on the handlers. */
  function AcquireStep(s: State, t: Thread): State
    requires PhaseOf(s, t).Holding?
  {
    var b := PhaseOf(s, t).b;
    Moved(s.(lock := Some(t), order := s.order + [b], present := s.present + [s.handlers]), t, Delivering(b, 0, 0))
  }

  /** One handler gets one entry, or the loops go on to the next entry, or end and release the lock. */
  function DeliverStep(s: State, t: Thread): State
    requires PhaseOf(s, t).Delivering?
  {
    var Delivering(b, i, j) := PhaseOf(s, t);
    if b >= |s.taken| || i >= |s.taken[b]| then Moved(s.(lock := None), t, Outside)
    else if j >= |s.handlers| then Moved(s, t, Delivering(b, i + 1, 0))
    else
      var h := s.handlers[j];
      Moved(s.(delivered := s.delivered[h := Received(s, h) + [s.taken[b][i]]]), t, Delivering(b, i, j + 1))
  }

  /** The handlers that are not removed. */
  function Remaining(handlers: seq<Handler>, gone: set<Handler>): seq<Handler> {
    if handlers == [] then []
    else if handlers[0] in gone then Remaining(handlers[1..], gone)
    else [handlers[0]] + Remaining(handlers[1..], gone)
  }

  function Apply(s: State, step: Step): State
    requires Enabled(s, step)
  {
    match step
    case Append(t, e) => AppendStep(s, t, e)
    case StartFlush(t) => Moved(s, t, Flushing)
    case Take(t) => TakeStep(s, t)
    case Acquire(t) => AcquireStep(s, t)
    case Deliver(t) => DeliverStep(s, t)
    case AddHandler => s.(handlers := s.handlers + [s.added], added := s.added + 1)
    case RemoveHandlers(gone) => s.(handlers := Remaining(s.handlers, gone))
    case SetLimit(limit) => s.(limit := limit)
  }

  /** The state after some steps, as long as each is enabled. */
  function Run(steps: seq<Step>): Option<State> {
    if steps == [] then Some(START)
    else
      match Run(steps[..|steps| - 1])
      case None => None
      case Some(s) => if Enabled(s, steps[|steps| - 1]) then Some(Apply(s, steps[|steps| - 1])) else None
  }

  // ---------------------------------------------------------------------------------- The invariant

  function Flat(batches: seq<seq<Entry>>): seq<Entry> {
    if batches == [] then [] else Flat(batches[..|batches| - 1]) + batches[|batches| - 1]
  }

  /** What a handler has received from the first n batches that got the lock: all of each it was present for. */
  function Expected(taken: seq<seq<Entry>>, order: seq<nat>, present: seq<seq<Handler>>, h: Handler, n: nat): seq<Entry>
    requires n <= |order| == |present| && forall k :: 0 <= k < |order| ==> order[k] < |taken|
  {
    if n == 0 then []
    else Expected(taken, order, present, h, n - 1) + if h in present[n - 1] then taken[order[n - 1]] else []
  }

  predicate Distinct<T(==)>(items: seq<T>) { forall i, j :: 0 <= i < j < |items| ==> items[i] != items[j] }

  /** The logged entries are those of the taken batches, in order, and then the buffer. */
  ghost predicate HistoryOk(s: State) { s.logged == Flat(s.taken) + s.buffer }

  /** Handlers are registered once; new ones are new. */
  ghost predicate HandlersOk(s: State) {
    && Distinct(s.handlers) && (forall i :: 0 <= i < |s.handlers| ==> s.handlers[i] < s.added)
    && (forall h :: h in s.delivered ==> h < s.added)
    && forall k, h :: 0 <= k < |s.present| && h in s.present[k] ==> h < s.added
  }

  predicate Holds(s: State, t: Thread, b: nat) { PhaseOf(s, t) == Holding(b) }

  /** Every taken batch has got the lock once, or is held by one thread that waits for it. */
  ghost predicate BatchesOk(s: State) {
    && |s.present| == |s.order| && Distinct(s.order)
    && (forall k :: 0 <= k < |s.order| ==> s.order[k] < |s.taken|)
    && (forall t: Thread, b: nat :: Holds(s, t, b) ==> b < |s.taken| && b !in s.order)
    && (forall t: Thread, u: Thread, b: nat :: Holds(s, t, b) && Holds(s, u, b) ==> t == u)
    && forall b :: 0 <= b < |s.taken| && b !in s.order ==> exists t: Thread :: Holds(s, t, b)
  }

  /** The lock is held exactly by the thread that delivers; it delivers the last batch of the order to the handlers
      that batch found. */
  ghost predicate LockOk(s: State) {
    && (forall t: Thread :: PhaseOf(s, t).Delivering? <==> s.lock == Some(t))
    && (s.lock.Some? ==>
        var p := PhaseOf(s, s.lock.value);
        && p.Delivering? && s.order != [] && |s.present| == |s.order|
        && p.b == s.order[|s.order| - 1] && s.present[|s.present| - 1] == s.handlers
        && p.b < |s.taken| && p.i <= |s.taken[p.b]| && p.j <= |s.handlers| && (p.i == |s.taken[p.b]| ==> p.j == 0))
  }

  /** The entries of the current batch a handler has got: those before entry i, and entry i if its turn is over. */
  function Partly(batch: seq<Entry>, handlers: seq<Handler>, h: Handler, i: nat, j: nat): seq<Entry>
    requires i <= |batch| && j <= |handlers| && (i == |batch| ==> j == 0)
  {
    if h !in handlers then [] else if h in handlers[..j] then batch[..i + 1] else batch[..i]
  }

  /** What a handler should have received by now. */
  ghost function Due(s: State, h: Handler): seq<Entry>
    requires BatchesOk(s) && LockOk(s)
  {
    if s.lock.None? then Expected(s.taken, s.order, s.present, h, |s.order|)
    else
      var p := PhaseOf(s, s.lock.value);
      Expected(s.taken, s.order, s.present, h, |s.order| - 1) + Partly(s.taken[p.b], s.handlers, h, p.i, p.j)
  }

  ghost predicate Inv(s: State) {
    && HistoryOk(s) && HandlersOk(s) && BatchesOk(s) && LockOk(s)
    && forall h: Handler :: Received(s, h) == Due(s, h)
  }

  // ---------------------------------------------------------------------------------- Every step keeps it

  /** A step that only moves a thread between the phases without a batch. */
  lemma PhaseOnly(s: State, r: State, t: Thread)
    requires BatchesOk(s) && LockOk(s) && (PhaseOf(s, t).Outside? || PhaseOf(s, t).Flushing?)
    requires PhaseOf(r, t).Outside? || PhaseOf(r, t).Flushing?
    requires forall u: Thread :: u != t ==> PhaseOf(r, u) == PhaseOf(s, u)
    requires r.taken == s.taken && r.order == s.order && r.present == s.present && r.lock == s.lock
    requires r.handlers == s.handlers
    ensures BatchesOk(r) && LockOk(r) && forall h: Handler :: Due(r, h) == Due(s, h)
  {
    hide PhaseOf, Expected, Partly;
    forall u: Thread, b ensures Holds(r, u, b) <==> Holds(s, u, b) {}
    forall b | 0 <= b < |r.taken| && b !in r.order ensures exists u: Thread :: Holds(r, u, b) {
      var u: Thread :| Holds(s, u, b);
      assert Holds(r, u, b);
    }
  }

  lemma MovedPhases(s: State, t: Thread, p: Phase)
    ensures forall u: Thread :: PhaseOf(Moved(s, t, p), u) == if u == t then p else PhaseOf(s, u)
  {}

  lemma AppendKeeps(s: State, t: Thread, e: Entry)
    requires Inv(s) && PhaseOf(s, t).Outside?
    ensures Inv(AppendStep(s, t, e))
  {
    hide PhaseOf, BatchesOk, LockOk, Due;
    var r := AppendStep(s, t, e);
    MovedPhases(s.(buffer := s.buffer + [e], logged := s.logged + [e]), t, if |s.buffer +
      [e]| >= s.limit then Flushing else Outside);
    SamePhases(s, s.(buffer := s.buffer + [e], logged := s.logged + [e]));
    PhaseOnly(s, r, t);
    assert Flat(s.taken) + s.buffer + [e] == Flat(s.taken) + (s.buffer + [e]);
    forall h: Handler ensures Received(r, h) == Due(r, h) { assert Received(r, h) == Received(s, h); }
  }

  lemma SamePhases(s: State, r: State)
    requires r.phases == s.phases
    ensures forall u: Thread :: PhaseOf(r, u) == PhaseOf(s, u)
  {}

  lemma StartFlushKeeps(s: State, t: Thread)
    requires Inv(s) && PhaseOf(s, t).Outside?
    ensures Inv(Moved(s, t, Flushing))
  {
    hide PhaseOf, BatchesOk, LockOk, Due;
    var r := Moved(s, t, Flushing);
    MovedPhases(s, t, Flushing);
    PhaseOnly(s, r, t);
    forall h: Handler ensures Received(r, h) == Due(r, h) { assert Received(r, h) == Received(s, h); }
  }

  /** The deliveries so far do not depend on batches taken later. */
  lemma {:induction false} ExpectedStays(taken: seq<seq<Entry>>, more: seq<seq<Entry>>, order: seq<nat>,
                                         later: seq<nat>,
                                         present: seq<seq<Handler>>, found: seq<seq<Handler>>, h: Handler, n: nat)
    requires n <= |order| == |present| && |later| == |found|
    requires forall k :: 0 <= k < |order| ==> order[k] < |taken|
    requires forall k :: 0 <= k < |later| ==> later[k] < |taken + more|
    ensures forall k :: 0 <= k < |order + later| ==> (order + later)[k] < |taken + more|
    ensures Expected(taken + more, order + later, present + found, h, n) == Expected(taken, order, present, h, n)
  {
    if n > 0 { ExpectedStays(taken, more, order, later, present, found, h, n - 1); }
  }

  lemma TakeKeeps(s: State, t: Thread)
    requires Inv(s) && PhaseOf(s, t).Flushing?
    ensures Inv(TakeStep(s, t))
  {
    hide PhaseOf, Due;
    var r := TakeStep(s, t);
    if s.buffer == [] {
      MovedPhases(s, t, Outside);
      PhaseOnly(s, r, t);
      forall h: Handler ensures Received(r, h) == Due(r, h) { assert Received(r, h) == Received(s, h); }
    } else {
      var s1 := s.(buffer := [], taken := s.taken + [s.buffer]);
      MovedPhases(s1, t, Holding(|s.taken|));
      SamePhases(s, s1);
      assert r.taken[..|s.taken|] == s.taken && r.taken[|s.taken|] == s.buffer;
      assert Flat(r.taken) + [] == Flat(s.taken) + s.buffer;
      TakeBatches(s, r, t);
      forall h: Handler ensures Received(r, h) == Due(r, h) {
        assert Received(r, h) == Received(s, h);
        TakeDue(s, r, h);
      }
    }
  }

  lemma TakeBatches(s: State, r: State, t: Thread)
    requires BatchesOk(s) && LockOk(s) && PhaseOf(s, t).Flushing?
    requires forall u: Thread :: PhaseOf(r, u) == if u == t then Holding(|s.taken|) else PhaseOf(s, u)
    requires r.taken == s.taken + [s.buffer] && r.order == s.order && r.present == s.present && r.lock == s.lock
    requires r.handlers == s.handlers
    ensures BatchesOk(r) && LockOk(r)
  {
    hide PhaseOf;
    forall u: Thread, b ensures Holds(r, u, b) <==> (if u == t then b == |s.taken| else Holds(s, u, b)) {}
    assert Holds(r, t, |s.taken|);
    forall b | 0 <= b < |r.taken| && b !in r.order ensures exists u: Thread :: Holds(r, u, b) {
      if b < |s.taken| {
        var u: Thread :| Holds(s, u, b);
        assert !Holds(s, t, b);
        assert Holds(r, u, b);
      }
    }
  }

  lemma TakeDue(s: State, r: State, h: Handler)
    requires BatchesOk(s) && LockOk(s) && BatchesOk(r) && LockOk(r)
    requires r.taken == s.taken + [s.buffer] && r.order == s.order && r.present == s.present && r.lock == s.lock
    requires r.handlers == s.handlers
    requires s.lock.Some? ==> PhaseOf(r, s.lock.value) == PhaseOf(s, s.lock.value)
    ensures Due(r, h) == Due(s, h)
  {
    hide PhaseOf, Partly;
    assert s.order + [] == s.order && s.present + [] == s.present;
    ExpectedStays(s.taken, [s.buffer], s.order, [], s.present, [], h, if s.lock.None? then |s.order|
      else |s.order| - 1);
  }

  lemma AcquireKeeps(s: State, t: Thread)
    requires Inv(s) && PhaseOf(s, t).Holding? && s.lock.None?
    ensures Inv(AcquireStep(s, t))
  {
    hide PhaseOf, Due;
    var b := PhaseOf(s, t).b;
    var r := AcquireStep(s, t);
    var s1 := s.(lock := Some(t), order := s.order + [b], present := s.present + [s.handlers]);
    MovedPhases(s1, t, Delivering(b, 0, 0));
    SamePhases(s, s1);
    assert Holds(s, t, b);
    AcquireBatches(s, r, t, b);
    forall h: Handler ensures Received(r, h) == Due(r, h) {
      assert Received(r, h) == Received(s, h);
      AcquireDue(s, r, t, b, h);
    }
  }

  lemma AcquireBatches(s: State, r: State, t: Thread, b: nat)
    requires BatchesOk(s) && LockOk(s) && s.lock.None? && Holds(s, t, b)
    requires forall u: Thread :: PhaseOf(r, u) == if u == t then Delivering(b, 0, 0) else PhaseOf(s, u)
    requires r.taken == s.taken && r.order == s.order + [b] && r.present == s.present + [s.handlers]
    requires r.lock == Some(t) && r.handlers == s.handlers
    ensures BatchesOk(r) && LockOk(r)
  {
    hide PhaseOf;
    forall u: Thread, c ensures Holds(r, u, c) <==> (u != t && Holds(s, u, c)) {}
    forall c | 0 <= c < |r.taken| && c !in r.order ensures exists u: Thread :: Holds(r, u, c) {
      var u: Thread :| Holds(s, u, c);
      assert c != b;
      assert Holds(r, u, c);
    }
  }

  lemma AcquireDue(s: State, r: State, t: Thread, b: nat, h: Handler)
    requires BatchesOk(s) && LockOk(s) && s.lock.None? && BatchesOk(r) && LockOk(r) && b < |s.taken|
    requires PhaseOf(r, t) == Delivering(b, 0, 0)
    requires r.taken == s.taken && r.order == s.order + [b] && r.present == s.present + [s.handlers]
    requires r.lock == Some(t) && r.handlers == s.handlers
    ensures Due(r, h) == Due(s, h)
  {
    hide PhaseOf;
    assert s.taken + [] == s.taken;
    ExpectedStays(s.taken, [], s.order, [b], s.present, [s.handlers], h, |s.order|);
    assert Partly(s.taken[b], s.handlers, h, 0, 0) == [];
  }

  lemma DeliverKeeps(s: State, t: Thread)
    requires Inv(s) && PhaseOf(s, t).Delivering?
    ensures Inv(DeliverStep(s, t))
  {
    hide PhaseOf, Due;
    var r := DeliverStep(s, t);
    var p := PhaseOf(s, t);
    var batch := s.taken[p.b];
    if p.i >= |batch| {
      MovedPhases(s.(lock := None), t, Outside);
      SamePhases(s, s.(lock := None));
      UnlockBatches(s, r, t);
      forall h: Handler ensures Received(r, h) == Due(r, h) {
        assert Received(r, h) == Received(s, h);
        UnlockDue(s, r, t, h);
      }
    } else if p.j >= |s.handlers| {
      MovedPhases(s, t, Delivering(p.b, p.i + 1, 0));
      GoOnBatches(s, r, t);
      forall h: Handler ensures Received(r, h) == Due(r, h) {
        assert Received(r, h) == Received(s, h);
        NextEntryDue(s, r, t, h);
      }
    } else {
      var s1 := s.(delivered := s.delivered[s.handlers[p.j] := Received(s, s.handlers[p.j]) + [batch[p.i]]]);
      MovedPhases(s1, t, Delivering(p.b, p.i, p.j + 1));
      SamePhases(s, s1);
      GoOnBatches(s, r, t);
      forall h: Handler ensures Received(r, h) == Due(r, h) { HandedDue(s, r, t, h); }
    }
  }

  lemma UnlockBatches(s: State, r: State, t: Thread)
    requires BatchesOk(s) && LockOk(s) && s.lock == Some(t)
    requires forall u: Thread :: PhaseOf(r, u) == if u == t then Outside else PhaseOf(s, u)
    requires r.taken == s.taken && r.order == s.order && r.present == s.present && r.lock == None
    requires r.handlers == s.handlers
    ensures BatchesOk(r) && LockOk(r)
  {
    hide PhaseOf;
    forall u: Thread, c ensures Holds(r, u, c) <==> Holds(s, u, c) {}
    forall c | 0 <= c < |r.taken| && c !in r.order ensures exists u: Thread :: Holds(r, u, c) {
      var u: Thread :| Holds(s, u, c);
      assert Holds(r, u, c);
    }
  }

  lemma UnlockDue(s: State, r: State, t: Thread, h: Handler)
    requires BatchesOk(s) && LockOk(s) && s.lock == Some(t) && BatchesOk(r) && LockOk(r)
    requires var p := PhaseOf(s, t); p.Delivering? && p.i >= |s.taken[p.b]|
    requires r.taken == s.taken && r.order == s.order && r.present == s.present && r.lock == None
    requires r.handlers == s.handlers
    ensures Due(r, h) == Due(s, h)
  {
    hide PhaseOf;
    var p := PhaseOf(s, t);
    assert s.taken[p.b][..p.i] == s.taken[p.b];
  }

  lemma GoOnBatches(s: State, r: State, t: Thread)
    requires BatchesOk(s) && LockOk(s) && s.lock == Some(t)
    requires var p := PhaseOf(r, t);
             && p.Delivering? && p.b == PhaseOf(s, t).b && p.i <= |s.taken[p.b]| && p.j <= |s.handlers|
               && (p.i == |s.taken[p.b]| ==> p.j == 0)
    requires forall u: Thread :: u != t ==> PhaseOf(r, u) == PhaseOf(s, u)
    requires r.taken == s.taken && r.order == s.order && r.present == s.present && r.lock == s.lock
    requires r.handlers == s.handlers
    ensures BatchesOk(r) && LockOk(r)
  {
    hide PhaseOf;
    forall u: Thread, c ensures Holds(r, u, c) <==> Holds(s, u, c) {}
    forall c | 0 <= c < |r.taken| && c !in r.order ensures exists u: Thread :: Holds(r, u, c) {
      var u: Thread :| Holds(s, u, c);
      assert Holds(r, u, c);
    }
  }

  /** When every handler has had its turn, going on to the next entry changes nothing for any of them. */
  lemma NextEntryDue(s: State, r: State, t: Thread, h: Handler)
    requires BatchesOk(s) && LockOk(s) && s.lock == Some(t) && BatchesOk(r) && LockOk(r)
    requires var p := PhaseOf(s, t);
             p.Delivering? && p.i < |s.taken[p.b]| && p.j >= |s.handlers|
               && PhaseOf(r, t) == Delivering(p.b, p.i + 1, 0)
    requires r.taken == s.taken && r.order == s.order && r.present == s.present && r.lock == s.lock
    requires r.handlers == s.handlers
    ensures Due(r, h) == Due(s, h)
  {
    hide PhaseOf, Expected;
    assert s.handlers[..|s.handlers|] == s.handlers;
  }

  /** The handler whose turn it is gets the entry it is due; nobody else gets anything. */
  lemma HandedDue(s: State, r: State, t: Thread, h: Handler)
    requires BatchesOk(s) && LockOk(s) && s.lock == Some(t) && BatchesOk(r) && LockOk(r) && Distinct(s.handlers)
    requires Received(s, h) == Due(s, h)
    requires var p := PhaseOf(s, t);
             && p.Delivering? && p.i < |s.taken[p.b]| && p.j < |s.handlers|
               && PhaseOf(r, t) == Delivering(p.b, p.i, p.j + 1)
             && r.delivered == s.delivered[s.handlers[p.j] := Received(s, s.handlers[p.j]) + [s.taken[p.b][p.i]]]
    requires r.taken == s.taken && r.order == s.order && r.present == s.present && r.lock == s.lock
    requires r.handlers == s.handlers
    ensures Received(r, h) == Due(r, h)
  {
    hide PhaseOf, Expected;
    var p := PhaseOf(s, t);
    var batch, turn := s.taken[p.b], s.handlers[p.j];
    TurnMoves(s.handlers, p.j, h);
    assert batch[..p.i + 1] == batch[..p.i] + [batch[p.i]];
    if h == turn {
      var before := Expected(s.taken, s.order, s.present, h, |s.order| - 1);
      assert before + batch[..p.i] + [batch[p.i]] == before + (batch[..p.i] + [batch[p.i]]);
    }
  }

  lemma TurnMoves(handlers: seq<Handler>, j: nat, h: Handler)
    requires Distinct(handlers) && j < |handlers|
    ensures handlers[j] !in handlers[..j] && handlers[j] in handlers[..j + 1]
    ensures h != handlers[j] ==> (h in handlers[..j + 1] <==> h in handlers[..j])
  {
    assert handlers[..j + 1] == handlers[..j] + [handlers[j]];
  }

  lemma {:induction false} NeverPresent(taken: seq<seq<Entry>>, order: seq<nat>, present: seq<seq<Handler>>,
                                        h: Handler, n: nat)
    requires n <= |order| == |present| && forall k :: 0 <= k < |order| ==> order[k] < |taken|
    requires forall k :: 0 <= k < |present| ==> h !in present[k]
    ensures Expected(taken, order, present, h, n) == []
  {
    if n > 0 { NeverPresent(taken, order, present, h, n - 1); }
  }

  /** A change of the handlers while nobody delivers. */
  lemma HandlersChange(s: State, r: State)
    requires BatchesOk(s) && LockOk(s) && s.lock.None?
    requires r.phases == s.phases && r.lock == s.lock
    requires r.taken == s.taken && r.order == s.order && r.present == s.present
    ensures BatchesOk(r) && LockOk(r) && forall h: Handler :: Due(r, h) == Due(s, h)
  {
    hide PhaseOf, Expected;
    SamePhases(s, r);
    forall u: Thread, c ensures Holds(r, u, c) <==> Holds(s, u, c) {}
    forall c | 0 <= c < |r.taken| && c !in r.order ensures exists u: Thread :: Holds(r, u, c) {
      var u: Thread :| Holds(s, u, c);
      assert Holds(r, u, c);
    }
  }

  lemma {:induction false} RemainingKeeps(handlers: seq<Handler>, gone: set<Handler>)
    requires Distinct(handlers)
    ensures Distinct(Remaining(handlers, gone))
    ensures forall h :: h in Remaining(handlers, gone) <==> h in handlers && h !in gone
  {
    if handlers != [] {
      var rest := handlers[1..];
      assert forall i :: 0 <= i < |rest| ==> rest[i] == handlers[i + 1];
      RemainingKeeps(rest, gone);
      assert handlers[0] !in rest;
      assert handlers == [handlers[0]] + rest;
    }
  }

  lemma HandlerStepKeeps(s: State, step: Step)
    requires Inv(s) && Enabled(s, step) && (step.AddHandler? || step.RemoveHandlers? || step.SetLimit?)
    ensures Inv(Apply(s, step))
  {
    hide BatchesOk, LockOk, Due;
    var r := Apply(s, step);
    if step.SetLimit? {
      LimitOnly(s, step.limit);
    } else {
      HandlersChange(s, r);
      if step.RemoveHandlers? {
        RemainingKeeps(s.handlers, step.gone);
        forall i | 0 <= i < |r.handlers| ensures r.handlers[i] < r.added { assert r.handlers[i] in r.handlers; }
      }
    }
    forall h: Handler ensures Received(r, h) == Due(r, h) { assert Received(r, h) == Received(s, h); }
  }

  lemma LimitOnly(s: State, limit: nat)
    requires BatchesOk(s) && LockOk(s)
    ensures var r := s.(limit := limit); BatchesOk(r) && LockOk(r) && forall h: Handler :: Due(r, h) == Due(s, h)
  {
    hide PhaseOf, Expected, Partly;
    var r := s.(limit := limit);
    SamePhases(s, r);
    forall u: Thread, c ensures Holds(r, u, c) <==> Holds(s, u, c) {}
    forall c | 0 <= c < |r.taken| && c !in r.order ensures exists u: Thread :: Holds(r, u, c) {
      var u: Thread :| Holds(s, u, c);
      assert Holds(r, u, c);
    }
  }

  /** Every step of every thread keeps the invariant. */
  lemma StepKeeps(s: State, step: Step)
    requires Inv(s) && Enabled(s, step)
    ensures Inv(Apply(s, step))
  {
    hide Inv;
    match step
    case Append(t, e) => AppendKeeps(s, t, e);
    case StartFlush(t) => StartFlushKeeps(s, t);
    case Take(t) => TakeKeeps(s, t);
    case Acquire(t) => AcquireKeeps(s, t);
    case Deliver(t) => DeliverKeeps(s, t);
    case _ => HandlerStepKeeps(s, step);
  }

  lemma StartOk()
    ensures Inv(START)
  {
    assert Flat([]) + [] == [];
  }

  lemma {:induction false} RunOk(steps: seq<Step>)
    ensures Run(steps).Some? ==> Inv(Run(steps).value)
  {
    hide Inv, Apply, Enabled;
    if steps == [] {
      StartOk();
    } else {
      var init, last := steps[..|steps| - 1], steps[|steps| - 1];
      RunOk(init);
      if Run(init).Some? && Enabled(Run(init).value, last) { StepKeeps(Run(init).value, last); }
    }
  }

  // ---------------------------------------------------------------------------------- Main results

  /** Logged entries are in the buffer or in a taken batch, in the order they were appended; a taken batch waits with
      one thread, or has got the lock once. */
  lemma EntriesAccounted(steps: seq<Step>)
    requires Run(steps).Some?
    ensures var s := Run(steps).value;
            && s.logged == Flat(s.taken) + s.buffer
            && Distinct(s.order) && (forall k :: 0 <= k < |s.order| ==> s.order[k] < |s.taken|)
            && forall b :: 0 <= b < |s.taken| && b !in s.order ==> exists t: Thread :: Holds(s, t, b)
  {
    RunOk(steps);
  }

  /** When no thread delivers, each handler has received exactly the batches it was present for, whole, in the order
      they got the lock. */
  lemma DeliveredExactly(steps: seq<Step>, h: Handler)
    requires Run(steps).Some? && Run(steps).value.lock.None?
    ensures var s := Run(steps).value;
            && |s.present| == |s.order| && (forall k :: 0 <= k < |s.order| ==> s.order[k] < |s.taken|)
            && Received(s, h) == Expected(s.taken, s.order, s.present, h, |s.order|)
  {
    RunOk(steps);
  }

  lemma {:induction false} ExpectedMembers(taken: seq<seq<Entry>>, order: seq<nat>, present: seq<seq<Handler>>,
                                           h: Handler, n: nat, e: Entry)
    requires n <= |order| == |present| && forall k :: 0 <= k < |order| ==> order[k] < |taken|
    ensures e in Expected(taken, order, present, h, n) <==>
      exists k :: 0 <= k < n && h in present[k] && e in taken[order[k]]
  {
    if n > 0 { ExpectedMembers(taken, order, present, h, n - 1, e); }
  }

  lemma {:induction false} FlatMembers(batches: seq<seq<Entry>>, e: Entry)
    ensures e in Flat(batches) <==> exists b :: 0 <= b < |batches| && e in batches[b]
  {
    if batches != [] {
      var init := batches[..|batches| - 1];
      FlatMembers(init, e);
      assert forall b :: 0 <= b < |init| ==> init[b] == batches[b];
    }
  }

  lemma DistinctParts(a: seq<Entry>, b: seq<Entry>)
    ensures Distinct(a + b) <==> Distinct(a) && Distinct(b) && forall e :: e in a ==> e !in b
  {
    var all := a + b;
    assert forall i :: 0 <= i < |a| ==> all[i] == a[i];
    assert forall i :: 0 <= i < |b| ==> all[|a| + i] == b[i];
    if Distinct(all) {
      forall i, j | 0 <= i < j < |a| ensures a[i] != a[j] { assert all[i] != all[j]; }
      forall i, j | 0 <= i < j < |b| ensures b[i] != b[j] { assert all[|a| + i] != all[|a| + j]; }
      forall e | e in a ensures e !in b {
        var i :| 0 <= i < |a| && a[i] == e;
        forall j | 0 <= j < |b| ensures b[j] != e { assert all[i] != all[|a| + j]; }
      }
    }
    if Distinct(a) && Distinct(b) && forall e :: e in a ==> e !in b {
      forall i, j | 0 <= i < j < |all| ensures all[i] != all[j] {
        if i < |a| <= j { assert a[i] in a && b[j - |a|] in b; }
      }
    }
  }

  /** Batches of distinct entries have none in common. */
  lemma {:induction false} BatchesApart(batches: seq<seq<Entry>>)
    requires Distinct(Flat(batches))
    ensures forall b :: 0 <= b < |batches| ==> Distinct(batches[b])
    ensures forall b, c, e :: 0 <= b < c < |batches| && e in batches[b] ==> e !in batches[c]
  {
    if batches != [] {
      var init, last := batches[..|batches| - 1], batches[|batches| - 1];
      DistinctParts(Flat(init), last);
      BatchesApart(init);
      assert forall b :: 0 <= b < |init| ==> init[b] == batches[b];
      forall b, e | 0 <= b < |init| && e in batches[b] ensures e !in last {
        assert e in init[b];
        FlatMembers(init, e);
      }
    }
  }

  lemma {:induction false} ExpectedDistinct(taken: seq<seq<Entry>>, order: seq<nat>, present: seq<seq<Handler>>,
                                            h: Handler, n: nat)
    requires n <= |order| == |present| && Distinct(order) && forall k :: 0 <= k < |order| ==> order[k] < |taken|
    requires Distinct(Flat(taken))
    ensures Distinct(Expected(taken, order, present, h, n))
  {
    BatchesApart(taken);
    if n > 0 {
      ExpectedDistinct(taken, order, present, h, n - 1);
      var before, last := Expected(taken, order, present, h, n - 1), taken[order[n - 1]];
      forall e | e in before ensures e !in last {
        ExpectedMembers(taken, order, present, h, n - 1, e);
        var k :| 0 <= k < n - 1 && h in present[k] && e in taken[order[k]];
        assert order[k] != order[n - 1];
      }
      DistinctParts(before, last);
      assert before + [] == before;
    }
  }

  /** If no entry was logged twice, no handler gets an entry twice; it gets exactly the entries of the batches that
      were processed while it was registered. */
  lemma DeliveredOnce(steps: seq<Step>, h: Handler, e: Entry)
    requires Run(steps).Some? && Run(steps).value.lock.None? && Distinct(Run(steps).value.logged)
    ensures var s := Run(steps).value;
            && Distinct(Received(s, h))
            && |s.present| == |s.order| && (forall k :: 0 <= k < |s.order| ==> s.order[k] < |s.taken|)
            && (e in Received(s, h) <==>
                exists k :: 0 <= k < |s.order| && h in s.present[k] && e in s.taken[s.order[k]])
  {
    hide Run, Expected;
    var s := Run(steps).value;
    EntriesAccounted(steps);
    DeliveredExactly(steps, h);
    DistinctParts(Flat(s.taken), s.buffer);
    ExpectedDistinct(s.taken, s.order, s.present, h, |s.order|);
    ExpectedMembers(s.taken, s.order, s.present, h, |s.order|, e);
  }

  /** When every thread is outside, every entry is in the buffer or in a batch that has been processed. */
  lemma NothingStuck(steps: seq<Step>, e: Entry)
    requires Run(steps).Some? && e in Run(steps).value.logged
    requires forall t: Thread :: PhaseOf(Run(steps).value, t).Outside?
    ensures var s := Run(steps).value;
            s.lock.None? && (e in s.buffer || exists b :: 0 <= b < |s.taken| && e in s.taken[b] && b in s.order)
  {
    hide Run, PhaseOf;
    var s := Run(steps).value;
    RunOk(steps);
    FlatMembers(s.taken, e);
  }

  /** The entries of the calls of Log, in their order. */
  function Calls(steps: seq<Step>): seq<Entry> {
    if steps == [] then []
    else
      var last := steps[|steps| - 1];
      Calls(steps[..|steps| - 1]) + if last.Append? then [last.e] else []
  }

  /** No entry is lost on the way into the log. */
  lemma {:induction false} LoggedExactly(steps: seq<Step>)
    requires Run(steps).Some?
    ensures Run(steps).value.logged == Calls(steps)
  {
    hide Enabled;
    if steps != [] { LoggedExactly(steps[..|steps| - 1]); }
  }

  // ---------------------------------------------------------------------------------- Full buffers

  predicate Flushes(s: State, t: Thread) { PhaseOf(s, t).Flushing? }

  /** A buffer at or over the limit is about to be flushed by some thread. */
  ghost predicate FullIsFlushed(s: State) {
    s.buffer != [] && |s.buffer| >= s.limit ==> exists t: Thread :: Flushes(s, t)
  }

  /** Every step keeps that, except that the limit can be set below what is buffered. */
  lemma StepFlushes(s: State, step: Step)
    requires FullIsFlushed(s) && Enabled(s, step)
    ensures (step.SetLimit? && |s.buffer| >= step.limit) || FullIsFlushed(Apply(s, step))
  {
    var r := Apply(s, step);
    if r.buffer != [] && |r.buffer| >= r.limit && !step.SetLimit? {
      if step.Append? {
        assert Flushes(r, step.t);
      } else {
        var t: Thread :| Flushes(s, t);
        if step.StartFlush? { assert Flushes(r, step.t); } else { OthersFlush(s, step, t); }
      }
    }
  }

  lemma OthersFlush(s: State, step: Step, t: Thread)
    requires Enabled(s, step) && Flushes(s, t) && !step.Append? && !step.StartFlush?
    requires step.Take? && step.t == t ==> Apply(s, step).buffer != []
    ensures Flushes(Apply(s, step), t)
  {}

  /** And a thread that was not about to flush is so only after it has filled the buffer, or started a flush itself. */
  lemma FlushesOnlyFull(s: State, step: Step, t: Thread)
    requires Enabled(s, step) && !Flushes(s, t) && Flushes(Apply(s, step), t)
    ensures step == StartFlush(t) || (step.Append? && step.t == t && |s.buffer| + 1 >= s.limit)
  {}

  /** In every run that leaves the limit alone, whoever fills the buffer, or fills it further, has yet to flush it. */
  lemma {:induction false} FullBuffersAreFlushed(steps: seq<Step>)
    requires Run(steps).Some? && forall m :: 0 <= m < |steps| ==> !steps[m].SetLimit?
    ensures FullIsFlushed(Run(steps).value)
  {
    hide Apply, Enabled, FullIsFlushed;
    if steps == [] {
      NothingBuffered();
    } else {
      FullBuffersAreFlushed(steps[..|steps| - 1]);
      StepFlushes(Run(steps[..|steps| - 1]).value, steps[|steps| - 1]);
    }
  }

  lemma NothingBuffered()
    ensures FullIsFlushed(START)
  {}

  // ---------------------------------------------------------------------------------- Registration

  /** How many handlers have been added. */
  function Added(steps: seq<Step>): nat {
    if steps == [] then 0
    else Added(steps[..|steps| - 1]) + if steps[|steps| - 1].AddHandler? then 1 else 0
  }

  /** Handler h has been added, and not removed since. */
  ghost predicate Registered(steps: seq<Step>, h: Handler) {
    h < Added(steps) && forall m :: 0 <= m < |steps| && steps[m].RemoveHandlers? && h < Added(steps[..m]) ==>
      h !in steps[m].gone
  }

  /** The handlers are those that have been added and not removed. */
  lemma {:induction false} HandlersExactly(steps: seq<Step>, h: Handler)
    requires Run(steps).Some?
    ensures Run(steps).value.added == Added(steps)
    ensures h in Run(steps).value.handlers <==> Registered(steps, h)
  {
    hide Enabled;
    if steps != [] {
      var init, last := steps[..|steps| - 1], steps[|steps| - 1];
      HandlersExactly(init, h);
      RunOk(init);
      RegisteredStep(steps, h);
      HandlerStep(Run(init).value, last, h);
    }
  }

  lemma HandlerStep(s: State, step: Step, h: Handler)
    requires Inv(s) && Enabled(s, step)
    ensures var r := Apply(s, step);
            && r.added == s.added + (if step.AddHandler? then 1 else 0)
            && (h in r.handlers <==>
                (step.AddHandler? && h == s.added) || (h in s.handlers && !(step.RemoveHandlers? && h in step.gone)))
  {
    hide BatchesOk, LockOk, Due;
    if step.RemoveHandlers? { RemainingKeeps(s.handlers, step.gone); }
  }

  lemma {:induction false} RegisteredStep(steps: seq<Step>, h: Handler)
    requires steps != []
    ensures var init, last := steps[..|steps| - 1], steps[|steps| - 1];
            Registered(steps, h) <==>
              || (last.AddHandler? && h == Added(init))
              || (Registered(init, h) && !(last.RemoveHandlers? && h in last.gone))
  {
    var init, last := steps[..|steps| - 1], steps[|steps| - 1];
    forall m | 0 <= m < |init| ensures init[m] == steps[m] && init[..m] == steps[..m] {}
    forall m | 0 <= m <= |init| ensures Added(steps[..m]) <= Added(init) {
      AddedGrows(init, m);
      assert init[..m] == steps[..m];
    }
    if Registered(steps, h) && h < Added(init) {
      forall m | 0 <= m < |init| && init[m].RemoveHandlers? && h < Added(init[..m]) ensures h !in init[m].gone {
        assert h < Added(steps[..m]);
      }
    }
    if h < Added(init) && Registered(init, h) && !(last.RemoveHandlers? && h in last.gone) {
      forall m | 0 <= m < |steps| && steps[m].RemoveHandlers? && h < Added(steps[..m]) ensures h !in steps[m].gone {
        if m < |init| { assert h < Added(init[..m]); }
      }
    }
  }

  lemma {:induction false} AddedGrows(steps: seq<Step>, m: nat)
    requires m <= |steps|
    ensures Added(steps[..m]) <= Added(steps)
    decreases |steps|
  {
    if m == |steps| {
      assert steps[..m] == steps;
    } else {
      AddedGrows(steps[..|steps| - 1], m);
      assert steps[..|steps| - 1][..m] == steps[..m];
    }
  }

  /** A handler that is not registered receives nothing, and once removed it is never registered again. */
  lemma UnregisteredStays(s: State, step: Step, h: Handler)
    requires Inv(s) && Enabled(s, step) && h !in s.handlers
    ensures Received(Apply(s, step), h) == Received(s, h)
    ensures h < s.added ==> h !in Apply(s, step).handlers
  {
    hide BatchesOk, LockOk, Due, PhaseOf;
    HandlerStep(s, step, h);
  }

  // ---------------------------------------------------------------------------------- Log order

  /** The batches got the lock in the order they were taken. */
  ghost predicate InOrder(order: seq<nat>) { forall k :: 0 <= k < |order| ==> order[k] == k }

  /** A flush gets the lock while an earlier batch is still waiting for it. */
  ghost predicate Overtakes(s: State, step: Step) {
    && step.Acquire? && PhaseOf(s, step.t).Holding?
    && exists u: Thread, b: nat :: Holds(s, u, b) && b < PhaseOf(s, step.t).b
  }

  ghost predicate NoOvertaking(steps: seq<Step>) {
    forall m :: 0 <= m < |steps| && Run(steps[..m]).Some? ==> !Overtakes(Run(steps[..m]).value, steps[m])
  }

  lemma {:induction false} NoOvertakingStep(steps: seq<Step>)
    requires steps != [] && Run(steps).Some?
    ensures var init, last := steps[..|steps| - 1], steps[|steps| - 1];
            NoOvertaking(steps) <==> NoOvertaking(init) && !Overtakes(Run(init).value, last)
  {
    hide Overtakes, Apply, Enabled;
    var init, last := steps[..|steps| - 1], steps[|steps| - 1];
    assert forall m :: 0 <= m < |init| ==> init[m] == steps[m] && init[..m] == steps[..m];
    if NoOvertaking(init) && !Overtakes(Run(init).value, last) {
      forall m | 0 <= m < |steps| && Run(steps[..m]).Some? ensures !Overtakes(Run(steps[..m]).value, steps[m]) {
        if m < |init| { assert !Overtakes(Run(init[..m]).value, init[m]); }
      }
    }
    if NoOvertaking(steps) {
      forall m | 0 <= m < |init| && Run(init[..m]).Some? ensures !Overtakes(Run(init[..m]).value, init[m]) {
        assert !Overtakes(Run(steps[..m]).value, steps[m]);
      }
    }
  }

  /** One step keeps the order exactly when it does not overtake. */
  lemma StepOrder(s: State, step: Step)
    requires Inv(s) && Enabled(s, step)
    ensures InOrder(Apply(s, step).order) <==> InOrder(s.order) && !Overtakes(s, step)
  {
    hide HistoryOk, HandlersOk, LockOk, Due;
    var r := Apply(s, step);
    if step.Acquire? {
      var b := PhaseOf(s, step.t).b;
      assert Holds(s, step.t, b) && r.order == s.order + [b];
      if InOrder(r.order) {
        forall k | 0 <= k < |s.order| ensures s.order[k] == k { assert r.order[k] == k; }
        assert r.order[|s.order|] == |s.order|;
      }
      if InOrder(s.order) {
        WaitingIsLater(s);
        if b > |s.order| {
          var c: nat := |s.order|;
          assert c !in s.order;
          var u: Thread :| Holds(s, u, c);
        }
      }
    } else {
      OrderStays(s, step);
    }
  }

  lemma OrderStays(s: State, step: Step)
    requires Enabled(s, step) && !step.Acquire?
    ensures Apply(s, step).order == s.order
  {}

  lemma WaitingIsLater(s: State)
    requires BatchesOk(s) && InOrder(s.order)
    ensures forall u: Thread, b: nat :: Holds(s, u, b) ==> b >= |s.order|
  {
    forall b: nat | b < |s.order| ensures b in s.order { assert s.order[b] == b; }
  }

  /** Batches get the lock in the order they were taken exactly when no flush ever overtakes another. */
  lemma {:induction false} OrderKeptExactly(steps: seq<Step>)
    requires Run(steps).Some?
    ensures InOrder(Run(steps).value.order) <==> NoOvertaking(steps)
  {
    hide Apply, Enabled, Overtakes, Inv;
    if steps != [] {
      var init, last := steps[..|steps| - 1], steps[|steps| - 1];
      OrderKeptExactly(init);
      RunOk(init);
      NoOvertakingStep(steps);
      StepOrder(Run(init).value, last);
    }
  }

  /** One thread does all the flushing. */
  predicate FlushedBy(steps: seq<Step>, t: Thread) {
    forall m :: 0 <= m < |steps| && (steps[m].Take? || steps[m].Acquire?) ==> steps[m].t == t
  }

  lemma {:induction false} OnlyOneHolds(steps: seq<Step>, t: Thread)
    requires Run(steps).Some? && FlushedBy(steps, t)
    ensures forall u: Thread, b: nat :: Holds(Run(steps).value, u, b) ==> u == t
  {
    if steps == [] {
    } else {
      var init, last := steps[..|steps| - 1], steps[|steps| - 1];
      assert forall m :: 0 <= m < |init| ==> init[m] == steps[m];
      OnlyOneHolds(init, t);
      assert steps[|init|] == last;
      NewHolder(Run(init).value, last);
    }
  }

  lemma NewHolder(s: State, step: Step)
    requires Enabled(s, step)
    ensures forall u: Thread, b: nat :: Holds(Apply(s, step), u, b) ==> Holds(s, u, b) || (step.Take? && step.t == u)
  {}

  /** Then nothing is overtaken. */
  lemma {:induction false} OneFlusherKeepsOrder(steps: seq<Step>, t: Thread)
    requires Run(steps).Some? && FlushedBy(steps, t)
    ensures NoOvertaking(steps)
  {
    hide Apply, Enabled;
    if steps != [] {
      var init, last := steps[..|steps| - 1], steps[|steps| - 1];
      assert forall m :: 0 <= m < |init| ==> init[m] == steps[m];
      assert steps[|init|] == last;
      OneFlusherKeepsOrder(init, t);
      OnlyOneHolds(init, t);
      NoOvertakingStep(steps);
    }
  }

  /** No batch is empty. */
  ghost predicate NoEmptyBatch(taken: seq<seq<Entry>>) { forall b :: 0 <= b < |taken| ==> taken[b] != [] }

  lemma {:induction false} BatchesAreFull(steps: seq<Step>)
    requires Run(steps).Some?
    ensures NoEmptyBatch(Run(steps).value.taken)
  {
    hide Enabled;
    if steps != [] {
      var init, last := steps[..|steps| - 1], steps[|steps| - 1];
      BatchesAreFull(init);
      TakenFull(Run(init).value, last);
    }
  }

  lemma TakenFull(s: State, step: Step)
    requires Enabled(s, step) && NoEmptyBatch(s.taken)
    ensures NoEmptyBatch(Apply(s, step).taken)
  {}

  /** Every batch so far was processed while the handler was registered. */
  ghost predicate AlwaysThere(present: seq<seq<Handler>>,
                              h: Handler) { forall k :: 0 <= k < |present| ==> h in present[k] }

  lemma {:induction false} InOrderReceived(taken: seq<seq<Entry>>, order: seq<nat>, present: seq<seq<Handler>>,
                                           h: Handler, n: nat)
    requires n <= |order| == |present| && (forall k :: 0 <= k < |order| ==> order[k] < |taken|)
    requires AlwaysThere(present, h)
    requires n <= |taken| && forall k :: 0 <= k < n ==> order[k] == k
    ensures Expected(taken, order, present, h, n) == Flat(taken[..n])
  {
    if n > 0 {
      InOrderReceived(taken, order, present, h, n - 1);
      assert taken[..n][..n - 1] == taken[..n - 1] && taken[..n][n - 1] == taken[n - 1];
    }
  }

  lemma {:induction false} FlatParts(batches: seq<seq<Entry>>, n: nat)
    requires n <= |batches|
    ensures Flat(batches[..n]) <= Flat(batches)
    ensures n < |batches| ==> Flat(batches[..n]) + batches[n] <= Flat(batches)
    decreases |batches|
  {
    if n == |batches| {
      assert batches[..n] == batches;
    } else {
      var init := batches[..|batches| - 1];
      assert init[..n] == batches[..n];
      if n < |init| { FlatParts(init, n); } else { assert init == batches[..n]; }
    }
  }

  /** What was received first stays in front. */
  lemma {:induction false} ExpectedGrows(taken: seq<seq<Entry>>, order: seq<nat>, present: seq<seq<Handler>>,
                                         h: Handler, m: nat, n: nat)
    requires m <= n <= |order| == |present| && forall k :: 0 <= k < |order| ==> order[k] < |taken|
    ensures Expected(taken, order, present, h, m) <= Expected(taken, order, present, h, n)
  {
    if m < n { ExpectedGrows(taken, order, present, h, m, n - 1); }
  }

  /** If the first k batches came in order and all that was received is in log order, so did the next batch. */
  lemma NextInOrder(s: State, h: Handler, k: nat)
    requires |s.order| == |s.present| && (forall i :: 0 <= i < |s.order| ==>
      s.order[i] < |s.taken|) && AlwaysThere(s.present, h)
    requires HistoryOk(s) && Distinct(s.logged) && NoEmptyBatch(s.taken)
    requires k < |s.order| && k < |s.taken| && forall i :: 0 <= i < k ==> s.order[i] == i
    requires Expected(s.taken, s.order, s.present, h, |s.order|) <= s.logged
    ensures s.order[k] == k
  {
    hide Expected, Flat, AlwaysThere;
    InOrderReceived(s.taken, s.order, s.present, h, k);
    ExpectedNext(s, h, k);
    ExpectedGrows(s.taken, s.order, s.present, h, k + 1, |s.order|);
    FlatParts(s.taken, k);
    var before, all := Flat(s.taken[..k]), Flat(s.taken);
    var first := s.taken[s.order[k]][0];
    assert Expected(s.taken, s.order, s.present, h, k + 1)[|before|] == first;
    assert s.logged[|before|] == first;
    assert all[|before|] == s.taken[k][0];
    DistinctParts(all, s.buffer);
    BatchesApart(s.taken);
    assert first in s.taken[k] && first in s.taken[s.order[k]];
  }

  lemma ExpectedNext(s: State, h: Handler, k: nat)
    requires |s.order| == |s.present| && (forall i :: 0 <= i < |s.order| ==>
      s.order[i] < |s.taken|) && AlwaysThere(s.present, h)
    requires k < |s.order|
    ensures Expected(s.taken, s.order, s.present, h, k + 1) ==
            Expected(s.taken, s.order, s.present, h, k) + s.taken[s.order[k]]
  {}

  lemma LaterBatch(order: seq<nat>, k: nat)
    requires Distinct(order) && k < |order| && forall i :: 0 <= i < k ==> order[i] == i
    ensures order[k] >= k
  {
    var early := order[..k];
    forall b: nat | b < k ensures b in early { assert early[b] == b; }
    assert order[k] !in early;
  }

  lemma {:induction false} AllInOrder(s: State, h: Handler, k: nat)
    requires |s.order| == |s.present| && (forall i :: 0 <= i < |s.order| ==>
      s.order[i] < |s.taken|) && AlwaysThere(s.present, h)
    requires HistoryOk(s) && Distinct(s.logged) && NoEmptyBatch(s.taken) && Distinct(s.order)
    requires k <= |s.order| && Expected(s.taken, s.order, s.present, h, |s.order|) <= s.logged
    ensures forall i :: 0 <= i < k ==> s.order[i] == i
  {
    hide Expected, Flat;
    if k > 0 {
      AllInOrder(s, h, k - 1);
      LaterBatch(s.order, k - 1);
      NextInOrder(s, h, k - 1);
    }
  }

  /** If no flush overtakes another, a handler that was registered throughout has received the beginning of the log;
      once every batch is processed, all of it but the buffer. */
  lemma ReceivedInLogOrder(steps: seq<Step>, h: Handler)
    requires Run(steps).Some? && Run(steps).value.lock.None?
    requires NoOvertaking(steps) && AlwaysThere(Run(steps).value.present, h)
    ensures var s := Run(steps).value;
            && Received(s, h) <= s.logged
            && (|s.order| == |s.taken| ==> Received(s, h) + s.buffer == s.logged)
  {
    hide Run, Expected, NoOvertaking, Flat, AlwaysThere;
    var s := Run(steps).value;
    EntriesAccounted(steps);
    DeliveredExactly(steps, h);
    OrderKeptExactly(steps);
    if |s.order| > 0 { assert s.order[|s.order| - 1] < |s.taken|; }
    InOrderReceived(s.taken, s.order, s.present, h, |s.order|);
    FlatParts(s.taken, |s.order|);
    assert s.taken[..|s.taken|] == s.taken;
    assert Flat(s.taken) <= s.logged;
  }

  /** If no entry was logged twice, it has received the beginning of the log exactly when no flush overtook another. */
  lemma LogOrderExactly(steps: seq<Step>, h: Handler)
    requires Run(steps).Some? && Run(steps).value.lock.None?
    requires Distinct(Run(steps).value.logged) && AlwaysThere(Run(steps).value.present, h)
    ensures Received(Run(steps).value, h) <= Run(steps).value.logged <==> NoOvertaking(steps)
  {
    hide Run, Expected, NoOvertaking, Flat, AlwaysThere;
    var s := Run(steps).value;
    if NoOvertaking(steps) { ReceivedInLogOrder(steps, h); }
    EntriesAccounted(steps);
    DeliveredExactly(steps, h);
    BatchesAreFull(steps);
    OrderKeptExactly(steps);
    if Received(s, h) <= s.logged { AllInOrder(s, h, |s.order|); }
  }

  lemma RunStep(steps: seq<Step>, s: State, step: Step)
    requires Run(steps) == Some(s) && Enabled(s, step)
    ensures Run(steps + [step]) == Some(Apply(s, step))
  {
    assert (steps + [step])[..|steps|] == steps;
  }

  lemma Next(steps: seq<Step>, s: State, step: Step) returns (more: seq<Step>, r: State)
    requires Run(steps) == Some(s) && Enabled(s, step)
    ensures r == Apply(s, step) && Run(more) == Some(r)
  {
    RunStep(steps, s, step);
    more, r := steps + [step], Apply(s, step);
  }

  lemma OneTaken() returns (steps: seq<Step>, s: State)
    ensures Run(steps) == Some(s) && PhaseOf(s, 1) == Holding(0) && PhaseOf(s, 0).Outside? && PhaseOf(s, 2).Outside?
    ensures s.taken == [[10]] && s.logged == [10] && s.buffer == [] && s.limit == 1024
    ensures s.handlers == [0] && s.lock == None && Received(s, 0) == []
  {
    hide Run;
    NoSteps();
    steps, s := Next([], START, AddHandler);
    assert s.handlers == [0];
    steps, s := Next(steps, s, Append(0, 10));
    assert s.buffer == [10] && s.logged == [10];
    steps, s := Next(steps, s, StartFlush(1));
    steps, s := Next(steps, s, Take(1));
    assert s.taken == [[10]];
  }

  /** Thread 1 takes the batch [10], then thread 2 the batch [11]. */
  lemma TwoTaken() returns (steps: seq<Step>, s: State)
    ensures Run(steps) == Some(s) && PhaseOf(s, 1) == Holding(0) && PhaseOf(s, 2) == Holding(1)
    ensures s.taken == [[10], [11]] && s.logged == [10, 11] && s.handlers == [0] && s.lock == None
    ensures Received(s, 0) == []
  {
    hide Run;
    steps, s := OneTaken();
    steps, s := Next(steps, s, Append(0, 11));
    assert s.buffer == [11] && s.logged == [10, 11];
    steps, s := Next(steps, s, StartFlush(2));
    steps, s := Next(steps, s, Take(2));
    assert s.taken == [[10], [11]];
  }

  lemma NoSteps()
    ensures Run([]) == Some(START)
  {}

  /** A thread that holds a batch of one entry delivers it to the one handler. */
  lemma DeliverOne(steps: seq<Step>, s: State, t: Thread, b: nat, e: Entry) returns (more: seq<Step>, r: State)
    requires Run(steps) == Some(s) && s.lock == None && PhaseOf(s, t) == Holding(b)
    requires b < |s.taken| && s.taken[b] == [e] && s.handlers == [0]
    ensures Run(more) == Some(r) && Received(r, 0) == Received(s, 0) + [e]
    ensures r.lock == None && r.taken == s.taken && r.handlers == s.handlers && r.logged == s.logged
    ensures forall u: Thread :: u != t ==> PhaseOf(r, u) == PhaseOf(s, u)
  {
    hide Run;
    more, r := Next(steps, s, Acquire(t));
    more, r := Next(more, r, Deliver(t));
    more, r := Next(more, r, Deliver(t));
    more, r := Next(more, r, Deliver(t));
  }

  /** Order holds inside a batch, not across batches: two threads that flush can get the lock in the other order. */
  lemma BatchesCanSwap()
    ensures exists steps ::
      Run(steps).Some? && Run(steps).value.logged == [10, 11] && Received(Run(steps).value, 0) == [11, 10]
  {
    hide Run, PhaseOf, Received;
    var steps, s := TwoTaken();
    steps, s := DeliverOne(steps, s, 2, 1, 11);
    steps, s := DeliverOne(steps, s, 1, 0, 10);
    assert Run(steps).value.logged == [10, 11];
  }
}
