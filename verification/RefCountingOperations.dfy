/** What each operation on handles comes to, from its first step to its last, whatever the others do meanwhile. */
module RefCountingOperations {
  import opened Common
  import opened RefCounting
  import opened RefCountingCounts
  import opened RefCountingHomes
  import opened RefCountingInvariant
  import opened RefCountingSafety

  // ---------------------------------------------------------------------------------- What an operation comes to

  /** The pointer a weak handle is made from. */
  function SourcePtr(s: State, source: WeakSource): Option<nat> {
    match source
    case FromStrong(h) => if HasStrong(s, h) then s.strong[h].ptr else None
    case FromWeak(h) => if HasWeak(s, h) then s.weak[h].ptr else None
    case WeakFromThis(b) =>
      if b < |s.tasks| && !s.tasks[b].Idle? && !s.tasks[b].Clear? then Some(s.tasks[b].obj) else None
  }

  predicate IsAt(slots: seq<Slot>, h: nat, slot: Slot) { h < |slots| && slots[h] == slot }

  function SlotAt(slots: seq<Slot>, h: nat): Slot { if h < |slots| then slots[h] else Dead }

  /** The handles in state s when an operation has ended that began in state s0. */
  predicate Ended(a: Action, s0: State, s: State) {
    match a
    case Default(_, dst) => IsAt(s.strong, dst, Live(None))
    case WeakDefault(_, dst) => IsAt(s.weak, dst, Live(None))
    case New(_, dst) => NewEnded(|s0.blocks|, dst, s)
    case Copy(_, dst, src) => IsAt(s.strong, dst, SlotAt(s0.strong, src))
    case Adopt(_, dst, b) =>
      b < |s0.tasks| && s0.tasks[b].Construct? && IsAt(s.strong, dst, Live(Some(s0.tasks[b].obj)))
    case Move(_, dst, src) => IsAt(s.strong, dst, SlotAt(s0.strong, src)) && IsAt(s.strong, src, Live(None))
    case Reset(_, dst, KeepEmpty) => IsAt(s.strong, dst, Live(None))
    case Reset(_, dst, AssignCopy(from)) => IsAt(s.strong, dst, SlotAt(s0.strong, from))
    case Reset(_, dst, _) => IsAt(s.strong, dst, Dead)
    case MoveAssign(_, dst, src) => IsAt(s.strong, dst, SlotAt(s0.strong, src)) && IsAt(s.strong, src, Live(None))
    case DestroyMember(_, dst) => IsAt(s.strong, dst, Dead)
    case MakeWeak(_, dst, source) => IsAt(s.weak, dst, Live(SourcePtr(s0, source)))
    case WeakMove(_, dst, src) => IsAt(s.weak, dst, SlotAt(s0.weak, src)) && IsAt(s.weak, src, Live(None))
    case WeakDestroy(_, dst) => IsAt(s.weak, dst, Dead)
    case Lock(_, dst, src) => LockEnded(SlotAt(s0.weak, src), dst, s)
    case _ => false
  }

  /** A handle to the new object; after a std::exception an empty one, after any other exception none. */
  predicate NewEnded(o: nat, dst: nat, s: State) {
    o < |s.blocks| &&
    (|| (IsAt(s.strong, dst, Live(Some(o))) && s.blocks[o].birth == Built)
     || (IsAt(s.strong, dst, Live(None)) && s.blocks[o].birth == ThrewStd)
     || (IsAt(s.strong, dst, Dead) && s.blocks[o].birth == ThrewOther))
  }

  /** A handle to the object the weak handle points to, or an empty one if there are no strong references to it any
      more; an empty one for an empty weak handle. */
  predicate LockEnded(weak: Slot, dst: nat, s: State) {
    match weak
    case Live(None) => IsAt(s.strong, dst, Live(None))
    case Live(Some(o)) =>
      || IsAt(s.strong, dst, Live(Some(o)))
      || (IsAt(s.strong, dst, Live(None)) && o < |s.blocks| && s.blocks[o].strong == 0)
    case _ => false
  }

  // ---------------------------------------------------------------------------------- On the way

  predicate Resets(task: Task, dst: nat, after: After) {
    && (task.Release? || task.Destruct? || task.Members? || task.SelfUnref? || task.SelfFree? || task.Clear?)
    && task.dst == dst && task.after == after
  }

  /** A copy of the pointer in a slot is under way. */
  predicate Copies(task: Task, dst: nat, slot: Slot, origin: StrongSource) {
    && slot.Live?
    && match slot.ptr
       case None => task == Clear(dst, KeepEmpty)
       case Some(o) => task == RefAdd(dst, origin, o) || task == RefCheck(dst, o)
  }

  predicate Locks(task: Task, dst: nat, src: nat, o: nat) {
    && Locking(task) && task.dst == dst && task.obj == o
    && (task.LockLoad? || task.LockCheck? || task.LockCas? ==> task.src == src)
  }

  predicate Constructs(task: Task, dst: nat, o: nat, s: State) {
    && o < |s.blocks|
    && (|| task == Construct(dst, o)
        || (task == Abort(dst, o) && s.blocks[o].birth == ThrewStd)
        || (Resets(task, dst, Destroy) && s.blocks[o].birth == ThrewOther))
  }

  /** The activity is on its way to what the operation comes to. */
  predicate Serves(a: Action, s0: State, s: State, task: Task) {
    match a
    case New(_, dst) => Constructs(task, dst, |s0.blocks|, s)
    case Copy(_, dst, src) => Copies(task, dst, SlotAt(s0.strong, src), FromHandle(src))
    case Adopt(_, dst, b) =>
      b < |s0.tasks| && s0.tasks[b].Construct? && Copies(task, dst, Live(Some(s0.tasks[b].obj)), FromThis(b))
    case Reset(_, dst, AssignCopy(from)) =>
      || (Resets(task, dst, AssignCopy(from)) && SlotAt(s0.strong, from).Live? && IsAt(s.strong, from, s0.strong[from]))
      || Copies(task, dst, SlotAt(s0.strong, from), FromHandle(from))
    case Reset(_, dst, after) => Resets(task, dst, after) && !after.AssignMove?
    case MoveAssign(_, dst, src) =>
      SlotAt(s0.strong, src).Live? && dst != src && Resets(task, dst, AssignMove(src, s0.strong[src].ptr))
    case DestroyMember(_, dst) => Resets(task, dst, Expire)
    case MakeWeak(_, dst, source) =>
      SourcePtr(s0, source).Some? && task == WeakAdd(dst, source, SourcePtr(s0, source).value)
    case WeakDestroy(_, dst) => (task.WeakRelease? || task.WeakFree?) && task.dst == dst
    case Lock(_, dst, src) =>
      SlotAt(s0.weak, src).Live? && s0.weak[src].ptr.Some? && Locks(task, dst, src, s0.weak[src].ptr.value)
    case _ => false
  }

  // ---------------------------------------------------------------------------------- When it can begin

  predicate OpenStrong(s: State, h: nat) { HasStrong(s, h) && Open(s, h) }

  predicate FreeStrong(s: State, h: nat) { FreeSlot(s.strong, h) && Open(s, h) }

  /** Nobody is in the middle of an operation on a handle. */
  predicate AllIdle(s: State) { forall i :: 0 <= i < |s.tasks| ==> s.tasks[i] == Idle }

  /** While nobody else is at work, every operation can begin on the handles it is for: a free one to construct, living
      ones to read, change or destroy. */
  lemma CanStart(s: State, t: nat, dst: nat, src: nat)
    requires AllIdle(s) && t < |s.tasks|
    ensures FreeStrong(s, dst) ==> Enabled(s, Default(t, dst)) && Enabled(s, New(t, dst))
    ensures FreeStrong(s, dst) && OpenStrong(s, src) ==> Enabled(s, Copy(t, dst, src)) && Enabled(s, Move(t, dst, src))
    ensures FreeStrong(s, dst) && HasWeak(s, src) ==> Enabled(s, Lock(t, dst, src))
    ensures OpenStrong(s, dst) ==> Enabled(s, Reset(t, dst, KeepEmpty)) && Enabled(s, Reset(t, dst, Destroy))
    ensures OpenStrong(s, dst) && OpenStrong(s, src) && dst != src ==>
      Enabled(s, Reset(t, dst, AssignCopy(src))) && Enabled(s, MoveAssign(t, dst, src))
    ensures FreeSlot(s.weak, dst) ==> Enabled(s, WeakDefault(t, dst))
    ensures FreeSlot(s.weak, dst) && OpenStrong(s, src) ==> Enabled(s, MakeWeak(t, dst, FromStrong(src)))
    ensures FreeSlot(s.weak, dst) && HasWeak(s, src) ==>
      Enabled(s, MakeWeak(t, dst, FromWeak(src))) && Enabled(s, WeakMove(t, dst, src))
    ensures HasWeak(s, dst) ==> Enabled(s, WeakDestroy(t, dst))
  {
    hide Open;
  }

  /** So can a handle of `this`, inside a constructor or, if it is weak, a destructor. */
  lemma CanStartWithin(s: State, t: nat, dst: nat, runner: nat)
    requires t < |s.tasks| && s.tasks[t] == Idle
    ensures FreeStrong(s, dst) && Building(s, runner) ==> Enabled(s, Adopt(t, dst, runner))
    ensures FreeSlot(s.weak, dst) && (Building(s, runner) || Destroying(s, runner)) ==>
      Enabled(s, MakeWeak(t, dst, WeakFromThis(runner)))
  {
    hide Open;
  }

  // ---------------------------------------------------------------------------------- First step

  predicate Whole(a: Action) { !a.Advance? && !Again(a) }

  /** An operation begins: it has ended, or is on its way. */
  lemma OperationBegins(s: State, a: Action)
    requires Inv(s) && Enabled(s, a) && Whole(a)
    ensures var s' := Apply(s, a);
            a.t < |s'.tasks| && if s'.tasks[a.t] == Idle then Ended(a, s, s') else Serves(a, s, s', s'.tasks[a.t])
  {
    hide Inv, Strays, Open, Expires, Standing, Mutable, WeakMutable;
    if OnWeak(a) { WeakBegins(s, a); } else { StrongBegins(s, a); }
  }

  lemma WeakBegins(s: State, a: Action)
    requires Enabled(s, a) && OnWeak(a)
    ensures var s' := Apply(s, a);
            a.t < |s'.tasks| && if s'.tasks[a.t] == Idle then Ended(a, s, s') else Serves(a, s, s', s'.tasks[a.t])
  {
    hide Strays, Open, Mutable;
  }

  lemma StrongBegins(s: State, a: Action)
    requires Enabled(s, a) && Whole(a) && !OnWeak(a)
    ensures var s' := Apply(s, a);
            a.t < |s'.tasks| && if s'.tasks[a.t] == Idle then Ended(a, s, s') else Serves(a, s, s', s'.tasks[a.t])
  {
    hide Strays, Open, Expires, Standing;
  }

  // ---------------------------------------------------------------------------------- Its own steps

  predicate Goes(a: Action, s0: State, s': State, t: nat) {
    t < |s'.tasks| && if s'.tasks[t] == Idle then Ended(a, s0, s') else Serves(a, s0, s', s'.tasks[t])
  }

  /** Each step of the activity itself leads to the end or goes on. */
  lemma OperationGoesOn(a: Action, s0: State, s: State, choice: Choice)
    requires Inv(s) && ReadZero(s) && Whole(a) && a.t < |s.tasks| && Serves(a, s0, s, s.tasks[a.t])
    requires Enabled(s, Advance(a.t, choice))
    ensures Goes(a, s0, Apply(s, Advance(a.t, choice)), a.t)
  {
    hide CountsInv, HomesInv, Strays, Enabled, Effects, StepEffect, Serves, Goes, ReadZero;
    assert TaskInv(s, s.tasks[a.t]);
    match a
    case New(_, _) => NewGoesOn(a, s0, s, choice);
    case Copy(_, _, _) => CopyGoesOn(a, s0, s, choice);
    case Adopt(_, _, _) => CopyGoesOn(a, s0, s, choice);
    case Reset(_, _, _) => ResetGoesOn(a, s0, s, choice);
    case MoveAssign(_, _, _) => ResetGoesOn(a, s0, s, choice);
    case DestroyMember(_, _) => ResetGoesOn(a, s0, s, choice);
    case MakeWeak(_, _, _) => WeakGoesOn(a, s0, s, choice);
    case WeakDestroy(_, _) => WeakGoesOn(a, s0, s, choice);
    case Lock(_, _, _) => LockGoesOn(a, s0, s, choice);
    case _ => NothingServes(a, s0, s, s.tasks[a.t]);
  }

  lemma NothingServes(a: Action, s0: State, s: State, task: Task)
    requires Serves(a, s0, s, task)
    ensures a.New? || a.Copy? || a.Adopt? || a.Reset? || a.MoveAssign? || a.DestroyMember? || a.MakeWeak?
      || a.WeakDestroy? || a.Lock?
  {}

  lemma NewGoesOn(a: Action, s0: State, s: State, choice: Choice)
    requires a.New? && a.t < |s.tasks| && Serves(a, s0, s, s.tasks[a.t]) && TaskInv(s, s.tasks[a.t])
    requires Enabled(s, Advance(a.t, choice))
    ensures Goes(a, s0, Apply(s, Advance(a.t, choice)), a.t)
  {
    hide Strays, Unwound, Returned;
  }

  lemma CopyGoesOn(a: Action, s0: State, s: State, choice: Choice)
    requires a.Copy? || a.Adopt?
    requires a.t < |s.tasks| && Serves(a, s0, s, s.tasks[a.t]) && TaskInv(s, s.tasks[a.t])
    requires Enabled(s, Advance(a.t, choice))
    ensures Goes(a, s0, Apply(s, Advance(a.t, choice)), a.t)
  {
    hide Strays, Unwound, Returned;
  }

  lemma ResetGoesOn(a: Action, s0: State, s: State, choice: Choice)
    requires a.Reset? || a.MoveAssign? || a.DestroyMember?
    requires a.t < |s.tasks| && Serves(a, s0, s, s.tasks[a.t]) && TaskInv(s, s.tasks[a.t])
    requires Enabled(s, Advance(a.t, choice))
    ensures Goes(a, s0, Apply(s, Advance(a.t, choice)), a.t)
  {
    hide Strays, Unwound, Returned;
  }

  lemma WeakGoesOn(a: Action, s0: State, s: State, choice: Choice)
    requires a.MakeWeak? || a.WeakDestroy?
    requires a.t < |s.tasks| && Serves(a, s0, s, s.tasks[a.t]) && TaskInv(s, s.tasks[a.t])
    requires Enabled(s, Advance(a.t, choice))
    ensures Goes(a, s0, Apply(s, Advance(a.t, choice)), a.t)
  {
    hide Strays, Unwound, Returned;
  }

  lemma LockGoesOn(a: Action, s0: State, s: State, choice: Choice)
    requires a.Lock? && ReadZero(s)
    requires a.t < |s.tasks| && Serves(a, s0, s, s.tasks[a.t]) && TaskInv(s, s.tasks[a.t])
    requires Enabled(s, Advance(a.t, choice))
    ensures Goes(a, s0, Apply(s, Advance(a.t, choice)), a.t)
  {
    hide Strays, Unwound, Returned;
  }

  // ---------------------------------------------------------------------------------- The other handles

  /** The strong handles an operation changes. */
  function Changes(a: Action): set<nat> {
    match a
    case Default(_, dst) => {dst}
    case New(_, dst) => {dst}
    case Copy(_, dst, _) => {dst}
    case Adopt(_, dst, _) => {dst}
    case Move(_, dst, src) => {dst, src}
    case Reset(_, dst, _) => {dst}
    case MoveAssign(_, dst, src) => {dst, src}
    case DestroyMember(_, dst) => {dst}
    case Lock(_, dst, _) => {dst}
    case _ => {}
  }

  /** The weak handles it changes. */
  function ChangesWeak(a: Action): set<nat> {
    match a
    case WeakDefault(_, dst) => {dst}
    case MakeWeak(_, dst, _) => {dst}
    case WeakMove(_, dst, src) => {dst, src}
    case WeakDestroy(_, dst) => {dst}
    case _ => {}
  }

  predicate LeavesOthers(a: Action, s: State, s': State) {
    && |s'.strong| == |s.strong| && |s'.weak| == |s.weak|
    && (forall h :: 0 <= h < |s.strong| && h !in Changes(a) ==> s'.strong[h] == s.strong[h])
    && (forall h :: 0 <= h < |s.weak| && h !in ChangesWeak(a) ==> s'.weak[h] == s.weak[h])
  }

  /** Neither the first step nor a later one of an operation changes any other handle. */
  lemma FirstStepLeaves(s: State, a: Action)
    requires Enabled(s, a) && Whole(a)
    ensures LeavesOthers(a, s, Apply(s, a))
  {
    hide Strays, Open, Mutable, WeakMutable, Expires, Standing;
  }

  lemma OwnStepLeaves(a: Action, s0: State, s: State, choice: Choice)
    requires a.t < |s.tasks| && Serves(a, s0, s, s.tasks[a.t]) && Enabled(s, Advance(a.t, choice))
    ensures LeavesOthers(a, s, Apply(s, Advance(a.t, choice)))
  {
    hide Strays, Unwound, Returned, Serves, StepEffect;
    ServingWrites(a, s0, s, s.tasks[a.t], choice);
  }

  lemma ServingWrites(a: Action, s0: State, s: State, task: Task, choice: Choice)
    requires Serves(a, s0, s, task) && task != Idle && Resolvable(s, task)
    ensures var e := StepEffect(s, task, choice);
            && (e.strong.Some? ==> e.strong.value.at in Changes(a))
            && (e.strong2.Some? ==> e.strong2.value.at in Changes(a))
            && (e.weak.Some? ==> e.weak.value.at in ChangesWeak(a))
            && (e.weak2.Some? ==> e.weak2.value.at in ChangesWeak(a))
  {
    hide Serves, StepEffect, Changes, ChangesWeak;
    StepWritesOwn(s, task, choice);
    ServesOwn(a, s0, s, task);
  }

  predicate WorksOnWeak(task: Task) { task.WeakAdd? || task.WeakRelease? || task.WeakFree? }

  lemma StepWritesOwn(s: State, task: Task, choice: Choice)
    requires task != Idle && Resolvable(s, task)
    ensures var e := StepEffect(s, task, choice);
            && (e.strong.Some? ==> !WorksOnWeak(task) && e.strong.value.at == task.dst)
            && (e.strong2.Some? ==> task.Clear? && task.after.AssignMove? && e.strong2.value.at == task.after.donor)
            && (e.weak.Some? ==> WorksOnWeak(task) && e.weak.value.at == task.dst)
            && e.weak2 == None
  {}

  lemma ServesOwn(a: Action, s0: State, s: State, task: Task)
    requires Serves(a, s0, s, task) && task != Idle
    ensures if WorksOnWeak(task) then task.dst in ChangesWeak(a) else task.dst in Changes(a)
    ensures task.Clear? && task.after.AssignMove? ==> task.after.donor in Changes(a)
  {}

  // ---------------------------------------------------------------------------------- The steps of others

  /** Nobody else changes what the operation relies on. */
  lemma OthersLeave(a: Action, s0: State, s: State, other: Action)
    requires Inv(s) && Whole(a) && a.t < |s.tasks| && Serves(a, s0, s, s.tasks[a.t])
    requires Enabled(s, other) && other.t != a.t && Clean(s, other)
    ensures var s' := Apply(s, other);
            a.t < |s'.tasks| && s'.tasks[a.t] == s.tasks[a.t] && Serves(a, s0, s', s'.tasks[a.t])
  {
    hide HandlesInv, CountsInv, HomesInv, Apply, CleanTask, Serves;
    var s', task := Apply(s, other), s.tasks[a.t];
    HomesStay(s, other);
    NeverIntrudes(s, other);
    if a.New? {
      BirthStays(a, s0, s, other);
    } else if a.Reset? && a.after.AssignCopy? {
      SourceStays(a, s0, s, other);
    } else {
      ServesAnywhere(a, s0, s, s', task);
    }
  }

  lemma ServesAnywhere(a: Action, s0: State, s: State, s': State, task: Task)
    requires Serves(a, s0, s, task) && !a.New? && !(a.Reset? && a.after.AssignCopy?)
    ensures Serves(a, s0, s', task)
  {}

  lemma SourceStays(a: Action, s0: State, s: State, other: Action)
    requires HandlesInv(s) && Orderly(s, other) && a.t < |s.tasks| && Serves(a, s0, s, s.tasks[a.t])
    requires a.Reset? && a.after.AssignCopy? && Enabled(s, other) && other.t != a.t
    ensures Serves(a, s0, Apply(s, other), s.tasks[a.t])
  {
    var task, from := s.tasks[a.t], a.after.from;
    if Resets(task, a.dst, a.after) {
      assert BorrowsStrong(task, from);
      BorrowedStays(s, other, a.t, from);
    }
  }

  lemma BorrowedStays(s: State, other: Action, i: nat, h: nat)
    requires HandlesInv(s) && Orderly(s, other) && Enabled(s, other) && i < |s.tasks| && other.t != i
    requires BorrowsStrong(s.tasks[i], h) && h < |s.strong|
    ensures |Apply(s, other).strong| == |s.strong| && Apply(s, other).strong[h] == s.strong[h]
  {
    hide HandlesInv, Effects, Strays, MayWrite, Exclusive;
    StrongFootprint(s, other, h);
    NoInterference(s, other.t, i, h);
  }

  lemma BirthStays(a: Action, s0: State, s: State, other: Action)
    requires Inv(s) && a.New? && a.t < |s.tasks| && Serves(a, s0, s, s.tasks[a.t])
    requires Enabled(s, other) && other.t != a.t
    ensures Serves(a, s0, Apply(s, other), s.tasks[a.t])
  {
    hide HandlesInv, CountsInv, HomesInv, Apply;
    var o := |s0.blocks|;
    ApplyLives(s, other, o);
    if other.Advance? && s.tasks[other.t].Construct? && s.tasks[other.t].obj == o { ConstructsUnborn(s, other.t); }
  }

  lemma ConstructsUnborn(s: State, i: nat)
    requires HandlesInv(s) && CountsInv(s) && i < |s.tasks| && s.tasks[i].Construct?
    ensures s.tasks[i].obj < |s.blocks| && s.blocks[s.tasks[i].obj].birth == Unborn
  {
    hide CountsAgree, TallyOf;
    var o := s.tasks[i].obj;
    assert TaskInv(s, s.tasks[i]);
    assert ObjectInv(s, o);
    TasksAreBacked(s, i, o);
    BuildingIsUnborn(s.blocks[o], TallyOf(s, o));
  }

  lemma BuildingIsUnborn(b: Block, t: Tally)
    requires CountsAgree(b, t) && t.building >= 1
    ensures b.birth == Unborn
  {}

  // ---------------------------------------------------------------------------------- Whole operations

  /** Step i of the run begins the operation, and state j is the first after it in which its activity is idle again. */
  ghost predicate Takes(run: seq<State>, a: Action, i: nat, j: nat) {
    && i < j < |run| && Enabled(run[i], a) && Whole(a) && run[i + 1] == Apply(run[i], a)
    && a.t < |run[j].tasks| && run[j].tasks[a.t] == Idle
    && forall k :: i < k < j ==> a.t < |run[k].tasks| && run[k].tasks[a.t] != Idle
  }

  lemma {:induction false} OnTheWay(run: seq<State>, a: Action, i: nat, j: nat, k: nat)
    requires IsCleanRun(run) && Takes(run, a, i, j) && i < k < j
    ensures a.t < |run[k].tasks| && Serves(a, run[i], run[k], run[k].tasks[a.t])
    decreases k
  {
    hide Serves, Ended, Apply, Next, CleanNext, Inv, Enabled;
    if k == i + 1 {
      RunInv(run, i);
      OperationBegins(run[i], a);
    } else {
      OnTheWay(run, a, i, j, k - 1);
      OneMoreStep(run, a, i, k - 1);
    }
  }

  /** From one state of the operation to the next. */
  lemma OneMoreStep(run: seq<State>, a: Action, i: nat, k: nat)
    requires IsCleanRun(run) && Whole(a) && i < k && k + 1 < |run|
    requires a.t < |run[k].tasks| && run[k].tasks[a.t] != Idle && Serves(a, run[i], run[k], run[k].tasks[a.t])
    ensures Goes(a, run[i], run[k + 1], a.t)
  {
    hide Serves, Ended, Apply, CleanNext, Inv, Enabled;
    RunInv(run, k);
    RunReadZero(run, k);
    assert Next(run[k], run[k + 1]) && CleanNext(run[k], run[k + 1]);
    var other :| Enabled(run[k], other) && run[k + 1] == Apply(run[k], other);
    CleanStep(run[k], other);
    if other.t == a.t {
      OwnIsAdvance(run[k], other);
      OperationGoesOn(a, run[i], run[k], other.choice);
    } else {
      OthersLeave(a, run[i], run[k], other);
    }
  }

  lemma OwnIsAdvance(s: State, a: Action)
    requires Enabled(s, a) && s.tasks[a.t] != Idle
    ensures a.Advance?
  {}

  /** However the steps of the others interleave, an operation on handles ends with what it is for: a copy points to
      what its source pointed to, an assignment likewise, a move leaves its source empty, a reset its handle, and a
      Lock of a weak handle has the object it points to, or finds no strong reference left. */
  lemma OperationEnds(run: seq<State>, a: Action, i: nat, j: nat)
    requires IsCleanRun(run) && Takes(run, a, i, j)
    ensures Ended(a, run[i], run[j])
  {
    hide Serves, Ended, Apply, Next, CleanNext, Inv, Enabled;
    if j == i + 1 {
      RunInv(run, i);
      OperationBegins(run[i], a);
    } else {
      OnTheWay(run, a, i, j, j - 1);
      OneMoreStep(run, a, i, j - 1);
    }
  }

  /** A Lock that begins on a weak handle to an object with a positive count, and is left alone, ends in four more steps
      with a handle to the object, counted, and changes nothing else. */
  lemma LockFromStart(s: State, t: nat, dst: nat, src: nat, o: nat)
    requires t < |s.tasks| && s.tasks[t] == Idle && FreeSlot(s.strong, dst) && Open(s, dst)
    requires IsAt(s.weak, src, Live(Some(o))) && o < |s.blocks| && s.blocks[o].strong > 0
    ensures Enabled(s, Lock(t, dst, src))
    ensures var s1 := Apply(s, Lock(t, dst, src));
            && CanAdvance(s1, t) && CanAdvance(Advanced(s1, t), t) && CanAdvance(Advanced(Advanced(s1, t), t), t)
            && CanAdvance(Advanced(Advanced(Advanced(s1, t), t), t), t)
            && var end := Advanced(Advanced(Advanced(Advanced(s1, t), t), t), t);
               && end.strong == s.strong[dst := Live(Some(o))]
               && end.blocks == s.blocks[o := s.blocks[o].(strong := s.blocks[o].strong + 1)]
               && end.tasks == s.tasks
  {
    hide Advanced, CanAdvance, Strays, Open;
    var s1 := Apply(s, Lock(t, dst, src));
    assert s1.tasks == s.tasks[t := LockLoad(dst, src, o)] && s1.blocks == s.blocks;
    LockSucceeds(s1, t, dst, src, o);
    assert s1.strong[dst := Live(Some(o))] == s.strong[dst := Live(Some(o))];
    assert s1.tasks[t := Idle] == s.tasks;
  }
}
