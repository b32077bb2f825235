/** What the counting invariant guarantees for every run of the reference counting protocol. */
module RefCountingSafety {
  import opened Common
  import opened RefCounting
  import opened RefCountingCounts
  import opened RefCountingHomes
  import opened RefCountingInvariant

  /** References counted in the strong counter: handles, the one New keeps until the constructor has ended, and
      activities between a counter update and the handle (a TryRef not yet wrapped, for one). */
  function StrongReferences(s: State, o: nat): int {
    TallyOf(s, o).strong + TallyOf(s, o).building + TallyOf(s, o).aborting
  }

  function WeakReferences(s: State, o: nat): int { TallyOf(s, o).weak }

  /** No VERIFY fires and no step uses released memory, in any clean interleaving. */
  lemma NoFault(run: seq<State>, i: nat)
    requires IsCleanRun(run) && i < |run|
    ensures !run[i].trapped && !run[i].touchedFreed
  {
    RunInv(run, i);
  }

  /** New has released the block after its constructor threw a std::exception. */
  predicate Dropped(b: Block) { b.birth == ThrewStd && b.freed > 0 }

  /** The counters mean what they should: the strong count is the number of strong references; the
      weak count is the number of weak references, plus one until the destroying activity gives up the
      reference owned by the strong side. */
  lemma CountersMean(run: seq<State>, i: nat, o: nat)
    requires IsCleanRun(run) && i < |run| && o < |run[i].blocks| && !Dropped(run[i].blocks[o])
    ensures var s, b := run[i], run[i].blocks[o];
            && b.strong == StrongReferences(s, o)
            && b.weak == WeakReferences(s, o) + (if b.selfRef then 1 else 0)
            && (b.selfRef <==> b.strong > 0 || Count(s.tasks, Destructing, o) + Count(s.tasks, SelfUnrefing, o) == 1)
  {
    RunInv(run, i);
    assert ObjectInv(run[i], o);
  }

  /** The destructor runs at most once, after the strong count has reached zero and the constructor has ended; the
      memory is released at most once, after the destructor and with no handle of either kind left. Only an object
      whose constructor threw a std::exception is released without having been destroyed. */
  lemma DestroyedAndFreedOnce(run: seq<State>, i: nat, o: nat)
    requires IsCleanRun(run) && i < |run| && o < |run[i].blocks|
    ensures var s, b := run[i], run[i].blocks[o];
            && b.destroyed <= 1 && b.freed <= 1
            && (b.destroyed == 1 ==> b.strong == 0 && Pointers(s.strong, o) == 0)
            && (b.destroyed == 1 ==> b.birth == Built || b.birth == ThrewOther)
            && (b.freed == 1 ==> b.birth == ThrewStd || (b.destroyed == 1 && b.weak == 0))
            && (b.freed == 1 ==> Pointers(s.strong, o) == 0 && Pointers(s.weak, o) == 0)
  {
    RunInv(run, i);
    assert ObjectInv(run[i], o);
  }

  /** Once an activity is about to destroy an object, its strong count is zero. */
  lemma DestructorSeesZero(run: seq<State>, i: nat, t: nat)
    requires IsCleanRun(run) && i < |run| && t < |run[i].tasks| && run[i].tasks[t].Destruct?
    ensures run[i].tasks[t].obj < |run[i].blocks|
    ensures run[i].blocks[run[i].tasks[t].obj].strong == 0 && run[i].blocks[run[i].tasks[t].obj].destroyed == 0
  {
    RunInv(run, i);
    assert TaskInv(run[i], run[i].tasks[t]);
    assert ObjectInv(run[i], run[i].tasks[t].obj);
    TasksAreBacked(run[i], t, run[i].tasks[t].obj);
  }

  // ---------------------------------------------------------------------------------- No resurrection

  /** One step leaves a zero strong count at zero. */
  lemma ZeroStays(s: State, a: Action, o: nat)
    requires Inv(s) && Enabled(s, a) && o < |s.blocks| && s.blocks[o].strong == 0
    ensures |Apply(s, a).blocks| >= |s.blocks| && Apply(s, a).blocks[o].strong == 0
  {
    assert ObjectInv(s, o);
    TasksAreBacked(s, a.t, o);
    assert TaskInv(s, s.tasks[a.t]);
    ZeroWritten(s, a, o);
  }

  /** The only writes that raise a strong count are Ref's increment and a successful compare-and-swap. */
  lemma ZeroWritten(s: State, a: Action, o: nat)
    requires Enabled(s, a) && o < |s.blocks| && s.blocks[o].strong == 0 && TaskInv(s, s.tasks[a.t])
    requires CountsAgree(s.blocks[o], TallyOf(s, o)) && Backed(s.tasks[a.t], TallyOf(s, o), o)
    ensures var e := Effects(s, a); e.block.Some? && e.block.value.0 == o ==> e.block.value.1.strong == 0
  {
    hide CountsAgree, Backed, TallyOf, BeginEffect, StepEffect, ClearEffect;
    if !a.Advance? {
      AllocatesOnlyNew(s, a);
    } else if s.tasks[a.t].Clear? {
      ClearWritesNothing(s, s.tasks[a.t], a.choice);
    } else if s.tasks[a.t].obj == o {
      NoStrongUnit(s.blocks[o], TallyOf(s, o), s.tasks[a.t], o);
      ZeroKeptByStep(s, s.tasks[a.t], a.choice);
    } else {
      OwnBlock(s, s.tasks[a.t], a.choice);
    }
  }

  lemma ClearWritesNothing(s: State, task: Task, choice: Choice)
    requires task.Clear? && Resolvable(s, task)
    ensures StepEffect(s, task, choice).block == None
  {}

  lemma OwnBlock(s: State, task: Task, choice: Choice)
    requires task != Idle && !task.Clear? && Resolvable(s, task)
    ensures var e := StepEffect(s, task, choice); e.block.Some? ==> e.block.value.0 == task.obj
  {}

  /** With the strong count at zero nobody adds or drops a reference. */
  lemma NoStrongUnit(b: Block, t: Tally, task: Task, o: nat)
    requires CountsAgree(b, t) && Backed(task, t, o) && b.strong == 0 && !task.Idle? && !task.Clear? && task.obj == o
    ensures !task.RefAdd? && !task.Release?
  {
    assert Counted(t);
    assert t.strong == 0 && t.building == 0;
  }

  lemma ZeroKeptByStep(s: State, task: Task, choice: Choice)
    requires task != Idle && !task.Clear? && Resolvable(s, task) && TaskInv(s, task)
    requires !task.RefAdd? && !task.Release? && s.blocks[task.obj].strong == 0
    ensures var e := StepEffect(s, task, choice); e.block.Some? ==> e.block.value.1.strong == 0
  {}

  lemma ZeroStaysNext(s: State, s': State, o: nat)
    requires Inv(s) && Next(s, s') && o < |s.blocks| && s.blocks[o].strong == 0
    ensures o < |s'.blocks| && s'.blocks[o].strong == 0
  {
    var a :| Enabled(s, a) && s' == Apply(s, a);
    ZeroStays(s, a, o);
  }

  lemma {:induction false} ZeroForever(run: seq<State>, i: nat, j: nat, o: nat)
    requires IsCleanRun(run) && i <= j < |run| && o < |run[i].blocks| && run[i].blocks[o].strong == 0
    ensures o < |run[j].blocks| && run[j].blocks[o].strong == 0
  {
    hide Next, CleanNext;
    if i < j {
      ZeroForever(run, i, j - 1, o);
      RunInv(run, j - 1);
      assert Next(run[j - 1], run[j - 1 + 1]);
      ZeroStaysNext(run[j - 1], run[j], o);
    }
  }

  /** Once the strong count is zero no handle ever points to the object again, and no Lock, whether
      begun before or after, ever obtains it. */
  lemma NoResurrection(run: seq<State>, i: nat, j: nat, o: nat)
    requires IsCleanRun(run) && i <= j < |run| && o < |run[i].blocks| && run[i].blocks[o].strong == 0
    ensures forall h :: 0 <= h < |run[j].strong| ==> run[j].strong[h] != Live(Some(o))
    ensures forall t, dst :: 0 <= t < |run[j].tasks| ==> run[j].tasks[t] != LockWrap(dst, o)
  {
    ZeroForever(run, i, j, o);
    RunInv(run, j);
    var s := run[j];
    assert ObjectInv(s, o);
    forall h | 0 <= h < |s.strong| ensures s.strong[h] != Live(Some(o)) { PointersAtLeast(s.strong, h, o); }
    forall t, dst | 0 <= t < |s.tasks| ensures s.tasks[t] != LockWrap(dst, o) {
      CountAtLeast(s.tasks, t, StrongUnit, o);
    }
  }

  // ---------------------------------------------------------------------------------- No leak

  /** Every activity is idle and no handle points to the object. */
  predicate AtRest(s: State, o: nat) {
    && (forall t :: 0 <= t < |s.tasks| ==> s.tasks[t] == Idle)
    && (forall h :: 0 <= h < |s.strong| ==> s.strong[h] != Live(Some(o)))
    && (forall h :: 0 <= h < |s.weak| ==> s.weak[h] != Live(Some(o)))
  }

  /** An object at rest has been released exactly once, and destroyed exactly once unless its constructor threw a
      std::exception. So an object that was never constructed is destroyed exactly when its constructor threw something
      else. */
  lemma NoLeak(run: seq<State>, i: nat, o: nat)
    requires IsCleanRun(run) && i < |run| && o < |run[i].blocks| && AtRest(run[i], o)
    ensures var b := run[i].blocks[o];
            && b.freed == 1 && b.birth != Unborn
            && b.destroyed == (if b.birth == ThrewStd then 0 else 1)
            && (b.birth != Built && b.destroyed == 1 <==> b.birth == ThrewOther)
  {
    RunInv(run, i);
    var s := run[i];
    assert ObjectInv(s, o);
    NoPointers(s.strong, o);
    NoPointers(s.weak, o);
    forall kind | true ensures Count(s.tasks, kind, o) == 0 { NoTasks(s.tasks, kind, o); }
  }

  // ---------------------------------------------------------------------------------- Exactly the clean runs

  /** A run is safe throughout exactly when it is clean. */
  lemma {:induction false} SafeExactly(run: seq<State>)
    requires IsRun(run)
    ensures (forall i :: 0 <= i < |run| ==> Inv(run[i])) <==> IsCleanRun(run)
  {
    hide Inv, Next, CleanNext;
    if IsCleanRun(run) {
      forall i | 0 <= i < |run| ensures Inv(run[i]) { RunInv(run, i); }
    }
    if forall i :: 0 <= i < |run| ==> Inv(run[i]) {
      forall i | 0 <= i < |run| - 1 ensures CleanNext(run[i], run[i + 1]) {
        assert Next(run[i], run[i + 1]);
        KeptIsClean(run[i], run[i + 1]);
      }
    }
  }

  lemma KeptIsClean(s: State, s': State)
    requires Inv(s) && Inv(s') && Next(s, s')
    ensures CleanNext(s, s')
  {
    hide Apply, CountsAgree, TallyOf, Inv, Undisturbed, LeftAlone;
    var a :| Enabled(s, a) && s' == Apply(s, a);
    KeptExactly(s, a);
    assert LeftAlone(s') by { AllLeftAlone(s'); }
    BlocksStay(s, a);
    forall o | 0 <= o < |s.blocks| && s'.blocks[o].destroyed > s.blocks[o].destroyed ensures Undisturbed(s, o) {
      ApplyLives(s, a, o);
    }
    forall o | 0 <= o < |s.blocks| && s.blocks[o].birth == ThrewStd && s'.blocks[o].freed > s.blocks[o].freed
      ensures s.blocks[o].strong == 1 && s.blocks[o].weak == 1
    {
      OnlyAbortDrops(s, a, o);
    }
  }

  lemma AllLeftAlone(s: State)
    requires Inv(s)
    ensures LeftAlone(s)
  {
    InvLeavesAlone(s);
  }

  lemma BlocksStay(s: State, a: Action)
    requires Enabled(s, a)
    ensures |Apply(s, a).blocks| >= |s.blocks|
  {}

  /** Nothing but New's own Deallocate releases a block whose constructor threw a std::exception. */
  lemma OnlyAbortDrops(s: State, a: Action, o: nat)
    requires Inv(s) && Enabled(s, a) && o < |s.blocks|
    requires |Apply(s, a).blocks| >= |s.blocks| && s.blocks[o].birth == ThrewStd
    requires Apply(s, a).blocks[o].freed > s.blocks[o].freed
    ensures a.Advance? && s.tasks[a.t].Abort? && s.tasks[a.t].obj == o
  {
    assert ObjectInv(s, o);
    TasksAreBacked(s, a.t, o);
    FreesWithRight(s, a, o);
    NotFreedTwice(s.blocks[o], TallyOf(s, o));
  }

  lemma FreesWithRight(s: State, a: Action, o: nat)
    requires Enabled(s, a) && o < |s.blocks| && |Apply(s, a).blocks| >= |s.blocks|
    requires Apply(s, a).blocks[o].freed > s.blocks[o].freed
    ensures a.Advance? && (s.tasks[a.t].Abort? || Weight(s.tasks[a.t], Freeing, o) == 1) && s.tasks[a.t].obj == o
  {}

  lemma NotFreedTwice(b: Block, t: Tally)
    requires CountsAgree(b, t) && b.birth == ThrewStd && t.strong >= 0 && t.destructing >= 0 && t.unrefing >= 0
    ensures t.freeing <= 0
  {}

  // ---------------------------------------------------------------------------------- Lock

  /** Whoever has read a zero count reads the truth for good. */
  predicate ReadZero(s: State) {
    forall t :: 0 <= t < |s.tasks| && s.tasks[t].LockCheck? && s.tasks[t].value == 0 ==>
      s.tasks[t].obj < |s.blocks| && s.blocks[s.tasks[t].obj].strong == 0
  }

  lemma ReadZeroKept(s: State, a: Action)
    requires Inv(s) && Enabled(s, a) && ReadZero(s)
    ensures ReadZero(Apply(s, a))
  {
    hide Inv;
    var s' := Apply(s, a);
    assert s'.tasks == s.tasks[a.t := Effects(s, a).task];
    forall t | 0 <= t < |s'.tasks| && s'.tasks[t].LockCheck? && s'.tasks[t].value == 0
      ensures s'.tasks[t].obj < |s'.blocks| && s'.blocks[s'.tasks[t].obj].strong == 0
    {
      if t == a.t { LoadsZero(s, a); } else { ZeroStays(s, a, s.tasks[t].obj); }
    }
  }

  lemma LoadsZero(s: State, a: Action)
    requires Enabled(s, a) && Effects(s, a).task.LockCheck? && Effects(s, a).task.value == 0
    ensures var o := Effects(s, a).task.obj; o < |s.blocks| && Apply(s, a).blocks[o].strong == 0
  {
    hide Strays, CanBegin;
    LoadsOnly(s, a);
  }

  lemma LoadsOnly(s: State, a: Action)
    requires Enabled(s, a) && Effects(s, a).task.LockCheck?
    ensures a.Advance? && s.tasks[a.t].LockLoad?
  {
    hide CanBegin;
    if a.Advance? { StepLoads(s, s.tasks[a.t], a.choice); } else { BeginLoads(s, a); }
  }

  lemma StepLoads(s: State, task: Task, choice: Choice)
    requires task != Idle && Resolvable(s, task) && StepEffect(s, task, choice).task.LockCheck?
    ensures task.LockLoad?
  {}

  lemma BeginLoads(s: State, a: Action)
    requires !a.Advance? && CanBegin(s, a)
    ensures !BeginEffect(s, a).task.LockCheck?
  {}

  lemma {:induction false} RunReadZero(run: seq<State>, i: nat)
    requires IsCleanRun(run) && i < |run|
    ensures ReadZero(run[i])
  {
    hide Apply;
    if i > 0 {
      hide ReadZero, CleanNext, Init;
      RunReadZero(run, i - 1);
      RunInv(run, i - 1);
      assert Next(run[i - 1], run[i - 1 + 1]);
      var a :| Enabled(run[i - 1], a) && run[i] == Apply(run[i - 1], a);
      ReadZeroKept(run[i - 1], a);
    }
  }

  predicate Locking(task: Task) { task.LockLoad? || task.LockCheck? || task.LockCas? || task.LockWrap? }

  /** Activity t ends its Lock between two states. */
  predicate LockEnds(s: State, s': State, t: nat) {
    t < |s.tasks| == |s'.tasks| && Locking(s.tasks[t]) && s'.tasks[t] == Idle
  }

  /** However the other activities interleave, a Lock of a weak handle that is not null ends with an empty handle
      exactly when the strong count is zero at its end; otherwise with a handle to the object. */
  lemma LockEndsRight(run: seq<State>, i: nat, t: nat)
    requires IsCleanRun(run) && i + 1 < |run| && LockEnds(run[i], run[i + 1], t)
    ensures var s', o, dst := run[i + 1], run[i].tasks[t].obj, run[i].tasks[t].dst;
            && dst < |s'.strong| && o < |s'.blocks|
            && (s'.strong[dst] == Live(None) <==> s'.blocks[o].strong == 0)
            && (s'.blocks[o].strong != 0 ==> s'.strong[dst] == Live(Some(o)))
  {
    hide Apply, CleanNext, Init, CountsAgree, TallyOf;
    RunInv(run, i);
    RunInv(run, i + 1);
    RunReadZero(run, i);
    assert Next(run[i], run[i + 1]);
    var a :| Enabled(run[i], a) && run[i + 1] == Apply(run[i], a);
    assert TaskInv(run[i], run[i].tasks[t]);
    OwnStep(run[i], a, t);
    LockStepEnds(run[i], a);
    assert ObjectInv(run[i + 1], run[i].tasks[t].obj);
    LiveIsCounted(run[i + 1], run[i].tasks[t].dst, run[i].tasks[t].obj);
  }

  lemma OwnStep(s: State, a: Action, t: nat)
    requires Enabled(s, a) && LockEnds(s, Apply(s, a), t)
    ensures a.Advance? && a.t == t && Effects(s, a).task == Idle
  {
    hide Effects;
    assert Apply(s, a).tasks == s.tasks[a.t := Effects(s, a).task];
  }

  lemma LockStepEnds(s: State, a: Action)
    requires Enabled(s, a) && a.Advance? && Locking(s.tasks[a.t]) && ReadZero(s) && Effects(s, a).task == Idle
    requires TaskInv(s, s.tasks[a.t])
    ensures var s', o, dst := Apply(s, a), s.tasks[a.t].obj, s.tasks[a.t].dst;
            && dst < |s'.strong| && o < |s'.blocks|
            && (s'.strong[dst] == Live(Some(o)) || (s'.strong[dst] == Live(None) && s'.blocks[o].strong == 0))
  {}

  lemma LiveIsCounted(s: State, h: nat, o: nat)
    requires h < |s.strong| && o < |s.blocks| && ObjectInv(s, o)
    ensures s.strong[h] == Live(Some(o)) ==> s.blocks[o].strong > 0
  {
    PointersAtLeast(s.strong, h, o);
    forall kind | true ensures Count(s.tasks, kind, o) >= 0 {}
  }

  /** Alone at its step: an activity advances with no constructor failure or spurious CAS failure. */
  predicate CanAdvance(s: State, t: nat) { Enabled(s, Advance(t, Plain)) }

  function Advanced(s: State, t: nat): State
    requires CanAdvance(s, t)
  {
    Apply(s, Advance(t, Plain))
  }

  lemma LockLoads(s: State, t: nat, dst: nat, src: nat, o: nat)
    requires t < |s.tasks| && dst < |s.strong| && o < |s.blocks| && s.tasks[t] == LockLoad(dst, src, o)
    ensures CanAdvance(s, t) && Advanced(s, t).strong == s.strong && Advanced(s, t).blocks == s.blocks
    ensures Advanced(s, t).tasks == s.tasks[t := LockCheck(dst, src, o, s.blocks[o].strong)]
  {}

  lemma LockChecks(s: State, t: nat, dst: nat, src: nat, o: nat, value: int)
    requires t < |s.tasks| && dst < |s.strong| && o < |s.blocks| && s.tasks[t] == LockCheck(dst, src, o, value)
    requires value != 0
    ensures CanAdvance(s, t) && Advanced(s, t).strong == s.strong && Advanced(s, t).blocks == s.blocks
    ensures Advanced(s, t).tasks == s.tasks[t := LockCas(dst, src, o, value)]
  {}

  lemma LockSwaps(s: State, t: nat, dst: nat, src: nat, o: nat)
    requires t < |s.tasks| && dst < |s.strong| && o < |s.blocks|
    requires s.tasks[t] == LockCas(dst, src, o, s.blocks[o].strong)
    ensures CanAdvance(s, t) && Advanced(s, t).strong == s.strong
    ensures Advanced(s, t).blocks == s.blocks[o := s.blocks[o].(strong := s.blocks[o].strong + 1)]
    ensures Advanced(s, t).tasks == s.tasks[t := LockWrap(dst, o)]
  {}

  lemma LockWraps(s: State, t: nat, dst: nat, o: nat)
    requires t < |s.tasks| && dst < |s.strong| && o < |s.blocks| && s.tasks[t] == LockWrap(dst, o)
    ensures CanAdvance(s, t) && Advanced(s, t).strong == s.strong[dst := Live(Some(o))]
    ensures Advanced(s, t).blocks == s.blocks && Advanced(s, t).tasks == s.tasks[t := Idle]
  {}

  /** A Lock that meets a positive count and no interference yields a strong handle, and counts it. */
  lemma LockSucceeds(s: State, t: nat, dst: nat, src: nat, o: nat)
    requires t < |s.tasks| && dst < |s.strong| && o < |s.blocks|
    requires s.tasks[t] == LockLoad(dst, src, o) && s.blocks[o].strong > 0
    ensures CanAdvance(s, t) && CanAdvance(Advanced(s, t), t) && CanAdvance(Advanced(Advanced(s, t), t), t)
    ensures CanAdvance(Advanced(Advanced(Advanced(s, t), t), t), t)
    ensures var end := Advanced(Advanced(Advanced(Advanced(s, t), t), t), t);
            && end.strong == s.strong[dst := Live(Some(o))]
            && end.blocks == s.blocks[o := s.blocks[o].(strong := s.blocks[o].strong + 1)]
            && end.tasks == s.tasks[t := Idle]
  {
    hide *;
    LockLoads(s, t, dst, src, o);
    var s1 := Advanced(s, t);
    LockChecks(s1, t, dst, src, o, s.blocks[o].strong);
    var s2 := Advanced(s1, t);
    LockSwaps(s2, t, dst, src, o);
    var s3 := Advanced(s2, t);
    LockWraps(s3, t, dst, o);
    assert Advanced(s3, t).tasks == s.tasks[t := Idle];
  }
}
