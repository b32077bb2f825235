/** The invariant of the reference counting protocol, and exactly which steps keep it. */
module RefCountingInvariant {
  import opened Common
  import opened RefCounting
  import opened RefCountingCounts
  import opened RefCountingHomes

  /** Handles, counters and members are as they should be, and neither of the two faults has happened. */
  ghost predicate Inv(s: State) {
    HandlesInv(s) && CountsInv(s) && HomesInv(s) && !s.trapped && !s.touchedFreed
  }

  lemma InitInv(s: State)
    requires Init(s)
    ensures Inv(s)
  {
    InitHandles(s);
    InitHomes(s);
  }

  /** An action that does not stray, whose VERIFY holds and whose block has not been released, faults in no way. */
  lemma NoNewFault(s: State, a: Action)
    requires Enabled(s, a) && !Strays(s, a) && !s.trapped && !s.touchedFreed
    requires var e := Effects(s, a);
             && e.verified
             && (e.block.Some? && e.block.value.0 < |s.blocks| ==> s.blocks[e.block.value.0].freed == 0)
    ensures !Apply(s, a).trapped && !Apply(s, a).touchedFreed
  {
    hide Effects, Strays;
  }

  /** What a program must see to: at two steps, and by leaving a handle alone in the destructors its reset calls. */
  predicate Clean(s: State, a: Action)
    requires a.t < |s.tasks|
  {
    !Again(a) && (a.Advance? ==> CleanTask(s, s.tasks[a.t]))
  }

  /** The invariant is kept by every clean step of every activity. */
  lemma InvPreserved(s: State, a: Action)
    requires Inv(s) && Enabled(s, a) && Clean(s, a)
    ensures Inv(Apply(s, a))
  {
    hide HandlesInv, CountsInv, HomesInv, CleanTask, Strays, BeginEffect, StepEffect, ClearEffect, Perform;
    NeverIntrudes(s, a);
    NeverStrays(s, a);
    HandlesPreserved(s, a);
    HomesPreserved(s, a);
    if !a.Advance? {
      BeginPreserves(s, a, BeginEffect(s, a), false);
    } else if s.tasks[a.t].Clear? {
      ClearIsStep(s, s.tasks[a.t], a.choice);
      CountsKeptByClear(s, a.t, Effects(s, a), false);
    } else {
      CountsKeptByStep(s, a.t, a.choice, Effects(s, a), false);
    }
    NoNewFault(s, a);
  }

  lemma ClearIsStep(s: State, task: Task, choice: Choice)
    requires task.Clear? && Resolvable(s, task)
    ensures StepEffect(s, task, choice) == ClearEffect(s, task.dst, task.after)
  {}

  /** Whatever the counters say, an unclean Deallocate leaves a reference to a released block. */
  lemma UncleanBreaks(s: State, a: Action)
    requires Inv(s) && Enabled(s, a) && a.Advance? && s.tasks[a.t].Abort? && !CleanTask(s, s.tasks[a.t])
    ensures !Inv(Apply(s, a))
  {
    hide CountsAgree, TallyOf, Change, StepEffect, Backed, Strays;
    var task, e := s.tasks[a.t], Effects(s, a);
    var o := task.obj;
    assert TaskInv(s, task);
    assert ObjectInv(s, o);
    AbortBacked(s, a.t);
    AbortAgrees(s.blocks[o], TallyOf(s, o));
    StepChange(s, task, a.choice);
    TallyAfter(s, a.t, e, Strays(s, a), o);
    AbortEffect(s, task, a.choice);
    assert !ObjectInv(Perform(s, a.t, e, Strays(s, a)), o);
  }

  lemma AbortBacked(s: State, t: nat)
    requires HandlesInv(s) && t < |s.tasks| && s.tasks[t].Abort?
    ensures TallyOf(s, s.tasks[t].obj).aborting >= 1 && Counted(TallyOf(s, s.tasks[t].obj))
  {
    TasksAreBacked(s, t, s.tasks[t].obj);
  }

  lemma AbortEffect(s: State, task: Task, choice: Choice)
    requires task.Abort? && task.obj < |s.blocks|
    ensures var b := s.blocks[task.obj];
            StepEffect(s, task, choice).block == Some((task.obj, b.(freed := b.freed + 1)))
    ensures !StepEffect(s, task, choice).allocates
    ensures Delta(s.blocks[task.obj], task, choice) == UNCHANGED.(aborting := -1)
  {}

  /** Nobody else takes a reference to an object that is being destroyed. */
  lemma InvLeavesAlone(s: State)
    requires HandlesInv(s)
    ensures LeftAlone(s)
  {
    forall i | 0 <= i < |s.tasks| && Destroying(s, i)
      ensures Inside(s.tasks[i]) ==> IsAlone(s, i, s.tasks[i].dst)
      ensures forall j :: 0 <= j < |s.tasks| ==> !AdoptsThis(s.tasks[j], i)
    {
      var h := s.tasks[i].dst;
      HoldsHeld(s, s.tasks[i], h);
      forall j | 0 <= j < |s.tasks|
        ensures !AdoptsThis(s.tasks[j], i)
        ensures j != i && Inside(s.tasks[i]) ==> !Holds(s.tasks[j], h) && !BorrowsStrong(s.tasks[j], h)
      {
        assert TaskInv(s, s.tasks[j]);
        HoldsHeld(s, s.tasks[j], h);
      }
    }
  }

  /** A destructor that uses such a handle, or `this`, does not leave it alone. */
  lemma AgainIntrudes(s: State, a: Action)
    requires Enabled(s, a) && Again(a)
    ensures !LeftAlone(Apply(s, a))
  {
    hide Apply, Open, BeginEffect, Holds, BorrowsStrong, AdoptsThis;
    var s' := Apply(s, a);
    AgainUses(s, a);
    HomesStay(s, a);
    assert s'.tasks[a.t] == BeginEffect(s, a).task;
    if a.AdoptAgain? {
      assert a.dying != a.t && s'.tasks[a.dying] == s.tasks[a.dying];
      assert Destroying(s', a.dying);
    } else {
      var h := AgainOn(a);
      var i :| 0 <= i < |s.tasks| && Inside(s.tasks[i]) && s.tasks[i].dst == h;
      assert i != a.t && s'.tasks[i] == s.tasks[i];
      assert Destroying(s', i);
      assert !IsAlone(s', i, h);
    }
  }

  /** The handle it uses. */
  function AgainOn(a: Action): nat
    requires Again(a) && !a.AdoptAgain?
  {
    if a.ResetAgain? then a.dst else a.src
  }

  lemma AgainUses(s: State, a: Action)
    requires Enabled(s, a) && Again(a)
    ensures var e := BeginEffect(s, a);
            if a.AdoptAgain? then AdoptsThis(e.task, a.dying)
            else
              var h := AgainOn(a);
              && Called(s, h) && h < |Apply(s, a).strong|
              && (Holds(e.task, h) || BorrowsStrong(e.task, h) || Apply(s, a).strong[h] != Held)
  {
    hide Strays, Open;
  }

  /** The invariant is kept by a step exactly when it is not a Deallocate, after a std::exception, under handles that
      the constructor has published, not a destructor that comes to a member while an operation on it is under way, and
      not a use, by a destructor, of a handle whose own reset or assignment has called it, or of `this`. */
  lemma KeptExactly(s: State, a: Action)
    requires Inv(s) && Enabled(s, a)
    ensures Inv(Apply(s, a)) <==> Clean(s, a)
  {
    hide HandlesInv, CountsInv, HomesInv, Apply, Undisturbed, LeftAlone;
    if Again(a) {
      AgainIntrudes(s, a);
      if HandlesInv(Apply(s, a)) { InvLeavesAlone(Apply(s, a)); }
    } else if a.Advance? && !CleanTask(s, s.tasks[a.t]) {
      if s.tasks[a.t].Abort? { UncleanBreaks(s, a); } else { DisturbedBreaks(s, a); }
    } else {
      InvPreserved(s, a);
    }
  }

  // ---------------------------------------------------------------------------------- Runs

  lemma AbortFrees(s: State, a: Action)
    requires Inv(s) && Enabled(s, a) && a.Advance? && s.tasks[a.t].Abort?
    ensures var o := s.tasks[a.t].obj;
            && |Apply(s, a).blocks| >= |s.blocks| && o < |s.blocks|
            && s.blocks[o].birth == ThrewStd && Apply(s, a).blocks[o].freed > s.blocks[o].freed
  {
    hide CountsAgree, TallyOf, Strays;
    var o := s.tasks[a.t].obj;
    assert TaskInv(s, s.tasks[a.t]);
    assert ObjectInv(s, o);
    AbortBacked(s, a.t);
    AbortAgrees(s.blocks[o], TallyOf(s, o));
  }

  /** A clean step between two states is one of a clean action. */
  lemma CleanStep(s: State, a: Action)
    requires Inv(s) && Enabled(s, a) && CleanNext(s, Apply(s, a))
    ensures Clean(s, a)
  {
    hide Apply, Strays, HandlesInv, CountsInv, HomesInv, Undisturbed, LeftAlone;
    var task := s.tasks[a.t];
    if Again(a) { AgainIntrudes(s, a); }
    if !a.Advance? { return; }
    if task.Abort? { AbortFrees(s, a); }
    if task.Destruct? {
      TaskDestroys(s, a.t);
      ApplyLives(s, a, task.obj);
    }
  }

  lemma NextInv(s: State, s': State)
    requires Inv(s) && Next(s, s') && CleanNext(s, s')
    ensures Inv(s')
  {
    hide Apply, CleanNext, Inv;
    var a :| Enabled(s, a) && s' == Apply(s, a);
    CleanStep(s, a);
    InvPreserved(s, a);
  }

  /** The invariant holds in every state of every clean run. */
  lemma {:induction false} RunInv(run: seq<State>, i: nat)
    requires IsCleanRun(run) && i < |run|
    ensures Inv(run[i])
  {
    if i == 0 {
      InitInv(run[0]);
    } else {
      hide Next, CleanNext;
      RunInv(run, i - 1);
      assert Next(run[i - 1], run[i - 1 + 1]) && CleanNext(run[i - 1], run[i - 1 + 1]);
      NextInv(run[i - 1], run[i]);
    }
  }
}
