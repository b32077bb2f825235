/** What the VERIFYs of the counters guard in any run, clean or not, as long as none has failed. */
module RefCountingChecks {
  import opened Common
  import opened RefCounting

  /** The steps that need a strong reference, by VERIFY(value > 0) in Ref or VERIFY(oldStrongCount >= n) in Unref. */
  predicate NeedsStrong(task: Task) { task.RefAdd? || task.Release? }

  /** The steps that need a weak reference: the last VERIFY of Ref and of TryRef, and that of WeakRef and WeakUnref. */
  predicate NeedsWeak(task: Task) {
    task.RefCheck? || task.LockCheck? || task.WeakAdd? || task.WeakRelease? || task.SelfUnref?
  }

  /** A step fails a VERIFY exactly when the counter it needs is not positive; TryRef's load only needs one that is not
      negative. */
  lemma TrapsExactly(s: State, t: nat, choice: Choice)
    requires Enabled(s, Advance(t, choice)) && !s.trapped
    ensures Apply(s, Advance(t, choice)).trapped <==>
            var task := s.tasks[t];
            !task.Clear? &&
            var b := s.blocks[task.obj];
            || (NeedsStrong(task) && b.strong <= 0)
            || (NeedsWeak(task) && b.weak <= 0)
            || (task.LockLoad? && b.strong < 0)
  {
    hide Strays, Returned, Unwound;
    var task := s.tasks[t];
    if task.Clear? { ClearPasses(s, task.dst, task.after); } else { StepVerifies(s, task, choice); }
  }

  lemma ClearPasses(s: State, dst: nat, after: After)
    ensures ClearEffect(s, dst, after).verified
  {}

  lemma StepVerifies(s: State, task: Task, choice: Choice)
    requires task != Idle && !task.Clear? && Resolvable(s, task)
    ensures var b := s.blocks[task.obj];
            !StepEffect(s, task, choice).verified <==>
            || (NeedsStrong(task) && b.strong <= 0)
            || (NeedsWeak(task) && b.weak <= 0)
            || (task.LockLoad? && b.strong < 0)
  {
  }

  // ---------------------------------------------------------------------------------- Runs that have not failed

  /** No counter is negative, and no compare-and-swap waits to add to a count of zero. */
  predicate Checked(s: State) {
    && (forall o :: 0 <= o < |s.blocks| ==> s.blocks[o].strong >= 0 && s.blocks[o].weak >= 0)
    && forall t :: 0 <= t < |s.tasks| ==> TriesNonZero(s.tasks[t])
  }

  predicate TriesNonZero(task: Task) { task.LockCas? ==> task.value != 0 }

  /** The counters of a block before and after: not negative, and zero for ever. */
  predicate Guarded(b: Block, b': Block) {
    b'.strong >= 0 && b'.weak >= 0 && (b.strong == 0 ==> b'.strong == 0) && (b.weak == 0 ==> b'.weak == 0)
  }

  lemma StepGuarded(s: State, task: Task, choice: Choice)
    requires task != Idle && Resolvable(s, task) && Checked(s) && TriesNonZero(task)
    ensures var e := StepEffect(s, task, choice);
            && TriesNonZero(e.task) && !e.allocates
            && (e.verified && e.block.Some? ==>
                  && e.block.value.0 < |s.blocks| && Guarded(s.blocks[e.block.value.0], e.block.value.1))
  {
  }

  lemma BeginGuarded(s: State, a: Action)
    requires !a.Advance? && CanBegin(s, a)
    ensures TriesNonZero(BeginEffect(s, a).task) && BeginEffect(s, a).block == None
  {
  }

  /** As long as no VERIFY fails, a step keeps the counters from becoming negative, and no zero counter is raised. */
  lemma CheckedStep(s: State, a: Action)
    requires Enabled(s, a) && Checked(s) && !Apply(s, a).trapped
    ensures Checked(Apply(s, a)) && |s.blocks| <= |Apply(s, a).blocks|
    ensures forall o :: 0 <= o < |s.blocks| ==> Guarded(s.blocks[o], Apply(s, a).blocks[o])
  {
    hide StepEffect, BeginEffect, Strays;
    if a.Advance? { StepGuarded(s, s.tasks[a.t], a.choice); } else { BeginGuarded(s, a); }
  }

  /** In any run in which no VERIFY has failed, no counter has been negative, and the counters of an object that have
      come to zero have stayed there. */
  lemma {:induction false} ZeroStays(run: seq<State>, i: nat, j: nat)
    requires IsRun(run) && i <= j < |run| && !run[j].trapped
    ensures !run[i].trapped && Checked(run[j]) && |run[i].blocks| <= |run[j].blocks|
    ensures forall o :: 0 <= o < |run[i].blocks| ==> Guarded(run[i].blocks[o], run[j].blocks[o])
  {
    hide Init, Enabled, Apply, Guarded, Checked;
    if j == 0 {
      StartChecked(run[0]);
      GuardedItself(run[0]);
    } else {
      var a :| Enabled(run[j - 1], a) && run[j] == Apply(run[j - 1], a);
      StaysTrapped(run[j - 1], a);
      if i < j {
        ZeroStays(run, i, j - 1);
        CheckedStep(run[j - 1], a);
        GuardedFurther(run[i], run[j - 1], run[j]);
      } else {
        ZeroStays(run, j - 1, j - 1);
        CheckedStep(run[j - 1], a);
        GuardedItself(run[j]);
      }
    }
  }

  lemma StartChecked(s: State)
    requires Init(s)
    ensures Checked(s)
  {}

  lemma StaysTrapped(s: State, a: Action)
    requires Enabled(s, a) && !Apply(s, a).trapped
    ensures !s.trapped
  {
    hide Effects, Strays, Enabled;
  }

  lemma GuardedItself(s: State)
    requires Checked(s)
    ensures forall o :: 0 <= o < |s.blocks| ==> Guarded(s.blocks[o], s.blocks[o])
  {}

  lemma GuardedFurther(s: State, s1: State, s2: State)
    requires |s.blocks| <= |s1.blocks| <= |s2.blocks|
    requires forall o :: 0 <= o < |s.blocks| ==> Guarded(s.blocks[o], s1.blocks[o])
    requires forall o :: 0 <= o < |s1.blocks| ==> Guarded(s1.blocks[o], s2.blocks[o])
    ensures forall o :: 0 <= o < |s.blocks| ==> Guarded(s.blocks[o], s2.blocks[o])
  {}

  /** So the first VERIFY of TryRef, on the count it has loaded, is never the first to fail. */
  lemma LoadNeverTraps(run: seq<State>, i: nat, t: nat, choice: Choice)
    requires IsRun(run) && i < |run| && !run[i].trapped
    requires Enabled(run[i], Advance(t, choice)) && run[i].tasks[t].LockLoad?
    ensures !Apply(run[i], Advance(t, choice)).trapped
  {
    hide IsRun, Apply;
    ZeroStays(run, i, i);
    TrapsExactly(run[i], t, choice);
  }
}
