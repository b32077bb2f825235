/** Handles that are members of the objects they live in: while an object is being destroyed, so are they. */
module RefCountingHomes {
  import opened Common
  import opened RefCounting
  import opened RefCountingCounts

  // ---------------------------------------------------------------------------------- Invariant

  predicate Dying(s: State, o: nat) { o < |s.blocks| && s.blocks[o].destroyed > 0 }

  /** The activity is in the middle of an operation on the handle. */
  predicate Uses(task: Task, h: nat) { Holds(task, h) || BorrowsStrong(task, h) }

  /** The activity destroys a member on behalf of the destructor of its object. */
  predicate Destroys(task: Task) {
    && (task.Release? || task.Destruct? || task.Members? || task.SelfUnref? || task.SelfFree? || task.Clear?)
    && task.after.Expire?
  }

  /** Of an object whose destructor has come to the members, members are destroyed and nothing else. */
  predicate TaskHome(s: State, task: Task) {
    && (forall h :: 0 <= h < |s.homes| && Uses(task, h) && HomeOf(s, h).Some? ==>
          var o := HomeOf(s, h).value;
          o < |s.blocks| && (s.blocks[o].destroyed == 0 || (Destroys(task) && task.dst == h)))
    && (Destroys(task) ==> HomeOf(s, task.dst).Some? && Dying(s, HomeOf(s, task.dst).value))
  }

  /** A handle that is not destroyed is a member of an object that is there. */
  predicate There(s: State, h: nat) {
    HomeOf(s, h).Some? ==>
      var o := HomeOf(s, h).value;
      && o < |s.blocks| && (s.blocks[o].birth == Unborn || s.blocks[o].birth == Built)
      && (s.blocks[o].destroyed == 0 || Expiring(s, o))
  }

  ghost predicate HomesInv(s: State) {
    && |s.homes| == |s.strong|
    && (forall i :: 0 <= i < |s.tasks| ==> TaskHome(s, s.tasks[i]))
    && forall h :: 0 <= h < |s.strong| && s.strong[h] != Dead ==> There(s, h)
  }

  lemma InitHomes(s: State)
    requires Init(s)
    ensures HomesInv(s)
  {
    forall i | 0 <= i < |s.tasks| ensures TaskHome(s, s.tasks[i]) { assert s.tasks[i] == Idle; }
  }

  // ---------------------------------------------------------------------------------- Dying objects

  lemma DestroyedOnce(b: Block, t: Tally)
    requires CountsAgree(b, t) && Counted(t)
    ensures t.destructing >= 1 ==> b.destroyed == 0 && b.freed == 0
    ensures t.unrefing >= 1 ==> b.destroyed == 1 && b.freed == 0
    ensures b.destroyed == 0 && (b.birth == Unborn || b.birth == Built) ==> b.freed == 0
  {}

  /** An activity at the members of an object has destroyed it; one before has not. */
  lemma TaskDestroys(s: State, i: nat)
    requires HandlesInv(s) && CountsInv(s) && i < |s.tasks|
    ensures s.tasks[i].Members? ==>
      var o := s.tasks[i].obj; o < |s.blocks| && s.blocks[o].destroyed == 1 && s.blocks[o].freed == 0
    ensures s.tasks[i].Destruct? ==>
      var o := s.tasks[i].obj; o < |s.blocks| && s.blocks[o].destroyed == 0
  {
    hide CountsAgree, TallyOf;
    if s.tasks[i].Members? || s.tasks[i].Destruct? {
      var o := s.tasks[i].obj;
      assert TaskInv(s, s.tasks[i]);
      assert ObjectInv(s, o);
      TasksAreBacked(s, i, o);
      DestroyedOnce(s.blocks[o], TallyOf(s, o));
    }
  }

  /** The destructor never finds an operation on a member it destroys. */
  lemma NeverIntrudes(s: State, a: Action)
    requires HandlesInv(s) && CountsInv(s) && HomesInv(s) && Enabled(s, a) && !Again(a)
    ensures Orderly(s, a)
  {
    if a.DestroyMember? {
      var h := a.dst;
      var o := HomeOf(s, h).value;
      var m :| 0 <= m < |s.tasks| && s.tasks[m].Members? && s.tasks[m].obj == o;
      TaskDestroys(s, m);
      forall i | 0 <= i < |s.tasks|
        ensures !Keeps(s.tasks[i], h) && (s.strong[h].Live? ==> !BorrowsStrong(s.tasks[i], h))
      {
        OnlyDestroyed(s, i, h);
      }
    }
  }

  lemma OnlyDestroyed(s: State, i: nat, h: nat)
    requires HandlesInv(s) && HomesInv(s) && i < |s.tasks| && h < |s.strong|
    requires HomeOf(s, h).Some? && Dying(s, HomeOf(s, h).value)
    ensures !Keeps(s.tasks[i], h) && (s.strong[h].Live? ==> !BorrowsStrong(s.tasks[i], h))
  {
    assert TaskHome(s, s.tasks[i]);
    assert TaskInv(s, s.tasks[i]);
    KeepsUses(s.tasks[i], h);
    HoldsHeld(s, s.tasks[i], h);
  }

  lemma KeepsUses(task: Task, h: nat)
    ensures Keeps(task, h) ==> Uses(task, h) && !Destroys(task)
    ensures Destroys(task) ==> Holds(task, task.dst) && !BorrowsStrong(task, h)
  {}

  // ---------------------------------------------------------------------------------- Kept by every clean step

  /** An activity that goes on uses no other handles than before, and for the same purpose. */
  lemma StepUses(s: State, task: Task, choice: Choice, h: nat)
    requires task != Idle && Resolvable(s, task)
    ensures var next := StepEffect(s, task, choice).task;
            && (Uses(next, h) ==> Uses(task, h))
            && (Destroys(next) ==> Destroys(task) && next.dst == task.dst)
            && (Destroys(task) && Uses(next, h) ==> Destroys(next))
  {}

  /** An operation that begins uses handles of objects that are there, or destroys a member. */
  lemma BeginUses(s: State, a: Action, h: nat)
    requires !a.Advance? && CanBegin(s, a)
    ensures var next := BeginEffect(s, a).task;
            && (Uses(next, h) ==> Open(s, h) || (a.DestroyMember? && a.dst == h))
            && (Destroys(next) <==> a.DestroyMember?) && (Destroys(next) ==> next.dst == a.dst)
  {}

  /** What a step does to the lifetime of an object. */
  lemma StepLives(s: State, task: Task, choice: Choice)
    requires task != Idle && Resolvable(s, task)
    ensures var e := StepEffect(s, task, choice);
            e.block.Some? ==>
              var (o, b) := e.block.value;
              && !task.Clear? && o == task.obj && o < |s.blocks|
              && b.destroyed == s.blocks[o].destroyed + (if task.Destruct? then 1 else 0)
              && (b.birth == s.blocks[o].birth ||
                  (task.Construct? && (b.birth == Built || choice == StdThrow || choice == OtherThrow)))
  {}

  /** The lifetime of object o over a step. */
  predicate Lives(s: State, s': State, a: Action, o: nat)
    requires o < |s.blocks| && a.t < |s.tasks|
  {
    && o < |s'.blocks|
    && s'.blocks[o].destroyed ==
       s.blocks[o].destroyed + (if a.Advance? && s.tasks[a.t].Destruct? && s.tasks[a.t].obj == o then 1 else 0)
    && (s'.blocks[o].birth == s.blocks[o].birth ||
        (a.Advance? && s.tasks[a.t].Construct? && s.tasks[a.t].obj == o &&
         (s'.blocks[o].birth == Built || a.choice == StdThrow || a.choice == OtherThrow)))
  }

  lemma ApplyLives(s: State, a: Action, o: nat)
    requires Enabled(s, a) && o < |s.blocks|
    ensures Lives(s, Apply(s, a), a, o)
  {
    hide StepEffect, BeginEffect, Strays;
    if a.Advance? {
      StepLives(s, s.tasks[a.t], a.choice);
      if s.tasks[a.t].Destruct? { DestructWrites(s, s.tasks[a.t], a.choice); }
    } else {
      AllocatesOnlyNew(s, a);
    }
  }

  lemma DestructWrites(s: State, task: Task, choice: Choice)
    requires task.Destruct? && Resolvable(s, task)
    ensures StepEffect(s, task, choice).block.Some? && StepEffect(s, task, choice).block.value.0 == task.obj
  {}

  lemma BystanderHome(s: State, a: Action, i: nat)
    requires HandlesInv(s) && CountsInv(s) && HomesInv(s) && Enabled(s, a) && i < |s.tasks| && i != a.t
    requires a.Advance? ==> CleanTask(s, s.tasks[a.t])
    ensures TaskHome(Apply(s, a), s.tasks[i])
  {
    hide Apply, CleanTask, HandlesInv, CountsInv, Uses;
    var s', task := Apply(s, a), s.tasks[i];
    HomesStay(s, a);
    assert TaskHome(s, task);
    forall h | 0 <= h < |s.homes| && Uses(task, h) && HomeOf(s, h).Some?
      ensures var o := HomeOf(s, h).value;
              o < |s'.blocks| && (s'.blocks[o].destroyed == 0 || (Destroys(task) && task.dst == h))
    {
      UsedLivesOn(s, a, i, h);
    }
    if Destroys(task) { ApplyLives(s, a, HomeOf(s, task.dst).value); }
  }

  /** No clean step destroys the object of a member that is in use. */
  lemma UsedLivesOn(s: State, a: Action, i: nat, h: nat)
    requires Enabled(s, a) && i < |s.tasks| && h < |s.homes| && Uses(s.tasks[i], h) && HomeOf(s, h).Some?
    requires HomeOf(s, h).value < |s.blocks| && (a.Advance? ==> CleanTask(s, s.tasks[a.t]))
    ensures var o := HomeOf(s, h).value;
            o < |Apply(s, a).blocks| && Apply(s, a).blocks[o].destroyed == s.blocks[o].destroyed
  {
    hide Apply;
    ApplyLives(s, a, HomeOf(s, h).value);
  }

  lemma ActorHome(s: State, a: Action)
    requires HandlesInv(s) && CountsInv(s) && HomesInv(s) && Enabled(s, a)
    requires a.Advance? ==> CleanTask(s, s.tasks[a.t])
    ensures TaskHome(Apply(s, a), Effects(s, a).task)
  {
    hide Strays, StepEffect, BeginEffect, Apply, CanBegin;
    var s', old_, next := Apply(s, a), s.tasks[a.t], Effects(s, a).task;
    HomesStay(s, a);
    assert TaskHome(s, old_);
    forall h | 0 <= h < |s.homes| && Uses(next, h) && HomeOf(s, h).Some?
      ensures var o := HomeOf(s, h).value;
              o < |s'.blocks| && (s'.blocks[o].destroyed == 0 || (Destroys(next) && next.dst == h))
    {
      if a.Advance? {
        StepUses(s, old_, a.choice, h);
        ApplyLives(s, a, HomeOf(s, h).value);
      } else {
        BeginUses(s, a, h);
        MemberHome(s, a);
        ApplyLives(s, a, HomeOf(s, h).value);
      }
    }
    if Destroys(next) {
      if a.Advance? { StepUses(s, old_, a.choice, next.dst); } else { BeginUses(s, a, next.dst); MemberHome(s, a); }
      ApplyLives(s, a, HomeOf(s, next.dst).value);
    }
  }

  lemma HomesStay(s: State, a: Action)
    requires Enabled(s, a)
    ensures Apply(s, a).homes == s.homes && Apply(s, a).tasks == s.tasks[a.t := Effects(s, a).task]
    ensures |Apply(s, a).strong| == |s.strong|
  {}

  lemma MemberHome(s: State, a: Action)
    requires HandlesInv(s) && CountsInv(s) && Enabled(s, a)
    ensures a.DestroyMember? ==>
      HomeOf(s, a.dst).Some? && Dying(s, HomeOf(s, a.dst).value) && Expiring(s, HomeOf(s, a.dst).value)
  {
    if !a.DestroyMember? { return; }
    var o := HomeOf(s, a.dst).value;
    var m :| 0 <= m < |s.tasks| && s.tasks[m].Members? && s.tasks[m].obj == o;
    TaskDestroys(s, m);
  }

  /** A handle that comes to life, or stays alive, is a member of an object that is there. */
  lemma SlotHome(s: State, a: Action, h: nat)
    requires HandlesInv(s) && CountsInv(s) && HomesInv(s) && Enabled(s, a) && !Again(a)
    requires a.Advance? ==> CleanTask(s, s.tasks[a.t])
    requires h < |s.strong| && |Apply(s, a).strong| == |s.strong| && Apply(s, a).strong[h] != Dead
    ensures There(Apply(s, a), h)
  {
    hide Strays, StepEffect, BeginEffect, Apply, CanBegin, Effects;
    HomesStay(s, a);
    NeverIntrudes(s, a);
    if HomeOf(s, h).Some? {
      var o := HomeOf(s, h).value;
      if s.strong[h] == Dead { Revived(s, a, h); }
      assert o < |s.blocks|;
      ApplyLives(s, a, o);
      if s.strong[h] != Dead { StillExpiring(s, a, h, o); }
    }
  }

  lemma OpenIsThere(s: State, h: nat)
    requires Open(s, h)
    ensures There(s, h)
  {}

  /** Only an operation that begins, on a handle of an object that is there, brings a dead handle to life. */
  lemma Revived(s: State, a: Action, h: nat)
    requires HandlesInv(s) && Enabled(s, a) && Orderly(s, a) && h < |s.strong| && s.strong[h] == Dead
    requires |Apply(s, a).strong| == |s.strong| && Apply(s, a).strong[h] != Dead
    ensures !a.Advance? && Open(s, h)
  {
    hide Strays, Open;
    if a.Advance? {
      assert TaskInv(s, s.tasks[a.t]);
      StepWrites(s, s.tasks[a.t], a.choice, h);
    } else {
      BeginWrites(s, a, h);
    }
  }

  lemma StepWrites(s: State, task: Task, choice: Choice, h: nat)
    requires TaskInv(s, task) && task != Idle && Resolvable(s, task)
    ensures var e := StepEffect(s, task, choice);
            Writes(e.strong, h) || Writes(e.strong2, h) ==> HeldAt(s.strong, h)
  {}

  lemma BeginWrites(s: State, a: Action, h: nat)
    requires !a.Advance? && CanBegin(s, a) && Orderly(s, a) && FreeSlot(s.strong, h)
    ensures var e := BeginEffect(s, a); Writes(e.strong, h) || Writes(e.strong2, h) ==> Open(s, h)
  {}

  lemma StillExpiring(s: State, a: Action, h: nat, o: nat)
    requires HandlesInv(s) && CountsInv(s) && Enabled(s, a) && There(s, h) && h < |s.strong| && HomeOf(s, h) == Some(o)
    requires Lives(s, Apply(s, a), a, o) && s.strong[h] != Dead
    ensures var s' := Apply(s, a);
            && (s'.blocks[o].birth == Unborn || s'.blocks[o].birth == Built)
            && (s'.blocks[o].destroyed == 0 || Expiring(s', o))
  {
    hide Strays, StepEffect, BeginEffect, Apply, CanBegin;
    var s' := Apply(s, a);
    HomesStay(s, a);
    if s'.blocks[o].destroyed != 0 {
      if s.blocks[o].destroyed == 0 {
        DestructGoesOn(s, s.tasks[a.t], a.choice);
        assert s'.tasks[a.t].Members? && s'.tasks[a.t].obj == o;
      } else {
        var m :| 0 <= m < |s.tasks| && s.tasks[m].Members? && s.tasks[m].obj == o;
        assert m != a.t;
        assert s'.tasks[m] == s.tasks[m];
      }
    }
  }

  lemma DestructGoesOn(s: State, task: Task, choice: Choice)
    requires task.Destruct? && Resolvable(s, task)
    ensures StepEffect(s, task, choice).task == Members(task.dst, task.obj, task.after)
  {}

  lemma HomesPreserved(s: State, a: Action)
    requires HandlesInv(s) && CountsInv(s) && HomesInv(s) && Enabled(s, a) && !Again(a)
    requires a.Advance? ==> CleanTask(s, s.tasks[a.t])
    ensures HomesInv(Apply(s, a))
  {
    hide Apply, Effects, TaskHome, There, CleanTask;
    var s' := Apply(s, a);
    HomesStay(s, a);
    NeverIntrudes(s, a);
    forall i | 0 <= i < |s'.tasks| ensures TaskHome(s', s'.tasks[i]) {
      if i == a.t { ActorHome(s, a); } else { BystanderHome(s, a, i); }
    }
    forall h | 0 <= h < |s'.strong| && s'.strong[h] != Dead ensures There(s', h) { SlotHome(s, a, h); }
  }

  /** A destructor that comes to the members while an operation on one of them is under way breaks the invariant. */
  lemma DisturbedBreaks(s: State, a: Action)
    requires HandlesInv(s) && CountsInv(s) && HomesInv(s) && Enabled(s, a) && a.Advance?
    requires s.tasks[a.t].Destruct? && !Undisturbed(s, s.tasks[a.t].obj)
    ensures !HomesInv(Apply(s, a))
  {
    hide Strays, Apply, Effects;
    var s', o := Apply(s, a), s.tasks[a.t].obj;
    HomesStay(s, a);
    DestructGoesOn(s, s.tasks[a.t], a.choice);
    TaskDestroys(s, a.t);
    ApplyLives(s, a, o);
    var i, h :| 0 <= i < |s.tasks| && 0 <= h < |s.homes| && HomeOf(s, h) == Some(o) && Uses(s.tasks[i], h);
    assert TaskHome(s, s.tasks[i]);
    NextOfDestruct(s, a, i, h);
    assert !TaskHome(s', s'.tasks[i]);
  }

  lemma NextOfDestruct(s: State, a: Action, i: nat, h: nat)
    requires Enabled(s, a) && a.Advance? && s.tasks[a.t].Destruct? && i < |s.tasks| && Uses(s.tasks[i], h)
    requires i < |Apply(s, a).tasks|
    ensures Uses(Apply(s, a).tasks[i], h)
    ensures Destroys(Apply(s, a).tasks[i]) && Apply(s, a).tasks[i].dst == h ==>
      Destroys(s.tasks[i]) && s.tasks[i].dst == h
  {
    hide Strays;
  }

  // ---------------------------------------------------------------------------------- No handle is gone

  lemma ThereIsMemory(s: State, h: nat)
    requires HandlesInv(s) && CountsInv(s) && There(s, h)
    ensures !Gone(s, h)
  {
    hide CountsAgree, TallyOf;
    if HomeOf(s, h).Some? {
      var o := HomeOf(s, h).value;
      assert ObjectInv(s, o);
      if s.blocks[o].destroyed == 0 {
        CountsAreCounted(s, o);
        DestroyedOnce(s.blocks[o], TallyOf(s, o));
      } else {
        var m :| 0 <= m < |s.tasks| && s.tasks[m].Members? && s.tasks[m].obj == o;
        TaskDestroys(s, m);
      }
    }
  }

  lemma CountsAreCounted(s: State, o: nat)
    ensures Counted(TallyOf(s, o))
  {}

  /** Every handle an action uses is there, and no assignment reads a destroyed source. */
  lemma NeverStrays(s: State, a: Action)
    requires HandlesInv(s) && CountsInv(s) && HomesInv(s) && Enabled(s, a) && !Again(a)
    ensures !Strays(s, a)
  {
    hide CountsInv, There, Open;
    NeverIntrudes(s, a);
    assert TaskInv(s, s.tasks[a.t]);
    forall h | h in Touched(s, a) ensures !Gone(s, h) {
      TouchesLiving(s, a, h);
      if FreeSlot(s.strong, h) { OpenIsThere(s, h); }
      ThereIsMemory(s, h);
    }
  }

  lemma TouchesLiving(s: State, a: Action, h: nat)
    requires Enabled(s, a) && Orderly(s, a) && TaskInv(s, s.tasks[a.t]) && h in Touched(s, a)
    ensures h < |s.strong| && (s.strong[h] == Dead ==> Open(s, h))
  {
    hide Open, Expires, TouchedBy;
    if a.Advance? { StepTouches(s, s.tasks[a.t], a.choice, h); }
  }

  lemma StepTouches(s: State, task: Task, choice: Choice, h: nat)
    requires task != Idle && Resolvable(s, task) && TaskInv(s, task) && h in TouchedBy(s, task, choice)
    ensures h < |s.strong| && s.strong[h] != Dead
  {}
}
