/** Inputs on which the protocol faults: constructors that throw, and handles that live in what they keep alive. */
module RefCountingFaults {
  import opened Common
  import opened RefCounting
  import opened RefCountingCounts
  import opened RefCountingHomes
  import opened RefCountingInvariant
  import opened RefCountingSafety

  // ---------------------------------------------------------------------------------- Constructors that throw

  /** What New does when a constructor that has published nothing throws something that is no std::exception: the
      destructor runs on an object that was never constructed. */
  lemma OtherThrowDestroys(s: State, t: nat, dst: nat, o: nat)
    requires t < |s.tasks| && s.tasks[t] == Construct(dst, o) && Returned(s, t)
    requires o < |s.blocks| && s.blocks[o] == FRESH && Emptied(s, o)
    ensures var s1 := Apply(s, Advance(t, OtherThrow));
            && CanAdvance(s1, t) && CanAdvance(Advanced(s1, t), t)
            && var b := Advanced(Advanced(s1, t), t).blocks[o];
               b.birth == ThrewOther && b.destroyed == 1 && b.freed == 0
  {
    hide Strays, Emptied;
    var s1 := Apply(s, Advance(t, OtherThrow));
    assert s1.tasks[t] == Release(dst, o, Destroy) && s1.blocks[o] == FRESH.(birth := ThrewOther);
    assert CanAdvance(s1, t);
    var s2 := Advanced(s1, t);
    assert s2.tasks[t] == Destruct(dst, o, Destroy) && s2.blocks[o].strong == 0 && s2.blocks[o].destroyed == 0;
  }

  /** The Deallocate after a std::exception releases the block whatever handles the constructor has published: as many
      references dangle as the counters exceed one. */
  lemma DanglingExactly(s: State, t: nat)
    requires Inv(s) && t < |s.tasks| && s.tasks[t].Abort? && Enabled(s, Advance(t, Plain))
    ensures var o, s' := s.tasks[t].obj, Apply(s, Advance(t, Plain));
            && o < |s.blocks| && |s'.blocks| == |s.blocks| && s'.blocks[o].freed == 1
            && TallyOf(s', o).strong == s.blocks[o].strong - 1 && TallyOf(s', o).weak == s.blocks[o].weak - 1
  {
    hide CountsAgree, TallyOf, Change, StepEffect, Backed, Strays;
    var task, e := s.tasks[t], Effects(s, Advance(t, Plain));
    assert TaskInv(s, task);
    assert ObjectInv(s, task.obj);
    AbortBacked(s, t);
    AbortFinds(s.blocks[task.obj], TallyOf(s, task.obj));
    StepChange(s, task, Plain);
    TallyAfter(s, t, e, Strays(s, Advance(t, Plain)), task.obj);
    AbortEffect(s, task, Plain);
  }

  /** A weak handle to a released block: its destruction touches freed memory. */
  lemma DanglingFaults(s: State, t: nat, h: nat, o: nat)
    requires t < |s.tasks| && s.tasks[t] == Idle && WeakMutable(s, h) && s.weak[h] == Live(Some(o))
    requires o < |s.blocks| && s.blocks[o].freed > 0
    ensures Enabled(s, WeakDestroy(t, h)) && CanAdvance(Apply(s, WeakDestroy(t, h)), t)
    ensures Advanced(Apply(s, WeakDestroy(t, h)), t).touchedFreed
  {}

  /** So does the destruction of a strong one. */
  lemma DanglingStrongFaults(s: State, t: nat, h: nat, o: nat)
    requires t < |s.tasks| && s.tasks[t] == Idle && Mutable(s, h) && Open(s, h)
    requires s.strong[h] == Live(Some(o)) && o < |s.blocks| && s.blocks[o].freed > 0
    ensures Enabled(s, Reset(t, h, Destroy)) && CanAdvance(Apply(s, Reset(t, h, Destroy)), t)
    ensures Advanced(Apply(s, Reset(t, h, Destroy)), t).touchedFreed
  {}

  /** A run so far, ending in a given state, and one step more. */
  ghost predicate Reaches(run: seq<State>, s: State) { IsRun(run) && run[|run| - 1] == s }

  lemma OneMore(run: seq<State>, s: State, a: Action) returns (more: seq<State>, r: State)
    requires Reaches(run, s) && Enabled(s, a)
    ensures Reaches(more, r) && r == Apply(s, a)
  {
    hide Apply, Enabled;
    r := Apply(s, a);
    more := run + [r];
    assert Next(s, r);
    forall i | 0 <= i < |more| - 1 ensures Next(more[i], more[i + 1]) {
      if i < |run| - 1 { assert Next(run[i], run[i + 1]); }
    }
  }

  /** A constructor that makes a weak handle of `this` and then throws a std::exception: the handle outlives the
      memory, and its destruction touches it. */
  lemma PublishedThenThrown() returns (run: seq<State>, s: State)
    ensures Reaches(run, s) && s.touchedFreed
  {
    run, s := PublishedWeak();
    hide Reaches;
    run, s := OneMore(run, s, Advance(0, StdThrow));
    run, s := OneMore(run, s, Advance(0, Plain));
    run, s := OneMore(run, s, WeakDestroy(1, 0));
    run, s := OneMore(run, s, Advance(1, Plain));
  }

  lemma PublishedWeak() returns (run: seq<State>, s: State)
    ensures Reaches(run, s) && |s.blocks| == 1 && s.blocks[0] == FRESH.(weak := 2) && s.homes == [None]
    ensures s.strong == [Held] && s.weak == [Live(Some(0))] && s.tasks == [Construct(0, 0), Idle]
  {
    run, s := PublishingWeak();
    hide Reaches;
    run, s := OneMore(run, s, Advance(1, Plain));
  }

  lemma PublishingWeak() returns (run: seq<State>, s: State)
    ensures Reaches(run, s) && s.blocks == [FRESH] && s.homes == [None] && s.strong == [Held] && s.weak == [Held]
    ensures s.tasks == [Construct(0, 0), WeakAdd(0, WeakFromThis(0), 0)]
  {
    run, s := Constructing([None], [Dead]);
    hide Reaches;
    run, s := OneMore(run, s, MakeWeak(1, 0, WeakFromThis(0)));
  }

  /** An object under construction for the first handle; the others are still to be constructed. */
  lemma Constructing(homes: seq<Option<nat>>, weak: seq<Slot>) returns (run: seq<State>, s: State)
    requires |homes| >= 1 && homes[0] == None && forall h :: 0 <= h < |weak| ==> weak[h] == Dead
    ensures Reaches(run, s) && s.blocks == [FRESH] && s.homes == homes && s.weak == weak
    ensures |s.strong| == |homes| && s.strong[0] == Held && forall h :: 0 < h < |homes| ==> s.strong[h] == Dead
    ensures s.tasks == [Construct(0, 0), Idle] && !s.trapped && !s.touchedFreed
  {
    s := State([], homes, seq(|homes|, i => Dead), weak, [Idle, Idle], false, false);
    run := [s];
    assert Reaches(run, s);
    hide Reaches;
    run, s := OneMore(run, s, New(0, 0));
  }

  // ---------------------------------------------------------------------------------- Members of what they keep alive

  /** Inside a reset or assignment of a handle, its pointer stands as it was. A destructor that destroys the handle now
      gives up the reference a second time, and the count is found below one. */
  lemma DestroyedTwice(s: State, t: nat, h: nat, o: nat)
    requires t < |s.tasks| && s.tasks[t] == Idle && Expires(s, h) && Standing(s, h) == Some(o)
    requires o < |s.blocks| && s.blocks[o].strong < 1
    ensures Enabled(s, DestroyMember(t, h)) && CanAdvance(Apply(s, DestroyMember(t, h)), t)
    ensures Advanced(Apply(s, DestroyMember(t, h)), t).trapped
  {
    hide Strays, Expires, Standing;
    var s1 := Apply(s, DestroyMember(t, h));
    assert s1.tasks[t] == Release(h, o, Expire) && s1.blocks == s.blocks;
  }

  /** An assignment that comes to read a source that has been destroyed meanwhile. */
  lemma SourceGone(s: State, t: nat, dst: nat, after: After, from: nat)
    requires t < |s.tasks| && s.tasks[t] == Clear(dst, after) && FreeSlot(s.strong, from)
    requires after == AssignCopy(from) || (after.AssignMove? && after.donor == from)
    ensures CanAdvance(s, t) && Advanced(s, t).touchedFreed
  {
    hide Touched;
    assert ReadsDestroyed(s, Advance(t, Plain));
  }

  /** An operation that comes to clear a handle whose memory has been released meanwhile. */
  lemma HomeGone(s: State, t: nat, dst: nat, after: After)
    requires t < |s.tasks| && s.tasks[t] == Clear(dst, after) && Gone(s, dst)
    ensures CanAdvance(s, t) && Advanced(s, t).touchedFreed
  {
    hide Gone;
    assert dst in Touched(s, Advance(t, Plain));
  }

  /** A strong handle that the first step of an operation is about: the one it constructs, changes or destroys, or the
      one it reads; an assignment reads its source later. */
  predicate IsAbout(a: Action, h: nat) {
    || ((a.Default? || a.New? || a.Copy? || a.Adopt? || a.Move? || a.Reset? || a.MoveAssign? || a.DestroyMember?
         || a.Lock? || Again(a)) && a.dst == h)
    || ((a.Copy? || a.Move? || a.CopyAgain? || a.MoveAgain?) && a.src == h)
    || (a.MakeWeak? && a.source == FromStrong(h))
  }

  /** An operation that begins on a handle whose memory has been released uses released memory. */
  lemma ReleasedHandleFaults(s: State, a: Action, h: nat)
    requires Enabled(s, a) && IsAbout(a, h) && Gone(s, h)
    ensures Apply(s, a).touchedFreed
  {
    hide Gone, CanBegin;
    assert h in Touched(s, a);
  }

  const ALIVE := FRESH.(birth := Built)

  /** One object, kept alive by a handle outside; the second handle is a member of it, or is not. */
  lemma OneObject(home: Option<nat>) returns (run: seq<State>, s: State)
    ensures Reaches(run, s) && s.blocks == [ALIVE] && s.homes == [None, home] && s.weak == []
    ensures s.strong == [Live(Some(0)), Dead] && s.tasks == [Idle, Idle]
  {
    run, s := Constructing([None, home], []);
    hide Reaches;
    run, s := OneMore(run, s, Advance(0, Plain));
    assert s.strong == [Live(Some(0)), Dead];
  }

  /** A member handle takes a reference to its own object. */
  lemma OwnReference() returns (run: seq<State>, s: State)
    ensures Reaches(run, s) && s.blocks == [ALIVE.(strong := 2)] && s.homes == [None, Some(0)] && s.weak == []
    ensures s.strong == [Live(Some(0)), Live(Some(0))] && s.tasks == [Idle, Idle]
  {
    run, s := OneObject(Some(0));
    hide Reaches;
    run, s := OneMore(run, s, Copy(0, 1, 0));
    assert s.tasks == [RefAdd(1, FromHandle(0), 0), Idle] && s.strong == [Live(Some(0)), Held];
    run, s := OneMore(run, s, Advance(0, Plain));
    assert s.tasks == [RefCheck(1, 0), Idle] && s.blocks == [ALIVE.(strong := 2)];
    run, s := OneMore(run, s, Advance(0, Plain));
  }

  /** The handle outside is destroyed: the member alone keeps its object alive. */
  lemma OnlyOwnReference() returns (run: seq<State>, s: State)
    ensures Reaches(run, s) && s.blocks == [ALIVE] && s.homes == [None, Some(0)] && s.weak == []
    ensures s.strong == [Dead, Live(Some(0))] && s.tasks == [Idle, Idle]
  {
    run, s := OwnReference();
    hide Reaches;
    run, s := OneMore(run, s, Reset(0, 0, Destroy));
    assert s.tasks == [Release(0, 0, Destroy), Idle] && s.strong == [Held, Live(Some(0))];
    run, s := OneMore(run, s, Advance(0, Plain));
    assert s.tasks == [Clear(0, Destroy), Idle] && s.blocks == [ALIVE];
    run, s := OneMore(run, s, Advance(0, Plain));
  }

  /** Input: self_.reset() where the member self_ is the last reference to its own object. No constructor throws; the
      destructor destroys self_ while its reset is under way, and the second Unref finds the count at zero. */
  lemma SelfReset() returns (run: seq<State>, s: State)
    ensures Reaches(run, s) && s.trapped
  {
    run, s := OnlyOwnReference();
    hide Reaches;
    run, s := OneMore(run, s, Reset(0, 1, KeepEmpty));
    assert s.tasks == [Release(1, 0, KeepEmpty), Idle] && s.strong == [Dead, Held];
    run, s := OneMore(run, s, Advance(0, Plain));
    assert s.tasks == [Destruct(1, 0, KeepEmpty), Idle] && s.blocks == [ALIVE.(strong := 0)];
    run, s := OneMore(run, s, Advance(0, Plain));
    assert s.tasks == [Members(1, 0, KeepEmpty), Idle];
    MemberStands(s);
    DestroyedTwice(s, 1, 1, 0);
    hide Expires, Standing;
    run, s := OneMore(run, s, DestroyMember(1, 1));
    run, s := OneMore(run, s, Advance(1, Plain));
  }

  lemma MemberStands(s: State)
    requires s.tasks == [Members(1, 0, KeepEmpty), Idle] && s.homes == [None, Some(0)] && s.strong == [Dead, Held]
    ensures Expires(s, 1) && Standing(s, 1) == Some(0)
  {
    assert Keeps(s.tasks[0], 1);
  }

  // ---------------------------------------------------------------------------------- Used by its own destructor

  lemma OuterIsDying(s: State, h: nat)
    requires Inv(s) && Called(s, h)
    ensures var o := OuterObj(s.tasks, h); o < |s.blocks| && s.blocks[o].strong == 0
  {
    hide Inv;
    var i := OuterTask(s.tasks, h);
    DestroyedHasNoCount(s, i);
  }

  lemma {:induction false} OuterTask(tasks: seq<Task>, h: nat) returns (i: nat)
    requires exists i :: 0 <= i < |tasks| && Inside(tasks[i]) && tasks[i].dst == h
    ensures i < |tasks| && Inside(tasks[i]) && tasks[i].dst == h && tasks[i].obj == OuterObj(tasks, h)
  {
    i := 0;
    if !(Inside(tasks[0]) && tasks[0].dst == h) {
      i :| 0 <= i < |tasks| && Inside(tasks[i]) && tasks[i].dst == h;
      assert tasks[1..][i - 1] == tasks[i];
      i := OuterTask(tasks[1..], h);
      i := i + 1;
    }
  }

  lemma DyingHasNoCount(b: Block, t: Tally)
    requires CountsAgree(b, t) && Counted(t) && (t.destructing >= 1 || t.unrefing >= 1)
    ensures b.strong == 0
  {}

  /** A destructor that makes a handle of `this` finds the count at zero: the VERIFY of Ref fires. */
  lemma AdoptedAgain(s: State, a: Action)
    requires Inv(s) && Enabled(s, a) && a.AdoptAgain?
    ensures CanAdvance(Apply(s, a), a.t) && Advanced(Apply(s, a), a.t).trapped
  {
    hide Inv, Strays, Open;
    DestroyedHasNoCount(s, a.dying);
    var s1, o := Apply(s, a), s.tasks[a.dying].obj;
    assert s1.tasks[a.t] == RefAdd(a.dst, FromThis(a.dying), o) && s1.blocks == s.blocks;
  }

  lemma DestroyedHasNoCount(s: State, i: nat)
    requires Inv(s) && Destroying(s, i)
    ensures var o := s.tasks[i].obj; o < |s.blocks| && s.blocks[o].strong == 0
  {
    hide CountsAgree, TallyOf;
    var o := s.tasks[i].obj;
    assert TaskInv(s, s.tasks[i]);
    assert ObjectInv(s, o);
    TasksAreBacked(s, i, o);
    DyingHasNoCount(s.blocks[o], TallyOf(s, o));
  }

  /** A destructor that resets or assigns, or that copies, the handle whose own reset or assignment has called it finds
      the count at zero: the VERIFY of Unref or of Ref fires. */
  lemma UsedAgain(s: State, a: Action)
    requires Inv(s) && Enabled(s, a) && (a.ResetAgain? || a.CopyAgain?)
    ensures CanAdvance(Apply(s, a), a.t) && Advanced(Apply(s, a), a.t).trapped
  {
    hide Inv, Strays, Open, OuterObj;
    var h := AgainOn(a);
    var o := OuterObj(s.tasks, h);
    OuterIsDying(s, h);
    var s1 := Apply(s, a);
    assert s1.tasks[a.t] == if a.ResetAgain? then Release(h, o, a.after) else RefAdd(a.dst, FromHandle(h), o);
    assert s1.blocks == s.blocks;
  }

  /** One that moves from it takes over a reference that is not counted any more. */
  lemma MovedAgain(s: State, a: Action)
    requires Inv(s) && Enabled(s, a) && a.MoveAgain?
    ensures var s', o := Apply(s, a), OuterObj(s.tasks, a.src);
            && a.dst < |s'.strong| && s'.strong[a.dst] == Live(Some(o))
            && o < |s'.blocks| && s'.blocks[o].strong == 0
  {
    hide Inv, Strays, Open, OuterObj;
    OuterIsDying(s, a.src);
  }

  /** The last reference to an object is being reset, and its destructor runs. */
  lemma InItsDestructor() returns (run: seq<State>, s: State)
    ensures Reaches(run, s) && s.blocks == [ALIVE.(strong := 0)] && s.homes == [None, None] && s.weak == []
    ensures s.strong == [Held, Dead] && s.tasks == [Destruct(0, 0, KeepEmpty), Idle]
  {
    run, s := OneObject(None);
    hide Reaches;
    run, s := OneMore(run, s, Reset(0, 0, KeepEmpty));
    assert s.tasks == [Release(0, 0, KeepEmpty), Idle] && s.strong == [Held, Dead];
    run, s := OneMore(run, s, Advance(0, Plain));
  }

  /** Input: g.reset() with g the last reference to an object whose destructor copies g. */
  lemma CopiedByItsDestructor() returns (run: seq<State>, s: State)
    ensures Reaches(run, s) && s.trapped
  {
    run, s := InItsDestructor();
    hide Reaches;
    assert Inside(s.tasks[0]);
    assert OuterObj(s.tasks, 0) == 0;
    run, s := OneMore(run, s, CopyAgain(1, 1, 0));
    assert s.tasks[1] == RefAdd(1, FromHandle(0), 0) && s.blocks == [ALIVE.(strong := 0)];
    run, s := OneMore(run, s, Advance(1, Plain));
  }

  // ---------------------------------------------------------------------------------- p = p->next

  /** A list of one node: p points to it, and its member next is empty. */
  lemma OneNode() returns (run: seq<State>, s: State)
    ensures Reaches(run, s) && s.blocks == [ALIVE] && s.homes == [None, Some(0)] && s.weak == []
    ensures s.strong == [Live(Some(0)), Live(None)] && s.tasks == [Idle, Idle]
  {
    run, s := OneObject(Some(0));
    hide Reaches;
    run, s := OneMore(run, s, Default(0, 1));
  }

  /** The two assignments, the copying and the moving one. */
  predicate IsNext(after: After) { after == AssignCopy(1) || after == AssignMove(1, None) }

  /** The assignment has reached the Unref of the node. */
  lemma Assigning(after: After) returns (run: seq<State>, s: State)
    requires IsNext(after)
    ensures Reaches(run, s) && s.blocks == [ALIVE] && s.homes == [None, Some(0)] && s.weak == []
    ensures s.strong == [Held, if after.AssignCopy? then Live(None) else Held]
    ensures s.tasks == [Release(0, 0, after), Idle]
  {
    run, s := OneNode();
    hide Reaches;
    if after.AssignCopy? {
      run, s := OneMore(run, s, Reset(0, 0, after));
    } else {
      run, s := OneMore(run, s, MoveAssign(0, 0, 1));
    }
  }

  /** It has given up the node, whose destructor comes to next. */
  lemma NodeDestroyed(after: After) returns (run: seq<State>, s: State)
    requires IsNext(after)
    ensures Reaches(run, s) && s.blocks == [ALIVE.(strong := 0, destroyed := 1)] && s.homes == [None, Some(0)]
    ensures s.strong == [Held, if after.AssignCopy? then Live(None) else Held] && s.weak == []
    ensures s.tasks == [Members(0, 0, after), Idle]
  {
    run, s := Assigning(after);
    hide Reaches;
    run, s := OneMore(run, s, Advance(0, Plain));
    assert s.tasks == [Destruct(0, 0, after), Idle] && s.blocks == [ALIVE.(strong := 0)];
    run, s := OneMore(run, s, Advance(0, Plain));
  }

  /** The destructor destroys next, and goes on. */
  lemma NextDestroyed(after: After) returns (run: seq<State>, s: State)
    requires IsNext(after)
    ensures Reaches(run, s) && s.blocks == [ALIVE.(strong := 0, destroyed := 1)] && s.homes == [None, Some(0)]
    ensures s.strong == [Held, Dead] && s.weak == [] && s.tasks == [SelfUnref(0, 0, after), Idle]
  {
    run, s := NodeDestroyed(after);
    hide Reaches;
    NextStands(s, after);
    run, s := OneMore(run, s, DestroyMember(1, 1));
    assert s.tasks == [Members(0, 0, after), Clear(1, Expire)] && s.strong == [Held, Held];
    run, s := OneMore(run, s, Advance(1, Plain));
    assert s.tasks == [Members(0, 0, after), Idle] && s.strong == [Held, Dead];
    run, s := OneMore(run, s, Advance(0, Plain));
  }

  lemma NextStands(s: State, after: After)
    requires IsNext(after) && s.tasks == [Members(0, 0, after), Idle] && s.homes == [None, Some(0)]
    requires s.strong == [Held, if after.AssignCopy? then Live(None) else Held]
    ensures Expires(s, 1) && Standing(s, 1) == None
  {
    assert Expiring(s, 0) by { assert s.tasks[0].Members?; }
    assert after.AssignMove? ==> Keeps(s.tasks[0], 1);
  }

  /** Input: p = p->next, and p = std::move(p->next), where p is the last reference to the node. No constructor throws;
      the assignment reads next after the node has been destroyed and released. */
  lemma AssignFromMember(after: After) returns (run: seq<State>, s: State)
    requires IsNext(after)
    ensures Reaches(run, s) && s.touchedFreed
  {
    run, s := NextDestroyed(after);
    hide Reaches;
    run, s := OneMore(run, s, Advance(0, Plain));
    assert s.tasks == [SelfFree(0, 0, after), Idle] && s.strong == [Held, Dead];
    run, s := OneMore(run, s, Advance(0, Plain));
    assert s.tasks == [Clear(0, after), Idle] && s.strong == [Held, Dead];
    SourceGone(s, 0, 0, after, 1);
    run, s := OneMore(run, s, Advance(0, Plain));
  }
}
