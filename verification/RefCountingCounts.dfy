/** Handles and counters of the reference counting protocol: who may rely on what, and what the counters count. */
module RefCountingCounts {
  import opened Common
  import opened RefCounting

  // ---------------------------------------------------------------------------------- Counting

  /** What an activity in flight holds on an object. */
  datatype Kind = StrongUnit | WeakUnit | Constructing | Aborting | Destructing | SelfUnrefing | Freeing

  function GiftWeight(after: After, o: nat): nat {
    if after.AssignMove? && after.gift == Some(o) then 1 else 0
  }

  /** One unit per strong reference that is counted but not (or no longer) stored in a handle. */
  function StrongWeight(task: Task, o: nat): nat {
    match task
    case RefCheck(_, x) => if x == o then 1 else 0
    case LockWrap(_, x) => if x == o then 1 else 0
    case Release(_, x, after) => (if x == o then 1 else 0) + GiftWeight(after, o)
    case Destruct(_, _, after) => GiftWeight(after, o)
    case Members(_, _, after) => GiftWeight(after, o)
    case SelfUnref(_, _, after) => GiftWeight(after, o)
    case SelfFree(_, _, after) => GiftWeight(after, o)
    case Clear(_, after) => GiftWeight(after, o)
    case _ => 0
  }

  function Weight(task: Task, kind: Kind, o: nat): nat {
    match kind
    case StrongUnit => StrongWeight(task, o)
    case WeakUnit => if task.WeakRelease? && task.obj == o then 1 else 0
    case Constructing => if task.Construct? && task.obj == o then 1 else 0
    case Aborting => if task.Abort? && task.obj == o then 1 else 0
    case Destructing => if task.Destruct? && task.obj == o then 1 else 0
    case SelfUnrefing => if (task.Members? || task.SelfUnref?) && task.obj == o then 1 else 0
    case Freeing => if (task.SelfFree? || task.WeakFree?) && task.obj == o then 1 else 0
  }

  function Count(tasks: seq<Task>, kind: Kind, o: nat): nat {
    if tasks == [] then 0 else Weight(tasks[0], kind, o) + Count(tasks[1..], kind, o)
  }

  function PtrWeight(slot: Slot, o: nat): nat { if slot == Live(Some(o)) then 1 else 0 }

  /** How many handles point to object o. */
  function Pointers(slots: seq<Slot>, o: nat): nat {
    if slots == [] then 0 else PtrWeight(slots[0], o) + Pointers(slots[1..], o)
  }

  lemma {:induction false} CountUpdate(tasks: seq<Task>, t: nat, task: Task, kind: Kind, o: nat)
    requires t < |tasks|
    ensures Count(tasks[t := task], kind, o) == Count(tasks, kind, o) - Weight(tasks[t], kind, o) +
      Weight(task, kind, o)
  {
    if t > 0 {
      assert tasks[t := task][1..] == tasks[1..][t - 1 := task];
      CountUpdate(tasks[1..], t - 1, task, kind, o);
    } else {
      assert tasks[t := task][1..] == tasks[1..];
    }
  }

  lemma {:induction false} PointersUpdate(slots: seq<Slot>, h: nat, slot: Slot, o: nat)
    requires h < |slots|
    ensures Pointers(slots[h := slot], o) == Pointers(slots, o) - PtrWeight(slots[h], o) + PtrWeight(slot, o)
  {
    if h > 0 {
      assert slots[h := slot][1..] == slots[1..][h - 1 := slot];
      PointersUpdate(slots[1..], h - 1, slot, o);
    } else {
      assert slots[h := slot][1..] == slots[1..];
    }
  }

  /** An activity or a handle is counted at least with its own weight. */
  lemma {:induction false} CountAtLeast(tasks: seq<Task>, t: nat, kind: Kind, o: nat)
    requires t < |tasks|
    ensures Count(tasks, kind, o) >= Weight(tasks[t], kind, o)
  {
    if t > 0 { CountAtLeast(tasks[1..], t - 1, kind, o); }
  }

  lemma {:induction false} PointersAtLeast(slots: seq<Slot>, h: nat, o: nat)
    requires h < |slots|
    ensures Pointers(slots, o) >= PtrWeight(slots[h], o)
  {
    if h > 0 { PointersAtLeast(slots[1..], h - 1, o); }
  }

  lemma {:induction false} NoPointers(slots: seq<Slot>, o: nat)
    requires forall h :: 0 <= h < |slots| ==> slots[h] != Live(Some(o))
    ensures Pointers(slots, o) == 0
  {
    if slots != [] { NoPointers(slots[1..], o); }
  }

  lemma {:induction false} NoTasks(tasks: seq<Task>, kind: Kind, o: nat)
    requires forall t :: 0 <= t < |tasks| ==> Weight(tasks[t], kind, o) == 0
    ensures Count(tasks, kind, o) == 0
  {
    if tasks != [] { NoTasks(tasks[1..], kind, o); }
  }

  // ---------------------------------------------------------------------------------- Invariant

  /** How often an object is referred to: strong and weak references (handles, and units held by
      activities), and the activities that are about to construct, destroy or free it. */
  datatype Tally = Tally(strong: int, weak: int, building: int, aborting: int, destructing: int, unrefing: int,
    freeing: int) {
    function Plus(d: Tally): Tally {
      Tally(strong + d.strong, weak + d.weak, building + d.building, aborting + d.aborting,
            destructing + d.destructing, unrefing + d.unrefing, freeing + d.freeing)
    }
  }

  function TallyOf(s: State, o: nat): Tally {
    Tally(Pointers(s.strong, o) + Count(s.tasks, StrongUnit, o),
          Pointers(s.weak, o) + Count(s.tasks, WeakUnit, o),
          Count(s.tasks, Constructing, o), Count(s.tasks, Aborting, o), Count(s.tasks, Destructing, o),
            Count(s.tasks, SelfUnrefing, o), Count(s.tasks, Freeing, o))
  }

  function Bit(b: bool): nat { if b then 1 else 0 }

  /** The counters and the history of one object, tied to what refers to it. A constructor has a reference of
      its own until it ends, and after a std::exception until New has released the block. */
  predicate CountsAgree(b: Block, t: Tally) {
    if b.birth == ThrewStd && b.freed > 0 then
      t == Tally(0, 0, 0, 0, 0, 0, 0) && b.destroyed == 0 && b.freed == 1
    else
      && b.strong == t.strong + t.building + t.aborting
      && b.weak == t.weak + Bit(b.selfRef)
      && t.building == Bit(b.birth == Unborn) && t.aborting == Bit(b.birth == ThrewStd)
      && Bit(b.strong > 0) + t.destructing + t.unrefing == Bit(b.selfRef)
      && b.destroyed == Bit(b.strong == 0 && t.destructing == 0)
      && t.freeing + b.freed == Bit(t.weak == 0 && !b.selfRef)
  }

  predicate ObjectInv(s: State, o: nat)
    requires o < |s.blocks|
  {
    CountsAgree(s.blocks[o], TallyOf(s, o))
  }

  predicate HeldAt(slots: seq<Slot>, h: nat) { h < |slots| && slots[h] == Held }

  predicate HoldsWeak(task: Task, h: nat) {
    (task.WeakAdd? || task.WeakRelease? || task.WeakFree?) && task.dst == h
  }

  predicate AfterOk(s: State, dst: nat, after: After) {
    match after
    case AssignCopy(from) => HasStrong(s, from)
    case AssignMove(donor, gift) => donor != dst && HeldAt(s.strong, donor) && PtrOk(s, gift)
    case _ => true
  }

  predicate PtrOk(s: State, ptr: Option<nat>) { ptr.Some? ==> ptr.value < |s.blocks| }

  /** What an activity may rely on: its handles are held, the handles it reads are still there. */
  predicate TaskInv(s: State, task: Task) {
    && (task.Idle? || task.WeakAdd? || task.WeakRelease? || task.WeakFree? || HeldAt(s.strong, task.dst))
    && (task.WeakAdd? || task.WeakRelease? || task.WeakFree? ==> HeldAt(s.weak, task.dst))
    && (!task.Idle? && !task.Clear? ==> task.obj < |s.blocks|)
    && match task
       case RefAdd(_, FromHandle(src), o) => src < |s.strong| && s.strong[src] == Live(Some(o))
       case RefAdd(_, FromThis(b), o) => Building(s, b) && s.tasks[b].obj == o
       case Release(dst, _, after) => AfterOk(s, dst, after)
       case Destruct(dst, _, after) => AfterOk(s, dst, after)
       case Members(dst, _, after) => AfterOk(s, dst, after)
       case SelfUnref(dst, _, after) => AfterOk(s, dst, after)
       case SelfFree(dst, _, after) => AfterOk(s, dst, after)
       case Clear(dst, after) => AfterOk(s, dst, after)
       case WeakAdd(_, FromStrong(src), o) => src < |s.strong| && s.strong[src] == Live(Some(o))
       case WeakAdd(_, FromWeak(src), o) => src < |s.weak| && s.weak[src] == Live(Some(o))
       case WeakAdd(_, WeakFromThis(b), o) => Running(s, b) && s.tasks[b].obj == o
       case LockLoad(_, src, o) => src < |s.weak| && s.weak[src] == Live(Some(o))
       case LockCheck(_, src, o, value) => src < |s.weak| && s.weak[src] == Live(Some(o))
       case LockCas(_, src, o, value) => src < |s.weak| && s.weak[src] == Live(Some(o)) && value != 0
       case _ => true
  }

  predicate SlotsOk(slots: seq<Slot>, bound: nat) {
    forall h :: 0 <= h < |slots| && slots[h].Live? && slots[h].ptr.Some? ==> slots[h].ptr.value < bound
  }

  ghost predicate HandlesInv(s: State) {
    && SlotsOk(s.strong, |s.blocks|)
    && SlotsOk(s.weak, |s.blocks|)
    && (forall i :: 0 <= i < |s.tasks| ==> TaskInv(s, s.tasks[i]))
    && Exclusive(s.tasks)
  }

  ghost predicate Exclusive(tasks: seq<Task>) {
    && (forall i, j, h :: 0 <= i < |tasks| && 0 <= j < |tasks| && i != j && Holds(tasks[i], h) ==> !Holds(tasks[j], h))
    && (forall i, j, h :: 0 <= i < |tasks| && 0 <= j < |tasks| && i != j && HoldsWeak(tasks[i], h) ==>
      !HoldsWeak(tasks[j], h))
  }

  ghost predicate CountsInv(s: State) {
    forall o :: 0 <= o < |s.blocks| ==> ObjectInv(s, o)
  }

  lemma InitHandles(s: State)
    requires Init(s)
    ensures HandlesInv(s) && CountsInv(s)
  {
    forall i | 0 <= i < |s.tasks| ensures TaskInv(s, s.tasks[i]) { assert s.tasks[i] == Idle; }
  }

  // ---------------------------------------------------------------------------------- Handles

  /** A step may write a strong handle only if it was free, or unread, or already held by the actor. */
  predicate MayWrite(s: State, task: Task, h: nat) {
    FreeSlot(s.strong, h) || Mutable(s, h) || Holds(task, h)
  }

  predicate MayWriteWeak(s: State, task: Task, h: nat) {
    FreeSlot(s.weak, h) || WeakMutable(s, h) || HoldsWeak(task, h)
  }

  /** A destructor uses a handle whose own reset or assignment has called it, or makes one of `this`. */
  predicate Again(a: Action) { a.ResetAgain? || a.CopyAgain? || a.MoveAgain? || a.AdoptAgain? }

  /** Nor does a destructor destroy a member that another operation is in the middle of. */
  predicate Orderly(s: State, a: Action) { !Again(a) && (a.DestroyMember? ==> Mutable(s, a.dst)) }

  predicate Writes(w: Option<Write>, h: nat) { w.Some? && w.value.at == h }

  /** Whatever a step writes or comes to hold, it had a right to. */
  lemma StrongFootprint(s: State, a: Action, h: nat)
    requires Orderly(s, a)
    requires Enabled(s, a)
    ensures var e := Effects(s, a);
            Writes(e.strong, h) || Writes(e.strong2, h) || Holds(e.task, h) ==> MayWrite(s, s.tasks[a.t], h)
  {
    hide CanBegin, MayWrite, Holds;
    if a.Advance? { StepFootprint(s, s.tasks[a.t], a.choice, h); } else { BeginFootprint(s, a, h); }
  }

  lemma BeginFootprint(s: State, a: Action, h: nat)
    requires Orderly(s, a) && !a.Advance? && a.t < |s.tasks| && CanBegin(s, a)
    ensures var e := BeginEffect(s, a);
            Writes(e.strong, h) || Writes(e.strong2, h) || Holds(e.task, h) ==> MayWrite(s, s.tasks[a.t], h)
  {
    hide Mutable;
  }

  lemma StepFootprint(s: State, task: Task, choice: Choice, h: nat)
    requires task != Idle && Resolvable(s, task)
    ensures var e := StepEffect(s, task, choice);
            Writes(e.strong, h) || Writes(e.strong2, h) || Holds(e.task, h) ==> MayWrite(s, task, h)
  {}

  lemma WeakFootprint(s: State, a: Action, h: nat)
    requires Enabled(s, a)
    ensures var e := Effects(s, a);
            Writes(e.weak, h) || Writes(e.weak2, h) || HoldsWeak(e.task, h) ==> MayWriteWeak(s, s.tasks[a.t], h)
  {
    hide WeakMutable, Mutable, Open, Standing, Expires, Returned, Unwound;
  }

  /** Everything an activity relies on is unchanged between s and s'. */
  ghost predicate Untouched(s: State, s': State, task: Task) {
    && |s'.blocks| >= |s.blocks| && |s'.strong| == |s.strong| && |s'.weak| == |s.weak|
    && (forall h :: 0 <= h < |s.strong| && (Holds(task, h) || BorrowsStrong(task, h)) ==> s'.strong[h] == s.strong[h])
    && (forall h :: 0 <= h < |s.weak| && (HoldsWeak(task, h) || BorrowsWeak(task, h)) ==> s'.weak[h] == s.weak[h])
    && |s'.tasks| == |s.tasks| && forall b :: 0 <= b < |s.tasks| && BorrowsThis(task, b) ==> s'.tasks[b] == s.tasks[b]
  }

  lemma UntouchedKeeps(s: State, s': State, task: Task)
    requires TaskInv(s, task) && Untouched(s, s', task)
    ensures TaskInv(s', task)
  {}

  /** A held handle is Held, a handle being read is Live. */
  lemma HoldsHeld(s: State, task: Task, h: nat)
    requires TaskInv(s, task)
    ensures Holds(task, h) ==> HeldAt(s.strong, h)
    ensures HoldsWeak(task, h) ==> HeldAt(s.weak, h)
    ensures BorrowsStrong(task, h) ==> HasStrong(s, h)
    ensures BorrowsWeak(task, h) ==> HasWeak(s, h)
  {}

  /** What one activity may write, another neither holds nor reads. */
  lemma NoInterference(s: State, t: nat, i: nat, h: nat)
    requires HandlesInv(s) && t < |s.tasks| && i < |s.tasks| && t != i
    ensures MayWrite(s, s.tasks[t], h) ==> !Holds(s.tasks[i], h) && !BorrowsStrong(s.tasks[i], h)
    ensures MayWriteWeak(s, s.tasks[t], h) ==> !HoldsWeak(s.tasks[i], h) && !BorrowsWeak(s.tasks[i], h)
  {
    HoldsHeld(s, s.tasks[i], h);
    HoldsHeld(s, s.tasks[t], h);
  }

  /** An activity whose `this` another works with is not the one that goes on. */
  lemma RunnerWaits(s: State, a: Action, i: nat, b: nat)
    requires Enabled(s, a) && i < |s.tasks| && TaskInv(s, s.tasks[i]) && BorrowsThis(s.tasks[i], b)
    ensures b != a.t
  {
    hide CanBegin, Unwound;
  }

  lemma BystanderKept(s: State, a: Action, i: nat)
    requires Orderly(s, a)
    requires HandlesInv(s) && Enabled(s, a) && i < |s.tasks| && i != a.t
    ensures TaskInv(Apply(s, a), s.tasks[i])
  {
    hide Effects, Strays, MayWrite, MayWriteWeak, CanBegin;
    var s', task, e := Apply(s, a), s.tasks[i], Effects(s, a);
    forall h | 0 <= h < |s.strong| && (Holds(task, h) || BorrowsStrong(task, h)) ensures s'.strong[h] == s.strong[h] {
      StrongFootprint(s, a, h);
      NoInterference(s, a.t, i, h);
    }
    forall h | 0 <= h < |s.weak| && (HoldsWeak(task, h) || BorrowsWeak(task, h)) ensures s'.weak[h] == s.weak[h] {
      WeakFootprint(s, a, h);
      NoInterference(s, a.t, i, h);
    }
    assert s'.tasks == s.tasks[a.t := e.task];
    forall b | 0 <= b < |s.tasks| && BorrowsThis(task, b) ensures s'.tasks[b] == s.tasks[b] { RunnerWaits(s, a, i, b); }
    UntouchedKeeps(s, s', task);
  }

  /** The activity that takes the step can rely on its new program counter. */
  lemma ActorKept(s: State, a: Action)
    requires Orderly(s, a)
    requires HandlesInv(s) && Enabled(s, a)
    ensures TaskInv(Apply(s, a), Effects(s, a).task)
  {
    assert TaskInv(s, s.tasks[a.t]);
    if !a.Advance? {
      BeginnerKept(s, a, Apply(s, a));
    } else if s.tasks[a.t].Clear? {
      ClearerKept(s, a, Apply(s, a));
    } else {
      StepperKept(s, s.tasks[a.t], a.choice, Apply(s, a));
    }
  }

  lemma BeginnerKept(s: State, a: Action, s': State)
    requires Orderly(s, a)
    requires HandlesInv(s) && !a.Advance? && Enabled(s, a) && s'.tasks == s.tasks[a.t := BeginEffect(s, a).task]
    requires s'.strong == Put(Put(s.strong, BeginEffect(s, a).strong), BeginEffect(s, a).strong2)
    requires s'.weak == Put(Put(s.weak, BeginEffect(s, a).weak), BeginEffect(s, a).weak2)
    requires |s'.blocks| == |s.blocks| + Bit(a.New?)
    ensures TaskInv(s', BeginEffect(s, a).task)
  {
    hide BeginEffect, TaskInv, Exclusive, SlotsOk, CanBegin, Put, Mutable;
    if OnWeak(a) { WeakBeginnerKept(s, a, s'); } else { StrongBeginnerKept(s, a, s'); }
  }

  predicate OnWeak(a: Action) { a.WeakDefault? || a.MakeWeak? || a.WeakMove? || a.WeakDestroy? || a.Lock? }

  lemma StrongBeginnerKept(s: State, a: Action, s': State)
    requires Orderly(s, a) && !OnWeak(a)
    requires HandlesInv(s) && !a.Advance? && Enabled(s, a) && s'.tasks == s.tasks[a.t := BeginEffect(s, a).task]
    requires s'.strong == Put(Put(s.strong, BeginEffect(s, a).strong), BeginEffect(s, a).strong2)
    requires s'.weak == Put(Put(s.weak, BeginEffect(s, a).weak), BeginEffect(s, a).weak2)
    requires |s'.blocks| == |s.blocks| + Bit(a.New?)
    ensures TaskInv(s', BeginEffect(s, a).task)
  {
    hide Exclusive, Open;
  }

  lemma WeakBeginnerKept(s: State, a: Action, s': State)
    requires Orderly(s, a) && OnWeak(a)
    requires HandlesInv(s) && !a.Advance? && Enabled(s, a) && s'.tasks == s.tasks[a.t := BeginEffect(s, a).task]
    requires s'.strong == Put(Put(s.strong, BeginEffect(s, a).strong), BeginEffect(s, a).strong2)
    requires s'.weak == Put(Put(s.weak, BeginEffect(s, a).weak), BeginEffect(s, a).weak2)
    requires |s'.blocks| == |s.blocks| + Bit(a.New?)
    ensures TaskInv(s', BeginEffect(s, a).task)
  {
    hide Exclusive, Open;
  }

  lemma ClearerKept(s: State, a: Action, s': State)
    requires HandlesInv(s) && Enabled(s, a) && a.Advance? && s.tasks[a.t].Clear? && s' == Apply(s, a)
    ensures TaskInv(s', Effects(s, a).task)
  {
    assert TaskInv(s, s.tasks[a.t]);
  }

  lemma StepperKept(s: State, task: Task, choice: Choice, s': State)
    requires TaskInv(s, task) && task != Idle && !task.Clear? && Resolvable(s, task)
    requires s'.strong == Put(Put(s.strong, StepEffect(s, task, choice).strong), StepEffect(s, task, choice).strong2)
    requires s'.weak == Put(Put(s.weak, StepEffect(s, task, choice).weak), StepEffect(s, task, choice).weak2)
    requires |s'.blocks| == |s.blocks|
    ensures TaskInv(s', StepEffect(s, task, choice).task)
  {}

  /** No two activities ever hold the same handle. */
  lemma ExclusionKept(s: State, a: Action, i: nat, h: nat)
    requires Orderly(s, a)
    requires HandlesInv(s) && Enabled(s, a) && i < |s.tasks| && i != a.t
    ensures Holds(Effects(s, a).task, h) ==> !Holds(s.tasks[i], h)
    ensures HoldsWeak(Effects(s, a).task, h) ==> !HoldsWeak(s.tasks[i], h)
  {
    StrongFootprint(s, a, h);
    WeakFootprint(s, a, h);
    NoInterference(s, a.t, i, h);
  }

  lemma HandlesPreserved(s: State, a: Action)
    requires Orderly(s, a)
    requires HandlesInv(s) && Enabled(s, a)
    ensures HandlesInv(Apply(s, a))
  {
    var s', task := Apply(s, a), Effects(s, a).task;
    assert s'.tasks == s.tasks[a.t := task];
    forall i | 0 <= i < |s'.tasks| ensures TaskInv(s', s'.tasks[i]) {
      if i == a.t { ActorKept(s, a); } else { BystanderKept(s, a, i); }
    }
    ExclusiveKept(s, a);
    PointersInRange(s, a);
  }

  lemma ExclusiveKept(s: State, a: Action)
    requires Orderly(s, a)
    requires HandlesInv(s) && Enabled(s, a)
    ensures Exclusive(s.tasks[a.t := Effects(s, a).task])
  {
    hide Holds, HoldsWeak, CanBegin;
    var task := Effects(s, a).task;
    forall i, h | 0 <= i < |s.tasks| && i != a.t
      ensures Holds(task, h) ==> !Holds(s.tasks[i], h)
      ensures HoldsWeak(task, h) ==> !HoldsWeak(s.tasks[i], h)
    {
      ExclusionKept(s, a, i, h);
    }
    ExclusiveUpdate(s.tasks, a.t, task);
  }

  lemma ExclusiveUpdate(tasks: seq<Task>, t: nat, task: Task)
    requires t < |tasks| && Exclusive(tasks)
    requires forall i, h :: 0 <= i < |tasks| && i != t && Holds(task, h) ==> !Holds(tasks[i], h)
    requires forall i, h :: 0 <= i < |tasks| && i != t && HoldsWeak(task, h) ==> !HoldsWeak(tasks[i], h)
    ensures Exclusive(tasks[t := task])
  {}

  /** No handle ever points outside the allocated blocks. */
  lemma PointersInRange(s: State, a: Action)
    requires Orderly(s, a)
    requires HandlesInv(s) && Enabled(s, a)
    ensures SlotsOk(Apply(s, a).strong, |Apply(s, a).blocks|)
    ensures SlotsOk(Apply(s, a).weak, |Apply(s, a).blocks|)
  {
    assert TaskInv(s, s.tasks[a.t]);
    WritesInRange(s, a);
    var e, bound := Effects(s, a), |s.blocks|;
    PutInRange(s.strong, e.strong, bound);
    PutInRange(Put(s.strong, e.strong), e.strong2, bound);
    PutInRange(s.weak, e.weak, bound);
    PutInRange(Put(s.weak, e.weak), e.weak2, bound);
  }

  lemma PutInRange(slots: seq<Slot>, w: Option<Write>, bound: nat)
    requires SlotsOk(slots, bound) && InRange(w, bound)
    ensures SlotsOk(Put(slots, w), bound)
  {}

  predicate InRange(w: Option<Write>, bound: nat) {
    w.Some? && w.value.slot.Live? && w.value.slot.ptr.Some? ==> w.value.slot.ptr.value < bound
  }

  lemma WritesInRange(s: State, a: Action)
    requires Orderly(s, a)
    requires HandlesInv(s) && Enabled(s, a) && TaskInv(s, s.tasks[a.t])
    ensures var e := Effects(s, a);
            && InRange(e.strong, |s.blocks|) && InRange(e.strong2, |s.blocks|)
            && InRange(e.weak, |s.blocks|) && InRange(e.weak2, |s.blocks|)
  {}

  // ---------------------------------------------------------------------------------- Counters

  function PtrDelta(slots: seq<Slot>, w: Option<Write>, o: nat): int {
    if w.Some? && w.value.at < |slots| then PtrWeight(w.value.slot, o) - PtrWeight(slots[w.value.at], o) else 0
  }

  /** How a step changes what refers to object o. */
  function Change(s: State, task: Task, e: Effect, o: nat): Tally {
    Tally(
      PtrDelta(s.strong, e.strong, o) + PtrDelta(Put(s.strong, e.strong), e.strong2, o)
      + StrongWeight(e.task, o) - StrongWeight(task, o),
      PtrDelta(s.weak, e.weak, o) + PtrDelta(Put(s.weak, e.weak), e.weak2, o)
      + Weight(e.task, WeakUnit, o) - Weight(task, WeakUnit, o),
      Weight(e.task, Constructing, o) - Weight(task, Constructing, o),
      Weight(e.task, Aborting, o) - Weight(task, Aborting, o),
      Weight(e.task, Destructing, o) - Weight(task, Destructing, o),
      Weight(e.task, SelfUnrefing, o) - Weight(task, SelfUnrefing, o),
      Weight(e.task, Freeing, o) - Weight(task, Freeing, o))
  }

  lemma PutPointers(slots: seq<Slot>, w: Option<Write>, o: nat)
    ensures Pointers(Put(slots, w), o) == Pointers(slots, o) + PtrDelta(slots, w, o)
  {
    if w.Some? && w.value.at < |slots| { PointersUpdate(slots, w.value.at, w.value.slot, o); }
  }

  lemma TallyAfter(s: State, t: nat, e: Effect, strays: bool, o: nat)
    requires t < |s.tasks|
    ensures TallyOf(Perform(s, t, e, strays), o) == TallyOf(s, o).Plus(Change(s, s.tasks[t], e, o))
  {
    PutPointers(s.strong, e.strong, o);
    PutPointers(Put(s.strong, e.strong), e.strong2, o);
    PutPointers(s.weak, e.weak, o);
    PutPointers(Put(s.weak, e.weak), e.weak2, o);
    CountUpdate(s.tasks, t, e.task, StrongUnit, o);
    CountUpdate(s.tasks, t, e.task, WeakUnit, o);
    CountUpdate(s.tasks, t, e.task, Constructing, o);
    CountUpdate(s.tasks, t, e.task, Aborting, o);
    CountUpdate(s.tasks, t, e.task, Destructing, o);
    CountUpdate(s.tasks, t, e.task, SelfUnrefing, o);
    CountUpdate(s.tasks, t, e.task, Freeing, o);
  }

  const UNCHANGED := Tally(0, 0, 0, 0, 0, 0, 0)

  /** Beginning an operation moves a reference from a handle to the activity, or creates none. */
  lemma BeginChange(s: State, a: Action, o: nat)
    requires Orderly(s, a)
    requires !a.Advance? && CanBegin(s, a)
    ensures Change(s, Idle, BeginEffect(s, a), o) ==
            if a.New? && o == |s.blocks| then UNCHANGED.(building := 1) else UNCHANGED
  {}

  lemma ClearChange(s: State, task: Task, o: nat)
    requires TaskInv(s, task) && task.Clear? && Resolvable(s, task)
    ensures Change(s, task, ClearEffect(s, task.dst, task.after), o) == UNCHANGED
  {}

  /** A step on one object leaves the references to every other object alone. */
  lemma StepChangeElsewhere(s: State, task: Task, choice: Choice, o: nat)
    requires TaskInv(s, task) && task != Idle && !task.Clear? && Resolvable(s, task) && o != task.obj
    ensures Change(s, task, StepEffect(s, task, choice), o) == UNCHANGED
  {}

  /** The references an activity itself accounts for, and those of the handles it is reading. */
  predicate Backed(task: Task, t: Tally, o: nat) {
    && t.strong >= StrongWeight(task, o) && t.weak >= Weight(task, WeakUnit, o)
      && t.building >= Weight(task, Constructing, o)
    && t.aborting >= Weight(task, Aborting, o) && t.destructing >= Weight(task, Destructing, o)
      && t.unrefing >= Weight(task, SelfUnrefing, o)
    && t.freeing >= Weight(task, Freeing, o)
    && (task.RefAdd? && task.obj == o ==> t.strong >= 1 || t.building >= 1)
    && (task.WeakAdd? && task.obj == o ==>
          t.strong >= 1 || t.weak >= 1 || t.building >= 1 || t.destructing >= 1 || t.unrefing >= 1)
    && ((task.LockLoad? || task.LockCheck? || task.LockCas?) && task.obj == o ==> t.weak >= 1)
  }

  lemma TasksAreBacked(s: State, t: nat, o: nat)
    requires HandlesInv(s) && t < |s.tasks|
    ensures Backed(s.tasks[t], TallyOf(s, o), o)
  {
    var task := s.tasks[t];
    assert TaskInv(s, task);
    CountAtLeast(s.tasks, t, StrongUnit, o);
    CountAtLeast(s.tasks, t, WeakUnit, o);
    CountAtLeast(s.tasks, t, Constructing, o);
    CountAtLeast(s.tasks, t, Aborting, o);
    CountAtLeast(s.tasks, t, Destructing, o);
    CountAtLeast(s.tasks, t, SelfUnrefing, o);
    CountAtLeast(s.tasks, t, Freeing, o);
    match task
    case RefAdd(_, FromHandle(src), _) => PointersAtLeast(s.strong, src, o);
    case RefAdd(_, FromThis(b), _) => CountAtLeast(s.tasks, b, Constructing, o);
    case WeakAdd(_, WeakFromThis(b), _) =>
      CountAtLeast(s.tasks, b, Constructing, o);
      CountAtLeast(s.tasks, b, Destructing, o);
      CountAtLeast(s.tasks, b, SelfUnrefing, o);
    case WeakAdd(_, FromStrong(src), _) => PointersAtLeast(s.strong, src, o);
    case WeakAdd(_, FromWeak(src), _) => PointersAtLeast(s.weak, src, o);
    case LockLoad(_, src, _) => PointersAtLeast(s.weak, src, o);
    case LockCheck(_, src, _, _) => PointersAtLeast(s.weak, src, o);
    case LockCas(_, src, _, _) => PointersAtLeast(s.weak, src, o);
    case _ =>
  }

  /** What one step of a task does to the references to its own object. */
  function Delta(b: Block, task: Task, choice: Choice): Tally {
    match task
    case Construct(_, _) => if choice == StdThrow then UNCHANGED.(building := -1, aborting := 1)
      else UNCHANGED.(building := -1, strong := 1)
    case Abort(_, _) => UNCHANGED.(aborting := -1)
    case RefAdd(_, _, _) => UNCHANGED.(strong := 1)
    case Release(_, _, _) => if b.strong == 1 then UNCHANGED.(strong := -1, destructing := 1)
      else UNCHANGED.(strong := -1)
    case Destruct(_, _, _) => UNCHANGED.(destructing := -1, unrefing := 1)
    case SelfUnref(_, _, _) => if b.weak == 1 then UNCHANGED.(unrefing := -1, freeing := 1)
      else UNCHANGED.(unrefing := -1)
    case SelfFree(_, _, _) => UNCHANGED.(freeing := -1)
    case WeakAdd(_, _, _) => UNCHANGED.(weak := 1)
    case WeakRelease(_, _) => if b.weak == 1 then UNCHANGED.(weak := -1, freeing := 1) else UNCHANGED.(weak := -1)
    case WeakFree(_, _) => UNCHANGED.(freeing := -1)
    case LockCas(_, _, _, value) => if b.strong == value && choice != Spurious then UNCHANGED.(strong := 1)
      else UNCHANGED
    case _ => UNCHANGED
  }

  /** The Deallocate after a std::exception finds no published handle counted; a destructor that comes to the members
      finds no operation on one of them under way. */
  predicate CleanTask(s: State, task: Task) {
    && (task.Abort? && task.obj < |s.blocks| ==> s.blocks[task.obj].strong == 1 && s.blocks[task.obj].weak == 1)
    && (task.Destruct? ==> Undisturbed(s, task.obj))
  }

  predicate Steps(s: State, task: Task) { task != Idle && !task.Clear? && Resolvable(s, task) }

  /** The bookkeeping half of a step: units move between the activity and its handle as Delta says. */
  lemma StepChange(s: State, task: Task, choice: Choice)
    requires TaskInv(s, task) && Steps(s, task)
    ensures Change(s, task, StepEffect(s, task, choice), task.obj) == Delta(s.blocks[task.obj], task, choice)
  {
    if task.Construct? || task.Abort? || task.RefAdd? || task.RefCheck? || task.Release? {
      StepChangeStrong(s, task, choice);
    } else if task.Destruct? || task.Members? || task.SelfUnref? || task.SelfFree? {
      StepChangeDying(s, task, choice);
    } else {
      StepChangeWeak(s, task, choice);
    }
  }

  lemma StepChangeStrong(s: State, task: Task, choice: Choice)
    requires TaskInv(s, task) && Steps(s, task)
    requires task.Construct? || task.Abort? || task.RefAdd? || task.RefCheck? || task.Release?
    ensures Change(s, task, StepEffect(s, task, choice), task.obj) == Delta(s.blocks[task.obj], task, choice)
  {}

  lemma StepChangeDying(s: State, task: Task, choice: Choice)
    requires TaskInv(s, task) && Steps(s, task)
    requires task.Destruct? || task.Members? || task.SelfUnref? || task.SelfFree?
    ensures Change(s, task, StepEffect(s, task, choice), task.obj) == Delta(s.blocks[task.obj], task, choice)
  {}

  lemma StepChangeWeak(s: State, task: Task, choice: Choice)
    requires TaskInv(s, task) && Steps(s, task)
    requires task.WeakAdd? || task.WeakRelease? || task.WeakFree? || task.LockLoad? || task.LockCheck?
      || task.LockCas? || task.LockWrap?
    ensures Change(s, task, StepEffect(s, task, choice), task.obj) == Delta(s.blocks[task.obj], task, choice)
  {}

  /** The counter half of a step: its VERIFY holds and the block it uses has not been released ... */
  predicate Verified(s: State, task: Task, choice: Choice)
    requires Steps(s, task)
  {
    var e := StepEffect(s, task, choice);
    && e.verified && !e.allocates
    && (e.block.Some? ==> e.block.value.0 == task.obj && s.blocks[task.obj].freed == 0)
  }

  lemma StepVerified(s: State, task: Task, choice: Choice, t: Tally)
    requires TaskInv(s, task) && Steps(s, task)
    requires CountsAgree(s.blocks[task.obj], t) && Backed(task, t, task.obj)
    ensures Verified(s, task, choice)
  {
    var b := s.blocks[task.obj];
    assert Counted(t);
    if !task.LockWrap? { InUse(b, t, task); }
    hide CountsAgree, Backed, TaskInv;
    if task.Release? || task.Destruct? || task.SelfUnref? || task.SelfFree? || task.Construct? || task.Abort? {
      OwnerVerified(s, task, choice);
    } else {
      OtherVerified(s, task, choice);
    }
  }

  /** What an activity at work on an object finds: the block is there, and the count it is about to use is positive. */
  predicate Usable(b: Block, task: Task) {
    && b.freed == 0 && b.strong >= 0
    && (task.RefAdd? || task.Release? ==> b.strong > 0)
    && (task.RefCheck? || task.SelfUnref? || task.WeakAdd? || task.WeakRelease? || task.LockCheck? ==> b.weak > 0)
  }

  lemma InUse(b: Block, t: Tally, task: Task)
    requires !task.Idle? && !task.Clear? && !task.LockWrap?
    requires CountsAgree(b, t) && Counted(t) && Backed(task, t, task.obj)
    ensures Usable(b, task)
  {
    var o := task.obj;
    match task
    case Construct(_, _) => assert t.building >= 1;
    case Abort(_, _) => assert t.aborting >= 1;
    case RefCheck(_, _) => assert t.strong >= 1;
    case Release(_, _, _) => assert t.strong >= 1;
    case Destruct(_, _, _) => assert t.destructing >= 1;
    case SelfUnref(_, _, _) => assert t.unrefing >= 1;
    case SelfFree(_, _, _) => assert t.freeing >= 1;
    case WeakRelease(_, _) => assert t.weak >= 1;
    case WeakFree(_, _) => assert t.freeing >= 1;
    case _ =>
  }

  lemma OwnerVerified(s: State, task: Task, choice: Choice)
    requires Steps(s, task) && Usable(s.blocks[task.obj], task)
    requires task.Release? || task.Destruct? || task.SelfUnref? || task.SelfFree? || task.Construct? || task.Abort?
    ensures Verified(s, task, choice)
  {}

  lemma OtherVerified(s: State, task: Task, choice: Choice)
    requires Steps(s, task) && (task.LockWrap? || Usable(s.blocks[task.obj], task))
    requires !(task.Release? || task.Destruct? || task.SelfUnref? || task.SelfFree? || task.Construct? || task.Abort?)
    ensures Verified(s, task, choice)
  {}

  predicate Counted(t: Tally) {
    && t.strong >= 0 && t.weak >= 0 && t.building >= 0 && t.aborting >= 0 && t.destructing >= 0 && t.unrefing >= 0
    && t.freeing >= 0
  }

  lemma ConstructAgrees(b: Block, t: Tally, choice: Choice)
    requires CountsAgree(b, t) && Counted(t) && t.building >= 1
    ensures choice == StdThrow ==> CountsAgree(b.(birth := ThrewStd), t.Plus(UNCHANGED.(building := -1, aborting := 1)))
    ensures choice != StdThrow ==>
      && CountsAgree(b.(birth := ThrewOther), t.Plus(UNCHANGED.(building := -1, strong := 1)))
      && CountsAgree(b.(birth := Built), t.Plus(UNCHANGED.(building := -1, strong := 1)))
  {}

  lemma AbortFinds(b: Block, t: Tally)
    requires CountsAgree(b, t) && Counted(t) && t.aborting >= 1
    ensures b.birth == ThrewStd && b.freed == 0 && b.destroyed == 0
    ensures t.strong == b.strong - 1 && t.weak == b.weak - 1 && t.aborting == 1
    ensures t.building == 0 && t.destructing == 0 && t.unrefing == 0 && t.freeing == 0
  {}

  /** Releasing the block after a std::exception leaves no reference behind exactly when both counters are one. */
  lemma AbortAgrees(b: Block, t: Tally)
    requires CountsAgree(b, t) && Counted(t) && t.aborting >= 1
    ensures b.birth == ThrewStd && b.freed == 0
    ensures CountsAgree(b.(freed := b.freed + 1), t.Plus(UNCHANGED.(aborting := -1))) <==> b.strong == 1 && b.weak == 1
  {
    hide CountsAgree;
    AbortFinds(b, t);
    AbortLeaves(b.(freed := b.freed + 1), t.Plus(UNCHANGED.(aborting := -1)));
  }

  lemma AbortLeaves(b: Block, t: Tally)
    requires b.birth == ThrewStd && b.freed == 1 && b.destroyed == 0
    requires t.building == 0 && t.aborting == 0 && t.destructing == 0 && t.unrefing == 0 && t.freeing == 0
    ensures CountsAgree(b, t) <==> t.strong == 0 && t.weak == 0
  {}

  lemma RefAgrees(b: Block, t: Tally)
    requires CountsAgree(b, t) && Counted(t) && (t.strong >= 1 || t.building >= 1 || (b.strong != 0 && t.weak >= 1))
    ensures CountsAgree(b.(strong := b.strong + 1), t.Plus(UNCHANGED.(strong := 1)))
  {}

  lemma UnrefAgrees(b: Block, t: Tally)
    requires CountsAgree(b, t) && Counted(t) && t.strong >= 1
    ensures CountsAgree(b.(strong := b.strong - 1), t.Plus(
      if b.strong == 1 then UNCHANGED.(strong := -1, destructing := 1) else UNCHANGED.(strong := -1)))
  {}

  lemma DestructAgrees(b: Block, t: Tally)
    requires CountsAgree(b, t) && Counted(t) && t.destructing >= 1
    ensures CountsAgree(b.(destroyed := b.destroyed + 1), t.Plus(UNCHANGED.(destructing := -1, unrefing := 1)))
  {}

  lemma SelfUnrefAgrees(b: Block, t: Tally)
    requires CountsAgree(b, t) && Counted(t) && t.unrefing >= 1
    ensures CountsAgree(b.(weak := b.weak - 1, selfRef := false), t.Plus(
      if b.weak == 1 then UNCHANGED.(unrefing := -1, freeing := 1) else UNCHANGED.(unrefing := -1)))
  {}

  lemma FreeAgrees(b: Block, t: Tally)
    requires CountsAgree(b, t) && Counted(t) && t.freeing >= 1
    ensures CountsAgree(b.(freed := b.freed + 1), t.Plus(UNCHANGED.(freeing := -1)))
  {}

  lemma WeakRefAgrees(b: Block, t: Tally)
    requires CountsAgree(b, t) && Counted(t)
    requires t.strong >= 1 || t.weak >= 1 || t.building >= 1 || t.destructing >= 1 || t.unrefing >= 1
    ensures CountsAgree(b.(weak := b.weak + 1), t.Plus(UNCHANGED.(weak := 1)))
  {}

  lemma WeakUnrefAgrees(b: Block, t: Tally)
    requires CountsAgree(b, t) && Counted(t) && t.weak >= 1
    ensures CountsAgree(b.(weak := b.weak - 1), t.Plus(
      if b.weak == 1 then UNCHANGED.(weak := -1, freeing := 1) else UNCHANGED.(weak := -1)))
  {}

  lemma PlusUnchanged(t: Tally)
    ensures t.Plus(UNCHANGED) == t
  {}

  lemma UnchangedAgrees(b: Block, t: Tally)
    requires CountsAgree(b, t)
    ensures CountsAgree(b, t.Plus(UNCHANGED))
  {
    hide CountsAgree;
    PlusUnchanged(t);
  }

  predicate Agreed(s: State, task: Task, choice: Choice, t: Tally)
    requires Steps(s, task)
  {
    var e := StepEffect(s, task, choice);
    CountsAgree(if e.block.Some? then e.block.value.1 else s.blocks[task.obj],
                t.Plus(Delta(s.blocks[task.obj], task, choice)))
  }

  lemma BirthAgrees(s: State, task: Task, choice: Choice, t: Tally)
    requires Steps(s, task) && (task.Construct? || task.Abort? || task.RefAdd?)
    requires CountsAgree(s.blocks[task.obj], t) && Backed(task, t, task.obj) && CleanTask(s, task)
    ensures Agreed(s, task, choice, t)
  {
    hide CountsAgree, Undisturbed;
    var b := s.blocks[task.obj];
    assert Counted(t);
    match task
    case Construct(_, _) => ConstructAgrees(b, t, choice);
    case Abort(_, _) => AbortAgrees(b, t);
    case RefAdd(_, _, _) => RefAgrees(b, t);
    case _ =>
  }

  lemma ReleaseAgrees(s: State, task: Task, choice: Choice, t: Tally)
    requires Steps(s, task) && (task.Release? || task.Destruct?)
    requires CountsAgree(s.blocks[task.obj], t) && Backed(task, t, task.obj)
    ensures Agreed(s, task, choice, t)
  {
    hide CountsAgree;
    var b := s.blocks[task.obj];
    assert Counted(t);
    match task
    case Release(_, _, _) => UnrefAgrees(b, t);
    case Destruct(_, _, _) => DestructAgrees(b, t);
    case _ =>
  }

  lemma SelfBacked(task: Task, t: Tally)
    requires (task.SelfUnref? || task.SelfFree?) && Backed(task, t, task.obj)
    ensures Counted(t) && (task.SelfUnref? ==> t.unrefing >= 1) && (task.SelfFree? ==> t.freeing >= 1)
  {}

  lemma SelfEffect(s: State, task: Task, choice: Choice)
    requires Steps(s, task) && (task.SelfUnref? || task.SelfFree?)
    ensures var b := s.blocks[task.obj];
            StepEffect(s, task, choice).block == Some((task.obj,
              if task.SelfUnref? then b.(weak := b.weak - 1, selfRef := false) else b.(freed := b.freed + 1)))
  {}

  lemma SelfAgrees(s: State, task: Task, choice: Choice, t: Tally)
    requires Steps(s, task) && (task.SelfUnref? || task.SelfFree?)
    requires CountsAgree(s.blocks[task.obj], t) && Backed(task, t, task.obj)
    ensures Agreed(s, task, choice, t)
  {
    hide CountsAgree, Backed, StepEffect;
    var b := s.blocks[task.obj];
    SelfBacked(task, t);
    SelfEffect(s, task, choice);
    if task.SelfUnref? {
      SelfUnrefAgrees(b, t);
    } else {
      FreeAgrees(b, t);
    }
  }

  lemma WeakAgrees(s: State, task: Task, choice: Choice, t: Tally)
    requires Steps(s, task) && (task.WeakAdd? || task.WeakRelease? || task.WeakFree?)
    requires CountsAgree(s.blocks[task.obj], t) && Backed(task, t, task.obj)
    ensures Agreed(s, task, choice, t)
  {
    hide CountsAgree;
    var b := s.blocks[task.obj];
    assert Counted(t);
    match task
    case WeakAdd(_, _, _) => WeakRefAgrees(b, t);
    case WeakRelease(_, _) => WeakUnrefAgrees(b, t);
    case WeakFree(_, _) => FreeAgrees(b, t);
    case _ =>
  }

  lemma CasAgrees(s: State, task: Task, choice: Choice, t: Tally)
    requires Steps(s, task) && task.LockCas? && task.value != 0
    requires CountsAgree(s.blocks[task.obj], t) && Backed(task, t, task.obj)
    ensures Agreed(s, task, choice, t)
  {
    hide CountsAgree;
    var b := s.blocks[task.obj];
    assert Counted(t);
    UnchangedAgrees(b, t);
    if b.strong == task.value { RefAgrees(b, t); }
  }

  lemma LookAgrees(s: State, task: Task, choice: Choice, t: Tally)
    requires Steps(s, task) && (task.RefCheck? || task.LockLoad? || task.LockCheck? || task.LockWrap? || task.Members?)
    requires CountsAgree(s.blocks[task.obj], t)
    ensures Agreed(s, task, choice, t)
  {
    hide CountsAgree;
    UnchangedAgrees(s.blocks[task.obj], t);
  }

  /** ... and the block it leaves agrees with the references it leaves. */
  lemma StepAgrees(s: State, task: Task, choice: Choice, t: Tally)
    requires TaskInv(s, task) && Steps(s, task)
    requires CountsAgree(s.blocks[task.obj], t) && Backed(task, t, task.obj) && CleanTask(s, task)
    ensures Agreed(s, task, choice, t)
  {
    assert task.LockCas? ==> task.value != 0;
    hide Agreed, TaskInv, CountsAgree, Backed, CleanTask, AfterOk;
    if task.Construct? || task.Abort? || task.RefAdd? {
      BirthAgrees(s, task, choice, t);
    } else if task.Release? || task.Destruct? {
      ReleaseAgrees(s, task, choice, t);
    } else if task.SelfUnref? || task.SelfFree? {
      SelfAgrees(s, task, choice, t);
    } else if task.WeakAdd? || task.WeakRelease? || task.WeakFree? {
      WeakAgrees(s, task, choice, t);
    } else if task.LockCas? {
      CasAgrees(s, task, choice, t);
    } else {
      LookAgrees(s, task, choice, t);
    }
  }

  /** A freshly allocated block is referred to by the activity constructing it and nothing else. */
  lemma FreshIsUnreferenced(s: State)
    requires HandlesInv(s)
    ensures TallyOf(s, |s.blocks|) == UNCHANGED
  {
    var o := |s.blocks|;
    NoPointers(s.strong, o);
    NoPointers(s.weak, o);
    forall i, kind | 0 <= i < |s.tasks| ensures Weight(s.tasks[i], kind, o) == 0 {
      assert TaskInv(s, s.tasks[i]);
    }
    NoTasks(s.tasks, StrongUnit, o);
    NoTasks(s.tasks, WeakUnit, o);
    NoTasks(s.tasks, Constructing, o);
    NoTasks(s.tasks, Aborting, o);
    NoTasks(s.tasks, Destructing, o);
    NoTasks(s.tasks, SelfUnrefing, o);
    NoTasks(s.tasks, Freeing, o);
  }

  /** The block of object o after a step. */
  function BlockAfter(s: State, e: Effect, o: nat): Block
    requires o < |s.blocks| + Bit(e.allocates)
  {
    if o == |s.blocks| then FRESH
    else if e.block.Some? && e.block.value.0 == o then e.block.value.1 else s.blocks[o]
  }

  lemma CountsKeptByPerform(s: State, t: nat, e: Effect, strays: bool)
    requires t < |s.tasks|
    requires forall o :: 0 <= o < |s.blocks| + Bit(e.allocates) ==>
                           CountsAgree(BlockAfter(s, e, o), TallyOf(s, o).Plus(Change(s, s.tasks[t], e, o)))
    ensures CountsInv(Perform(s, t, e, strays))
  {
    var s' := Perform(s, t, e, strays);
    forall o | 0 <= o < |s'.blocks| ensures ObjectInv(s', o) {
      TallyAfter(s, t, e, strays, o);
      assert s'.blocks[o] == BlockAfter(s, e, o);
    }
  }

  lemma CountsKeptByStep(s: State, t: nat, choice: Choice, e: Effect, strays: bool)
    requires HandlesInv(s) && CountsInv(s) && t < |s.tasks| && Steps(s, s.tasks[t])
    requires e == StepEffect(s, s.tasks[t], choice) && CleanTask(s, s.tasks[t])
    ensures CountsInv(Perform(s, t, e, strays)) && e.verified
    ensures e.block.Some? ==> s.blocks[e.block.value.0].freed == 0
  {
    hide StepEffect, Change, Delta, CountsAgree, Exclusive, Backed;
    var task := s.tasks[t];
    assert TaskInv(s, task);
    assert ObjectInv(s, task.obj);
    TasksAreBacked(s, t, task.obj);
    StepChange(s, task, choice);
    StepVerified(s, task, choice, TallyOf(s, task.obj));
    StepAgrees(s, task, choice, TallyOf(s, task.obj));
    forall o | 0 <= o < |s.blocks|
      ensures CountsAgree(BlockAfter(s, e, o), TallyOf(s, o).Plus(Change(s, task, e, o)))
    {
      if o != task.obj {
        StepChangeElsewhere(s, task, choice, o);
        assert ObjectInv(s, o);
        UnchangedAgrees(s.blocks[o], TallyOf(s, o));
      }
    }
    CountsKeptByPerform(s, t, e, strays);
  }

  lemma CountsKeptByClear(s: State, t: nat, e: Effect, strays: bool)
    requires HandlesInv(s) && CountsInv(s) && t < |s.tasks|
    requires s.tasks[t].Clear? && Resolvable(s, s.tasks[t]) && e == ClearEffect(s, s.tasks[t].dst, s.tasks[t].after)
    ensures CountsInv(Perform(s, t, e, strays)) && e.verified && e.block == None
  {
    hide CountsAgree;
    assert TaskInv(s, s.tasks[t]);
    forall o | 0 <= o < |s.blocks|
      ensures CountsAgree(BlockAfter(s, e, o), TallyOf(s, o).Plus(Change(s, s.tasks[t], e, o)))
    {
      ClearChange(s, s.tasks[t], o);
      assert ObjectInv(s, o);
      UnchangedAgrees(s.blocks[o], TallyOf(s, o));
    }
    CountsKeptByPerform(s, t, e, strays);
  }

  lemma AllocatesOnlyNew(s: State, a: Action)
    requires !a.Advance? && CanBegin(s, a)
    ensures BeginEffect(s, a).allocates == a.New?
    ensures BeginEffect(s, a).verified && BeginEffect(s, a).block == None
  {}

  lemma FreshAgrees(b: Block, t: Tally)
    requires b == FRESH && t == Tally(0, 0, 1, 0, 0, 0, 0)
    ensures CountsAgree(b, t)
  {}

  lemma FreshTally(t: Tally, change: Tally)
    requires t == UNCHANGED && change == UNCHANGED.(building := 1)
    ensures t.Plus(change) == Tally(0, 0, 1, 0, 0, 0, 0)
  {}

  lemma FreshSum(b: Block, t: Tally, change: Tally)
    requires b == FRESH && t == UNCHANGED && change == UNCHANGED.(building := 1)
    ensures CountsAgree(b, t.Plus(change))
  {
    FreshTally(t, change);
    FreshAgrees(b, t.Plus(change));
  }

  lemma BeginAgrees(s: State, a: Action, e: Effect, o: nat)
    requires Orderly(s, a)
    requires HandlesInv(s) && CountsInv(s) && Enabled(s, a) && !a.Advance? && e == BeginEffect(s, a)
    requires o < |s.blocks| + Bit(e.allocates)
    ensures CountsAgree(BlockAfter(s, e, o), TallyOf(s, o).Plus(Change(s, Idle, e, o)))
  {
    hide CountsAgree, BeginEffect, Change, TallyOf;
    AllocatesOnlyNew(s, a);
    BeginChange(s, a, o);
    if o == |s.blocks| {
      FreshIsUnreferenced(s);
      FreshSum(BlockAfter(s, e, o), TallyOf(s, o), Change(s, Idle, e, o));
    } else {
      assert ObjectInv(s, o);
      UnchangedAgrees(s.blocks[o], TallyOf(s, o));
    }
  }

  lemma BeginPreserves(s: State, a: Action, e: Effect, strays: bool)
    requires Orderly(s, a)
    requires HandlesInv(s) && CountsInv(s) && Enabled(s, a) && !a.Advance? && e == BeginEffect(s, a)
    ensures CountsInv(Perform(s, a.t, e, strays)) && e.verified && e.block == None
  {
    AllocatesOnlyNew(s, a);
    forall o | 0 <= o < |s.blocks| + Bit(e.allocates)
      ensures CountsAgree(BlockAfter(s, e, o), TallyOf(s, o).Plus(Change(s, Idle, e, o)))
    {
      BeginAgrees(s, a, e, o);
    }
    CountsKeptByPerform(s, a.t, e, strays);
  }
}
