/**
 The strong/weak reference counting protocol of TRefCounter, TIntrusivePtr and TWeakPtr.

 Every access to an atomic counter, the destructor call and the release of the memory are separate
 steps, and the steps of any number of activities interleave freely (sequentially consistent
 atomics). An activity is a thread, or one nested operation of a thread: what a constructor or a
 destructor does with handles, and the destruction of a member, are activities of their own.
 */
module RefCounting {
  import opened Common

  // ---------------------------------------------------------------------------------- State

  /** One allocated block: the two atomic counters in front of the object. The other fields record
      what happened to the object: whether the strong side still owns its one weak reference, what became
      of the constructor, how often the destructor ran and how often the memory was released. */
  datatype Block = Block(strong: int, weak: int, selfRef: bool, birth: Birth, destroyed: nat, freed: nat)

  /** How T's constructor ended: New catches a std::exception and nothing else. */
  datatype Birth = Unborn | Built | ThrewStd | ThrewOther

  /** A handle variable. Held means one activity is constructing, assigning or destroying it. */
  datatype Slot = Dead | Live(ptr: Option<nat>) | Held

  /** What follows the reset() inside a handle operation. */
  datatype After =
    | KeepEmpty                                    // reset() itself
    | Destroy                                      // ~TIntrusivePtr
    | Expire                                       // ~TIntrusivePtr of a member, in the destructor of its object
    | AssignCopy(from: nat)                        // operator=(const TIntrusivePtr&)
    | AssignMove(donor: nat, gift: Option<nat>)    // operator=(TIntrusivePtr&&)

  /** Where a strong reference is taken from: a handle, or `this` inside the constructor that activity
      `builder` is running. */
  datatype StrongSource = FromHandle(src: nat) | FromThis(builder: nat)

  /** Where a TWeakPtr constructor gets its pointer: a strong or weak handle, or `this` inside the constructor or
      destructor that activity `runner` is running. */
  datatype WeakSource = FromStrong(src: nat) | FromWeak(src: nat) | WeakFromThis(runner: nat)

  /** The program counter of an activity: the step it will take next. */
  datatype Task =
    | Idle
    | Construct(dst: nat, obj: nat)                        // New: T's constructor runs
    | Abort(dst: nat, obj: nat)                            // New: Deallocate after a std::exception
    | RefAdd(dst: nat, origin: StrongSource, obj: nat)     // Ref: fetch_add
    | RefCheck(dst: nat, obj: nat)                         // Ref: load of the weak count
    | Release(dst: nat, obj: nat, after: After)            // Unref: fetch_sub
    | Destruct(dst: nat, obj: nat, after: After)           // Destruct: ~T(), its body
    | Members(dst: nat, obj: nat, after: After)            // Destruct: ~T(), until every member is destroyed
    | SelfUnref(dst: nat, obj: nat, after: After)          // Destruct: WeakUnref
    | SelfFree(dst: nat, obj: nat, after: After)           // Destruct: Deallocate
    | Clear(dst: nat, after: After)                        // reset: ptr_ = nullptr, then the continuation
    | WeakAdd(dst: nat, source: WeakSource, obj: nat)      // WeakRef: fetch_add
    | WeakRelease(dst: nat, obj: nat)                      // WeakUnref: fetch_sub
    | WeakFree(dst: nat, obj: nat)                         // WeakUnref: Deallocate
    | LockLoad(dst: nat, src: nat, obj: nat)               // TryRef: load of the strong count
    | LockCheck(dst: nat, src: nat, obj: nat, value: int)  // TryRef: load of the weak count
    | LockCas(dst: nat, src: nat, obj: nat, value: int)    // TryRef: compare_exchange_weak
    | LockWrap(dst: nat, obj: nat)                         // Lock: the TIntrusivePtr(ptr, false) constructor

  /** homes: the object that a strong handle is a member of, if it is one of an object allocated here; its memory
      is that object's. trapped: some VERIFY failed. touchedFreed: some step used memory that had been released, or
      read a handle that had been destroyed. */
  datatype State = State(
    blocks: seq<Block>,
    homes: seq<Option<nat>>,
    strong: seq<Slot>,
    weak: seq<Slot>,
    tasks: seq<Task>,
    trapped: bool,
    touchedFreed: bool)

  /** Each action is taken by one activity t. */
  datatype Action =
    | Default(t: nat, dst: nat)                       // TIntrusivePtr()
    | WeakDefault(t: nat, dst: nat)                   // TWeakPtr()
    | New(t: nat, dst: nat)
    | Copy(t: nat, dst: nat, src: nat)                // copy constructor, or TIntrusivePtr(T*) of a held object
    | Adopt(t: nat, dst: nat, builder: nat)           // TIntrusivePtr(this) inside a constructor
    | Move(t: nat, dst: nat, src: nat)                // move constructor
    | Reset(t: nat, dst: nat, after: After)           // reset, destructor, copy assignment
    | MoveAssign(t: nat, dst: nat, src: nat)
    | DestroyMember(t: nat, dst: nat)                 // the destructor of an object destroys a member
    | ResetAgain(t: nat, dst: nat, after: After)      // a destructor resets the handle whose own reset has called it,
    | CopyAgain(t: nat, dst: nat, src: nat)           // copies that handle,
    | MoveAgain(t: nat, dst: nat, src: nat)           // moves from it,
    | AdoptAgain(t: nat, dst: nat, dying: nat)        // or makes a handle of its own `this`
    | MakeWeak(t: nat, dst: nat, source: WeakSource)  // the non-move TWeakPtr constructors
    | WeakMove(t: nat, dst: nat, src: nat)
    | WeakDestroy(t: nat, dst: nat)
    | Lock(t: nat, dst: nat, src: nat)
    | Advance(t: nat, choice: Choice)                 // the next step of an activity

  /** What the step of an activity leaves open: how a constructor ends, whether a compare-and-swap fails
      though the value is as expected. */
  datatype Choice = Plain | StdThrow | OtherThrow | Spurious

  // ---------------------------------------------------------------------------------- Steps

  predicate AfterBorrows(after: After, h: nat) { after.AssignCopy? && after.from == h }

  /** The activity reads strong handle h and relies on it staying as it is. */
  predicate BorrowsStrong(task: Task, h: nat) {
    match task
    case RefAdd(_, origin, _) => origin == FromHandle(h)
    case Release(_, _, after) => AfterBorrows(after, h)
    case Destruct(_, _, after) => AfterBorrows(after, h)
    case Members(_, _, after) => AfterBorrows(after, h)
    case SelfUnref(_, _, after) => AfterBorrows(after, h)
    case SelfFree(_, _, after) => AfterBorrows(after, h)
    case Clear(_, after) => AfterBorrows(after, h)
    case WeakAdd(_, source, _) => source == FromStrong(h)
    case _ => false
  }

  predicate BorrowsWeak(task: Task, h: nat) {
    match task
    case WeakAdd(_, source, _) => source == FromWeak(h)
    case LockLoad(_, src, _) => src == h
    case LockCheck(_, src, _, _) => src == h
    case LockCas(_, src, _, _) => src == h
    case _ => false
  }

  /** The activity works with `this` of the constructor or destructor that activity b is running. */
  predicate BorrowsThis(task: Task, b: nat) {
    match task
    case RefAdd(_, origin, _) => origin == FromThis(b)
    case WeakAdd(_, source, _) => source == WeakFromThis(b)
    case _ => false
  }

  predicate Building(s: State, b: nat) { b < |s.tasks| && s.tasks[b].Construct? }

  /** Activity b runs a destructor. */
  predicate Destroying(s: State, b: nat) { b < |s.tasks| && (s.tasks[b].Destruct? || s.tasks[b].Members?) }

  /** Activity b runs a constructor or destructor. */
  predicate Running(s: State, b: nat) { Building(s, b) || Destroying(s, b) }

  predicate HasStrong(s: State, h: nat) { h < |s.strong| && s.strong[h].Live? }

  predicate HasWeak(s: State, h: nat) { h < |s.weak| && s.weak[h].Live? }

  predicate FreeSlot(slots: seq<Slot>, h: nat) { h < |slots| && slots[h] == Dead }

  /** A handle may be changed only while nobody reads it: unsynchronised access to one handle object
      is a data race in the program that uses the library. */
  predicate Mutable(s: State, h: nat) {
    HasStrong(s, h) && forall i :: 0 <= i < |s.tasks| ==> !BorrowsStrong(s.tasks[i], h)
  }

  predicate WeakMutable(s: State, h: nat) {
    HasWeak(s, h) && forall i :: 0 <= i < |s.tasks| ==> !BorrowsWeak(s.tasks[i], h)
  }

  function HomeOf(s: State, h: nat): Option<nat> { if h < |s.homes| then s.homes[h] else None }

  /** A program uses a handle only while the object it is a member of is there: from the start of the constructor
      to the end of the destructor's body. */
  predicate Open(s: State, h: nat) {
    HomeOf(s, h).Some? ==>
      var o := HomeOf(s, h).value;
      o < |s.blocks| && s.blocks[o].destroyed == 0 && (s.blocks[o].birth == Unborn || s.blocks[o].birth == Built)
  }

  /** Every member of the object is destroyed, or never was constructed. */
  predicate Emptied(s: State, o: nat) {
    forall h :: 0 <= h < |s.strong| && HomeOf(s, h) == Some(o) ==> s.strong[h] == Dead
  }

  /** When an activity may take an action; a constructor or destructor ends only after the calls it makes have returned,
      a destructor, and a constructor that throws, after the members have been destroyed. */
  predicate Enabled(s: State, a: Action) {
    a.t < |s.tasks| &&
    if a.Advance? then s.tasks[a.t] != Idle && Resolvable(s, s.tasks[a.t]) && Returned(s, a.t) && Unwound(s, a)
    else s.tasks[a.t] == Idle && CanBegin(s, a)
  }

  predicate Unwound(s: State, a: Action)
    requires a.Advance? && a.t < |s.tasks|
  {
    && (s.tasks[a.t].Members? ==> Emptied(s, s.tasks[a.t].obj))
    && (s.tasks[a.t].Construct? && (a.choice == StdThrow || a.choice == OtherThrow) ==> Emptied(s, s.tasks[a.t].obj))
  }

  predicate Returned(s: State, b: nat) {
    Running(s, b) ==> forall i :: 0 <= i < |s.tasks| ==> !BorrowsThis(s.tasks[i], b)
  }

  predicate CanBegin(s: State, a: Action)
    requires !a.Advance?
  {
    match a
    case Default(_, dst) => FreeSlot(s.strong, dst) && Open(s, dst)
    case WeakDefault(_, dst) => FreeSlot(s.weak, dst)
    case New(_, dst) => FreeSlot(s.strong, dst) && Open(s, dst)
    case Copy(_, dst, src) => FreeSlot(s.strong, dst) && HasStrong(s, src) && Open(s, dst) && Open(s, src)
    case Adopt(_, dst, builder) => FreeSlot(s.strong, dst) && Open(s, dst) && Building(s, builder)
    case Move(_, dst, src) => FreeSlot(s.strong, dst) && Mutable(s, src) && Open(s, dst) && Open(s, src)
    case Reset(_, dst, after) =>
      && Mutable(s, dst) && Open(s, dst) && !after.AssignMove? && !after.Expire?
      && (after.AssignCopy? ==> after.from != dst && HasStrong(s, after.from) && Open(s, after.from))
    case MoveAssign(_, dst, src) => dst != src && Mutable(s, dst) && Mutable(s, src) && Open(s, dst) && Open(s, src)
    case DestroyMember(_, dst) => Expires(s, dst)
    case ResetAgain(_, dst, after) =>
      && Called(s, dst) && Open(s, dst) && !after.AssignMove? && !after.Expire?
      && (after.AssignCopy? ==> after.from != dst && HasStrong(s, after.from) && Open(s, after.from))
    case AdoptAgain(_, dst, dying) => FreeSlot(s.strong, dst) && Open(s, dst) && Destroying(s, dying)
    case CopyAgain(_, dst, src) => FreeSlot(s.strong, dst) && Open(s, dst) && Called(s, src) && Open(s, src)
    case MoveAgain(_, dst, src) => FreeSlot(s.strong, dst) && Open(s, dst) && Called(s, src) && Open(s, src)
    case MakeWeak(_, dst, source) =>
      && FreeSlot(s.weak, dst)
      && (match source
          case FromStrong(h) => HasStrong(s, h) && Open(s, h)
          case FromWeak(h) => HasWeak(s, h)
          case WeakFromThis(runner) => Running(s, runner))
    case WeakMove(_, dst, src) => FreeSlot(s.weak, dst) && WeakMutable(s, src)
    case WeakDestroy(_, dst) => WeakMutable(s, dst)
    case Lock(_, dst, src) => FreeSlot(s.strong, dst) && Open(s, dst) && HasWeak(s, src)
  }

  /** The destructor of o has come to its members. */
  predicate Expiring(s: State, o: nat) { exists i :: 0 <= i < |s.tasks| && s.tasks[i].Members? && s.tasks[i].obj == o }

  /** A member that the destructor of its object has still to destroy. Nothing keeps the destructor from it: not an
      assignment that is going to read it, and not an outer reset or assignment of this very handle that is itself
      inside a destructor. */
  predicate Expires(s: State, h: nat) {
    && h < |s.strong| && HomeOf(s, h).Some? && Expiring(s, HomeOf(s, h).value)
    && (s.strong[h].Live? || exists i :: 0 <= i < |s.tasks| && Keeps(s.tasks[i], h))
  }

  /** The activity is inside a destructor, which its reset or assignment of a handle has called. */
  predicate Inside(task: Task) { (task.Destruct? || task.Members?) && !task.after.Expire? }

  /** The pointer of handle h is as it was before the operation the activity is in the middle of. */
  predicate Keeps(task: Task, h: nat) {
    Inside(task) && (task.dst == h || (task.after.AssignMove? && task.after.donor == h))
  }

  /** A destructor that a reset or assignment of h has called is running. To it the handle is one like any other,
      with its pointer as it was. */
  predicate Called(s: State, h: nat) {
    && h < |s.strong| && s.strong[h] == Held
    && exists i :: 0 <= i < |s.tasks| && Inside(s.tasks[i]) && s.tasks[i].dst == h
  }

  /** The object of that destructor. */
  function OuterObj(tasks: seq<Task>, h: nat): nat
    requires exists i :: 0 <= i < |tasks| && Inside(tasks[i]) && tasks[i].dst == h
  {
    if Inside(tasks[0]) && tasks[0].dst == h then tasks[0].obj else OuterObj(tasks[1..], h)
  }

  /** The pointer that stands in the memory of such a handle. */
  function Standing(s: State, h: nat): Option<nat>
    requires Expires(s, h)
  {
    if s.strong[h].Live? then s.strong[h].ptr else KeptPtr(s.tasks, h)
  }

  function KeptPtr(tasks: seq<Task>, h: nat): Option<nat>
    requires exists i :: 0 <= i < |tasks| && Keeps(tasks[i], h)
  {
    if Keeps(tasks[0], h) then if tasks[0].dst == h then Some(tasks[0].obj) else tasks[0].after.gift
    else KeptPtr(tasks[1..], h)
  }

  /** The block a task works on, if any, exists. */
  predicate Resolvable(s: State, task: Task) { !task.Idle? && !task.Clear? ==> task.obj < |s.blocks| }

  /** One atomic step: the actor's next program counter, the handles and the block it writes, whether
      it allocates a block, and whether the VERIFY at this step holds. */
  datatype Effect = Effect(
    task: Task,
    strong: Option<Write>, strong2: Option<Write>,
    weak: Option<Write>, weak2: Option<Write>,
    block: Option<(nat, Block)>,
    allocates: bool,
    verified: bool)

  datatype Write = Write(at: nat, slot: Slot)

  const NOTHING := Effect(Idle, None, None, None, None, None, false, true)

  function Effects(s: State, a: Action): Effect
    requires Enabled(s, a)
  {
    if a.Advance? then StepEffect(s, s.tasks[a.t], a.choice) else BeginEffect(s, a)
  }

  function BeginEffect(s: State, a: Action): Effect
    requires !a.Advance? && CanBegin(s, a)
  {
    match a
    case Default(_, dst) => NOTHING.(strong := Some(Write(dst, Live(None))))
    case WeakDefault(_, dst) => NOTHING.(weak := Some(Write(dst, Live(None))))
    case New(_, dst) =>
      NOTHING.(allocates := true, strong := Some(Write(dst, Held)), task := Construct(dst, |s.blocks|))
    case Copy(_, dst, src) => NOTHING.(strong := Some(Write(dst, Held)), task := CopyFrom(s, dst, src))
    case Adopt(_, dst, builder) =>
      NOTHING.(strong := Some(Write(dst, Held)), task := RefAdd(dst, FromThis(builder), s.tasks[builder].obj))
    case Move(_, dst, src) =>
      NOTHING.(strong := Some(Write(dst, s.strong[src])), strong2 := Some(Write(src, Live(None))))
    case Reset(_, dst, after) => NOTHING.(strong := Some(Write(dst, Held)), task := StartReset(s, dst, after))
    case DestroyMember(_, dst) =>
      NOTHING.(strong := Some(Write(dst, Held)), task := Resetting(Standing(s, dst), dst, Expire))
    case ResetAgain(_, dst, after) =>
      NOTHING.(strong := Some(Write(dst, Held)), task := Release(dst, OuterObj(s.tasks, dst), after))
    case AdoptAgain(_, dst, dying) =>
      NOTHING.(strong := Some(Write(dst, Held)), task := RefAdd(dst, FromThis(dying), s.tasks[dying].obj))
    case CopyAgain(_, dst, src) =>
      NOTHING.(strong := Some(Write(dst, Held)), task := RefAdd(dst, FromHandle(src), OuterObj(s.tasks, src)))
    case MoveAgain(_, dst, src) =>
      var ptr := Some(OuterObj(s.tasks, src));
      NOTHING.(strong := Some(Write(dst, Live(ptr))), strong2 := Some(Write(src, Live(None))))
    case MoveAssign(_, dst, src) =>
      NOTHING.(strong := Some(Write(dst, Held)), strong2 := Some(Write(src, Held)),
               task := StartReset(s, dst, AssignMove(src, s.strong[src].ptr)))
    case MakeWeak(_, dst, source) =>
      var ptr := match source
        case FromStrong(h) => s.strong[h].ptr
        case FromWeak(h) => s.weak[h].ptr
        case WeakFromThis(runner) => Some(s.tasks[runner].obj);
      if ptr == None then NOTHING.(weak := Some(Write(dst, Live(None))))
      else NOTHING.(weak := Some(Write(dst, Held)), task := WeakAdd(dst, source, ptr.value))
    case WeakMove(_, dst, src) =>
      NOTHING.(weak := Some(Write(dst, s.weak[src])), weak2 := Some(Write(src, Live(None))))
    case WeakDestroy(_, dst) =>
      if s.weak[dst].ptr == None then NOTHING.(weak := Some(Write(dst, Dead)))
      else NOTHING.(weak := Some(Write(dst, Held)), task := WeakRelease(dst, s.weak[dst].ptr.value))
    case Lock(_, dst, src) =>
      if s.weak[src].ptr == None then NOTHING.(strong := Some(Write(dst, Live(None))))
      else NOTHING.(strong := Some(Write(dst, Held)), task := LockLoad(dst, src, s.weak[src].ptr.value))
  }

  function StartReset(s: State, dst: nat, after: After): Task
    requires HasStrong(s, dst)
  {
    Resetting(s.strong[dst].ptr, dst, after)
  }

  /** if (ptr_) Unref(ptr_). */
  function Resetting(ptr: Option<nat>, dst: nat, after: After): Task {
    match ptr
    case None => Clear(dst, after)
    case Some(o) => Release(dst, o, after)
  }

  /** ptr_ = other.ptr_; if (ptr_) Ref(ptr_). A null source leaves only the store of the null pointer. */
  function CopyFrom(s: State, dst: nat, src: nat): Task
    requires HasStrong(s, src)
  {
    match s.strong[src].ptr
    case None => Clear(dst, KeepEmpty)
    case Some(o) => RefAdd(dst, FromHandle(src), o)
  }

  /** The next step of an activity. The block named in the effect is the memory the step uses. An exception
      that New does not catch unwinds through ~TIntrusivePtr of its own handle. */
  function StepEffect(s: State, task: Task, choice: Choice): Effect
    requires task != Idle && Resolvable(s, task)
  {
    if task.Clear? then ClearEffect(s, task.dst, task.after)
    else
      var o, b := task.obj, s.blocks[task.obj];
      var use := NOTHING.(block := Some((o, b)));
      match task
      case Construct(dst, _) =>
        (match choice
         case StdThrow => use.(block := Some((o, b.(birth := ThrewStd))), task := Abort(dst, o))
         case OtherThrow => use.(block := Some((o, b.(birth := ThrewOther))), task := Release(dst, o, Destroy))
         case _ => Done(use.(block := Some((o, b.(birth := Built)))), dst, Some(o)))
      case Abort(dst, _) => Done(use.(block := Some((o, b.(freed := b.freed + 1)))), dst, None)
      case RefAdd(dst, _, _) =>
        use.(block := Some((o, b.(strong := b.strong + 1))), verified := b.strong > 0, task := RefCheck(dst, o))
      case RefCheck(dst, _) => Done(use.(verified := b.weak > 0), dst, Some(o))
      case Release(dst, _, after) =>
        use.(block := Some((o, b.(strong := b.strong - 1))), verified := b.strong >= 1,
             task := if b.strong == 1 then Destruct(dst, o, after) else Clear(dst, after))
      case Destruct(dst, _, after) =>
        use.(block := Some((o, b.(destroyed := b.destroyed + 1))), task := Members(dst, o, after))
      case Members(dst, _, after) => use.(task := SelfUnref(dst, o, after))
      case SelfUnref(dst, _, after) =>
        use.(block := Some((o, b.(weak := b.weak - 1, selfRef := false))), verified := b.weak > 0,
             task := if b.weak == 1 then SelfFree(dst, o, after) else Clear(dst, after))
      case SelfFree(dst, _, after) => use.(block := Some((o, b.(freed := b.freed + 1))), task := Clear(dst, after))
      case WeakAdd(dst, _, _) =>
        use.(block := Some((o, b.(weak := b.weak + 1))), verified := b.weak > 0,
             weak := Some(Write(dst, Live(Some(o)))))
      case WeakRelease(dst, _) =>
        var e := use.(block := Some((o, b.(weak := b.weak - 1))), verified := b.weak > 0);
        if b.weak == 1 then e.(task := WeakFree(dst, o)) else e.(weak := Some(Write(dst, Dead)))
      case WeakFree(dst, _) => use.(block := Some((o, b.(freed := b.freed + 1))), weak := Some(Write(dst, Dead)))
      case LockLoad(dst, src, _) => use.(verified := b.strong >= 0, task := LockCheck(dst, src, o, b.strong))
      case LockCheck(dst, src, _, value) => Retry(use.(verified := b.weak > 0), dst, src, o, value)
      case LockCas(dst, src, _, value) =>
        if b.strong == value && choice != Spurious then
          use.(block := Some((o, b.(strong := value + 1))), task := LockWrap(dst, o))
        else
          Retry(use, dst, src, o, b.strong)
      case LockWrap(dst, _) => Done(NOTHING, dst, Some(o))
  }

  /** The loop head of TryRef: give up on a zero count, otherwise try the compare-and-swap. */
  function Retry(e: Effect, dst: nat, src: nat, o: nat, value: int): Effect {
    if value == 0 then Done(e, dst, None) else e.(task := LockCas(dst, src, o, value))
  }

  function Done(e: Effect, dst: nat, ptr: Option<nat>): Effect {
    e.(strong := Some(Write(dst, Live(ptr))))
  }

  /** ptr_ = nullptr, and what follows it; an assignment reads its source only now. */
  function ClearEffect(s: State, dst: nat, after: After): Effect {
    match after
    case KeepEmpty => Done(NOTHING, dst, None)
    case Destroy => NOTHING.(strong := Some(Write(dst, Dead)))
    case Expire => NOTHING.(strong := Some(Write(dst, Dead)))
    case AssignCopy(from) =>
      if HasStrong(s, from) then NOTHING.(task := CopyFrom(s, dst, from)) else Done(NOTHING, dst, None)
    case AssignMove(donor, gift) =>
      if FreeSlot(s.strong, donor) then Done(NOTHING, dst, None)
      else Done(NOTHING, dst, gift).(strong2 := Some(Write(donor, Live(None))))
  }

  function Put(slots: seq<Slot>, w: Option<Write>): (r: seq<Slot>)
    ensures |r| == |slots|
  {
    if w.Some? && w.value.at < |slots| then slots[w.value.at := w.value.slot] else slots
  }

  function PutBlock(blocks: seq<Block>, w: Option<(nat, Block)>): (r: seq<Block>)
    ensures |r| == |blocks|
  {
    if w.Some? && w.value.0 < |blocks| then blocks[w.value.0 := w.value.1] else blocks
  }

  /** A fresh block: both counters start at one. */
  const FRESH := Block(1, 1, true, Unborn, 0, 0)

  /** The strong handles whose memory an action uses. */
  function Touched(s: State, a: Action): set<nat>
    requires Enabled(s, a)
  {
    match a
    case Default(_, dst) => {dst}
    case New(_, dst) => {dst}
    case Copy(_, dst, src) => {dst, src}
    case Adopt(_, dst, _) => {dst}
    case Move(_, dst, src) => {dst, src}
    case Reset(_, dst, _) => {dst}
    case MoveAssign(_, dst, _) => {dst}
    case DestroyMember(_, dst) => {dst}
    case ResetAgain(_, dst, _) => {dst}
    case AdoptAgain(_, dst, _) => {dst}
    case CopyAgain(_, dst, src) => {dst, src}
    case MoveAgain(_, dst, src) => {dst, src}
    case MakeWeak(_, _, FromStrong(src)) => {src}
    case Lock(_, dst, _) => {dst}
    case Advance(t, choice) => TouchedBy(s, s.tasks[t], choice)
    case _ => {}
  }

  function TouchedBy(s: State, task: Task, choice: Choice): set<nat>
    requires task != Idle && Resolvable(s, task)
  {
    if task.Clear? then
      {task.dst} + if task.after.AssignCopy? then {task.after.from}
                   else if task.after.AssignMove? then {task.after.donor} else {}
    else if StepEffect(s, task, choice).strong.Some? then {task.dst} else {}
  }

  /** The memory of the handle has been released. */
  predicate Gone(s: State, h: nat) {
    HomeOf(s, h).Some? && HomeOf(s, h).value < |s.blocks| && s.blocks[HomeOf(s, h).value].freed > 0
  }

  /** An assignment comes to read a source that has been destroyed. */
  predicate ReadsDestroyed(s: State, a: Action)
    requires Enabled(s, a)
  {
    a.Advance? &&
    match s.tasks[a.t]
    case Clear(_, AssignCopy(from)) => FreeSlot(s.strong, from)
    case Clear(_, AssignMove(donor, _)) => FreeSlot(s.strong, donor)
    case _ => false
  }

  predicate Strays(s: State, a: Action)
    requires Enabled(s, a)
  {
    ReadsDestroyed(s, a) || exists h :: h in Touched(s, a) && Gone(s, h)
  }

  function Perform(s: State, t: nat, e: Effect, strays: bool): State
    requires t < |s.tasks|
  {
    State(
      PutBlock(s.blocks, e.block) + (if e.allocates then [FRESH] else []),
      s.homes,
      Put(Put(s.strong, e.strong), e.strong2),
      Put(Put(s.weak, e.weak), e.weak2),
      s.tasks[t := e.task],
      s.trapped || !e.verified,
      s.touchedFreed || strays
      || (e.block.Some? && e.block.value.0 < |s.blocks| && s.blocks[e.block.value.0].freed > 0))
  }

  function Apply(s: State, a: Action): State
    requires Enabled(s, a)
  {
    Perform(s, a.t, Effects(s, a), Strays(s, a))
  }

  /** No object yet, no handle constructed, every activity idle; any number of each, and any of the handles to be
      members of objects to come. */
  predicate Init(s: State) {
    && s.blocks == [] && |s.homes| == |s.strong| && !s.trapped && !s.touchedFreed
    && (forall i :: 0 <= i < |s.strong| ==> s.strong[i] == Dead)
    && (forall i :: 0 <= i < |s.weak| ==> s.weak[i] == Dead)
    && (forall i :: 0 <= i < |s.tasks| ==> s.tasks[i] == Idle)
  }

  ghost predicate Next(s: State, s': State) {
    exists a :: Enabled(s, a) && s' == Apply(s, a)
  }

  /** A run: one interleaving of any length. */
  ghost predicate IsRun(run: seq<State>) {
    && |run| > 0 && Init(run[0])
    && forall i :: 0 <= i < |run| - 1 ==> Next(run[i], run[i + 1])
  }

  // ---------------------------------------------------------------------------------- Clean runs

  /** The strong (resp. weak) handles an activity has exclusively. */
  predicate Holds(task: Task, h: nat) {
    match task
    case Idle => false
    case WeakAdd(_, _, _) => false
    case WeakRelease(_, _) => false
    case WeakFree(_, _) => false
    case Release(dst, _, after) => h == dst || AfterHolds(after, h)
    case Destruct(dst, _, after) => h == dst || AfterHolds(after, h)
    case Members(dst, _, after) => h == dst || AfterHolds(after, h)
    case SelfUnref(dst, _, after) => h == dst || AfterHolds(after, h)
    case SelfFree(dst, _, after) => h == dst || AfterHolds(after, h)
    case Clear(dst, after) => h == dst || AfterHolds(after, h)
    case _ => h == task.dst
  }

  predicate AfterHolds(after: After, h: nat) { after.AssignMove? && after.donor == h }

  /** No activity is in the middle of an operation on a member of o: of constructing, resetting, assigning or
      destroying it, or of one that is going to read it. */
  predicate Undisturbed(s: State, o: nat) {
    forall i, h :: 0 <= i < |s.tasks| && 0 <= h < |s.homes| && HomeOf(s, h) == Some(o) ==>
      !Holds(s.tasks[i], h) && !BorrowsStrong(s.tasks[i], h)
  }

  /** Nobody takes a reference to an object that is being destroyed, neither through the handle whose reset or
      assignment has called its destructor nor through `this`. */
  ghost predicate LeftAlone(s: State) {
    forall i :: 0 <= i < |s.tasks| && Destroying(s, i) ==>
      && (Inside(s.tasks[i]) ==> IsAlone(s, i, s.tasks[i].dst))
      && forall j :: 0 <= j < |s.tasks| ==> !AdoptsThis(s.tasks[j], i)
  }

  predicate AdoptsThis(task: Task, b: nat) { task.RefAdd? && task.origin == FromThis(b) }

  /** Nobody uses the handle but the activity. */
  ghost predicate IsAlone(s: State, i: nat, h: nat) {
    && h < |s.strong| && s.strong[h] == Held
    && forall j :: 0 <= j < |s.tasks| && j != i ==> !Holds(s.tasks[j], h) && !BorrowsStrong(s.tasks[j], h)
  }

  /** When the Deallocate after a std::exception releases a block, neither counter counts a handle that the
      constructor has published; when a destructor comes to the members of its object, no operation on one of them is
      under way; and no destructor has begun to use a handle whose own reset or assignment has called it, or `this`. */
  ghost predicate CleanNext(s: State, s': State) {
    && |s'.blocks| >= |s.blocks|
    && (forall o :: 0 <= o < |s.blocks| && s.blocks[o].birth == ThrewStd && s'.blocks[o].freed > s.blocks[o].freed ==>
          s.blocks[o].strong == 1 && s.blocks[o].weak == 1)
    && (forall o :: 0 <= o < |s.blocks| && s'.blocks[o].destroyed > s.blocks[o].destroyed ==> Undisturbed(s, o))
    && LeftAlone(s')
  }

  ghost predicate IsCleanRun(run: seq<State>) {
    IsRun(run) && forall i :: 0 <= i < |run| - 1 ==> CleanNext(run[i], run[i + 1])
  }
}
