/** Reference counting by many threads, whose steps interleave in any way. */
module RefCount {
  import opened Options

  /** How far the operation under way on a pointer has got. */
  datatype Phase =
    | Idle
    | Entering(from: nat)                        // copy-constructed from a pointer, not counted yet
    | Taking(other: Option<nat>, from: nat)      // assigned: has read the other pointer
    | Took(other: Option<nat>)                   // has counted the new object
    | Dropped(other: Option<nat>)                // has let the old object go
    | Gone                                       // destroyed

  datatype Pointer = Pointer(ptr: Option<nat>, phase: Phase)

  datatype Object = Object(count: int, referenced: bool, deleted: bool)

  datatype State = State(pointers: seq<Pointer>, objects: seq<Object>)

  /** Every operation on a strong pointer is a few atomic steps. What is asked of the threads is only that none changes
      a pointer that another one uses. */
  datatype Step =
    | NewObject
    | NewPointer
    | ConstructFromObject(target: nat)
    | BeginCopy(from: nat)
    | FinishCopy(pointer: nat)
    | BeginAssign(pointer: nat, from: nat)
    | AssignObject(pointer: nat, other: Option<nat>)
    | Increment(pointer: nat)
    | Decrement(pointer: nat)
    | Store(pointer: nat)
    | Clear(pointer: nat)
    | Destroy(pointer: nat)

  // ----- The two atomic operations on counts -----

  /** incStrong, on nothing or on an object. */
  function Inc(objects: seq<Object>, o: Option<nat>): (r: seq<Object>)
    requires o.Some? ==> o.value < |objects|
    ensures |r| == |objects|
  {
    if o == None then objects
    else objects[o.value := objects[o.value].(count := objects[o.value].count + 1, referenced := true)]
  }

  /** decStrong: whoever takes the count from one deletes the object. */
  function Dec(objects: seq<Object>, o: Option<nat>): (r: seq<Object>)
    requires o.Some? ==> o.value < |objects|
    ensures |r| == |objects|
  {
    if o == None then objects
    else
      var was := objects[o.value];
      objects[o.value := was.(count := was.count - 1, deleted := was.deleted || was.count == 1)]
  }

  // ----- Steps -----

  predicate IsObject(s: State, o: Option<nat>) { o.Some? ==> o.value < |s.objects| }

  predicate Alive(s: State, o: Option<nat>) { o.Some? ==> o.value < |s.objects| && !s.objects[o.value].deleted }

  /** Whether a pointer is being copied from. */
  predicate BeingRead(s: State, x: nat) {
    exists y :: 0 <= y < |s.pointers| && ReadsFrom(s.pointers[y], x)
  }

  predicate ReadsFrom(p: Pointer, x: nat) {
    match p.phase
    case Entering(from) => from == x
    case Taking(_, from) => from == x
    case _ => false
  }

  predicate IsIdle(s: State, x: nat) { x < |s.pointers| && s.pointers[x].phase == Idle }

  /** Whether a pointer may be changed: no other operation uses it. */
  predicate IsFree(s: State, x: nat) { IsIdle(s, x) && !BeingRead(s, x) }

  predicate Allowed(s: State, step: Step) {
    match step
    case NewObject => true
    case NewPointer => true
    case ConstructFromObject(o) => Alive(s, Some(o))
    case BeginCopy(from) => IsIdle(s, from)
    case FinishCopy(x) => x < |s.pointers| && s.pointers[x].phase.Entering? && IsObject(s, s.pointers[x].ptr)
    case BeginAssign(x, from) => IsFree(s, x) && IsIdle(s, from)
    case AssignObject(x, other) => IsFree(s, x) && Alive(s, other)
    case Increment(x) => x < |s.pointers| && s.pointers[x].phase.Taking? && IsObject(s, s.pointers[x].phase.other)
    case Decrement(x) => x < |s.pointers| && s.pointers[x].phase.Took? && IsObject(s, s.pointers[x].ptr)
    case Store(x) => x < |s.pointers| && s.pointers[x].phase.Dropped?
    case Clear(x) => IsFree(s, x) && IsObject(s, s.pointers[x].ptr)
    case Destroy(x) => IsFree(s, x) && IsObject(s, s.pointers[x].ptr)
  }

  /** The pointers after a step. */
  function PointersAfter(s: State, step: Step): seq<Pointer>
    requires Allowed(s, step)
  {
    var ps := s.pointers;
    match step
    case NewObject => ps
    case NewPointer => ps + [Pointer(None, Idle)]
    case ConstructFromObject(o) => ps + [Pointer(Some(o), Idle)]
    case BeginCopy(from) => ps + [Pointer(ps[from].ptr, Entering(from))]
    case FinishCopy(x) => ps[x := ps[x].(phase := Idle)]
    case BeginAssign(x, from) => ps[x := ps[x].(phase := Taking(ps[from].ptr, from))]
    case AssignObject(x, other) => ps[x := ps[x].(phase := Took(other))]
    case Increment(x) => ps[x := ps[x].(phase := Took(ps[x].phase.other))]
    case Decrement(x) => ps[x := ps[x].(phase := Dropped(ps[x].phase.other))]
    case Store(x) => ps[x := Pointer(ps[x].phase.other, Idle)]
    case Clear(x) => ps[x := ps[x].(phase := if ps[x].ptr == None then Idle else Dropped(None))]
    case Destroy(x) => ps[x := ps[x].(phase := Gone)]
  }

  /** The object that a step counts up, and the one that it counts down. */
  function Counts(s: State, step: Step): Option<nat>
    requires Allowed(s, step)
  {
    match step
    case ConstructFromObject(o) => Some(o)
    case FinishCopy(x) => s.pointers[x].ptr
    case AssignObject(_, other) => other
    case Increment(x) => s.pointers[x].phase.other
    case _ => None
  }

  function Drops(s: State, step: Step): Option<nat>
    requires Allowed(s, step)
  {
    match step
    case Decrement(x) => s.pointers[x].ptr
    case Clear(x) => s.pointers[x].ptr
    case Destroy(x) => s.pointers[x].ptr
    case _ => None
  }

  function After(s: State, step: Step): State
    requires Allowed(s, step)
  {
    var objects := Dec(Inc(s.objects, Counts(s, step)), Drops(s, step));
    State(PointersAfter(s, step), if step.NewObject? then objects + [Object(0, false, false)] else objects)
  }

  // ----- What the counts mean -----

  function One(b: bool): nat { if b then 1 else 0 }

  /** How many references to an object a pointer accounts for, wherever its operation is. */
  function Holds(p: Pointer, o: nat): nat {
    match p.phase
    case Idle => One(p.ptr == Some(o))
    case Entering(_) => 0
    case Taking(_, _) => One(p.ptr == Some(o))
    case Took(other) => One(p.ptr == Some(o)) + One(other == Some(o))
    case Dropped(other) => One(other == Some(o))
    case Gone => 0
  }

  function Held(ps: seq<Pointer>, o: nat): nat { if ps == [] then 0 else Holds(ps[0], o) + Held(ps[1..], o) }

  /** Whether a pointer is what its phase needs it to be. */
  predicate Sound(s: State, x: nat)
    requires x < |s.pointers|
  {
    var p := s.pointers[x];
    && IsObject(s, p.ptr)
    && match p.phase
       case Entering(from) => IsIdle(s, from) && p.ptr == s.pointers[from].ptr
       case Taking(other, from) => (from == x || IsIdle(s, from)) && other == s.pointers[from].ptr
       case Took(other) => IsObject(s, other)
       case Dropped(other) => IsObject(s, other)
       case _ => true
  }

  /** Whether an object has been deleted if and only if it was referenced and is no longer. */
  predicate Settled(o: Object) { (o.count > 0 ==> o.referenced) && (o.deleted <==> o.referenced && o.count == 0) }

  predicate Inv(s: State) {
    && (forall x :: 0 <= x < |s.pointers| ==> Sound(s, x))
    && (forall o :: 0 <= o < |s.objects| ==> s.objects[o].count == Held(s.pointers, o))
    && (forall o :: 0 <= o < |s.objects| ==> Settled(s.objects[o]))
  }

  lemma {:induction false} HeldAppends(ps: seq<Pointer>, p: Pointer, o: nat)
    ensures Held(ps + [p], o) == Held(ps, o) + Holds(p, o)
  {
    if ps == [] {
      assert ps + [p] == [p];
      assert [p][1..] == [];
    } else {
      HeldAppends(ps[1..], p, o);
      assert (ps + [p])[1..] == ps[1..] + [p];
    }
  }

  lemma {:induction false} HeldUpdates(ps: seq<Pointer>, x: nat, p: Pointer, o: nat)
    requires x < |ps|
    ensures Held(ps[x := p], o) + Holds(ps[x], o) == Held(ps, o) + Holds(p, o)
    ensures Held(ps, o) >= Holds(ps[x], o)
  {
    if x == 0 {
      assert ps[0 := p][1..] == ps[1..];
    } else {
      HeldUpdates(ps[1..], x - 1, p, o);
      assert ps[x := p][1..] == ps[1..][x - 1 := p];
    }
  }

  /** What no pointer is at is not held. */
  lemma {:induction false} NewIsNotHeld(ps: seq<Pointer>, o: nat)
    requires forall x :: 0 <= x < |ps| ==> Holds(ps[x], o) == 0
    ensures Held(ps, o) == 0
  {
    if ps != [] {
      NewIsNotHeld(ps[1..], o);
    }
  }

  // ----- One step -----

  /** A new pointer holds just what it counts. */
  lemma NewPointerIsCounted(s: State, step: Step, o: nat)
    requires Allowed(s, step) && (step.NewPointer? || step.ConstructFromObject? || step.BeginCopy?)
    ensures
      var ps, qs := s.pointers, PointersAfter(s, step);
      && |qs| == |ps| + 1 && qs == ps + [qs[|ps|]]
      && Holds(qs[|ps|], o) == One(Counts(s, step) == Some(o)) && Drops(s, step) == None
  {
    hide Held;
  }

  /** A pointer that is changed holds more by what it counts up, and less by what it counts down. */
  lemma ChangeIsCounted(s: State, step: Step, o: nat)
    requires Allowed(s, step)
    requires !step.NewObject? && !step.NewPointer? && !step.ConstructFromObject? && !step.BeginCopy?
    ensures
      var ps, qs, x := s.pointers, PointersAfter(s, step), step.pointer;
      && x < |ps| == |qs| && qs == ps[x := qs[x]]
      && Holds(qs[x], o) == Holds(ps[x], o) + One(Counts(s, step) == Some(o)) - One(Drops(s, step) == Some(o))
  {
    hide Held, BeingRead;
  }

  /** A step adds to what is held just what it counts up, and takes away just what it counts down. */
  lemma StepIsCounted(s: State, step: Step, o: nat)
    requires Allowed(s, step)
    ensures Held(PointersAfter(s, step), o)
         == Held(s.pointers, o) + One(Counts(s, step) == Some(o)) - One(Drops(s, step) == Some(o))
  {
    var ps, qs := s.pointers, PointersAfter(s, step);
    if step.NewPointer? || step.ConstructFromObject? || step.BeginCopy? {
      NewPointerIsCounted(s, step, o);
      hide PointersAfter, Allowed, Counts, Held, Holds;
      HeldAppends(ps, qs[|ps|], o);
    } else if !step.NewObject? {
      ChangeIsCounted(s, step, o);
      hide PointersAfter, Allowed, Counts, Drops, Held, Holds;
      HeldUpdates(ps, step.pointer, qs[step.pointer], o);
    }
  }

  /** What an idle pointer is at is held. */
  lemma IdleHolds(s: State, x: nat)
    requires Inv(s) && x < |s.pointers| && s.pointers[x].ptr.Some?
    requires s.pointers[x].phase.Idle? || s.pointers[x].phase.Taking? || s.pointers[x].phase.Took?
    ensures Alive(s, s.pointers[x].ptr) && s.objects[s.pointers[x].ptr.value].count > 0
  {
    var o := s.pointers[x].ptr.value;
    assert Sound(s, x);
    HeldUpdates(s.pointers, x, s.pointers[x], o);
    assert s.objects[o].count == Held(s.pointers, o);
    assert Settled(s.objects[o]);
  }

  /** No step touches an object that has been deleted, whatever the other operations under way are. */
  lemma NothingDeletedIsTouched(s: State, step: Step)
    requires Inv(s) && Allowed(s, step)
    ensures Alive(s, Counts(s, step)) && Alive(s, Drops(s, step))
  {
    match step
    case FinishCopy(x) =>
      assert Sound(s, x);
      if s.pointers[x].ptr.Some? { IdleHolds(s, s.pointers[x].phase.from); }
    case Increment(x) =>
      assert Sound(s, x);
      if s.pointers[x].phase.other.Some? { IdleHolds(s, s.pointers[x].phase.from); }
    case Decrement(x) =>
      if s.pointers[x].ptr.Some? { IdleHolds(s, x); }
    case Clear(x) =>
      if s.pointers[x].ptr.Some? { IdleHolds(s, x); }
    case Destroy(x) =>
      if s.pointers[x].ptr.Some? { IdleHolds(s, x); }
    case _ =>
  }

  /** What a step does to one object. */
  lemma ObjectAfter(s: State, step: Step, o: nat)
    requires Inv(s) && Allowed(s, step) && o < |s.objects|
    ensures
      var was, now := s.objects[o], After(s, step).objects[o];
      && now.count == was.count + One(Counts(s, step) == Some(o)) - One(Drops(s, step) == Some(o))
      && now.referenced == (was.referenced || Counts(s, step) == Some(o))
      && now.deleted == (was.deleted || (Drops(s, step) == Some(o) && was.count == 1))
      && (Counts(s, step) == None || Drops(s, step) == None)
  {
    NothingDeletedIsTouched(s, step);
  }

  lemma ObjectsStaySettled(s: State, step: Step, o: nat)
    requires Inv(s) && Allowed(s, step) && o < |After(s, step).objects|
    ensures After(s, step).objects[o].count == Held(PointersAfter(s, step), o)
    ensures Settled(After(s, step).objects[o])
  {
    hide PointersAfter, Held;
    StepIsCounted(s, step, o);
    if o < |s.objects| {
      NothingDeletedIsTouched(s, step);
      ObjectAfter(s, step, o);
      DroppedIsHeld(s, step);
      assert Settled(s.objects[o]) && s.objects[o].count == Held(s.pointers, o);
    } else {
      forall x | 0 <= x < |s.pointers|
        ensures Holds(s.pointers[x], o) == 0
      {
        assert Sound(s, x);
      }
      NewIsNotHeld(s.pointers, o);
    }
  }

  /** What a step lets go is held until then. */
  lemma DroppedIsHeld(s: State, step: Step)
    requires Inv(s) && Allowed(s, step)
    ensures Drops(s, step).Some? ==> s.objects[Drops(s, step).value].count > 0
  {
    if Drops(s, step).Some? {
      var x := match step case Decrement(x) => x case Clear(x) => x case Destroy(x) => x case _ => 0;
      IdleHolds(s, x);
    }
  }

  lemma PointersStaySound(s: State, step: Step, x: nat)
    requires Inv(s) && Allowed(s, step) && x < |PointersAfter(s, step)|
    ensures Sound(After(s, step), x)
  {
    hide Inc, Dec, Held, Settled;
    if x < |s.pointers| {
      assert Sound(s, x);
      var p := s.pointers[x];
      if p.phase.Entering? {
        assert ReadsFrom(p, p.phase.from);
        assert BeingRead(s, p.phase.from);
      } else if p.phase.Taking? {
        assert ReadsFrom(p, p.phase.from);
        assert BeingRead(s, p.phase.from);
        assert Sound(s, p.phase.from);
      }
    } else if step.BeginCopy? {
      assert Sound(s, step.from);
    }
  }

  /** Every step keeps the counts right. */
  lemma StepKeepsInv(s: State, step: Step)
    requires Inv(s) && Allowed(s, step)
    ensures Inv(After(s, step))
  {
    var t := After(s, step);
    forall x | 0 <= x < |t.pointers|
      ensures Sound(t, x)
    {
      PointersStaySound(s, step, x);
    }
    forall o | 0 <= o < |t.objects|
      ensures t.objects[o].count == Held(t.pointers, o) && Settled(t.objects[o])
    {
      ObjectsStaySettled(s, step, o);
    }
  }

  /** An object is deleted by a step exactly if the step takes the last reference to it away. */
  lemma DeletedWithTheLastReference(s: State, step: Step, o: nat)
    requires Inv(s) && Allowed(s, step) && o < |s.objects|
    ensures !s.objects[o].deleted && After(s, step).objects[o].deleted
       <==> Held(s.pointers, o) > 0 && Held(PointersAfter(s, step), o) == 0
    ensures s.objects[o].deleted ==> After(s, step).objects[o] == s.objects[o]
  {
    StepKeepsInv(s, step);
    hide PointersAfter, Held;
    ObjectAfter(s, step, o);
    NothingDeletedIsTouched(s, step);
    var t := After(s, step);
    assert Settled(s.objects[o]) && s.objects[o].count == Held(s.pointers, o);
    assert Settled(t.objects[o]) && t.objects[o].count == Held(t.pointers, o);
    if s.objects[o].deleted {
      NothingHappensToDeleted(s, step, o);
    }
  }

  lemma NothingHappensToDeleted(s: State, step: Step, o: nat)
    requires Inv(s) && Allowed(s, step) && o < |s.objects| && s.objects[o].deleted
    ensures After(s, step).objects[o] == s.objects[o]
  {
    NothingDeletedIsTouched(s, step);
  }

  /** Assigning a pointer what it is at already deletes nothing, whatever else goes on. */
  lemma SelfAssignmentDeletesNothing(s: State, x: nat)
    requires Inv(s) && Allowed(s, Decrement(x)) && s.pointers[x].phase == Took(s.pointers[x].ptr)
    ensures forall o :: 0 <= o < |s.objects| ==> After(s, Decrement(x)).objects[o].deleted == s.objects[o].deleted
  {
    forall o | 0 <= o < |s.objects|
      ensures After(s, Decrement(x)).objects[o].deleted == s.objects[o].deleted
    {
      HeldUpdates(s.pointers, x, s.pointers[x], o);
      assert s.objects[o].count == Held(s.pointers, o);
    }
  }

  // ----- Runs -----

  /** Where a run of steps leads, if each is allowed where it is taken. */
  predicate Runs(s: State, steps: seq<Step>, t: State)
    decreases |steps|
  {
    if steps == [] then s == t
    else Allowed(s, steps[0]) && Runs(After(s, steps[0]), steps[1..], t)
  }

  lemma {:induction false} EveryRunKeepsInv(s: State, steps: seq<Step>, t: State)
    requires Inv(s) && Runs(s, steps, t)
    ensures Inv(t)
    decreases |steps|
  {
    if steps != [] {
      StepKeepsInv(s, steps[0]);
      EveryRunKeepsInv(After(s, steps[0]), steps[1..], t);
    }
  }

  /** How many pointers that are not gone point at an object. */
  function PointingAt(ps: seq<Pointer>, o: nat): nat {
    if ps == [] then 0 else One(!ps[0].phase.Gone? && ps[0].ptr == Some(o)) + PointingAt(ps[1..], o)
  }

  /** Whenever no operation is under way after a run from nothing, each object's count is the number of live pointers at
      it, and the objects that are deleted are those that were referenced and no longer are. */
  lemma CountsAreLivePointers(steps: seq<Step>, t: State, o: nat)
    requires Runs(State([], []), steps, t) && o < |t.objects|
    requires forall x :: 0 <= x < |t.pointers| ==> t.pointers[x].phase.Idle? || t.pointers[x].phase.Gone?
    ensures t.objects[o].count == PointingAt(t.pointers, o)
    ensures t.objects[o].deleted <==> t.objects[o].referenced && PointingAt(t.pointers, o) == 0
  {
    EveryRunKeepsInv(State([], []), steps, t);
    HeldIsPointing(t.pointers, o);
    assert Settled(t.objects[o]);
  }

  lemma {:induction false} HeldIsPointing(ps: seq<Pointer>, o: nat)
    requires forall x :: 0 <= x < |ps| ==> ps[x].phase.Idle? || ps[x].phase.Gone?
    ensures Held(ps, o) == PointingAt(ps, o)
  {
    if ps != [] {
      HeldIsPointing(ps[1..], o);
    }
  }

  // ----- Nothing waits -----

  /** The step that an operation under way takes next. */
  function NextStep(p: Pointer, x: nat): Option<Step> {
    match p.phase
    case Entering(_) => Some(FinishCopy(x))
    case Taking(_, _) => Some(Increment(x))
    case Took(_) => Some(Decrement(x))
    case Dropped(_) => Some(Store(x))
    case _ => None
  }

  /** Whatever else goes on, an operation under way can take its next step, */
  lemma NothingIsStuck(s: State, x: nat)
    requires Inv(s) && x < |s.pointers| && NextStep(s.pointers[x], x).Some?
    ensures Allowed(s, NextStep(s.pointers[x], x).value)
  {
    assert Sound(s, x);
    if s.pointers[x].phase.Taking? {
      assert Sound(s, s.pointers[x].phase.from);
    }
  }

  /** and any can begin on a pointer that none is under way on and none copies from. */
  lemma EachCanBegin(s: State, x: nat, from: nat, other: Option<nat>)
    requires Inv(s) && x < |s.pointers| && from < |s.pointers|
    requires other.Some? ==> other.value < |s.objects| && !s.objects[other.value].deleted
    requires s.pointers[x].phase == Idle && s.pointers[from].phase == Idle
    requires forall y :: 0 <= y < |s.pointers| && (s.pointers[y].phase.Entering? || s.pointers[y].phase.Taking?) ==>
      s.pointers[y].phase.from != x
    ensures Allowed(s, NewObject) && Allowed(s, NewPointer)
    ensures other.Some? ==> Allowed(s, ConstructFromObject(other.value))
    ensures Allowed(s, BeginCopy(from)) && Allowed(s, BeginAssign(x, from)) && Allowed(s, AssignObject(x, other))
    ensures Allowed(s, Clear(x)) && Allowed(s, Destroy(x))
  {
    assert Sound(s, x);
  }

  // ----- What the pointers are for their threads -----

  /** What each pointer is meant to be at: the operations without their steps, each taking effect when it begins. */
  function Meant(values: seq<Option<nat>>, step: Step): seq<Option<nat>>
    requires UsesOnly(|values|, step)
  {
    match step
    case NewPointer => values + [None]
    case ConstructFromObject(o) => values + [Some(o)]
    case BeginCopy(from) => values + [values[from]]
    case BeginAssign(x, from) => values[x := values[from]]
    case AssignObject(x, other) => values[x := other]
    case Clear(x) => values[x := None]
    case _ => values
  }

  /** Whether the pointers that a step begins with are among the first `n`. */
  predicate UsesOnly(n: nat, step: Step) {
    match step
    case BeginCopy(from) => from < n
    case BeginAssign(x, from) => x < n && from < n
    case AssignObject(x, _) => x < n
    case Clear(x) => x < n
    case _ => true
  }

  /** Whether a pointer is at what it is meant to be at, or is on the way there. */
  predicate IsMeant(p: Pointer, value: Option<nat>) {
    match p.phase
    case Idle => p.ptr == value
    case Entering(_) => p.ptr == value
    case Taking(other, _) => other == value
    case Took(other) => other == value
    case Dropped(other) => other == value
    case Gone => true
  }

  predicate AllMeant(ps: seq<Pointer>, values: seq<Option<nat>>) {
    |ps| == |values| && forall x :: 0 <= x < |ps| ==> IsMeant(ps[x], values[x])
  }

  lemma StepIsMeant(s: State, step: Step, values: seq<Option<nat>>)
    requires Inv(s) && Allowed(s, step) && AllMeant(s.pointers, values)
    ensures UsesOnly(|values|, step) && AllMeant(After(s, step).pointers, Meant(values, step))
  {
    var ps, vs := PointersAfter(s, step), Meant(values, step);
    forall x | 0 <= x < |ps|
      ensures IsMeant(ps[x], vs[x])
    {
      if x < |s.pointers| {
        assert IsMeant(s.pointers[x], values[x]);
      } else if step.BeginCopy? {
        assert IsMeant(s.pointers[step.from], values[step.from]);
      }
      if step.BeginAssign? {
        assert IsMeant(s.pointers[step.from], values[step.from]);
      }
    }
  }

  function MeantAll(values: seq<Option<nat>>, steps: seq<Step>): seq<Option<nat>>
    decreases |steps|
  {
    if steps == [] || !UsesOnly(|values|, steps[0]) then values else MeantAll(Meant(values, steps[0]), steps[1..])
  }

  lemma {:induction false} RunIsMeant(s: State, steps: seq<Step>, t: State, values: seq<Option<nat>>)
    requires Inv(s) && Runs(s, steps, t) && AllMeant(s.pointers, values)
    ensures AllMeant(t.pointers, MeantAll(values, steps))
    decreases |steps|
  {
    if steps != [] {
      StepKeepsInv(s, steps[0]);
      StepIsMeant(s, steps[0], values);
      RunIsMeant(After(s, steps[0]), steps[1..], t, Meant(values, steps[0]));
    }
  }

  /** However the steps interleave, a pointer that no operation is under way on is at what plain assignments, each done
      at once when it begins, would have it at. */
  lemma EveryRunIsPlain(steps: seq<Step>, t: State, x: nat)
    requires Runs(State([], []), steps, t) && x < |t.pointers| && t.pointers[x].phase.Idle?
    ensures
      var values := MeantAll([], steps);
      |values| == |t.pointers| && t.pointers[x].ptr == values[x]
  {
    RunIsMeant(State([], []), steps, t, []);
    assert IsMeant(t.pointers[x], MeantAll([], steps)[x]);
  }
}
