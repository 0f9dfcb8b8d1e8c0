/** What every run keeps of the live items: their code, boundaries and cells. */
module HookItems {
  import opened Options
  import opened HookTable

  // ----- What the code of an item was made of -----

  predicate EndsWith(s: seq<nat>, t: seq<nat>) { |t| <= |s| && s[|s| - |t|..] == t }

  /** Whether no target but `own` has the byte at `a`. */
  predicate Clear(targets: set<nat>, own: nat, a: nat) {
    forall x :: x in targets && x != own ==> !(Base(x) <= a < Base(x) + Length(x))
  }

  /** Whether memory is as at the start, except under other targets. */
  predicate FirstApart(mem: seq<bv8>, start: seq<bv8>, targets: set<nat>, own: nat) {
    |mem| == |start| && forall a :: 0 <= a < |start| && Clear(targets, own, a) ==> mem[a] == start[a]
  }

  /** Whether the code of an item is the trampoline of its saved bytes, made with the literals of a memory that was as
      at the start except under other targets. */
  ghost predicate MadeOf(it: Item, targets: set<nat>, start: seq<bv8>)
    requires it.target < 0x1_0000_0000 && |it.saved| == Length(it.target)
  {
    exists mem: seq<bv8>, elsewhere: bv32 -> bv32 ::
      FirstApart(mem, start, targets, it.target) && it.code == CodeFor(it.target, it.saved, LitOf(mem, elsewhere))
  }

  /** Whether that is so of an item, and its boundaries, behind what its slot counted before, are those of that
      trampoline. */
  ghost predicate Relocated(it: Item, targets: set<nat>, start: seq<bv8>) {
    && it.target < 0x1_0000_0000 && |it.saved| == Length(it.target) && MadeOf(it, targets, start)
    && EndsWith(it.origBoundaries, OrigFor(it.target, it.saved))
    && EndsWith(it.trampBoundaries, TrampFor(it.target, it.saved))
  }

  ghost predicate Coded(t: Table, targets: set<nat>, start: seq<bv8>) {
    && t.size <= |t.slots|
    && (forall i :: 0 <= i < |t.slots| ==> Paired(t.slots[i]))
    && (forall i :: 0 <= i < t.size ==> Relocated(t.slots[i], targets, start))
  }

  /** While a target is not registered, memory is as at the start except under others. */
  lemma NewTargetIsFirst(t: Table, targets: set<nat>, start: seq<bv8>, target: nat)
    requires Inv(t, targets, start) && Find(t, target, 0).None?
    ensures FirstApart(t.mem, start, targets, target)
  {
    hide Patch;
    forall a | 0 <= a < |start| && Clear(targets, target, a)
      ensures t.mem[a] == start[a]
    {
      forall i | 0 <= i < t.size
        ensures !Under(t, i, a)
      {
        assert Genuine(t, targets, start, i);
      }
    }
  }

  lemma RegistrationIsRelocated(t: Table, targets: set<nat>, start: seq<bv8>, q: Request, elsewhere: bv32 -> bv32)
    requires t.size < |t.slots| && InMemory(t, q.target) && Paired(t.slots[t.size])
    requires FirstApart(t.mem, start, targets, q.target)
    ensures Paired(Registration(t, q, elsewhere)) && Relocated(Registration(t, q, elsewhere), targets, start)
  {
    hide CodeFor, FirstApart;
    var it := Registration(t, q, elsewhere);
    if q.target % 2 == 1 {
      ThumbTables(HalfwordsOf(it.saved));
    } else {
      ArmTables(WordsOf(it.saved));
    }
    hide OrigFor, TrampFor;
    assert it.code == CodeFor(it.target, it.saved, LitOf(t.mem, elsewhere));
  }

  lemma RegisterCodes(t: Table, targets: set<nat>, start: seq<bv8>, q: Request, executable: bool,
                      elsewhere: bv32 -> bv32)
    requires Coded(t, targets, start) && Inv(t, targets, start)
    requires t.size < |t.slots| && InMemory(t, q.target)
    ensures Coded(Register(t, q, executable, elsewhere).0, targets, start)
  {
    hide Relocated, Paired, Inv, FirstApart;
    if Find(t, q.target, 0).None? {
      NewTargetIsFirst(t, targets, start, q.target);
      RegistrationIsRelocated(t, targets, start, q, elsewhere);
    }
    hide Registration;
  }

  lemma ApplyCodes(t: Table, targets: set<nat>, start: seq<bv8>, op: Op)
    requires Coded(t, targets, start) && Inv(t, targets, start) && AllFit(t) && Allowed(t, targets, op)
    ensures Coded(Apply(t, op), targets, start)
  {
    hide Relocated, Paired, Patch, Inv;
    match op
    case RegisterOp(q, executable, elsewhere) => RegisterCodes(t, targets, start, q, executable, elsewhere);
    case HookOp(target) =>
      match Find(t, target, 0) {
        case None =>
        case Some(i) => DoHookCodes(t, targets, start, i);
      }
    case UnhookOp(target) =>
      match FindHooked(t, target, 0) {
        case None =>
        case Some(i) => DoUnhookCodes(t, targets, start, i);
      }
    case UnhookAllOp => UnhookFromCodes(t, targets, start, 0);
    case HookAllOp => HookFromCodes(t, targets, start, 0);
  }

  lemma StatusIsNoMatter(it: Item, targets: set<nat>, start: seq<bv8>, status: Status)
    ensures Relocated(it.(status := status), targets, start) == Relocated(it, targets, start)
    ensures Paired(it.(status := status)) == Paired(it)
  {
    hide CodeFor, OrigFor, TrampFor, FirstApart;
  }

  lemma DoHookCodes(t: Table, targets: set<nat>, start: seq<bv8>, i: nat)
    requires Coded(t, targets, start) && AllFit(t) && i < t.size
    ensures Coded(DoHook(t, i), targets, start)
  {
    hide Relocated, Paired, Patch;
    StatusIsNoMatter(t.slots[i], targets, start, Hooked);
  }

  lemma DoUnhookCodes(t: Table, targets: set<nat>, start: seq<bv8>, i: nat)
    requires Coded(t, targets, start) && AllFit(t) && i < t.size
    ensures Coded(DoUnhook(t, i), targets, start)
  {
    hide Relocated, Paired;
  }

  lemma {:induction false} UnhookFromCodes(t: Table, targets: set<nat>, start: seq<bv8>, i: nat)
    requires Coded(t, targets, start) && AllFit(t) && i <= t.size
    ensures Coded(UnhookFrom(t, i), targets, start)
    decreases t.size - i
  {
    hide Coded, DoUnhook;
    if i < t.size {
      if t.slots[i].status == Hooked {
        DoUnhookCodes(t, targets, start, i);
        HookFits(t, i);
        UnhookFromCodes(DoUnhook(t, i), targets, start, i);
      } else {
        UnhookFromCodes(t, targets, start, i + 1);
      }
    }
  }

  lemma {:induction false} HookFromCodes(t: Table, targets: set<nat>, start: seq<bv8>, i: nat)
    requires Coded(t, targets, start) && AllFit(t) && i <= t.size
    ensures Coded(HookFrom(t, i), targets, start)
    decreases t.size - i
  {
    hide Coded, DoHook;
    if i < t.size {
      if t.slots[i].status == Registered {
        DoHookCodes(t, targets, start, i);
        HookFits(t, i);
        HookFromCodes(DoHook(t, i), targets, start, i + 1);
      } else {
        HookFromCodes(t, targets, start, i + 1);
      }
    }
  }

  lemma {:induction false} RunCodes(t: Table, targets: set<nat>, start: seq<bv8>, ops: seq<Op>, r: Table)
    requires Inv(t, targets, start) && PairwiseDisjoint(targets) && Runs(t, targets, ops, r)
    requires Coded(t, targets, start)
    ensures Coded(r, targets, start)
    decreases |ops|
  {
    hide Inv, Coded;
    if ops != [] {
      InvFits(t, targets, start);
      ApplyKeeps(t, targets, start, ops[0]);
      ApplyCodes(t, targets, start, ops[0]);
      RunCodes(Apply(t, ops[0]), targets, start, ops[1..], r);
    }
  }

  /** After every run from the empty table, whose slots count no boundaries, the code of each live item is the
      trampoline of the bytes that were at its target at the start, with the boundaries of that trampoline and with
      literals that, except under other targets, are those of memory at the start. */
  lemma EveryItemIsRelocated(slots: seq<Item>, protos: map<nat, nat>, targets: set<nat>, start: seq<bv8>, ops: seq<Op>,
                             r: Table, i: nat)
    requires PairwiseDisjoint(targets) && Runs(Table(slots, 0, start, protos), targets, ops, r)
    requires forall k :: 0 <= k < |slots| ==> slots[k].origBoundaries == [] && slots[k].trampBoundaries == []
    requires i < r.size
    ensures r.size <= |r.slots| && Relocated(r.slots[i], targets, start) && Paired(r.slots[i])
  {
    hide Relocated;
    RunCodes(Table(slots, 0, start, protos), targets, start, ops, r);
  }

  // ----- What the cells of the callers hold -----

  /** Whether a registration puts its pointer where only its target's pointer goes: `cells` says which cell is whose. */
  predicate UsesOwnCell(op: Op, cells: map<nat, nat>) {
    op.RegisterOp? && op.q.proto.Some? ==> op.q.proto.value in cells && cells[op.q.proto.value] == op.q.target
  }

  predicate UseOwnCells(ops: seq<Op>, cells: map<nat, nat>) {
    forall k :: 0 <= k < |ops| ==> UsesOwnCell(ops[k], cells)
  }

  /** The address that a caller of the trampoline branches to: bit 0 says Thumb. */
  function Entrance(it: Item): nat { it.page + it.target % 2 }

  predicate HasCell(it: Item, protos: map<nat, nat>, cells: map<nat, nat>) {
    it.proto.Some? ==>
      && it.proto.value in cells && cells[it.proto.value] == it.target
      && (it.status == Hooked ==> it.proto.value in protos && protos[it.proto.value] == Entrance(it))
  }

  ghost predicate Celled(t: Table, cells: map<nat, nat>) {
    t.size <= |t.slots| && forall i :: 0 <= i < t.size ==> HasCell(t.slots[i], t.protos, cells)
  }

  /** Hooking an item writes no other item's cell: two items with one cell would have one target. */
  lemma DoHookCells(t: Table, targets: set<nat>, start: seq<bv8>, cells: map<nat, nat>, i: nat)
    requires Celled(t, cells) && Inv(t, targets, start) && AllFit(t) && i < t.size
    ensures Celled(DoHook(t, i), cells)
  {
    hide Patch, Entrance, Genuine, Laid, Under;
    assert Fits(t, i);
    var r := DoHook(t, i);
    forall k | 0 <= k < r.size
      ensures HasCell(r.slots[k], r.protos, cells)
    {
      assert HasCell(t.slots[k], t.protos, cells) && HasCell(t.slots[i], t.protos, cells);
      if k != i {
        DistinctTargets(t, targets, start, i, k);
      } else {
        HookedCell(t, cells, i);
      }
    }
  }

  lemma HookedCell(t: Table, cells: map<nat, nat>, i: nat)
    requires Fits(t, i) && HasCell(t.slots[i], t.protos, cells)
    ensures HasCell(DoHook(t, i).slots[i], DoHook(t, i).protos, cells)
  {
    hide Patch;
  }

  lemma DistinctTargets(t: Table, targets: set<nat>, start: seq<bv8>, i: nat, k: nat)
    requires Inv(t, targets, start) && i < t.size && k < t.size && i != k
    ensures t.slots[i].target != t.slots[k].target
  {
    hide Patch, Genuine, Laid, Under;
    if i < k {
      assert t.slots[i].target != t.slots[k].target;
    } else {
      assert t.slots[k].target != t.slots[i].target;
    }
  }

  lemma DoUnhookCells(t: Table, cells: map<nat, nat>, i: nat)
    requires Celled(t, cells) && AllFit(t) && i < t.size
    ensures Celled(DoUnhook(t, i), cells)
  {
    hide HasCell;
  }

  lemma {:induction false} UnhookFromCells(t: Table, cells: map<nat, nat>, i: nat)
    requires Celled(t, cells) && AllFit(t) && i <= t.size
    ensures Celled(UnhookFrom(t, i), cells)
    decreases t.size - i
  {
    hide Celled, DoUnhook;
    if i < t.size {
      if t.slots[i].status == Hooked {
        DoUnhookCells(t, cells, i);
        HookFits(t, i);
        UnhookFromCells(DoUnhook(t, i), cells, i);
      } else {
        UnhookFromCells(t, cells, i + 1);
      }
    }
  }

  lemma {:induction false} HookFromCells(t: Table, targets: set<nat>, start: seq<bv8>, cells: map<nat, nat>, i: nat)
    requires Celled(t, cells) && Inv(t, targets, start) && PairwiseDisjoint(targets) && AllFit(t) && i <= t.size
    ensures Celled(HookFrom(t, i), cells)
    decreases t.size - i
  {
    hide Celled, Inv, DoHook;
    if i < t.size {
      if t.slots[i].status == Registered {
        DoHookCells(t, targets, start, cells, i);
        DoHookKeeps(t, targets, start, i);
        HookFits(t, i);
        HookFromCells(DoHook(t, i), targets, start, cells, i + 1);
      } else {
        HookFromCells(t, targets, start, cells, i + 1);
      }
    }
  }

  lemma ApplyCells(t: Table, targets: set<nat>, start: seq<bv8>, cells: map<nat, nat>, op: Op)
    requires Celled(t, cells) && Inv(t, targets, start) && PairwiseDisjoint(targets) && AllFit(t)
    requires Allowed(t, targets, op) && UsesOwnCell(op, cells)
    ensures Celled(Apply(t, op), cells)
  {
    hide Patch, Inv, CodeFor, OrigFor, TrampFor;
    match op
    case RegisterOp(q, executable, elsewhere) =>
    case HookOp(target) =>
      hide HasCell;
      match Find(t, target, 0) {
        case None =>
        case Some(i) => DoHookCells(t, targets, start, cells, i);
      }
    case UnhookOp(target) =>
      hide HasCell;
      match FindHooked(t, target, 0) {
        case None =>
        case Some(i) => DoUnhookCells(t, cells, i);
      }
    case UnhookAllOp => UnhookFromCells(t, cells, 0);
    case HookAllOp => HookFromCells(t, targets, start, cells, 0);
  }

  lemma {:induction false} RunCells(t: Table, targets: set<nat>, start: seq<bv8>, cells: map<nat, nat>, ops: seq<Op>,
                                    r: Table)
    requires Inv(t, targets, start) && PairwiseDisjoint(targets) && Runs(t, targets, ops, r) && Celled(t, cells)
    requires UseOwnCells(ops, cells)
    ensures Celled(r, cells)
    decreases |ops|
  {
    hide Inv, Celled, UsesOwnCell;
    if ops != [] {
      InvFits(t, targets, start);
      ApplyKeeps(t, targets, start, ops[0]);
      ApplyCells(t, targets, start, cells, ops[0]);
      RunCells(Apply(t, ops[0]), targets, start, cells, ops[1..], r);
    }
  }

  /** After every run whose registrations use distinct cells for distinct targets, the cell of each hooked item holds
      the address of its trampoline, with bit 0 for Thumb, whatever was hooked and unhooked since. */
  lemma EveryHookedItemHasItsCell(slots: seq<Item>, protos: map<nat, nat>, targets: set<nat>, start: seq<bv8>,
                                  cells: map<nat, nat>, ops: seq<Op>, r: Table, i: nat)
    requires PairwiseDisjoint(targets) && Runs(Table(slots, 0, start, protos), targets, ops, r)
    requires UseOwnCells(ops, cells)
    requires i < r.size
    ensures r.size <= |r.slots|
    ensures
      var it := r.slots[i];
      it.status == Hooked && it.proto.Some? ==> it.proto.value in r.protos && r.protos[it.proto.value] == Entrance(it)
  {
    hide UsesOwnCell, Entrance;
    RunCells(Table(slots, 0, start, protos), targets, start, cells, ops, r);
    assert HasCell(r.slots[i], r.protos, cells);
  }
}
