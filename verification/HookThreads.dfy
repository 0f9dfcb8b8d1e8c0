/** Moving a stopped thread by whichever item claims its PC. */
module HookThreads {
  import opened Options
  import opened HookTable
  import opened HookItems
  import opened HookMigration
  import ArmRelocator
  import ThumbChunks
  import ThumbRelocator

  /** Every live item has as many boundaries on either side. */
  predicate Matched(t: Table) {
    t.size <= |t.slots| && forall i :: 0 <= i < t.size ==> |t.slots[i].origBoundaries| == |t.slots[i].trampBoundaries|
  }

  predicate Moves(it: Item, pc: nat, action: Action)
    requires |it.origBoundaries| == |it.trampBoundaries|
  {
    Migrate(it, pc, action).1
  }

  /** The first live item, from slot `i` on, that moves a PC. */
  function Mover(t: Table, pc: nat, action: Action, i: nat): (r: Option<nat>)
    requires Matched(t) && i <= t.size
    ensures r.Some? ==> i <= r.value < t.size && Moves(t.slots[r.value], pc, action)
                        && forall k :: i <= k < r.value ==> !Moves(t.slots[k], pc, action)
    ensures r.None? ==> forall k :: i <= k < t.size ==> !Moves(t.slots[k], pc, action)
    decreases t.size - i
  {
    if i == t.size then None
    else if Moves(t.slots[i], pc, action) then Some(i)
    else Mover(t, pc, action, i + 1)
  }

  /** processThreadPC for all items: the new PC, and whether it was moved. */
  function MigrateAny(t: Table, pc: nat, action: Action): (nat, bool)
    requires Matched(t)
  {
    match Mover(t, pc, action, 0)
    case None => (pc, false)
    case Some(m) => Migrate(t.slots[m], pc, action)
  }

  // ----- Whose a PC is -----

  predicate InTarget(it: Item, pc: nat) { Base(it.target) <= pc < Base(it.target) + Length(it.target) }

  predicate InPage(it: Item, pc: nat) { it.page <= pc < it.page + 0x1000 }

  /** The target and the page have 32-bit addresses, and the trampoline boundaries are in the page. */
  predicate Placed(it: Item) {
    && Paired(it) && Base(it.target) + Length(it.target) <= 0x1_0000_0000 && it.page + 0x1000 <= 0x1_0000_0000
    && forall e :: 0 <= e < |it.trampBoundaries| ==> it.trampBoundaries[e] < 0x1000
  }

  predicate PagesApart(it: Item, other: Item) { it.page + 0x1000 <= other.page || other.page + 0x1000 <= it.page }

  /** No two live items share a byte of a target or of a page. */
  predicate Apart(t: Table) {
    && t.size <= |t.slots| && (forall i :: 0 <= i < t.size ==> Placed(t.slots[i]))
    && (forall i, j :: 0 <= i < j < t.size ==>
          Disjoint(t.slots[i].target, t.slots[j].target) && PagesApart(t.slots[i], t.slots[j]))
  }

  /** The original boundaries are in the target, too: none is left over from a longer one. */
  predicate WithinTarget(it: Item) {
    forall e :: 0 <= e < |it.origBoundaries| ==> it.origBoundaries[e] < Length(it.target)
  }

  lemma WrapIn(from: nat, b: nat)
    requires from + b < 0x1_0000_0000
    ensures Wrap(from + b) == from + b
  {
  }

  /** What is moved in is moved into the page; what is moved out was there; and what is moved in was in the target, if
      the boundaries are. */
  lemma WhereMoved(it: Item, pc: nat)
    requires Placed(it) && pc < 0x1_0000_0000
    ensures Moves(it, pc, Enable) ==> InPage(it, Migrate(it, pc, Enable).0)
    ensures Moves(it, pc, Disable) ==> InPage(it, pc)
    ensures Moves(it, pc, Enable) && WithinTarget(it) ==> InTarget(it, pc)
  {
    hide Wrap, Offset, Base, Length;
    var e := Entry(it.origBoundaries, Offset(pc, Base(it.target)), 0);
    if e.Some? {
      OffsetBack(pc, Base(it.target));
      WrapIn(it.page, it.trampBoundaries[e.value]);
      if WithinTarget(it) {
        WrapIn(Base(it.target), it.origBoundaries[e.value]);
      }
    }
    var d := Entry(it.trampBoundaries, Offset(pc, it.page), 0);
    if d.Some? {
      OffsetBack(pc, it.page);
      WrapIn(it.page, it.trampBoundaries[d.value]);
    }
  }

  lemma ApartIsMatched(t: Table)
    requires Apart(t)
    ensures Matched(t)
  {
    forall i | 0 <= i < t.size
      ensures |t.slots[i].origBoundaries| == |t.slots[i].trampBoundaries|
    {
      assert Placed(t.slots[i]);
    }
  }

  lemma ApartItems(t: Table, i: nat, j: nat)
    requires Apart(t) && i < t.size && j < t.size && i != j
    ensures Placed(t.slots[i]) && Placed(t.slots[j])
    ensures Disjoint(t.slots[i].target, t.slots[j].target) && PagesApart(t.slots[i], t.slots[j])
  {
    if j < i {
      assert Disjoint(t.slots[j].target, t.slots[i].target) && PagesApart(t.slots[j], t.slots[i]);
    }
  }

  /** Two items never move a PC to one place. */
  lemma NewPcsDiffer(t: Table, i: nat, j: nat, pc: nat)
    requires Apart(t) && i < t.size && j < t.size && i != j && pc < 0x1_0000_0000
    ensures Placed(t.slots[i]) && Placed(t.slots[j])
    ensures Moves(t.slots[i], pc, Enable) ==> Migrate(t.slots[i], pc, Enable) != Migrate(t.slots[j], pc, Enable)
  {
    hide Placed, Migrate;
    ApartItems(t, i, j);
    PlacedIsPaired(t.slots[i]);
    PlacedIsPaired(t.slots[j]);
    WhereMoved(t.slots[i], pc);
    WhereMoved(t.slots[j], pc);
  }

  lemma PlacedIsPaired(it: Item)
    requires Placed(it)
    ensures |it.origBoundaries| == |it.trampBoundaries|
  {
  }

  /** Whether item `j` has the say over a PC: nobody before it claims it, and if it does not either, nobody does. */
  predicate HasTheSay(t: Table, j: nat, pc: nat)
    requires Matched(t) && j < t.size
  {
    forall i :: 0 <= i < t.size && i != j && Moves(t.slots[i], pc, Enable) ==> j < i && Moves(t.slots[j], pc, Enable)
  }

  /** Hooking moves a thread as item `j` alone would exactly if that has the say over its PC. */
  lemma MovedByItemIff(t: Table, j: nat, pc: nat)
    requires Apart(t) && j < t.size && pc < 0x1_0000_0000
    ensures Matched(t)
    ensures MigrateAny(t, pc, Enable) == Migrate(t.slots[j], pc, Enable) <==> HasTheSay(t, j, pc)
  {
    hide Apart, Migrate;
    ApartIsMatched(t);
    var m := Mover(t, pc, Enable, 0);
    if m.Some? && m.value != j {
      NewPcsDiffer(t, m.value, j, pc);
    } else if m.None? {
      NotMoved(t.slots[j], pc, Enable);
    }
  }

  lemma NotMoved(it: Item, pc: nat, action: Action)
    requires |it.origBoundaries| == |it.trampBoundaries|
    ensures !Moves(it, pc, action) ==> Migrate(it, pc, action) == (pc, false)
  {
  }

  /** If all boundaries are in their targets, a PC in a target is moved by its own item, and any other stays. */
  lemma HookingMovesOwn(t: Table, pc: nat)
    requires Apart(t) && pc < 0x1_0000_0000 && forall i :: 0 <= i < t.size ==> WithinTarget(t.slots[i])
    ensures Matched(t)
    ensures forall j :: 0 <= j < t.size && InTarget(t.slots[j], pc) ==>
      MigrateAny(t, pc, Enable) == Migrate(t.slots[j], pc, Enable)
    ensures (forall j :: 0 <= j < t.size ==> !InTarget(t.slots[j], pc)) ==> MigrateAny(t, pc, Enable) == (pc, false)
  {
    hide Apart, Migrate, WithinTarget;
    ApartIsMatched(t);
    forall i | 0 <= i < t.size && Moves(t.slots[i], pc, Enable)
      ensures InTarget(t.slots[i], pc)
    {
      ApartItem(t, i);
      WhereMoved(t.slots[i], pc);
    }
    forall j | 0 <= j < t.size && InTarget(t.slots[j], pc)
      ensures MigrateAny(t, pc, Enable) == Migrate(t.slots[j], pc, Enable)
    {
      forall i | 0 <= i < t.size && i != j
        ensures !Moves(t.slots[i], pc, Enable)
      {
        ApartItems(t, i, j);
      }
      MovedByItemIff(t, j, pc);
    }
  }

  lemma ApartItem(t: Table, i: nat)
    requires Apart(t) && i < t.size
    ensures Placed(t.slots[i])
  {
  }

  /** Unhooking always moves a PC in a page by the item of the page, and no other. */
  lemma UnhookingMovesOwn(t: Table, pc: nat)
    requires Apart(t) && pc < 0x1_0000_0000
    ensures Matched(t)
    ensures forall j :: 0 <= j < t.size && InPage(t.slots[j], pc) ==>
      MigrateAny(t, pc, Disable) == Migrate(t.slots[j], pc, Disable)
    ensures (forall j :: 0 <= j < t.size ==> !InPage(t.slots[j], pc)) ==> MigrateAny(t, pc, Disable) == (pc, false)
  {
    hide Apart, Migrate;
    ApartIsMatched(t);
    forall i | 0 <= i < t.size && Moves(t.slots[i], pc, Disable)
      ensures InPage(t.slots[i], pc)
    {
      ApartItem(t, i);
      WhereMoved(t.slots[i], pc);
    }
    forall j | 0 <= j < t.size && InPage(t.slots[j], pc)
      ensures MigrateAny(t, pc, Disable) == Migrate(t.slots[j], pc, Disable)
    {
      forall i | 0 <= i < t.size && i != j
        ensures !Moves(t.slots[i], pc, Disable)
      {
        ApartItems(t, i, j);
      }
      NotMoved(t.slots[j], pc, Disable);
    }
  }

  /** A thread that hooking everything moved comes back when everything is unhooked, if it does for the item that moved
      it. */
  lemma MovedComesBack(t: Table, pc: nat)
    requires Apart(t) && pc < 0x1_0000_0000
    ensures Matched(t)
    ensures
      var m := Mover(t, pc, Enable, 0);
      m.Some? && RoundTrips(t.slots[m.value], pc) ==>
        MigrateAny(t, MigrateAny(t, pc, Enable).0, Disable) == (pc, true)
  {
    hide Apart, Migrate;
    ApartIsMatched(t);
    var m := Mover(t, pc, Enable, 0);
    if m.Some? {
      ApartItem(t, m.value);
      WhereMoved(t.slots[m.value], pc);
      PlacedInMemory(t.slots[m.value], Migrate(t.slots[m.value], pc, Enable).0);
      UnhookingMovesOwn(t, Migrate(t.slots[m.value], pc, Enable).0);
    }
  }

  lemma PlacedInMemory(it: Item, pc: nat)
    requires Placed(it) && InPage(it, pc)
    ensures pc < 0x1_0000_0000
  {
  }

  // ----- After any run -----

  /** The boundaries of a slot, live or stale: for targets of at most `n` bytes. */
  predicate Small(it: Item, n: nat) {
    && (forall e :: 0 <= e < |it.origBoundaries| ==> it.origBoundaries[e] < n)
    && (forall e :: 0 <= e < |it.trampBoundaries| ==> it.trampBoundaries[e] < 0x1000)
  }

  predicate AllSmall(t: Table, n: nat) { forall i :: 0 <= i < |t.slots| ==> Small(t.slots[i], n) }

  lemma ThumbTablesSmall(hs: seq<bv16>)
    requires |hs| == 6
    ensures
      var o, p := ThumbRelocator.Bytes(ThumbRelocator.OrigStarts(hs, 0)),
          ThumbRelocator.Bytes(ThumbRelocator.TrampStarts(hs, 0));
      (forall e :: 0 <= e < |o| ==> o[e] < 12) && (forall e :: 0 <= e < |p| ==> p[e] < 0x1000)
  {
    hide ThumbRelocator.OrigStarts, ThumbRelocator.TrampStarts;
    ThumbRelocator.StartsBounded(hs, 0, 0);
  }

  lemma ArmTablesSmall(ws: seq<bv32>)
    requires |ws| == 2
    ensures
      var o, p := ArmRelocator.OrigStarts(2), ArmRelocator.TrampStarts(ws, 2);
      (forall e :: 0 <= e < |o| ==> o[e] < 8) && (forall e :: 0 <= e < |p| ==> p[e] < 0x1000)
  {
    hide ArmRelocator.ChunkStart;
    ArmRelocator.ChunkStartBounds(ws, 0);
    ArmRelocator.ChunkStartBounds(ws, 1);
  }

  lemma NewTablesSmall(target: nat, saved: seq<bv8>)
    requires |saved| == Length(target)
    ensures forall e :: 0 <= e < |OrigFor(target, saved)| ==> OrigFor(target, saved)[e] < Length(target)
    ensures forall e :: 0 <= e < |TrampFor(target, saved)| ==> TrampFor(target, saved)[e] < 0x1000
  {
    hide HalfwordsOf, WordsOf, ThumbRelocator.OrigStarts, ThumbRelocator.TrampStarts, ArmRelocator.ChunkStart;
    if target % 2 == 1 {
      var hs := HalfwordsOf(saved);
      ThumbTablesSmall(hs);
      assert OrigFor(target, saved) == ThumbRelocator.Bytes(ThumbRelocator.OrigStarts(hs, 0));
      assert TrampFor(target, saved) == ThumbRelocator.Bytes(ThumbRelocator.TrampStarts(hs, 0));
    } else {
      ArmTablesSmall(WordsOf(saved));
    }
  }

  lemma RegisterSmall(t: Table, q: Request, executable: bool, elsewhere: bv32 -> bv32, n: nat)
    requires AllSmall(t, n) && t.size < |t.slots| && InMemory(t, q.target) && Length(q.target) <= n
    ensures AllSmall(Register(t, q, executable, elsewhere).0, n)
  {
    hide CodeFor, OrigFor, TrampFor, Length, Base;
    var it := Registration(t, q, elsewhere);
    NewTablesSmall(q.target, it.saved);
    assert Small(t.slots[t.size], n);
    assert Small(it, n);
    hide Registration, Small;
  }

  lemma DoHookSmall(t: Table, i: nat, n: nat)
    requires AllSmall(t, n) && Fits(t, i)
    ensures AllSmall(DoHook(t, i), n)
  {
    hide Patch;
    assert Small(t.slots[i], n);
  }

  lemma DoUnhookSmall(t: Table, i: nat, n: nat)
    requires AllSmall(t, n) && Fits(t, i)
    ensures AllSmall(DoUnhook(t, i), n)
  {
    hide Small;
  }

  lemma {:induction false} UnhookFromSmall(t: Table, i: nat, n: nat)
    requires AllSmall(t, n) && AllFit(t) && i <= t.size
    ensures AllSmall(UnhookFrom(t, i), n)
    decreases t.size - i
  {
    hide AllSmall, DoUnhook;
    if i < t.size {
      if t.slots[i].status == Hooked {
        DoUnhookSmall(t, i, n);
        HookFits(t, i);
        UnhookFromSmall(DoUnhook(t, i), i, n);
      } else {
        UnhookFromSmall(t, i + 1, n);
      }
    }
  }

  lemma {:induction false} HookFromSmall(t: Table, i: nat, n: nat)
    requires AllSmall(t, n) && AllFit(t) && i <= t.size
    ensures AllSmall(HookFrom(t, i), n)
    decreases t.size - i
  {
    hide AllSmall, DoHook;
    if i < t.size {
      if t.slots[i].status == Registered {
        DoHookSmall(t, i, n);
        HookFits(t, i);
        HookFromSmall(DoHook(t, i), i + 1, n);
      } else {
        HookFromSmall(t, i + 1, n);
      }
    }
  }

  lemma ApplySmall(t: Table, targets: set<nat>, op: Op, n: nat)
    requires AllSmall(t, n) && AllFit(t) && Allowed(t, targets, op) && forall x :: x in targets ==> Length(x) <= n
    ensures AllSmall(Apply(t, op), n)
  {
    hide AllSmall, Registration;
    match op
    case RegisterOp(q, executable, elsewhere) => RegisterSmall(t, q, executable, elsewhere, n);
    case HookOp(target) =>
      match Find(t, target, 0) {
        case None =>
        case Some(i) => DoHookSmall(t, i, n);
      }
    case UnhookOp(target) =>
      match FindHooked(t, target, 0) {
        case None =>
        case Some(i) => DoUnhookSmall(t, i, n);
      }
    case UnhookAllOp => UnhookFromSmall(t, 0, n);
    case HookAllOp => HookFromSmall(t, 0, n);
  }

  lemma {:induction false} RunSmall(t: Table, targets: set<nat>, start: seq<bv8>, ops: seq<Op>, r: Table, n: nat)
    requires Inv(t, targets, start) && PairwiseDisjoint(targets) && Runs(t, targets, ops, r)
    requires AllSmall(t, n) && forall x :: x in targets ==> Length(x) <= n
    ensures AllSmall(r, n)
    decreases |ops|
  {
    hide Inv, AllSmall, Length;
    if ops != [] {
      InvFits(t, targets, start);
      ApplyKeeps(t, targets, start, ops[0]);
      ApplySmall(t, targets, ops[0], n);
      RunSmall(Apply(t, ops[0]), targets, start, ops[1..], r, n);
    }
  }

  /** Live items whose pages are in the address space, and apart. */
  predicate PagesPlaced(t: Table) {
    && t.size <= |t.slots| && (forall i :: 0 <= i < t.size ==> t.slots[i].page + 0x1000 <= 0x1_0000_0000)
    && (forall i, j :: 0 <= i < j < t.size ==> PagesApart(t.slots[i], t.slots[j]))
  }

  /** After any run in pages that do not overlap, live items share nothing; and if all targets are of one kind, their
      boundaries are in their targets. */
  lemma EveryRunIsApart(slots: seq<Item>, protos: map<nat, nat>, targets: set<nat>, start: seq<bv8>, ops: seq<Op>,
                        r: Table, n: nat)
    requires PairwiseDisjoint(targets) && Runs(Table(slots, 0, start, protos), targets, ops, r)
    requires forall k :: 0 <= k < |slots| ==> slots[k].origBoundaries == [] && slots[k].trampBoundaries == []
    requires |start| <= 0x1_0000_0000 && PagesPlaced(r)
    requires forall x :: x in targets ==> Length(x) <= n
    ensures Apart(r)
    ensures (forall x :: x in targets ==> Length(x) == n) ==>
      forall i :: 0 <= i < r.size ==> WithinTarget(r.slots[i])
  {
    hide Relocated, Runs, Paired, Small, Base, PagesApart, Length;
    var t := Table(slots, 0, start, protos);
    EmptyIsSmall(t, n);
    RunSmall(t, targets, start, ops, r, n);
    RunKeeps(t, targets, start, ops, r);
    forall i | 0 <= i < r.size
      ensures Placed(r.slots[i])
      ensures Length(r.slots[i].target) == n ==> WithinTarget(r.slots[i])
      ensures r.slots[i].target in targets
    {
      EveryItemIsRelocated(slots, protos, targets, start, ops, r, i);
      assert Genuine(r, targets, start, i);
      SmallIsPlaced(r.slots[i], n);
    }
  }

  /** So after any run on targets of one kind, hooking everything moves a thread in a live target by the item of that
      target, unhooking everything one in a page by the item of that page, and neither any other thread. */
  lemma EveryRunMovesOwn(slots: seq<Item>, protos: map<nat, nat>, targets: set<nat>, start: seq<bv8>, ops: seq<Op>,
                         r: Table, n: nat, pc: nat)
    requires PairwiseDisjoint(targets) && Runs(Table(slots, 0, start, protos), targets, ops, r)
    requires forall k :: 0 <= k < |slots| ==> slots[k].origBoundaries == [] && slots[k].trampBoundaries == []
    requires |start| <= 0x1_0000_0000 && PagesPlaced(r) && pc < 0x1_0000_0000
    requires forall x :: x in targets ==> Length(x) == n
    ensures Matched(r)
    ensures forall j :: 0 <= j < r.size && InTarget(r.slots[j], pc) ==>
      MigrateAny(r, pc, Enable) == Migrate(r.slots[j], pc, Enable)
    ensures (forall j :: 0 <= j < r.size ==> !InTarget(r.slots[j], pc)) ==> MigrateAny(r, pc, Enable) == (pc, false)
    ensures forall j :: 0 <= j < r.size && InPage(r.slots[j], pc) ==>
      MigrateAny(r, pc, Disable) == Migrate(r.slots[j], pc, Disable)
    ensures (forall j :: 0 <= j < r.size ==> !InPage(r.slots[j], pc)) ==> MigrateAny(r, pc, Disable) == (pc, false)
  {
    hide *;
    EveryRunIsApart(slots, protos, targets, start, ops, r, n);
    HookingMovesOwn(r, pc);
    UnhookingMovesOwn(r, pc);
  }

  lemma EmptyIsSmall(t: Table, n: nat)
    requires forall k :: 0 <= k < |t.slots| ==> t.slots[k].origBoundaries == [] && t.slots[k].trampBoundaries == []
    ensures AllSmall(t, n)
  {
  }

  lemma SmallIsPlaced(it: Item, n: nat)
    requires Small(it, n) && Paired(it)
    requires Base(it.target) + Length(it.target) <= 0x1_0000_0000 && it.page + 0x1000 <= 0x1_0000_0000
    ensures Placed(it) && (Length(it.target) == n ==> WithinTarget(it))
  {
  }

  // ----- Targets of both kinds: a boundary left over from a longer target -----

  /** A boundary of item `i` in the target of item `j` before which no other item has a say: its thread goes to the page
      of item `i`. */
  lemma StrayMovesAnother(t: Table, i: nat, j: nat, e: nat)
    requires Apart(t) && i < j < t.size && e < |t.slots[i].origBoundaries|
    requires InTarget(t.slots[j], Base(t.slots[i].target) + t.slots[i].origBoundaries[e])
    ensures Matched(t)
    ensures
      var pc := Base(t.slots[i].target) + t.slots[i].origBoundaries[e];
      MigrateAny(t, pc, Enable).1 && MigrateAny(t, pc, Enable) != Migrate(t.slots[j], pc, Enable)
  {
    hide Apart, Base, Length, Migrate;
    ApartIsMatched(t);
    ApartItem(t, i);
    ApartItem(t, j);
    var it := t.slots[i];
    var pc := Base(it.target) + it.origBoundaries[e];
    WrapIn(Base(it.target), it.origBoundaries[e]);
    BoundaryMoves(it, e);
    assert !HasTheSay(t, j, pc);
    MovedByItemIff(t, j, pc);
  }

  lemma BoundaryMoves(it: Item, e: nat)
    requires Paired(it) && e < |it.origBoundaries|
    ensures Moves(it, Wrap(Base(it.target) + it.origBoundaries[e]), Enable)
  {
    hide Wrap, Offset, Base;
    OffsetOf(Base(it.target), it.origBoundaries[e]);
    EntryIsFirst(it.origBoundaries, e);
  }

  /** Six Thumb NOPs, two bytes of nothing, and four ARM NOPs. */
  function BothKinds(): (r: seq<bv8>)
    ensures |r| == 32
  {
    [0x00, 0xBF, 0x00, 0xBF, 0x00, 0xBF, 0x00, 0xBF, 0x00, 0xBF, 0x00, 0xBF, 0x00, 0x00, 0x00, 0x00,
     0x00, 0x00, 0xA0, 0xE1, 0x00, 0x00, 0xA0, 0xE1, 0x00, 0x00, 0xA0, 0xE1, 0x00, 0x00, 0xA0, 0xE1]
  }

  lemma {:induction false} NopStarts(hs: seq<bv16>, from: nat, pos: nat)
    requires forall k :: 0 <= k < |hs| ==> hs[k] == 0xBF00
    ensures |ThumbRelocator.OrigStarts(hs, from)| == |ThumbRelocator.TrampStarts(hs, pos)| == |hs|
    ensures forall k :: 0 <= k < |hs| ==> ThumbRelocator.OrigStarts(hs, from)[k] == from + k
    ensures forall k :: 0 <= k < |hs| ==> ThumbRelocator.TrampStarts(hs, pos)[k] == pos + 2 * k
    decreases |hs|
  {
    if hs != [] {
      NopSize(hs);
      NopStarts(hs[1..], from + 1, pos + 2);
      hide ThumbChunks.Whole, ThumbChunks.Size, ThumbChunks.FirstLength;
    }
  }

  lemma NopSize(hs: seq<bv16>)
    requires hs != [] && hs[0] == 0xBF00
    ensures ThumbChunks.Whole(hs) && ThumbChunks.Size(hs) == 1 && ThumbChunks.FirstLength(hs) == 2
  {
  }

  lemma NopTables(saved: seq<bv8>)
    requires |saved| == 12 && forall k :: 0 <= k < 6 ==> saved[2 * k] == 0x00 && saved[2 * k + 1] == 0xBF
    ensures |OrigFor(1, saved)| == |TrampFor(1, saved)| == 6
    ensures OrigFor(1, saved)[4] == 8 && forall k :: 0 <= k < 6 ==> TrampFor(1, saved)[k] == 4 * k
    ensures forall k :: 0 <= k < 6 ==> OrigFor(1, saved)[k] == 2 * k
  {
    assert Halfword(0x00, 0xBF) == 0xBF00;
    hide Halfword, ThumbRelocator.OrigStarts, ThumbRelocator.TrampStarts;
    var hs := HalfwordsOf(saved);
    forall k | 0 <= k < 6
      ensures hs[k] == 0xBF00
    {
      assert saved[2 * k] == 0x00 && saved[2 * k + 1] == 0xBF;
    }
    NopStarts(hs, 0, 0);
    assert OrigFor(1, saved) == ThumbRelocator.Bytes(ThumbRelocator.OrigStarts(hs, 0));
    assert TrampFor(1, saved) == ThumbRelocator.Bytes(ThumbRelocator.TrampStarts(hs, 0));
  }

  lemma RegisterTwo(t: Table, targets: set<nat>, q: Request, s: Request, elsewhere: bv32 -> bv32)
    returns (r: Table, ops: seq<Op>)
    requires AllFit(t) && t.size + 1 < |t.slots| && InMemory(t, q.target) && InMemory(t, s.target)
    requires q.target in targets && s.target in targets && q.target != s.target
    requires Find(t, q.target, 0).None? && Find(t, s.target, 0).None?
    ensures Runs(t, targets, ops, r) && r.size == t.size + 2 <= |r.slots| == |t.slots|
    ensures r.slots[t.size] == Registration(t, q, elsewhere)
    ensures
      var last := r.slots[t.size + 1];
      && last.target == s.target && last.page == s.page
      && last.origBoundaries == t.slots[t.size + 1].origBoundaries + OrigFor(s.target, BytesAt(t.mem, s.target))
      && last.trampBoundaries == t.slots[t.size + 1].trampBoundaries + TrampFor(s.target, BytesAt(t.mem, s.target))
  {
    hide CodeFor, OrigFor, TrampFor, AllFit, Runs;
    var d, e := RegisterOp(q, true, elsewhere), RegisterOp(s, true, elsewhere);
    var u := Apply(t, d);
    RegisterFits(t, q, true, elsewhere);
    r := Apply(u, e);
    ops := [d] + ([e] + []);
    RunsNowhere(r, targets);
    RunsFrom(u, targets, e, [], r);
    RunsFrom(t, targets, d, [e] + [], r);
  }

  /** Registering, hooking and unhooking one target, then registering two others, by the operations. */
  lemma MixedRun(t: Table, targets: set<nat>, p: Request, q: Request, s: Request, elsewhere: bv32 -> bv32)
    returns (r: Table, ops: seq<Op>)
    requires AllFit(t) && t.size + 1 < |t.slots|
    requires InMemory(t, p.target) && InMemory(t, q.target) && InMemory(t, s.target)
    requires p.target in targets && q.target in targets && s.target in targets && q.target != s.target
    requires Find(t, p.target, 0).None? && Find(t, q.target, 0).None? && Find(t, s.target, 0).None?
    ensures Runs(t, targets, ops, r) && r.size == t.size + 2 <= |r.slots| == |t.slots|
    ensures r.slots[t.size] == Reused(t, p, q, elsewhere)
    ensures
      var last := r.slots[t.size + 1];
      && last.target == s.target && last.page == s.page
      && last.origBoundaries == t.slots[t.size + 1].origBoundaries + OrigFor(s.target, BytesAt(t.mem, s.target))
      && last.trampBoundaries == t.slots[t.size + 1].trampBoundaries + TrampFor(s.target, BytesAt(t.mem, s.target))
  {
    hide CodeFor, OrigFor, TrampFor, AllFit, Runs, Registration;
    RegisterHookUnhook(t, p, elsewhere);
    var a, b, c := RegisterOp(p, true, elsewhere), HookOp(p.target), UnhookOp(p.target);
    var t1 := Apply(t, a);
    var t2 := Apply(t1, b);
    var t3 := Apply(t2, c);
    hide Hook, Unhook;
    UnhookedFits(t, t3);
    r, ops := RegisterTwo(t3, targets, q, s, elsewhere);
    RunsFrom(t2, targets, c, ops, r);
    RunsFrom(t1, targets, b, [c] + ops, r);
    RunsFrom(t, targets, a, [b] + ([c] + ops), r);
    ops := [a] + ([b] + ([c] + ops));
  }

  lemma UnhookedFits(t: Table, u: Table)
    requires AllFit(t) && u.mem == t.mem && u.size == t.size && |u.slots| == |t.slots|
    requires forall i :: 0 <= i < t.size ==> u.slots[i] == t.slots[i]
    ensures AllFit(u)
  {
    forall i | 0 <= i < u.size
      ensures Fits(u, i)
    {
      assert Fits(t, i);
    }
  }

  /** An item whose boundaries begin with those of six Thumb NOPs. */
  lemma NopItemMoves(it: Item, saved: seq<bv8>, more: seq<nat>, others: seq<nat>)
    requires |saved| == 12 && forall k :: 0 <= k < 6 ==> saved[2 * k] == 0x00 && saved[2 * k + 1] == 0xBF
    requires it.origBoundaries == OrigFor(1, saved) + more && it.trampBoundaries == TrampFor(1, saved) + others
    requires Paired(it) && Base(it.target) + 8 < 0x1_0000_0000 && it.page + 16 < 0x1_0000_0000
    ensures Migrate(it, Base(it.target) + 8, Enable) == (it.page + 16, true)
  {
    hide OrigFor, TrampFor, Migrate, Wrap, Base;
    NopTables(saved);
    var o := it.origBoundaries;
    assert forall k :: 0 <= k < 6 ==> o[k] == OrigFor(1, saved)[k];
    assert First(o, 4);
    EnableBoundary(it, 4);
    WrapIn(Base(it.target), 8);
    WrapIn(it.page, 16);
  }

  lemma NopBytes()
    ensures
      var saved := BytesAt(BothKinds(), 1);
      |saved| == 12 && forall k :: 0 <= k < 6 ==> saved[2 * k] == 0x00 && saved[2 * k + 1] == 0xBF
  {
    var saved: seq<bv8> := [0x00, 0xBF, 0x00, 0xBF, 0x00, 0xBF, 0x00, 0xBF, 0x00, 0xBF, 0x00, 0xBF];
    assert BytesAt(BothKinds(), 1) == saved;
    hide BothKinds;
    forall k | 0 <= k < 6
      ensures saved[2 * k] == 0x00 && saved[2 * k + 1] == 0xBF
    {
      assert k == 0 || k == 1 || k == 2 || k == 3 || k == 4 || k == 5;
    }
  }

  lemma FirstBoundaryMoves(it: Item)
    requires Paired(it) && |it.origBoundaries| > 0 && it.origBoundaries[0] == 0 == it.trampBoundaries[0]
    requires Base(it.target) < 0x1_0000_0000 && it.page < 0x1_0000_0000
    ensures Migrate(it, Base(it.target), Enable) == (it.page, true)
  {
    hide Migrate, Wrap, Base;
    EnableBoundary(it, 0);
    WrapIn(Base(it.target), 0);
    WrapIn(it.page, 0);
  }

  lemma PairedSums(it: Item, p: nat, was: seq<bv8>, q: nat, saved: seq<bv8>)
    requires |was| == Length(p) && |saved| == Length(q)
    requires it.origBoundaries == OrigFor(p, was) + OrigFor(q, saved)
    requires it.trampBoundaries == TrampFor(p, was) + TrampFor(q, saved)
    ensures Paired(it)
  {
    hide OrigFor, TrampFor, ThumbRelocator.Increasing;
    NewTables(p, was);
    NewTables(q, saved);
  }

  lemma PairedAlone(it: Item, q: nat, saved: seq<bv8>)
    requires |saved| == Length(q)
    requires it.origBoundaries == OrigFor(q, saved) && it.trampBoundaries == TrampFor(q, saved)
    ensures Paired(it)
  {
    hide OrigFor, TrampFor, ThumbRelocator.Increasing;
    NewTables(q, saved);
  }

  /** Such a run: a Thumb target at 0 is hooked and unhooked, an ARM target at 16 is registered in its slot, and another
      ARM target at 24 after it. Hooking everything moves a thread at 24 into the trampoline of the one at 16, sixteen
      bytes on; its own begins at 0x5000. */
  lemma ThreadOfAnother(empty: Item, elsewhere: bv32 -> bv32) returns (r: Table, ops: seq<Op>)
    requires empty.origBoundaries == [] && empty.trampBoundaries == []
    ensures Runs(Table([empty, empty], 0, BothKinds(), map[]), {1, 16, 24}, ops, r)
    ensures r.size == 2 == |r.slots| && r.slots[1].target == 24 && Matched(r)
    ensures Migrate(r.slots[1], 24, Enable) == (0x5000, true) && MigrateAny(r, 24, Enable) == (0x4010, true)
  {
    hide Runs, Reused, OrigFor, TrampFor, Migrate, Paired, FirstLength, BothKinds, Find;
    NopBytes();
    var t := Table([empty, empty], 0, BothKinds(), map[]);
    var p, q, s := Request(1, 0x2000, None, 0x1000), Request(16, 0x3000, None, 0x4000),
        Request(24, 0x3100, None, 0x5000);
    EmptyFits(t);
    r, ops := MixedRun(t, {1, 16, 24}, p, q, s, elsewhere);
    ReusedSlot(t, p, q, elsewhere);
    var was, saved, last := BytesAt(t.mem, 1), BytesAt(t.mem, 16), BytesAt(t.mem, 24);
    var it, other := r.slots[0], r.slots[1];
    assert it.origBoundaries == OrigFor(1, was) + OrigFor(16, saved);
    assert it.trampBoundaries == TrampFor(1, was) + TrampFor(16, saved);
    PairedSums(it, 1, was, 16, saved);
    NopItemMoves(it, was, OrigFor(16, saved), TrampFor(16, saved));
    ArmBoundaries(t, s);
    PairedAlone(other, 24, last);
    FirstBoundaryMoves(other);
    PairedSizesMatch(r);
  }

  lemma PairedSizesMatch(r: Table)
    requires r.size == 2 == |r.slots| && Paired(r.slots[0]) && Paired(r.slots[1])
    ensures Matched(r)
  {
  }

  lemma EmptyFits(t: Table)
    requires t.size == 0
    ensures AllFit(t)
  {
  }
}
