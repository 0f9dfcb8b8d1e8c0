/** Moving a stopped thread between an original and its trampoline, by the boundary tables of an item. */
module HookMigration {
  import opened Options
  import opened HookTable
  import ArmChunks
  import ArmRelocator
  import ThumbRelocator

  datatype Action = Enable | Disable

  function Wrap(x: int): nat { x % 0x1_0000_0000 }

  /** The 32-bit difference, read as an int. */
  function Offset(pc: nat, from: nat): int {
    var d := Wrap(pc - from);
    if d < 0x8000_0000 then d else d - 0x1_0000_0000
  }

  /** The first entry equal to `x`, from `i` on. */
  function Entry(s: seq<nat>, x: int, i: nat): (r: Option<nat>)
    requires i <= |s|
    ensures r.Some? ==> i <= r.value < |s| && s[r.value] == x && forall k :: i <= k < r.value ==> s[k] != x
    ensures r.None? ==> forall k :: i <= k < |s| ==> s[k] != x
    decreases |s| - i
  {
    if i == |s| then None else if s[i] == x then Some(i) else Entry(s, x, i + 1)
  }

  /** doProcessThreadPC: the new PC, and whether it was moved. */
  function Migrate(it: Item, pc: nat, action: Action): (nat, bool)
    requires |it.origBoundaries| == |it.trampBoundaries|
  {
    match action
    case Enable =>
      (match Entry(it.origBoundaries, Offset(pc, Base(it.target)), 0)
       case None => (pc, false)
       case Some(i) => (Wrap(it.page + it.trampBoundaries[i]), true))
    case Disable =>
      (match Entry(it.trampBoundaries, Offset(pc, it.page), 0)
       case None => (pc, false)
       case Some(i) => (Wrap(Base(it.target) + it.origBoundaries[i]), true))
  }

  /** Two tables of one length, both strictly increasing and small. */
  predicate WellBounded(it: Item) {
    && |it.origBoundaries| == |it.trampBoundaries|
    && ThumbRelocator.Increasing(it.origBoundaries, 0) && ThumbRelocator.Increasing(it.trampBoundaries, 0)
    && (forall i :: 0 <= i < |it.origBoundaries| ==> it.origBoundaries[i] < 0x8000_0000)
    && (forall i :: 0 <= i < |it.trampBoundaries| ==> it.trampBoundaries[i] < 0x8000_0000)
  }

  lemma OffsetOf(from: nat, b: nat)
    requires b < 0x8000_0000
    ensures Offset(Wrap(from + b), from) == b
  {
    assert Wrap(Wrap(from + b) - from) == b;
  }

  lemma OffsetBack(pc: nat, from: nat)
    requires pc < 0x1_0000_0000 && Offset(pc, from) >= 0
    ensures Wrap(from + Offset(pc, from)) == pc
  {
  }

  /** Migration is a bijection between the two kinds of boundary, and moves nothing else. */
  lemma MigrationIsABijection(it: Item, pc: nat)
    requires WellBounded(it) && pc < 0x1_0000_0000
    ensures Migrate(it, pc, Enable).1
        <==> exists i :: 0 <= i < |it.origBoundaries| && it.origBoundaries[i] == Offset(pc, Base(it.target))
    ensures Migrate(it, pc, Disable).1
        <==> exists i :: 0 <= i < |it.trampBoundaries| && it.trampBoundaries[i] == Offset(pc, it.page)
    ensures !Migrate(it, pc, Enable).1 ==> Migrate(it, pc, Enable).0 == pc
    ensures !Migrate(it, pc, Disable).1 ==> Migrate(it, pc, Disable).0 == pc
    ensures Migrate(it, pc, Enable).1 ==> Migrate(it, Migrate(it, pc, Enable).0, Disable) == (pc, true)
    ensures Migrate(it, pc, Disable).1 ==> Migrate(it, Migrate(it, pc, Disable).0, Enable) == (pc, true)
  {
    hide Wrap, Offset, ThumbRelocator.Increasing;
    var e := Entry(it.origBoundaries, Offset(pc, Base(it.target)), 0);
    if e.Some? {
      OffsetOf(it.page, it.trampBoundaries[e.value]);
      OffsetBack(pc, Base(it.target));
      OnlyEntry(it.trampBoundaries, e.value);
    }
    var d := Entry(it.trampBoundaries, Offset(pc, it.page), 0);
    if d.Some? {
      OffsetOf(Base(it.target), it.origBoundaries[d.value]);
      OffsetBack(pc, it.page);
      OnlyEntry(it.origBoundaries, d.value);
    }
  }

  lemma OnlyEntry(s: seq<nat>, i: nat)
    requires ThumbRelocator.Increasing(s, 0) && i < |s|
    ensures Entry(s, s[i], 0) == Some(i)
  {
    var e := Entry(s, s[i], 0);
    assert s[i] == s[i];
  }

  /** The tables of an item registered in a slot that counts no entries. */
  lemma FreshTablesAreWellBounded(t: Table, q: Request, elsewhere: bv32 -> bv32)
    requires t.size < |t.slots| && InMemory(t, q.target)
    requires t.slots[t.size].origBoundaries == [] && t.slots[t.size].trampBoundaries == []
    ensures WellBounded(Registration(t, q, elsewhere))
  {
    hide CodeFor, OrigFor, TrampFor, ThumbRelocator.Increasing;
    var saved := t.mem[Base(q.target)..Base(q.target) + Length(q.target)];
    NewTables(q.target, saved);
    assert [] + OrigFor(q.target, saved) == OrigFor(q.target, saved);
    assert [] + TrampFor(q.target, saved) == TrampFor(q.target, saved);
  }

  // ----- Tables with repeated entries, as a reused slot has them -----

  /** Whether entry `i` is the first with its value. */
  predicate First(s: seq<nat>, i: nat) { i < |s| && forall j :: 0 <= j < i ==> s[j] != s[i] }

  lemma EntryIsFirst(s: seq<nat>, i: nat)
    requires i < |s|
    ensures Entry(s, s[i], 0).Some? && Entry(s, s[i], 0).value <= i && First(s, Entry(s, s[i], 0).value)
    ensures First(s, i) <==> Entry(s, s[i], 0) == Some(i)
  {
    var e := Entry(s, s[i], 0);
    assert s[i] == s[i];
  }

  /** Exactly which PCs move, and where to: of a table below 2 ^ 31, by the first entry that lies at the PC. */
  lemma MovesIff(it: Item, pc: nat, e: nat)
    requires |it.origBoundaries| == |it.trampBoundaries| && pc < 0x1_0000_0000
    requires forall x :: x in it.origBoundaries || x in it.trampBoundaries ==> x < 0x8000_0000
    ensures !Migrate(it, pc, Enable).1 <==> forall i :: 0 <= i < |it.origBoundaries| ==>
      (Base(it.target) + it.origBoundaries[i]) % 0x1_0000_0000 != pc
    ensures !Migrate(it, pc, Disable).1 <==> forall i :: 0 <= i < |it.trampBoundaries| ==>
      (it.page + it.trampBoundaries[i]) % 0x1_0000_0000 != pc
    ensures e < |it.origBoundaries| && First(it.origBoundaries, e)
      && (Base(it.target) + it.origBoundaries[e]) % 0x1_0000_0000 == pc
      ==> Migrate(it, pc, Enable) == ((it.page + it.trampBoundaries[e]) % 0x1_0000_0000, true)
    ensures e < |it.trampBoundaries| && First(it.trampBoundaries, e)
      && (it.page + it.trampBoundaries[e]) % 0x1_0000_0000 == pc
      ==> Migrate(it, pc, Disable) == ((Base(it.target) + it.origBoundaries[e]) % 0x1_0000_0000, true)
  {
    hide Offset;
    var a, b := Offset(pc, Base(it.target)), Offset(pc, it.page);
    forall i | 0 <= i < |it.origBoundaries|
      ensures a == it.origBoundaries[i] <==> (Base(it.target) + it.origBoundaries[i]) % 0x1_0000_0000 == pc
    {
      assert it.origBoundaries[i] in it.origBoundaries;
      OffsetIff(pc, Base(it.target), it.origBoundaries[i]);
    }
    forall i | 0 <= i < |it.trampBoundaries|
      ensures b == it.trampBoundaries[i] <==> (it.page + it.trampBoundaries[i]) % 0x1_0000_0000 == pc
    {
      assert it.trampBoundaries[i] in it.trampBoundaries;
      OffsetIff(pc, it.page, it.trampBoundaries[i]);
    }
    if e < |it.origBoundaries| { EntryIsFirst(it.origBoundaries, e); }
    if e < |it.trampBoundaries| { EntryIsFirst(it.trampBoundaries, e); }
  }

  lemma OffsetIff(pc: nat, from: nat, b: nat)
    requires pc < 0x1_0000_0000 && b < 0x8000_0000
    ensures Offset(pc, from) == b <==> (from + b) % 0x1_0000_0000 == pc
  {
    if (from + b) % 0x1_0000_0000 == pc { OffsetOf(from, b); }
    if Offset(pc, from) == b { OffsetBack(pc, from); }
  }

  /** Whether moving a PC one way and then the other gives it back, if it is moved at all. */
  predicate RoundTrips(it: Item, pc: nat)
    requires |it.origBoundaries| == |it.trampBoundaries|
  {
    var there, back := Migrate(it, pc, Enable), Migrate(it, pc, Disable);
    && (there.1 ==> Migrate(it, there.0, Disable) == (pc, true))
    && (back.1 ==> Migrate(it, back.0, Enable) == (pc, true))
  }

  lemma EnableBoundary(it: Item, i: nat)
    requires Paired(it) && i < |it.origBoundaries| && First(it.origBoundaries, i)
    ensures Migrate(it, Wrap(Base(it.target) + it.origBoundaries[i]), Enable)
        == (Wrap(it.page + it.trampBoundaries[i]), true)
  {
    OffsetOf(Base(it.target), it.origBoundaries[i]);
    EntryIsFirst(it.origBoundaries, i);
  }

  lemma DisableBoundary(it: Item, i: nat)
    requires Paired(it) && i < |it.trampBoundaries| && First(it.trampBoundaries, i)
    ensures Migrate(it, Wrap(it.page + it.trampBoundaries[i]), Disable)
        == (Wrap(Base(it.target) + it.origBoundaries[i]), true)
  {
    OffsetOf(it.page, it.trampBoundaries[i]);
    EntryIsFirst(it.trampBoundaries, i);
  }

  lemma SumsDiffer(from: nat, a: nat, b: nat)
    requires a < 0x8000_0000 && b < 0x8000_0000 && a != b
    ensures Wrap(from + a) != Wrap(from + b)
  {
    OffsetOf(from, a);
    OffsetOf(from, b);
  }

  /** A first original boundary whose trampoline boundary was seen before does not come back. */
  lemma LaterEntryIsLost(it: Item, i: nat)
    requires Paired(it) && i < |it.origBoundaries|
    requires First(it.origBoundaries, i) != First(it.trampBoundaries, i)
    ensures First(it.origBoundaries, i) ==> !RoundTrips(it, Wrap(Base(it.target) + it.origBoundaries[i]))
    ensures First(it.trampBoundaries, i) ==> !RoundTrips(it, Wrap(it.page + it.trampBoundaries[i]))
  {
    hide Migrate;
    if First(it.origBoundaries, i) {
      var j := Entry(it.trampBoundaries, it.trampBoundaries[i], 0).value;
      EntryIsFirst(it.trampBoundaries, i);
      EnableBoundary(it, i);
      DisableBoundary(it, j);
      SumsDiffer(Base(it.target), it.origBoundaries[i], it.origBoundaries[j]);
    } else {
      var j := Entry(it.origBoundaries, it.origBoundaries[i], 0).value;
      EntryIsFirst(it.origBoundaries, i);
      DisableBoundary(it, i);
      EnableBoundary(it, j);
      SumsDiffer(it.page, it.trampBoundaries[i], it.trampBoundaries[j]);
    }
  }

  lemma FirstTogetherRoundTrips(it: Item, pc: nat)
    requires Paired(it) && pc < 0x1_0000_0000
    requires forall i :: 0 <= i < |it.origBoundaries| ==>
      (First(it.origBoundaries, i) <==> First(it.trampBoundaries, i))
    ensures RoundTrips(it, pc)
  {
    var e := Entry(it.origBoundaries, Offset(pc, Base(it.target)), 0);
    if e.Some? {
      OffsetBack(pc, Base(it.target));
      EntryIsFirst(it.origBoundaries, e.value);
      DisableBoundary(it, e.value);
    }
    var d := Entry(it.trampBoundaries, Offset(pc, it.page), 0);
    if d.Some? {
      OffsetBack(pc, it.page);
      EntryIsFirst(it.trampBoundaries, d.value);
      EnableBoundary(it, d.value);
    }
  }

  /** Every PC comes back, both ways, exactly when an entry is the first with its value on one side whenever it is on
      the other. */
  lemma RoundTripsIff(it: Item)
    requires Paired(it)
    ensures (forall pc :: 0 <= pc < 0x1_0000_0000 ==> RoundTrips(it, pc))
       <==> forall i :: 0 <= i < |it.origBoundaries| ==> (First(it.origBoundaries, i) <==> First(it.trampBoundaries, i))
  {
    hide RoundTrips, First;
    if forall i :: 0 <= i < |it.origBoundaries| ==> (First(it.origBoundaries, i) <==> First(it.trampBoundaries, i)) {
      forall pc | 0 <= pc < 0x1_0000_0000
        ensures RoundTrips(it, pc)
      {
        FirstTogetherRoundTrips(it, pc);
      }
    } else {
      var i :| 0 <= i < |it.origBoundaries| && First(it.origBoundaries, i) != First(it.trampBoundaries, i);
      LaterEntryIsLost(it, i);
      var p, q := Wrap(Base(it.target) + it.origBoundaries[i]), Wrap(it.page + it.trampBoundaries[i]);
      assert !RoundTrips(it, p) || !RoundTrips(it, q);
    }
  }

  /** Whether a search of the original table for boundary `e` ends at an entry with the trampoline boundary of `e`. */
  predicate LeadsRight(it: Item, e: nat) {
    && e < |it.origBoundaries| == |it.trampBoundaries|
    && var f := Entry(it.origBoundaries, it.origBoundaries[e], 0);
       f.Some? && it.trampBoundaries[f.value] == it.trampBoundaries[e]
  }

  /** A PC at a boundary is moved to the trampoline boundary of the same entry exactly then. */
  lemma MovedRightIff(it: Item, e: nat)
    requires Paired(it) && e < |it.origBoundaries|
    ensures LeadsRight(it, e) <==>
      Migrate(it, Wrap(Base(it.target) + it.origBoundaries[e]), Enable) == (Wrap(it.page + it.trampBoundaries[e]), true)
  {
    hide Wrap, Offset;
    OffsetOf(Base(it.target), it.origBoundaries[e]);
    EntryIsFirst(it.origBoundaries, e);
    var f := Entry(it.origBoundaries, it.origBoundaries[e], 0).value;
    if it.trampBoundaries[f] != it.trampBoundaries[e] {
      SumsDiffer(it.page, it.trampBoundaries[f], it.trampBoundaries[e]);
    }
  }

  /** It is whenever the tables increase, as those of a slot do that counted nothing before. */
  lemma WellBoundedLeadsRight(it: Item, e: nat)
    requires WellBounded(it) && e < |it.origBoundaries|
    ensures LeadsRight(it, e)
  {
    hide ThumbRelocator.Increasing;
    OnlyEntry(it.origBoundaries, e);
  }

  /** Whether what an old table says of `x`, if anything, is `y`. */
  predicate Agrees(s: seq<nat>, t: seq<nat>, x: nat, y: nat)
    requires |s| == |t|
  {
    var e := Entry(s, x, 0);
    e.Some? ==> t[e.value] == y
  }

  /** Where a search ends in a table that was added to another one. */
  lemma EntryInBoth(s: seq<nat>, n: seq<nat>, k: nat)
    requires k < |n| && First(n, k)
    ensures Entry(s + n, n[k], 0) == if Entry(s, n[k], 0).Some? then Entry(s, n[k], 0) else Some(|s| + k)
  {
    var b, x := s + n, n[k];
    var e, f := Entry(b, x, 0), Entry(s, x, 0);
    assert b[|s| + k] == x;
    assert e.Some?;
    if f.Some? {
      assert b[f.value] == x;
      assert !(e.value < f.value) && !(f.value < e.value);
    } else {
      assert e.value >= |s| && b[e.value] == n[e.value - |s|];
      assert !(e.value < |s| + k) && !(|s| + k < e.value);
    }
  }

  /** Behind old tables, each new boundary is moved to its own new chunk exactly when what the old tables say of it, if
      anything, is that too; and the same the other way round. */
  lemma NewBoundariesIff(it: Item, so: seq<nat>, st: seq<nat>, no: seq<nat>, nt: seq<nat>)
    requires Paired(it) && |so| == |st| && |no| == |nt|
    requires it.origBoundaries == so + no && it.trampBoundaries == st + nt
    requires ThumbRelocator.Increasing(no, 0) && ThumbRelocator.Increasing(nt, 0)
    ensures forall k :: 0 <= k < |no| ==>
      (Migrate(it, Wrap(Base(it.target) + no[k]), Enable) == (Wrap(it.page + nt[k]), true) <==>
       Agrees(so, st, no[k], nt[k]))
    ensures forall k :: 0 <= k < |no| ==>
      (Migrate(it, Wrap(it.page + nt[k]), Disable) == (Wrap(Base(it.target) + no[k]), true) <==>
       Agrees(st, so, nt[k], no[k]))
  {
    forall k | 0 <= k < |no|
      ensures Migrate(it, Wrap(Base(it.target) + no[k]), Enable) == (Wrap(it.page + nt[k]), true)
          <==> Agrees(so, st, no[k], nt[k])
      ensures Migrate(it, Wrap(it.page + nt[k]), Disable) == (Wrap(Base(it.target) + no[k]), true)
          <==> Agrees(st, so, nt[k], no[k])
    {
      NewBoundaryIff(it, so, st, no, nt, k);
    }
  }

  lemma NewBoundaryIff(it: Item, so: seq<nat>, st: seq<nat>, no: seq<nat>, nt: seq<nat>, k: nat)
    requires Paired(it) && |so| == |st| && |no| == |nt| && k < |no|
    requires it.origBoundaries == so + no && it.trampBoundaries == st + nt
    requires ThumbRelocator.Increasing(no, 0) && ThumbRelocator.Increasing(nt, 0)
    ensures Migrate(it, Wrap(Base(it.target) + no[k]), Enable) == (Wrap(it.page + nt[k]), true)
        <==> Agrees(so, st, no[k], nt[k])
    ensures Migrate(it, Wrap(it.page + nt[k]), Disable) == (Wrap(Base(it.target) + no[k]), true)
        <==> Agrees(st, so, nt[k], no[k])
  {
    hide Wrap, Offset, Agrees, Base;
    var o, t := it.origBoundaries, it.trampBoundaries;
    assert o[|so| + k] == no[k] && t[|st| + k] == nt[k];
    OffsetOf(Base(it.target), no[k]);
    OffsetOf(it.page, nt[k]);
    FoundInBoth(so, st, no, nt, k);
    FoundInBoth(st, so, nt, no, k);
    var e, d := Entry(o, no[k], 0).value, Entry(t, nt[k], 0).value;
    if t[e] != nt[k] {
      SumsDiffer(it.page, t[e], nt[k]);
    }
    if o[d] != no[k] {
      SumsDiffer(Base(it.target), o[d], no[k]);
    }
  }

  /** What a search of a table that was added to another one finds in the matching tables. */
  lemma FoundInBoth(s: seq<nat>, t: seq<nat>, n: seq<nat>, m: seq<nat>, k: nat)
    requires |s| == |t| && |n| == |m| && k < |n| && ThumbRelocator.Increasing(n, 0)
    ensures Entry(s + n, n[k], 0).Some?
    ensures (t + m)[Entry(s + n, n[k], 0).value] == m[k] <==> Agrees(s, t, n[k], m[k])
  {
    EntryInBoth(s, n, k);
  }

  // ----- A slot that is used again -----

  /** The bytes a registration of `target` saves. */
  function BytesAt(mem: seq<bv8>, target: nat): (r: seq<bv8>)
    requires Base(target) + Length(target) <= |mem|
    ensures |r| == Length(target)
  {
    mem[Base(target)..Base(target) + Length(target)]
  }

  lemma NewTables(target: nat, saved: seq<bv8>)
    requires |saved| == Length(target)
    ensures |OrigFor(target, saved)| == |TrampFor(target, saved)|
    ensures ThumbRelocator.Increasing(OrigFor(target, saved), 0)
      && ThumbRelocator.Increasing(TrampFor(target, saved), 0)
    ensures forall k :: 0 <= k < |OrigFor(target, saved)| ==> OrigFor(target, saved)[k] < 0x8000_0000
    ensures forall k :: 0 <= k < |TrampFor(target, saved)| ==> TrampFor(target, saved)[k] < 0x8000_0000
  {
    hide ThumbRelocator.Increasing, HalfwordsOf, WordsOf, ThumbRelocator.OrigStarts, ThumbRelocator.TrampStarts,
      ThumbRelocator.Bytes, ArmRelocator.ChunkStart;
    if target % 2 == 1 {
      ThumbTables(HalfwordsOf(saved));
    } else {
      ArmTables(WordsOf(saved));
    }
  }

  /** Whichever item is unhooked, the next registration takes the slot of the last one, stale or moved away. It puts its
      boundaries behind those of that item, and each is moved right exactly if what those say of it, if anything, is
      right. */
  lemma NextRegistrationIff(t: Table, i: nat, q: Request, elsewhere: bv32 -> bv32)
    requires AllFit(t) && i < t.size && InMemory(t, q.target) && Paired(t.slots[t.size - 1])
    ensures
      var last, it := t.slots[t.size - 1], Registration(DoUnhook(t, i), q, elsewhere);
      && Paired(it) && |it.saved| == Length(q.target)
      && var no, nt := OrigFor(q.target, it.saved), TrampFor(q.target, it.saved);
         && |no| == |nt|
         && (forall k :: 0 <= k < |no| ==>
               (Migrate(it, Wrap(Base(q.target) + no[k]), Enable) == (Wrap(q.page + nt[k]), true) <==>
                Agrees(last.origBoundaries, last.trampBoundaries, no[k], nt[k])))
         && (forall k :: 0 <= k < |no| ==>
               (Migrate(it, Wrap(q.page + nt[k]), Disable) == (Wrap(Base(q.target) + no[k]), true) <==>
                Agrees(last.trampBoundaries, last.origBoundaries, nt[k], no[k])))
  {
    hide CodeFor, OrigFor, TrampFor, Wrap, Migrate, Agrees, Base, Length, ThumbRelocator.Increasing;
    var last, it := t.slots[t.size - 1], Registration(DoUnhook(t, i), q, elsewhere);
    NewTables(q.target, it.saved);
    NewBoundariesIff(it, last.origBoundaries, last.trampBoundaries, OrigFor(q.target, it.saved),
                     TrampFor(q.target, it.saved));
  }

  /** What registering, hooking and unhooking a new target leaves: memory as it was, and its item in the first free
      slot. */
  lemma RegisterHookUnhook(t: Table, p: Request, elsewhere: bv32 -> bv32)
    requires AllFit(t) && t.size < |t.slots| && InMemory(t, p.target) && Find(t, p.target, 0).None?
    ensures
      var t1 := Register(t, p, true, elsewhere).0;
      && AllFit(t1)
      && var t2 := Hook(t1, p.target).0;
         && AllFit(t2)
         && var t3 := Unhook(t2, p.target).0;
            && t3.mem == t.mem && t3.size == t.size
            && t3.slots == t.slots[t.size := Registration(t, p, elsewhere).(status := Hooked)]
  {
    hide CodeFor, OrigFor, TrampFor, Patch, AllFit;
    var it := Registration(t, p, elsewhere);
    RegisterFits(t, p, true, elsewhere);
    assert it.target == p.target && it.status == Registered && it.saved == BytesAt(t.mem, p.target);
    hide Registration;
    var t1 := Register(t, p, true, elsewhere).0;
    assert t1 == t.(slots := t.slots[t.size := it], size := t.size + 1);
    FindIs(t1, p.target, t.size);
    HookFits(t1, t.size);
    HookThenUnhook(t1, t.size);
    var t2 := DoHook(t1, t.size);
    FindIs(t2, p.target, t.size);
  }

  /** The searches find the only item of a target. */
  lemma FindIs(t: Table, target: nat, i: nat)
    requires i < t.size <= |t.slots| && t.slots[i].target == target
    requires forall k :: 0 <= k < i ==> t.slots[k].target != target
    ensures Find(t, target, 0) == Some(i)
    ensures t.slots[i].status == Hooked ==> FindHooked(t, target, 0) == Some(i)
  {
  }

  lemma HookThenUnhook(t: Table, i: nat)
    requires Fits(t, i) && i == t.size - 1
    requires t.slots[i].saved == BytesAt(t.mem, t.slots[i].target)
    ensures Fits(DoHook(t, i), i)
    ensures
      var r := DoUnhook(DoHook(t, i), i);
      && r.mem == t.mem && r.size == i && r.slots == t.slots[i := t.slots[i].(status := Hooked)]
  {
    hide Patch;
  }

  /** A target that is registered in the slot another one was unhooked from: its boundaries come after the other's. */
  lemma ReusedSlot(t: Table, p: Request, q: Request, elsewhere: bv32 -> bv32)
    requires AllFit(t) && t.size < |t.slots| && InMemory(t, p.target) && InMemory(t, q.target)
    requires Find(t, p.target, 0).None? && Find(t, q.target, 0).None?
    ensures
      var it := Reused(t, p, q, elsewhere);
      && it.target == q.target && it.page == q.page && it.saved == BytesAt(t.mem, q.target)
      && it.origBoundaries == t.slots[t.size].origBoundaries + OrigFor(p.target, BytesAt(t.mem, p.target))
                              + OrigFor(q.target, it.saved)
      && it.trampBoundaries == t.slots[t.size].trampBoundaries + TrampFor(p.target, BytesAt(t.mem, p.target))
                               + TrampFor(q.target, it.saved)
  {
    hide CodeFor, OrigFor, TrampFor, AllFit;
    RegisterHookUnhook(t, p, elsewhere);
    hide Hook, Unhook;
    var t3 := Unhook(Hook(Register(t, p, true, elsewhere).0, p.target).0, p.target).0;
    assert Find(t3, q.target, 0).None?;
  }

  /** The item of `q` after `p` was registered, hooked and unhooked. */
  function Reused(t: Table, p: Request, q: Request, elsewhere: bv32 -> bv32): Item
    requires AllFit(t) && t.size < |t.slots| && InMemory(t, p.target) && InMemory(t, q.target)
    requires Find(t, p.target, 0).None? && Find(t, q.target, 0).None?
  {
    RegisterHookUnhook(t, p, elsewhere);
    var t3 := Unhook(Hook(Register(t, p, true, elsewhere).0, p.target).0, p.target).0;
    Register(t3, q, true, elsewhere).0.slots[t.size]
  }

  /** How many words the chunk of an ARM target's first word has. */
  function FirstLength(t: Table, q: Request): (r: nat)
    requires InMemory(t, q.target) && q.target % 2 == 0
    ensures r > 0
  {
    ArmChunks.ChunkLength(WordsOf(BytesAt(t.mem, q.target))[0])
  }

  lemma InIff(s: seq<nat>, n: seq<nat>, k: nat)
    requires ThumbRelocator.Increasing(n, 0) && k < |n|
    ensures First(s + n, |s| + k) <==> n[k] !in s
  {
    var b := s + n;
    if n[k] in s {
      var j :| 0 <= j < |s| && s[j] == n[k];
      assert b[j] == b[|s| + k];
    } else {
      forall j | 0 <= j < |s| + k
        ensures b[j] != b[|s| + k]
      {
        if j >= |s| {
          assert b[j] == n[j - |s|];
        }
      }
    }
  }

  lemma OldIsFirst(s: seq<nat>, n: seq<nat>, i: nat)
    requires ThumbRelocator.Increasing(s, 0) && i < |s|
    ensures First(s + n, i)
  {
    assert forall j :: 0 <= j <= i ==> (s + n)[j] == s[j];
  }

  /** For one table behind another, every PC comes back exactly if a new boundary is one of the old on one side whenever
      the matching one is on the other. */
  lemma TwoTablesRoundTripIff(it: Item, po: seq<nat>, pt: seq<nat>, no: seq<nat>, nt: seq<nat>)
    requires Paired(it) && |po| == |pt| && |no| == |nt|
    requires it.origBoundaries == po + no && it.trampBoundaries == pt + nt
    requires ThumbRelocator.Increasing(po, 0) && ThumbRelocator.Increasing(pt, 0)
    requires ThumbRelocator.Increasing(no, 0) && ThumbRelocator.Increasing(nt, 0)
    ensures (forall pc :: 0 <= pc < 0x1_0000_0000 ==> RoundTrips(it, pc))
       <==> forall k :: 0 <= k < |no| ==> (no[k] in po <==> nt[k] in pt)
  {
    hide RoundTrips, First, ThumbRelocator.Increasing;
    RoundTripsIff(it);
    var o, t := it.origBoundaries, it.trampBoundaries;
    forall i | 0 <= i < |po|
      ensures First(o, i) && First(t, i)
    {
      OldIsFirst(po, no, i);
      OldIsFirst(pt, nt, i);
    }
    forall k | 0 <= k < |no|
      ensures First(o, |po| + k) <==> no[k] !in po
      ensures First(t, |po| + k) <==> nt[k] !in pt
    {
      InIff(po, no, k);
      InIff(pt, nt, k);
    }
    if forall k :: 0 <= k < |no| ==> (no[k] in po <==> nt[k] in pt) {
      forall i | 0 <= i < |o|
        ensures First(o, i) <==> First(t, i)
      {
        if i >= |po| {
          var k := i - |po|;
          assert First(o, |po| + k) <==> no[k] !in po;
        }
      }
    } else {
      var k :| 0 <= k < |no| && !(no[k] in po <==> nt[k] in pt);
      assert First(o, |po| + k) <==> no[k] !in po;
    }
  }

  /** A target of either kind in a slot that held one other target, of either kind: every PC comes back exactly if an
      instruction of the one begins where one of the other did whenever their chunks do. */
  lemma ReusedSlotIff(t: Table, p: Request, q: Request, elsewhere: bv32 -> bv32)
    requires AllFit(t) && t.size < |t.slots| && InMemory(t, p.target) && InMemory(t, q.target)
    requires Find(t, p.target, 0).None? && Find(t, q.target, 0).None?
    requires t.slots[t.size].origBoundaries == [] && t.slots[t.size].trampBoundaries == []
    ensures
      var it := Reused(t, p, q, elsewhere);
      var was, saved := BytesAt(t.mem, p.target), BytesAt(t.mem, q.target);
      && Paired(it) && |OrigFor(q.target, saved)| == |TrampFor(q.target, saved)|
      && ((forall pc :: 0 <= pc < 0x1_0000_0000 ==> RoundTrips(it, pc)) <==>
          forall k :: 0 <= k < |OrigFor(q.target, saved)| ==>
            (OrigFor(q.target, saved)[k] in OrigFor(p.target, was) <==>
             TrampFor(q.target, saved)[k] in TrampFor(p.target, was)))
  {
    hide AllFit, Reused, OrigFor, TrampFor, BytesAt, Registration, ThumbRelocator.Increasing, RoundTrips, Find;
    ReusedSlot(t, p, q, elsewhere);
    var it := Reused(t, p, q, elsewhere);
    var was, saved := BytesAt(t.mem, p.target), BytesAt(t.mem, q.target);
    NewTables(p.target, was);
    NewTables(q.target, saved);
    TwoTablesRoundTripIff(it, OrigFor(p.target, was), TrampFor(p.target, was), OrigFor(q.target, saved),
                          TrampFor(q.target, saved));
  }

  lemma ReusedArmSlot(t: Table, p: Request, q: Request, elsewhere: bv32 -> bv32)
    requires AllFit(t) && t.size < |t.slots| && InMemory(t, p.target) && InMemory(t, q.target)
    requires Find(t, p.target, 0).None? && Find(t, q.target, 0).None?
    requires t.slots[t.size].origBoundaries == [] && t.slots[t.size].trampBoundaries == []
    requires p.target % 2 == 0 && q.target % 2 == 0
    ensures
      var it := Reused(t, p, q, elsewhere);
      && it.target == q.target && it.page == q.page && it.origBoundaries == [0, 4, 0, 4]
      && it.trampBoundaries == [0, 4 * FirstLength(t, p), 0, 4 * FirstLength(t, q)]
  {
    hide CodeFor, OrigFor, TrampFor, AllFit, Reused;
    ReusedSlot(t, p, q, elsewhere);
    ArmBoundaries(t, p);
    ArmBoundaries(t, q);
    hide BytesAt, FirstLength, Registration;
  }

  /** An ARM target in a slot that held one other ARM target comes back, for every PC, exactly when the first words of
      the two have chunks of one length. */
  lemma ReusedArmSlotIff(t: Table, p: Request, q: Request, elsewhere: bv32 -> bv32)
    requires AllFit(t) && t.size < |t.slots| && InMemory(t, p.target) && InMemory(t, q.target)
    requires Find(t, p.target, 0).None? && Find(t, q.target, 0).None?
    requires t.slots[t.size].origBoundaries == [] && t.slots[t.size].trampBoundaries == []
    requires p.target % 2 == 0 && q.target % 2 == 0
    ensures
      var it := Reused(t, p, q, elsewhere);
      && Paired(it)
      && ((forall pc :: 0 <= pc < 0x1_0000_0000 ==> RoundTrips(it, pc)) <==> FirstLength(t, p) == FirstLength(t, q))
  {
    hide AllFit, Reused, OrigFor, TrampFor, BytesAt, FirstLength, RoundTrips, Find;
    ReusedSlotIff(t, p, q, elsewhere);
    ArmBoundaries(t, p);
    ArmBoundaries(t, q);
    SecondEntries(4 * FirstLength(t, p), 4 * FirstLength(t, q));
  }

  lemma SecondEntries(x: nat, y: nat)
    requires x > 0 && y > 0
    ensures
      var o: seq<nat>, p: seq<nat>, q: seq<nat> := [0, 4], [0, x], [0, y];
      (forall k :: 0 <= k < 2 ==> (o[k] in o <==> q[k] in p)) <==> x == y
  {
    var o: seq<nat>, p: seq<nat>, q: seq<nat> := [0, 4], [0, x], [0, y];
    assert o[0] in o && o[1] in o && q[0] in p && (q[1] in p <==> x == y);
  }

  lemma ArmBoundaries(t: Table, q: Request)
    requires InMemory(t, q.target) && q.target % 2 == 0
    ensures OrigFor(q.target, BytesAt(t.mem, q.target)) == [0, 4]
    ensures TrampFor(q.target, BytesAt(t.mem, q.target)) == [0, 4 * FirstLength(t, q)]
  {
    hide ArmChunks.ChunkLength;
    var ws := WordsOf(BytesAt(t.mem, q.target));
    assert ArmRelocator.ChunkStart(ws, 1) == ArmChunks.ChunkLength(ws[0]);
  }

  /** A run that loses its place: a BL and a NOP are hooked at 0 and unhooked, two NOPs are registered at 8 in their
      slot, and the second NOP in the trampoline is moved away and back to somewhere else. */
  lemma ReusedSlotCanLoseThePc(slot: Item, elsewhere: bv32 -> bv32)
    requires slot.origBoundaries == [] && slot.trampBoundaries == []
    ensures
      var mem := [0x00, 0x00, 0x00, 0xEB, 0x00, 0x00, 0xA0, 0xE1, 0x00, 0x00, 0xA0, 0xE1, 0x00, 0x00, 0xA0, 0xE1];
      var t := Table([slot], 0, mem, map[]);
      var it := Reused(t, Request(0, 0x2000, None, 0x1000), Request(8, 0x3000, None, 0x4000), elsewhere);
      && Paired(it)
      && Migrate(it, 0x4004, Disable) == (12, true) && Migrate(it, 12, Enable) == (0x400C, true)
  {
    hide Reused, FirstLength;
    var mem: seq<bv8> :=
      [0x00, 0x00, 0x00, 0xEB, 0x00, 0x00, 0xA0, 0xE1, 0x00, 0x00, 0xA0, 0xE1, 0x00, 0x00, 0xA0, 0xE1];
    var t := Table([slot], 0, mem, map[]);
    var p, q := Request(0, 0x2000, None, 0x1000), Request(8, 0x3000, None, 0x4000);
    ReusedArmSlot(t, p, q, elsewhere);
    FirstLengths(t, p, q);
    PcIsLost(Reused(t, p, q, elsewhere));
  }

  lemma PcIsLost(it: Item)
    requires it.target == 8 && it.page == 0x4000
    requires it.origBoundaries == [0, 4, 0, 4] && it.trampBoundaries == [0, 12, 0, 4]
    ensures Paired(it) && Migrate(it, 0x4004, Disable) == (12, true) && Migrate(it, 12, Enable) == (0x400C, true)
  {
    hide Migrate;
    DisableBoundary(it, 3);
    EnableBoundary(it, 1);
  }

  lemma FirstLengths(t: Table, p: Request, q: Request)
    requires InMemory(t, p.target) && p.target % 2 == 0 && InMemory(t, q.target) && q.target % 2 == 0
    requires t.mem[p.target..p.target + 4] == [0x00, 0x00, 0x00, 0xEB]
    requires t.mem[q.target..q.target + 4] == [0x00, 0x00, 0xA0, 0xE1]
    ensures FirstLength(t, p) == 3 && FirstLength(t, q) == 1
  {
    hide WordsOf;
    FirstWord(t.mem, p.target);
    FirstWord(t.mem, q.target);
  }

  lemma FirstWord(mem: seq<bv8>, target: nat)
    requires target % 2 == 0 && target + 8 <= |mem|
    ensures var b := mem[target..target + 4]; WordsOf(BytesAt(mem, target))[0] == Word(b[0], b[1], b[2], b[3])
  {
    hide Word;
  }
}
