/** The hook table as it works: a fixed array of items, code memory overwritten and restored in place. */
module HookCode {
  import opened Options
  import opened HookMigration
  import opened HookTable
  import opened HookThreads
  import ArmRelocator
  import ThumbRelocator

  class Hooks {
    const memory: array<bv8>
    const slots: array<Item>
    var size: nat
    var protos: map<nat, nat>

    /** The table this object stands for. */
    ghost function Abs(): Table
      reads this, memory, slots
    {
      Table(slots[..], size, memory[..], protos)
    }

    ghost predicate Valid()
      reads this, memory, slots
    {
      memory as object != slots && AllFit(Abs())
    }

    /** An empty table over the memory of the process. */
    constructor (memory: array<bv8>, empty: Item)
      ensures Valid() && this.memory == memory && size == 0 && fresh(slots) && slots.Length == 1024
      ensures memory[..] == old(memory[..]) && protos == map[]
    {
      this.memory := memory;
      slots := new Item[1024](_ => empty);
      size := 0;
      protos := map[];
    }

    /** findInlineHookItem, and the search of inlineHook. */
    method FindItem(target: nat) returns (r: Option<nat>)
      requires Valid()
      ensures r == Find(Abs(), target, 0)
    {
      var i := 0;
      while i < size
        invariant i <= size && Find(Abs(), target, 0) == Find(Abs(), target, i)
      {
        if slots[i].target == target {
          return Some(i);
        }
        i := i + 1;
      }
      return None;
    }

    /** memcpy into code memory. */
    method CopyTo(at: nat, bytes: seq<bv8>)
      requires at + |bytes| <= memory.Length
      modifies memory
      ensures memory[..] == Overwrite(old(memory[..]), at, bytes)
    {
      var i := 0;
      while i < |bytes|
        invariant i <= |bytes|
        invariant forall a :: 0 <= a < memory.Length ==>
                    memory[a] == if at <= a < at + i then bytes[a - at] else old(memory[a])
      {
        memory[at + i] := bytes[i];
        i := i + 1;
      }
      assert memory[..] == Overwrite(old(memory[..]), at, bytes);
    }

    /** relocateInstruction on the saved bytes, the way bit 0 of the target says. */
    static method Relocate(target: nat, saved: seq<bv8>, lit: bv32 -> bv32)
      returns (code: Code, origs: seq<nat>, tramps: seq<nat>)
      requires target < 0x1_0000_0000 && |saved| == Length(target)
      ensures code == CodeFor(target, saved, lit)
      ensures origs == OrigFor(target, saved) && tramps == TrampFor(target, saved)
    {
      if target % 2 == 1 {
        code, origs, tramps := RelocateThumb(target, saved, lit);
      } else {
        code, origs, tramps := RelocateArm(target, saved, lit);
      }
    }

    static method RelocateThumb(target: nat, saved: seq<bv8>, lit: bv32 -> bv32)
      returns (code: Code, origs: seq<nat>, tramps: seq<nat>)
      requires target < 0x1_0000_0000 && target % 2 == 1 && |saved| == 12
      ensures code == CodeFor(target, saved, lit)
      ensures origs == OrigFor(target, saved) && tramps == TrampFor(target, saved)
    {
      hide ThumbRelocator.Bytes, ThumbRelocator.OrigStarts, ThumbRelocator.TrampStarts;
      var hs := HalfwordsOf(saved);
      var original := new bv16[6](i requires 0 <= i < 6 => hs[i]);
      var trampoline := new bv16[52];
      var origTable, trampTable := new nat[6], new nat[6];
      assert original[..12 / 2] == hs;
      var count, end := ThumbRelocator.RelocateInstructionInThumb(
        Address(Base(target)), original, 12, lit, trampoline, origTable, trampTable, 0);
      code, origs, tramps := ThumbCode(trampoline[..end]), origTable[..count], trampTable[..count];
    }

    static method RelocateArm(target: nat, saved: seq<bv8>, lit: bv32 -> bv32)
      returns (code: Code, origs: seq<nat>, tramps: seq<nat>)
      requires target < 0x1_0000_0000 && target % 2 == 0 && |saved| == 8
      ensures code == CodeFor(target, saved, lit)
      ensures origs == OrigFor(target, saved) && tramps == TrampFor(target, saved)
    {
      hide ArmRelocator.OrigStarts, ArmRelocator.TrampStarts;
      var ws := WordsOf(saved);
      var original := new bv32[2](i requires 0 <= i < 2 => ws[i]);
      var trampoline := new bv32[14];
      var origTable, trampTable := new nat[2], new nat[2];
      assert original[..8 / 4] == ws;
      var count, end := ArmRelocator.RelocateInstructionInArm(
        Address(target), original, 8, lit, trampoline, origTable, trampTable, 0);
      code, origs, tramps := ArmCode(trampoline[..end]), origTable[..count], trampTable[..count];
    }

    /** registerInlineHook. */
    method RegisterInlineHook(q: Request, executable: bool, elsewhere: bv32 -> bv32) returns (reply: Reply)
      requires Valid() && size < slots.Length && InMemory(Abs(), q.target)
      modifies this`size, slots
      ensures Valid() && (Abs(), reply) == Register(old(Abs()), q, executable, elsewhere)
    {
      hide CodeFor, OrigFor, TrampFor;
      if !executable {
        return NotExecutable;
      }
      var found := FindItem(q.target);
      match found {
        case Some(i) =>
          reply := if slots[i].status == Registered then AlreadyRegistered else AlreadyHooked;
        case None =>
          var saved := memory[Base(q.target)..Base(q.target) + Length(q.target)];
          var code, origs, tramps := Relocate(q.target, saved, LitOf(memory[..], elsewhere));
          var stale := slots[size];
          slots[size] := Item(q.target, q.newAddr, q.proto, saved, q.page, code,
                              stale.origBoundaries + origs, stale.trampBoundaries + tramps, Registered);
          size := size + 1;
          reply := Ok;
          RegisterFits(old(Abs()), q, executable, elsewhere);
      }
    }

    /** doInlineHook. */
    method DoInlineHook(i: nat)
      requires Valid() && i < size
      modifies this`protos, memory, slots
      ensures Valid() && Abs() == DoHook(old(Abs()), i)
    {
      hide Patch;
      HookFits(Abs(), i);
      var it := slots[i];
      assert Fits(Abs(), i);
      CopyTo(Base(it.target), Patch(it.target, it.newAddr));
      if it.proto.Some? {
        protos := protos[it.proto.value := it.page + it.target % 2];
      }
      slots[i] := it.(status := Hooked);
    }

    /** doInlineUnHook. */
    method DoInlineUnHook(i: nat)
      requires Valid() && i < size
      modifies this`size, memory, slots
      ensures Valid() && Abs() == DoUnhook(old(Abs()), i)
    {
      HookFits(Abs(), i);
      var it := slots[i];
      assert Fits(Abs(), i);
      CopyTo(Base(it.target), it.saved);
      slots[i] := slots[size - 1];
      size := size - 1;
    }

    /** inlineHook. */
    method InlineHook(target: nat) returns (reply: Reply)
      requires Valid()
      modifies this`protos, memory, slots
      ensures Valid() && (Abs(), reply) == Hook(old(Abs()), target)
    {
      var found := FindItem(target);
      match found {
        case None => reply := NotRegistered;
        case Some(i) =>
          if slots[i].status == Registered {
            DoInlineHook(i);
            reply := Ok;
          } else {
            reply := AlreadyHooked;
          }
      }
    }

    /** inlineUnHook. */
    method InlineUnHook(target: nat) returns (reply: Reply)
      requires Valid()
      modifies this`size, memory, slots
      ensures Valid() && (Abs(), reply) == Unhook(old(Abs()), target)
    {
      var i := 0;
      while i < size
        invariant i <= size && size == old(size) && Abs() == old(Abs())
        invariant FindHooked(Abs(), target, 0) == FindHooked(Abs(), target, i)
      {
        if slots[i].target == target && slots[i].status == Hooked {
          DoInlineUnHook(i);
          return Ok;
        }
        i := i + 1;
      }
      reply := NotHooked;
    }

    /** inlineUnHookAll: the index steps back over a freed place. */
    method InlineUnHookAll()
      requires Valid()
      modifies this`size, memory, slots
      ensures Valid() && Abs() == UnhookFrom(old(Abs()), 0)
    {
      var i: int := 0;
      while i < size
        invariant 0 <= i <= size && Valid()
        invariant UnhookFrom(Abs(), i) == UnhookFrom(old(Abs()), 0)
        decreases size - i
      {
        if slots[i].status == Hooked {
          DoInlineUnHook(i);
          i := i - 1;
        }
        i := i + 1;
      }
    }

    /** inlineHookAll. */
    method InlineHookAll()
      requires Valid()
      modifies this`protos, memory, slots
      ensures Valid() && Abs() == HookFrom(old(Abs()), 0)
    {
      var i := 0;
      while i < size
        invariant 0 <= i <= size && Valid()
        invariant HookFrom(Abs(), i) == HookFrom(old(Abs()), 0)
      {
        if slots[i].status == Registered {
          DoInlineHook(i);
        }
        i := i + 1;
      }
    }

    /** doProcessThreadPC. */
    method DoProcessThreadPC(it: Item, pc: nat, action: Action) returns (newPc: nat, moved: bool)
      requires |it.origBoundaries| == |it.trampBoundaries|
      ensures (newPc, moved) == Migrate(it, pc, action)
    {
      var i := 0;
      match action {
        case Enable =>
          var offset := Offset(pc, Base(it.target));
          while i < |it.origBoundaries|
            invariant i <= |it.origBoundaries|
              && Entry(it.origBoundaries, offset, 0) == Entry(it.origBoundaries, offset, i)
          {
            if offset == it.origBoundaries[i] {
              return Wrap(it.page + it.trampBoundaries[i]), true;
            }
            i := i + 1;
          }
        case Disable =>
          var offset := Offset(pc, it.page);
          while i < |it.trampBoundaries|
            invariant i <= |it.trampBoundaries|
              && Entry(it.trampBoundaries, offset, 0) == Entry(it.trampBoundaries, offset, i)
          {
            if offset == it.trampBoundaries[i] {
              return Wrap(Base(it.target) + it.origBoundaries[i]), true;
            }
            i := i + 1;
          }
      }
      return pc, false;
    }

    /** processThreadPC for no item in particular: the first that moves the PC. */
    method ProcessThreadPC(pc: nat, action: Action) returns (newPc: nat, moved: bool)
      requires Valid() && Matched(Abs())
      ensures (newPc, moved) == MigrateAny(Abs(), pc, action)
    {
      var i := 0;
      while i < size
        invariant i <= size && Mover(Abs(), pc, action, 0) == Mover(Abs(), pc, action, i)
      {
        newPc, moved := DoProcessThreadPC(slots[i], pc, action);
        if moved {
          return;
        }
        i := i + 1;
      }
      return pc, false;
    }
  }
}
