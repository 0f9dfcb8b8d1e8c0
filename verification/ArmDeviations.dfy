/** The ARM words that the relocator gets wrong, and exactly when that shows. */
module ArmDeviations {
  import opened Words
  import opened ArmMachine
  import opened ArmChunks
  import opened ArmDomain
  import opened ArmMeaning
  import opened ArmSimulation

  // ----- What the chunk of a conditional word means -----

  /** The same word with the condition AL. */
  function Always(w: bv32): bv32 { (w & 0xFFFFFFF) | 0xE0000000 }

  function ClearS(w: bv32): bv32 { w & 0xFFEFFFFF }

  /** The word the chunk of `w` stands for: the condition is gone, and so are the flags of a MOVS. */
  function Meant(w: bv32): bv32 {
    if !LosesCondition(w) then w
    else if IsMovePc(w) then ClearS(Always(w))
    else Always(w)
  }

  lemma LostByKind(w: bv32)
    ensures LosesCondition(w) <==> KindOf(w) in {BlArm, BArm, BxArm, Adr1Arm, Adr2Arm, LdrArm, MovArm}
    ensures IsMovePc(w) <==> KindOf(w) == MovArm
  {
    KindIs(w);
    hide KindOf, IsBranchLink, IsBranch, IsExchangePc, IsAddress, IsAddressBack, IsMovePc, IsLiteralLoad;
  }

  function MeantAll(ws: seq<bv32>): (r: seq<bv32>)
    ensures |r| == |ws| && forall i :: 0 <= i < |ws| ==> r[i] == Meant(ws[i])
  {
    if ws == [] then [] else [Meant(ws[0])] + MeantAll(ws[1..])
  }

  lemma AlwaysMasked(w: bv32, m: bv32)
    requires m & 0xF0000000 == 0
    ensures Always(w) & m == w & m
  {
  }

  lemma ClearSMasked(w: bv32, m: bv32)
    requires m & 0x100000 == 0
    ensures ClearS(w) & m == w & m
  {
  }

  lemma AlwaysKind(w: bv32)
    requires w & 0xFE000000 != 0xFA000000
    ensures KindOf(Always(w)) == KindOf(w)
  {
    assert Always(w) & 0xFE000000 != 0xFA000000;
    hide Always;
    AlwaysMasked(w, 0xF000000);
    AlwaysMasked(w, 0xFF000FF);
    AlwaysMasked(w, 0xFEF0010);
    AlwaysMasked(w, 0xFFF0000);
    AlwaysMasked(w, 0xE5F0000);
    AlwaysMasked(w, 0xFE00FFF);
  }

  lemma ClearSKind(w: bv32)
    requires KindOf(w) == MovArm
    ensures KindOf(ClearS(w)) == MovArm
  {
    assert w & 0xFE00FFF == 0x1A0000F;
    ClearSMasked(w, 0xFE00FFF);
    ClearSMasked(w, 0xFE000000);
    hide ClearS;
    assert w & 0xFE000000 != 0xFA000000;
  }

  lemma MeantKind(w: bv32)
    ensures KindOf(Meant(w)) == KindOf(w)
  {
    hide KindOf, Always, ClearS, LosesCondition, IsMovePc;
    LostByKind(w);
    if LosesCondition(w) {
      NotBlx(w);
      AlwaysKind(w);
      if KindOf(w) == MovArm {
        ClearSKind(Always(w));
      }
    }
  }

  lemma MeantMove(w: bv32, m: bv32)
    requires KindOf(w) == MovArm && m & 0xF0000000 == 0 && m & 0x100000 == 0
    ensures Meant(w) & m == w & m
  {
    hide KindOf, Always, ClearS, LosesCondition, IsMovePc;
    LostByKind(w);
    AlwaysMasked(w, m);
    ClearSMasked(Always(w), m);
  }

  lemma MeantOther(w: bv32, m: bv32)
    requires LosesCondition(w) && KindOf(w) != MovArm && m & 0xF0000000 == 0
    ensures Meant(w) == Always(w) && Meant(w) & m == w & m
  {
    hide KindOf, Always, ClearS, LosesCondition, IsMovePc;
    LostByKind(w);
    AlwaysMasked(w, m);
  }

  lemma MeantMasked(w: bv32, m: bv32)
    requires LosesCondition(w) && m & 0xF0000000 == 0 && m & 0x100000 == 0
    ensures Meant(w) & m == w & m
  {
    hide KindOf, Always, ClearS, Meant, LosesCondition;
    if KindOf(w) == MovArm {
      MeantMove(w, m);
    } else {
      MeantOther(w, m);
    }
  }

  lemma MeantValue(kind: Kind, pc: bv32, w: bv32, lit: bv32 -> bv32)
    requires LosesCondition(w)
    ensures LoadedValue(kind, pc, Meant(w), lit) == LoadedValue(kind, pc, w, lit)
  {
    hide Meant, KindOf, LoadedFrom, LosesCondition;
    MeantMasked(w, 0xFFF);
    MeantDirection(w);
  }

  lemma MeantDirection(w: bv32)
    requires LosesCondition(w)
    ensures (Meant(w) & 0x800000) >> 23 == (w & 0x800000) >> 23
  {
    hide Meant, KindOf, LosesCondition;
    MeantMasked(w, 0x800000);
  }

  lemma MeantLiteral(kind: Kind, pc: bv32, w: bv32)
    requires LosesCondition(w) && KindOf(w) != MovArm && kind != BlxArm
    ensures BranchLiteral(kind, pc, Meant(w)) == BranchLiteral(kind, pc, w)
  {
    hide Meant, KindOf, Plus, Imm24, TopBitExtended, LosesCondition;
    assert Imm24(Meant(w)) == Imm24(w) by { MeantImm24(w); }
  }

  lemma MeantImm24(w: bv32)
    requires LosesCondition(w) && KindOf(w) != MovArm
    ensures Imm24(Meant(w)) == Imm24(w)
  {
    hide KindOf, Meant, Always, LosesCondition;
    MeantOther(w, 0xFFFFFF);
  }

  lemma MeantChunk(pc: bv32, w: bv32, lit: bv32 -> bv32)
    ensures Chunk(pc, Meant(w), lit) == Chunk(pc, w, lit)
  {
    hide Meant, KindOf, LoadedValue, BranchLiteral, Borrowed, LosesCondition;
    LostByKind(w);
    MeantKind(w);
    if LosesCondition(w) {
      if KindOf(w) != MovArm {
        MeantLiteral(KindOf(w), pc, w);
      }
      MeantValue(KindOf(w), pc, w, lit);
      MeantMasked(w, 0xF000);
    } else {
      assert Meant(w) == w by { NotMeant(w); }
    }
  }

  lemma NotMeant(w: bv32)
    requires !LosesCondition(w)
    ensures Meant(w) == w
  {
    hide LosesCondition;
  }

  /** A trampoline cannot tell a conditional word from the word its chunk stands for. */
  lemma {:induction false} MeantTrampoline(at: bv32, ws: seq<bv32>, lit: bv32 -> bv32)
    ensures Trampoline(at, MeantAll(ws), lit) == Trampoline(at, ws, lit)
    decreases |ws|
  {
    hide Chunk, Meant, Next, PcValue;
    if ws != [] {
      MeantChunk(PcValue(at), ws[0], lit);
      assert MeantAll(ws)[1..] == MeantAll(ws[1..]);
      MeantTrampoline(Next(at), ws[1..], lit);
    }
  }

  lemma {:induction false} MeantAddress(tr: bv32, ws: seq<bv32>, k: nat)
    requires k <= |ws|
    ensures ChunkAddress(tr, MeantAll(ws), k) == ChunkAddress(tr, ws, k)
    decreases k
  {
    hide KindOf, Meant, Advance;
    if k > 0 {
      MeantKind(ws[0]);
      assert MeantAll(ws)[1..] == MeantAll(ws[1..]);
      MeantAddress(Advance(tr, ChunkLength(ws[0])), ws[1..], k - 1);
    }
  }

  /** So a trampoline whose words are conditional, entered at the chunk of word `k`, runs like their unconditional,
      flag-free forms, with every link at the chunk of its successor. */
  lemma ConditionsAreDropped(isa: Isa, scratch: bv32 -> bool, target: bv32, ws: seq<bv32>, lit: bv32 -> bv32, tr: bv32,
                             k: nat, c: Core, d: Core)
    requires k <= |ws| && Local(isa, scratch) && Relocatable(target, MeantAll(ws), tr) && Same(scratch, c, d)
    requires Safe(isa, scratch, Advance(target, k), MeantAll(ws)[k..], lit, ChunkAddress(tr, ws, k), c)
    ensures Trampoline(target, MeantAll(ws), lit) == Trampoline(target, ws, lit)
    ensures forall j :: 0 <= j <= |ws| ==> ChunkAddress(tr, MeantAll(ws), j) == ChunkAddress(tr, ws, j)
    ensures
      var start := ChunkAddress(tr, ws, k);
      var vs := MeantAll(ws)[k..];
      exists n: nat ::
        Arrives(Original(isa, Advance(target, k), vs, c), start, vs, Run(isa, Running(start, false, d), n), scratch)
  {
    hide Safe, Local, Same, Original, Run, Arrives, Keeps, Meant, MeantAll, ChunkAddress, Trampoline, Advance;
    MeantTrampoline(target, ws, lit);
    forall j | 0 <= j <= |ws|
      ensures ChunkAddress(tr, MeantAll(ws), j) == ChunkAddress(tr, ws, j)
    {
      MeantAddress(tr, ws, j);
    }
    ArmRelocationKeepsMeaning(isa, scratch, target, MeantAll(ws), lit, tr, k, c, d);
  }

  // ----- What the chunks do, whatever the condition -----

  /** A word whose chunk loads a literal into its register. */
  predicate LoadsRegister(w: bv32) { IsAddress(w) || IsAddressBack(w) || IsLiteralLoad(w) || IsMovePc(w) }

  /** That literal. */
  function Embedded(at: bv32, w: bv32, lit: bv32 -> bv32): bv32 {
    if IsLiteralLoad(w) then lit(LiteralAddress(at, w)) else if IsMovePc(w) then at + 8 else UnrotatedValue(at, w)
  }

  lemma LiteralSum(kind: Kind, at: bv32, w: bv32)
    requires kind in {BArm, BlArm}
    ensures BranchLiteral(kind, at + 8, w) == Plus(at + 8, SignExtend26(Imm24(w) << 2))
  {
    OffsetIsExtended(kind, w);
    hide Plus, BranchOffset, SignExtend26, Imm24;
  }

  lemma BranchFromPc(at: bv32, w: bv32)
    ensures BranchLiteral(BxArm, at + 8, w) == at + 8
  {
  }

  /** The literal of a branch is where it goes. */
  lemma LiteralIsDestination(at: bv32, w: bv32)
    requires IsBranch(w) || IsExchangePc(w) || IsBranchLink(w)
    ensures BranchLiteral(KindOf(w), at + 8, w) == Destination(at, w)
    ensures IsBranchLink(w) <==> KindOf(w) == BlArm
    ensures IsBranch(w) || IsExchangePc(w) <==> KindOf(w) in {BArm, BxArm}
  {
    hide KindOf, IsBranchLink, IsBranch, IsExchangePc, IsBlx, Plus, Imm24, BranchLiteral, SignExtend26;
    KindIs(w);
    if KindOf(w) == BxArm {
      BranchFromPc(at, w);
    } else {
      LiteralSum(KindOf(w), at, w);
    }
  }

  /** The literal of a load. */
  lemma LoadedIsEmbedded(at: bv32, w: bv32, lit: bv32 -> bv32)
    requires LoadsRegister(w)
    ensures LoadedValue(KindOf(w), at + 8, w, lit) == Embedded(at, w, lit)
    ensures KindOf(w) in {Adr1Arm, Adr2Arm, LdrArm, MovArm} && KindOf(w) != BlxArm
    ensures IsMovePc(w) <==> KindOf(w) == MovArm
    ensures IsLiteralLoad(w) <==> KindOf(w) == LdrArm
    ensures IsAddress(w) || IsAddressBack(w) <==> KindOf(w) in {Adr1Arm, Adr2Arm}
  {
    hide KindOf, IsAddress, IsAddressBack, IsLiteralLoad, IsMovePc, IsBlx, IsBranchLink, IsBranch, IsExchangePc,
      IsAddPc, Rewritten, Plus, Minus, LiteralAddress, LoadedValue;
    KindIs(w);
    LoadedLiteral(at, w, lit);
    NotLoaded(KindOf(w), at, w, lit);
  }

  lemma NotLoaded(kind: Kind, at: bv32, w: bv32, lit: bv32 -> bv32)
    ensures kind == Adr1Arm ==> LoadedValue(kind, at + 8, w, lit) == Plus(at + 8, w & 0xFFF)
    ensures kind == Adr2Arm ==> LoadedValue(kind, at + 8, w, lit) == Minus(at + 8, w & 0xFFF)
    ensures kind == MovArm ==> LoadedValue(kind, at + 8, w, lit) == at + 8
  {
    hide Plus, Minus;
  }

  /** The chunk of a branch jumps where the branch goes. */
  lemma BranchChunkJumps(isa: Isa, scratch: bv32 -> bool, at: bv32, w: bv32, lit: bv32 -> bv32, tr: bv32, d: Core)
    requires (IsBranch(w) || IsExchangePc(w)) && at & 3 == 0
    requires Holds(d.mem, scratch, tr, Chunk(at + 8, w, lit))
    ensures Run(isa, Running(tr, false, d), 1) == Running(Destination(at, w), false, d)
  {
    hide Exec, Plus, Next, BranchLiteral, Destination, IsBranch, IsExchangePc, IsBranchLink;
    LiteralIsDestination(at, w);
    HeldWords(d.mem, scratch, tr, Chunk(at + 8, w, lit));
    hide Holds, Chunk, KindOf;
    JumpLiteral(isa, tr, d);
    BranchAligned(at, w);
    assert Run(isa, Running(tr, false, d), 1) == Step(isa, Running(tr, false, d));
  }

  /** The chunk of a BL links and jumps where that goes. */
  lemma LinkChunkJumps(isa: Isa, scratch: bv32 -> bool, at: bv32, w: bv32, lit: bv32 -> bv32, tr: bv32, d: Core)
    requires IsBranchLink(w) && at & 3 == 0
    requires Holds(d.mem, scratch, tr, Chunk(at + 8, w, lit))
    ensures Run(isa, Running(tr, false, d), 2) == Running(Destination(at, w), false, Set(d, LR, Advance(tr, 3)))
  {
    hide Exec, Plus, Next, WritePC, BranchOffset, BranchLiteral, Destination, IsBranch, IsExchangePc, IsBranchLink;
    LiteralIsDestination(at, w);
    var code := Chunk(at + 8, w, lit);
    HeldWords(d.mem, scratch, tr, code);
    HeldWords(d.mem, scratch, Next(Next(tr)), code[2..]);
    hide Holds, Chunk, KindOf;
    var e := Set(d, LR, Next(Next(Next(tr))));
    LinkNext(isa, tr, d);
    JumpLiteral(isa, Next(tr), e);
    LinkLiteral(at, w, e);
    BranchLiteralSum(at, w);
    RunTwo(isa, Running(tr, false, d));
    AdvanceThree(tr);
    assert Step(isa, Running(tr, false, d)) == Running(Next(tr), false, e);
  }

  /** The chunk of a load, a move or an address sets the register to the literal. */
  lemma LoadChunkSets(isa: Isa, scratch: bv32 -> bool, at: bv32, w: bv32, lit: bv32 -> bv32, tr: bv32, d: Core)
    requires LoadsRegister(w) && Rd(w) != PC && tr & 3 == 0
    requires Holds(d.mem, scratch, tr, Chunk(at + 8, w, lit))
    ensures Run(isa, Running(tr, false, d), 2) == Running(Advance(tr, 3), false, Set(d, Rd(w), Embedded(at, w, lit)))
  {
    hide Exec, Plus, Minus, Next, LoadedValue, Run, Advance, Chunk, Holds, LoadsRegister, Embedded, KindOf, IsAddress,
      IsAddressBack, IsLiteralLoad, IsMovePc;
    assert ((w & 0xF000) >> 12) as bv4 == Rd(w);
    LoadedIsEmbedded(at, w, lit);
    LoadChunkIs(at, w, lit);
    LoadRun(isa, scratch, tr, w & 0xF000, Embedded(at, w, lit), d);
    AdvanceThree(tr);
  }

  // ----- When a conditional branch is right -----

  lemma TakenBranch(isa: Isa, at: bv32, w: bv32, c: Core)
    requires (IsBranch(w) || IsExchangePc(w)) && at & 3 == 0 && Executes(w, c)
    ensures Exec(isa, at, w, c) == Goto(Destination(at, w), false, c)
  {
    hide Exec, BranchLiteral, Destination, KindOf, IsBranch, IsExchangePc, IsBranchLink;
    LiteralIsDestination(at, w);
    if KindOf(w) == BArm {
      BranchOriginal(isa, at, w, c);
    } else {
      BxPcOriginal(isa, at, w, c);
      BranchAligned(at, w);
    }
  }

  lemma JumpsIff(scratch: bv32 -> bool, taken: bool, dest: bv32, next: bv32, c: Core, d: Core)
    requires Same(scratch, c, d)
    ensures Leads(if taken then Goto(dest, false, c) else Fall(c), next, Running(dest, false, d), scratch)
       <==> taken || dest == next
  {
    hide Same;
  }

  lemma LinksIff(scratch: bv32 -> bool, taken: bool, dest: bv32, next: bv32, c: Core, d: Core)
    requires Same(scratch, c, d)
    ensures Leads(if taken then Call(dest, false, c) else Fall(c), next, Running(dest, false, Set(d, LR, next)),
                  scratch)
       <==> taken || (dest == next && c.reg(LR) == next)
  {
    SetIsSameIff(scratch, c, d, LR, next);
    SameSet(scratch, c, d, LR, next);
    hide Same, Set;
  }

  /** What a word that loses its condition does otherwise. */
  lemma LostBody(isa: Isa, at: bv32, w: bv32, c: Core)
    requires LosesCondition(w) && Cond(w) != 15
    ensures Exec(isa, at, w, c) == if ConditionHolds(Cond(w), c.flags) then ExecBody(isa, at, w, c) else Fall(c)
  {
    hide Exec, ExecBody, KindOf, ConditionHolds, Cond, LosesCondition, IsMovePc;
    LostByKind(w);
    BodyRuns(isa, at, w, c);
  }

  lemma BranchOutcome(isa: Isa, at: bv32, w: bv32, c: Core)
    requires (IsBranch(w) || IsExchangePc(w)) && Cond(w) != 15 && at & 3 == 0
    ensures Exec(isa, at, w, c)
         == if ConditionHolds(Cond(w), c.flags) then Goto(Destination(at, w), false, c) else Fall(c)
  {
    hide Exec, ExecBody, ConditionHolds, Cond, Destination, IsBranch, IsExchangePc;
    LostBody(isa, at, w, c);
    if ConditionHolds(Cond(w), c.flags) {
      TakenBranch(isa, at, w, c);
    }
  }

  lemma LinkOutcome(isa: Isa, at: bv32, w: bv32, c: Core)
    requires IsBranchLink(w) && Cond(w) != 15
    ensures Exec(isa, at, w, c)
         == if ConditionHolds(Cond(w), c.flags) then Call(Destination(at, w), false, c) else Fall(c)
  {
    hide Exec, ExecBody, ConditionHolds, Cond, Destination, IsBranch, IsExchangePc, IsBranchLink, KindOf, BranchLiteral;
    LostBody(isa, at, w, c);
    if ConditionHolds(Cond(w), c.flags) {
      LiteralIsDestination(at, w);
      BranchLinkOriginal(isa, at, w, c);
    }
  }

  /** A conditional B or BX PC is right exactly when its condition holds, or when it happens to lead to the chunk of its
      successor anyway. */
  lemma BranchRightIff(isa: Isa, scratch: bv32 -> bool, at: bv32, w: bv32, lit: bv32 -> bv32, c: Core, tr: bv32,
                       d: Core)
    requires (IsBranch(w) || IsExchangePc(w)) && Cond(w) != 15 && at & 3 == 0 && Same(scratch, c, d)
    requires Holds(d.mem, scratch, tr, Chunk(at + 8, w, lit))
    ensures Leads(Exec(isa, at, w, c), Advance(tr, 2), Run(isa, Running(tr, false, d), 1), scratch)
       <==> ConditionHolds(Cond(w), c.flags) || Destination(at, w) == Advance(tr, 2)
  {
    hide Exec, Run, Holds, Chunk, Same, ConditionHolds, Cond, Destination, Advance, Leads, IsBranch, IsExchangePc;
    BranchChunkJumps(isa, scratch, at, w, lit, tr, d);
    BranchOutcome(isa, at, w, c);
    JumpsIff(scratch, ConditionHolds(Cond(w), c.flags), Destination(at, w), Advance(tr, 2), c, d);
  }

  /** A conditional BL is right exactly when its condition holds, or when it happens to lead to the chunk of its
      successor anyway and LR is there already. */
  lemma LinkRightIff(isa: Isa, scratch: bv32 -> bool, at: bv32, w: bv32, lit: bv32 -> bv32, c: Core, tr: bv32, d: Core)
    requires IsBranchLink(w) && Cond(w) != 15 && at & 3 == 0 && Same(scratch, c, d)
    requires Holds(d.mem, scratch, tr, Chunk(at + 8, w, lit))
    ensures Leads(Exec(isa, at, w, c), Advance(tr, 3), Run(isa, Running(tr, false, d), 2), scratch)
       <==> ConditionHolds(Cond(w), c.flags)
            || (Destination(at, w) == Advance(tr, 3) && c.reg(LR) == Advance(tr, 3))
  {
    hide Exec, Run, Holds, Chunk, Same, Set, ConditionHolds, Cond, Destination, Advance, Leads, IsBranchLink;
    LinkChunkJumps(isa, scratch, at, w, lit, tr, d);
    LinkOutcome(isa, at, w, c);
    LinksIff(scratch, ConditionHolds(Cond(w), c.flags), Destination(at, w), Advance(tr, 3), c, d);
  }

  /** Setting a register changes nothing exactly if it has the value already. */
  lemma SetIsSameIff(scratch: bv32 -> bool, c: Core, d: Core, r: bv4, v: bv32)
    requires Same(scratch, c, d) && r != PC
    ensures Same(scratch, c, Set(d, r, v)) <==> c.reg(r) == v
  {
    assert Set(d, r, v).reg(r) == v;
  }

  // ----- When a load, a move or an address is right -----

  /** A relocated load is right exactly when what it loads is what the original leaves in the register. */
  lemma SetRightIff(isa: Isa, scratch: bv32 -> bool, at: bv32, w: bv32, lit: bv32 -> bv32, c: Core, tr: bv32, d: Core,
                    v: bv32)
    requires LoadsRegister(w) && Rd(w) != PC && Cond(w) != 15 && tr & 3 == 0
    requires Same(scratch, c, d) && Holds(d.mem, scratch, tr, Chunk(at + 8, w, lit))
    requires Exec(isa, at, w, c) == Fall(if ConditionHolds(Cond(w), c.flags) then Set(c, Rd(w), v) else c)
    ensures Leads(Exec(isa, at, w, c), Advance(tr, 3), Run(isa, Running(tr, false, d), 2), scratch)
       <==> Embedded(at, w, lit) == if ConditionHolds(Cond(w), c.flags) then v else c.reg(Rd(w))
  {
    hide Exec, Run, Holds, Chunk, LoadsRegister, ConditionHolds, Cond, Embedded, Advance, Rd;
    LoadChunkSets(isa, scratch, at, w, lit, tr, d);
    var r, u := Rd(w), Embedded(at, w, lit);
    SetIsSameIff(scratch, c, d, r, u);
    SetsAreSameIff(scratch, c, d, r, v, u);
  }

  lemma SetsAreSameIff(scratch: bv32 -> bool, c: Core, d: Core, r: bv4, u: bv32, v: bv32)
    requires Same(scratch, c, d) && r != PC
    ensures Same(scratch, Set(c, r, u), Set(d, r, v)) <==> u == v
  {
    assert Set(c, r, u).reg(r) == u && Set(d, r, v).reg(r) == v;
  }

  /** What these words do otherwise. */
  lemma LoadOutcome(isa: Isa, at: bv32, w: bv32, c: Core)
    requires LoadsRegister(w) && Cond(w) != 15
    ensures !ConditionHolds(Cond(w), c.flags) ==> Exec(isa, at, w, c) == Fall(c)
    ensures ConditionHolds(Cond(w), c.flags) && (IsAddress(w) || IsAddressBack(w)) ==>
      Exec(isa, at, w, c) == Write(c, Rd(w), AddressValue(at, w))
    ensures ConditionHolds(Cond(w), c.flags) && IsLiteralLoad(w) ==>
      Exec(isa, at, w, c) == if IsOffsetForm(w) then Write(c, Rd(w), c.mem(LiteralAddress(at, w))) else Unpredictable
    ensures ConditionHolds(Cond(w), c.flags) && IsMovePc(w) && !SetsFlags(w) ==>
      Exec(isa, at, w, c) == Write(c, Rd(w), at + 8)
  {
    hide Exec, ExecBody, KindOf, ConditionHolds, Cond, LoadedValue, AddressValue, IsOffsetForm, Rd, Embedded, Write,
      IsAddress, IsAddressBack, IsLiteralLoad, IsMovePc, LiteralAddress;
    LoadedIsEmbedded(at, w, c.mem);
    LostBody(isa, at, w, c);
    if ConditionHolds(Cond(w), c.flags) {
      match KindOf(w)
      case MovArm => if !SetsFlags(w) { MoveOriginal(isa, at, w, c); }
      case LdrArm => LoadedLiteral(at, w, c.mem); LoadOriginal(isa, at, w, c);
      case _ => AddressOriginal(isa, at, w, c);
    }
  }

  lemma OnlyOne(w: bv32)
    ensures IsAddress(w) || IsAddressBack(w) ==> !IsLiteralLoad(w) && !IsMovePc(w)
    ensures IsMovePc(w) ==> !IsLiteralLoad(w)
  {
    hide FormOf, Rn, Rm, SetsFlags;
  }

  /** An address constant is right exactly when it is not rotated and its condition holds, or when its condition does
      not hold and the register has the value anyway. */
  lemma AddressRightIff(isa: Isa, scratch: bv32 -> bool, at: bv32, w: bv32, lit: bv32 -> bv32, c: Core, tr: bv32,
                        d: Core)
    requires (IsAddress(w) || IsAddressBack(w)) && Rd(w) != PC && Cond(w) != 15 && tr & 3 == 0
    requires Same(scratch, c, d) && Holds(d.mem, scratch, tr, Chunk(at + 8, w, lit))
    ensures Leads(Exec(isa, at, w, c), Advance(tr, 3), Run(isa, Running(tr, false, d), 2), scratch)
       <==> if ConditionHolds(Cond(w), c.flags) then w & 0xF00 == 0 else c.reg(Rd(w)) == UnrotatedValue(at, w)
  {
    hide Exec, ExecBody, Run, Holds, Chunk, Same, ConditionHolds, Cond, Advance, AddressValue, UnrotatedValue, Rd,
      IsAddress, IsAddressBack, IsLiteralLoad, IsMovePc;
    LoadOutcome(isa, at, w, c);
    OnlyOne(w);
    SetRightIff(isa, scratch, at, w, lit, c, tr, d, AddressValue(at, w));
    AddressesAgreeIff(at, w);
  }

  lemma AddressesAgreeIff(at: bv32, w: bv32)
    ensures UnrotatedValue(at, w) == AddressValue(at, w) <==> w & 0xF00 == 0
  {
    hide ExpandImm, IsAddress;
    UnrotatedImmediate(w);
    var x, y := w & 0xFFF, ExpandImm(w & 0xFFF);
    SumsAgreeIff(at + 8, x, y);
    hide Plus, Minus;
  }

  lemma SumsAgreeIff(a: bv32, x: bv32, y: bv32)
    ensures Plus(a, x) == Plus(a, y) <==> x == y
    ensures Minus(a, x) == Minus(a, y) <==> x == y
  {
    hide Plus, Minus;
    PlusBack(a, x);
    PlusBack(a, y);
    MinusBack(a, x);
    MinusBack(a, y);
  }

  lemma PlusBack(a: bv32, x: bv32)
    ensures Minus(Plus(a, x), a) == x
  {
    hide Minus;
    SumBack(a, x);
  }

  lemma SumBack(a: bv32, x: bv32)
    ensures Minus(a + x, a) == x
  {
  }

  lemma MinusBack(a: bv32, x: bv32)
    ensures Minus(a, Minus(a, x)) == x
  {
    DifferenceBack(a, x);
    var d := Minus(a, x);
    assert d == a - x;
    hide Minus;
  }

  lemma DifferenceBack(a: bv32, x: bv32)
    ensures Minus(a, a - x) == x
  {
  }

  /** A literal load is right exactly when the literal has not changed and its condition holds, or when its condition
      does not hold and the register has the value anyway. */
  lemma LoadRightIff(isa: Isa, scratch: bv32 -> bool, at: bv32, w: bv32, lit: bv32 -> bv32, c: Core, tr: bv32, d: Core)
    requires IsLiteralLoad(w) && IsOffsetForm(w) && Rd(w) != PC && Cond(w) != 15 && tr & 3 == 0
    requires Same(scratch, c, d) && Holds(d.mem, scratch, tr, Chunk(at + 8, w, lit))
    ensures Leads(Exec(isa, at, w, c), Advance(tr, 3), Run(isa, Running(tr, false, d), 2), scratch)
       <==> lit(LiteralAddress(at, w))
            == if ConditionHolds(Cond(w), c.flags) then c.mem(LiteralAddress(at, w)) else c.reg(Rd(w))
  {
    hide Exec, ExecBody, Run, Holds, Chunk, Same, ConditionHolds, Cond, LiteralAddress, Advance, IsOffsetForm, Rd,
      IsLiteralLoad, IsAddress, IsAddressBack, IsMovePc;
    LoadOutcome(isa, at, w, c);
    SetRightIff(isa, scratch, at, w, lit, c, tr, d, c.mem(LiteralAddress(at, w)));
  }

  /** A move from the PC is right exactly when its condition holds, or when it does not and the register has the value
      anyway. */
  lemma MoveRightIff(isa: Isa, scratch: bv32 -> bool, at: bv32, w: bv32, lit: bv32 -> bv32, c: Core, tr: bv32, d: Core)
    requires IsMovePc(w) && !SetsFlags(w) && Rd(w) != PC && Cond(w) != 15 && tr & 3 == 0
    requires Same(scratch, c, d) && Holds(d.mem, scratch, tr, Chunk(at + 8, w, lit))
    ensures Leads(Exec(isa, at, w, c), Advance(tr, 3), Run(isa, Running(tr, false, d), 2), scratch)
       <==> ConditionHolds(Cond(w), c.flags) || c.reg(Rd(w)) == at + 8
  {
    hide Exec, ExecBody, Run, Holds, Chunk, Same, ConditionHolds, Cond, Advance, Rd, SetsFlags, IsLiteralLoad,
      IsAddress, IsAddressBack, IsMovePc;
    LoadOutcome(isa, at, w, c);
    OnlyOne(w);
    SetRightIff(isa, scratch, at, w, lit, c, tr, d, at + 8);
  }

  /** The flags that a move of `v` sets. */
  function MoveFlags(v: bv32, f: Flags): Flags { Flags(v & 0x80000000 != 0, v == 0, f.c, f.v) }

  lemma FlagMoveOriginal(isa: Isa, at: bv32, w: bv32, c: Core)
    requires IsMovePc(w) && Executes(w, c) && SetsFlags(w)
    ensures Rd(w) != PC ==> Exec(isa, at, w, c) == Fall(Set(c, Rd(w), at + 8).(flags := MoveFlags(at + 8, c.flags)))
    ensures Rd(w) == PC ==> Exec(isa, at, w, c) == Unpredictable
  {
    hide KindOf, FormOf, Rd, Rm, Exec, LosesCondition;
    MoveLoses(w);
    LostBody(isa, at, w, c);
  }

  lemma MoveLoses(w: bv32)
    requires IsMovePc(w)
    ensures LosesCondition(w)
  {
    hide IsMovePc;
  }

  /** A MOVS is right exactly when its condition holds and the flags are what it sets anyway, or when its condition does
      not hold and the register has the value anyway. */
  lemma FlagMoveRightIff(isa: Isa, scratch: bv32 -> bool, at: bv32, w: bv32, lit: bv32 -> bv32, c: Core, tr: bv32,
                         d: Core)
    requires IsMovePc(w) && SetsFlags(w) && Rd(w) != PC && Cond(w) != 15 && tr & 3 == 0
    requires Same(scratch, c, d) && Holds(d.mem, scratch, tr, Chunk(at + 8, w, lit))
    ensures Leads(Exec(isa, at, w, c), Advance(tr, 3), Run(isa, Running(tr, false, d), 2), scratch)
       <==> if ConditionHolds(Cond(w), c.flags) then c.flags == MoveFlags(at + 8, c.flags) else c.reg(Rd(w)) == at + 8
  {
    hide Exec, ExecBody, Run, Holds, Chunk, ConditionHolds, Cond, Advance, MoveFlags, Rd, SetsFlags, IsLiteralLoad,
      IsAddress, IsAddressBack, IsMovePc;
    LoadOutcome(isa, at, w, c);
    OnlyOne(w);
    LoadChunkSets(isa, scratch, at, w, lit, tr, d);
    if ConditionHolds(Cond(w), c.flags) {
      FlagMoveOriginal(isa, at, w, c);
    } else {
      SetIsSameIff(scratch, c, d, Rd(w), at + 8);
    }
  }

  // ----- When one that goes to the PC is right -----

  /** Whether a word that loads, moves or computes an address has no defined effect. */
  predicate HasNoEffect(w: bv32) { (IsMovePc(w) && SetsFlags(w)) || (IsLiteralLoad(w) && !IsOffsetForm(w)) }

  /** What one that has an effect writes to the PC. */
  function ToPc(at: bv32, w: bv32, c: Core): bv32 {
    if IsMovePc(w) then at + 8 else if IsLiteralLoad(w) then c.mem(LiteralAddress(at, w)) else AddressValue(at, w)
  }

  lemma PcOutcome(isa: Isa, at: bv32, w: bv32, c: Core)
    requires LoadsRegister(w) && Rd(w) == PC && Cond(w) != 15
    ensures Exec(isa, at, w, c)
         == if !ConditionHolds(Cond(w), c.flags) then Fall(c)
            else if HasNoEffect(w) then Unpredictable else WritePC(ToPc(at, w, c), c)
  {
    hide Exec, ExecBody, ConditionHolds, Cond, AddressValue, IsOffsetForm, Rd, WritePC, IsAddress, IsAddressBack,
      IsLiteralLoad, IsMovePc, LiteralAddress, SetsFlags;
    LoadOutcome(isa, at, w, c);
    OnlyOne(w);
    if ConditionHolds(Cond(w), c.flags) && IsMovePc(w) && SetsFlags(w) {
      FlagMoveOriginal(isa, at, w, c);
    }
  }

  function Landed(o: Outcome): Machine {
    match o
    case Goto(a, t, e) => Running(a, t, e)
    case _ => Halted
  }

  /** The chunk goes to the literal whatever the condition. */
  lemma PcChunkJumps(isa: Isa, scratch: bv32 -> bool, at: bv32, w: bv32, lit: bv32 -> bv32, tr: bv32, d: Core)
    requires LoadsRegister(w) && Rd(w) == PC && tr & 3 == 0
    requires Holds(d.mem, scratch, tr, Chunk(at + 8, w, lit))
    ensures Run(isa, Running(tr, false, d), 1) == Landed(WritePC(Embedded(at, w, lit), d))
  {
    hide Exec, Plus, Minus, Next, LoadedValue, Run, Advance, Chunk, Holds, WritePC, LoadsRegister, Embedded, KindOf,
      IsAddress, IsAddressBack, IsLiteralLoad, IsMovePc;
    assert ((w & 0xF000) >> 12) as bv4 == Rd(w);
    LoadedIsEmbedded(at, w, lit);
    LoadChunkIs(at, w, lit);
    LoadRun(isa, scratch, tr, w & 0xF000, Embedded(at, w, lit), d);
    WriteIsJump(Embedded(at, w, lit), d);
  }

  lemma WriteIsJump(v: bv32, d: Core)
    ensures !WritePC(v, d).Fall? && !WritePC(v, d).Call?
  {
  }

  /** An address to jump to: odd, or a multiple of four, or neither, which leads nowhere. */
  predicate Odd(v: bv32) { v & 1 == 1 }
  predicate Fourth(v: bv32) { v & 3 == 0 }
  predicate Nowhere(v: bv32) { v & 3 == 2 }
  function WithoutBit(v: bv32): bv32 { v & 0xFFFFFFFE }
  function WithBit(a: bv32): bv32 { a | 1 }

  lemma WriteIs(v: bv32, d: Core)
    ensures Odd(v) || Fourth(v) || Nowhere(v)
    ensures Odd(v) ==> WritePC(v, d) == Goto(WithoutBit(v), true, d) && !Nowhere(v)
    ensures Fourth(v) ==> WritePC(v, d) == Goto(v, false, d) && !Nowhere(v)
    ensures Nowhere(v) ==> WritePC(v, d) == Unpredictable
  {
  }

  lemma OddRebuilt(v: bv32)
    requires Odd(v)
    ensures WithBit(WithoutBit(v)) == v
  {
  }

  lemma LandsIff(scratch: bv32 -> bool, v: bv32, u: bv32, next: bv32, c: Core, d: Core)
    requires Same(scratch, c, d)
    ensures Leads(WritePC(v, c), next, Landed(WritePC(u, d)), scratch) <==> Nowhere(v) || u == v
  {
    hide Same, WritePC, Odd, Fourth, Nowhere, WithBit, WithoutBit;
    WriteIs(v, c);
    WriteIs(u, d);
    if Odd(v) && Odd(u) {
      OddRebuilt(u);
      OddRebuilt(v);
    }
  }

  lemma FallsIff(scratch: bv32 -> bool, u: bv32, next: bv32, c: Core, d: Core)
    requires Same(scratch, c, d) && next & 3 == 0
    ensures Leads(Fall(c), next, Landed(WritePC(u, d)), scratch) <==> u == next
  {
    hide Same;
  }

  /** A load, move or address to the PC is right exactly when its condition holds and the literal is what the original
      writes, unless the original leaves open where it goes; or when its condition does not hold and the literal is the
      chunk of its successor anyway. */
  lemma PcLoadRightIff(isa: Isa, scratch: bv32 -> bool, at: bv32, w: bv32, lit: bv32 -> bv32, c: Core, tr: bv32,
                       d: Core)
    requires LoadsRegister(w) && Rd(w) == PC && Cond(w) != 15 && tr & 3 == 0
    requires Same(scratch, c, d) && Holds(d.mem, scratch, tr, Chunk(at + 8, w, lit))
    ensures
      var u, v := Embedded(at, w, lit), ToPc(at, w, c);
      Leads(Exec(isa, at, w, c), Advance(tr, 3), Run(isa, Running(tr, false, d), 1), scratch) <==>
      if ConditionHolds(Cond(w), c.flags) then HasNoEffect(w) || Nowhere(v) || u == v else u == Advance(tr, 3)
  {
    hide Exec, Run, Holds, Chunk, LoadsRegister, Same, ConditionHolds, Cond, Embedded, Advance, Rd, ToPc, HasNoEffect,
      WritePC, Landed, Nowhere;
    var u, v := Embedded(at, w, lit), ToPc(at, w, c);
    PcOutcome(isa, at, w, c);
    PcChunkJumps(isa, scratch, at, w, lit, tr, d);
    LandsIff(scratch, v, u, Advance(tr, 3), c, d);
    AdvanceAligned(tr, 3);
    FallsIff(scratch, u, Advance(tr, 3), c, d);
  }

  // ----- An ADD with any registers, on any condition -----

  /** What the six words of its chunk are, with the borrowed register `r`: a push, a load of the last word, the ADD with
      nothing but its first operand replaced, a pop, a jump over the last word, and the old PC. */
  ghost predicate Borrows(isa: Isa, tr: bv32, at: bv32, w: bv32, r: bv4, code: seq<bv32>, e: Core) {
    && |code| == 6 && r != Rd(w) && r != Rm(w) && 10 <= r <= 12
    && Exec(isa, tr, code[0], e) == Fall(Pushed(r, e))
    && Exec(isa, Next(tr), code[1], e) == Fall(Set(e, r, e.mem(Next(Next(Next(Next(Next(tr))))))))
    && FormOf(code[2]) == AddForm && Cond(code[2]) == Cond(w) && Rd(code[2]) == Rd(w) && Rm(code[2]) == Rm(w)
    && Rn(code[2]) == r && (SetsFlags(code[2]) <==> SetsFlags(w)) && code[2] & 0xFE0 == w & 0xFE0
    && Exec(isa, Next(Next(Next(tr))), code[3], e) == Fall(Popped(r, e))
    && Exec(isa, Next(Next(Next(Next(tr)))), code[4], e) == Goto(Next(Next(Next(Next(Next(Next(tr)))))), false, e)
    && code[5] == at + 8
  }

  lemma AddStackWords(isa: Isa, tr: bv32, w: bv32, pc: bv32, b: bv32, e: Core)
    requires b < 13
    ensures
      var code := AddChunkWords(w, pc, b);
      && |code| == 6 && code[5] == pc && Exec(isa, tr, code[0], e) == Fall(Pushed(b as bv4, e))
      && Exec(isa, Next(Next(Next(tr))), code[3], e) == Fall(Popped(b as bv4, e))
  {
    hide Exec, Next, Pushed, Popped;
    PushOneIs(isa, tr, b, e);
    PopOneIs(isa, Next(Next(Next(tr))), b, e);
  }

  lemma AddLoadWords(isa: Isa, tr: bv32, w: bv32, pc: bv32, b: bv32, e: Core)
    requires b < 13 && tr & 3 == 0
    ensures
      var code := AddChunkWords(w, pc, b);
      && Exec(isa, Next(tr), code[1], e) == Fall(Set(e, b as bv4, e.mem(Next(Next(Next(Next(Next(tr))))))))
      && Exec(isa, Next(Next(Next(Next(tr)))), code[4], e) == Goto(Next(Next(Next(Next(Next(Next(tr)))))), false, e)
  {
    hide Exec, Next, Set;
    LoadBorrowed(isa, Next(tr), b, e);
    NextAligned(tr);
    NextAligned(Next(Next(tr)));
    SkipLiteral(isa, Next(Next(Next(Next(tr)))), e);
  }

  lemma AddWordItself(w: bv32, pc: bv32, b: bv32)
    requires w & 0xFEF0010 == 0x8F0000 && b < 13
    ensures
      var v := AddChunkWords(w, pc, b)[2];
      && FormOf(v) == AddForm && Cond(v) == Cond(w) && Rd(v) == Rd(w) && Rm(v) == Rm(w) && Rn(v) == b as bv4
      && (SetsFlags(v) <==> SetsFlags(w)) && v & 0xFE0 == w & 0xFE0
  {
    hide FormOf, Cond, Rd, Rm, Rn;
    BorrowedFields(w, b);
    AddShape((w & 0xFFF0FFFF) | (b << 16));
  }

  lemma AddChunkBorrows(isa: Isa, tr: bv32, at: bv32, w: bv32, lit: bv32 -> bv32, e: Core) returns (r: bv4)
    requires IsAddPc(w) && tr & 3 == 0
    ensures Borrows(isa, tr, at, w, r, Chunk(PcValue(at), w, lit), e)
  {
    hide Exec, Next, Pushed, Popped, IsAddPc, KindOf, FormOf, Chunk, Rd, Rm, Rn, Cond, Borrowed, AddChunkWords, Set,
      SetsFlags;
    assert KindOf(w) == AddArm by { KindIs(w); }
    var b := Borrowed((w & 0xF000) >> 12, w & 0xF);
    BorrowedIsFree(w);
    AddChunkIs(at, w, lit);
    AddMasks(w);
    r := b as bv4;
    AddStackWords(isa, tr, w, at + 8, b, e);
    AddLoadWords(isa, tr, w, at + 8, b, e);
    AddWordItself(w, at + 8, b);
  }

  lemma AddMasks(w: bv32)
    requires KindOf(w) == AddArm
    ensures w & 0xFEF0010 == 0x8F0000
    ensures var b := Borrowed((w & 0xF000) >> 12, w & 0xF); 10 <= b as bv4 <= 12
  {
  }

  lemma PushOneIs(isa: Isa, at: bv32, r: bv32, c: Core)
    requires r < 13
    ensures Exec(isa, at, 0xE52D0004 | (r << 12), c) == Fall(Pushed(r as bv4, c))
  {
    hide Exec, Previous;
    PushOne(isa, at, r, c);
  }

  lemma PopOneIs(isa: Isa, at: bv32, r: bv32, c: Core)
    requires r < 13
    ensures Exec(isa, at, 0xE49D0004 | (r << 12), c) == Fall(Popped(r as bv4, c))
  {
    hide Exec, Next;
    PopOne(isa, at, r, c);
  }

  /** Every word that is not rewritten is copied as it is. */
  lemma CopiedAsIs(at: bv32, w: bv32, lit: bv32 -> bv32)
    requires !Rewritten(w)
    ensures Chunk(PcValue(at), w, lit) == [w]
  {
    hide KindOf, Rewritten, PcValue, AddChunkWords, Borrowed, BranchLiteral, LoadedValue;
    KindIs(w);
  }
}
