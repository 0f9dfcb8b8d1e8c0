/** Where this relocator does not follow the encoding, and exactly when that shows. */
module ThumbDeviations {
  import opened Words
  import opened ThumbMachine
  import opened ThumbChunks
  import opened ThumbDomain
  import opened ThumbSimulation
  import opened ThumbChunkRuns

  lemma Kinds16(w: bv16)
    ensures IsShortConditional(w) || IsTrap(w) <==> KindOf16(w) == B1
    ensures IsShortBranch(w) <==> KindOf16(w) == B2
    ensures IsAddress(w) <==> KindOf16(w) == Adr
    ensures IsMovePc(w) <==> KindOf16(w) == Mov
    ensures IsAddPc(w) <==> KindOf16(w) == Add
  {
    hide *;
    Kind16Is(w);
  }

  lemma Kinds32(hi: bv16, lo: bv16)
    ensures IsBlx(hi, lo) <==> KindOf32(hi, lo) == Blx
    ensures IsWideLiteralLoad(hi, lo) <==> KindOf32(hi, lo) == LdrW
    ensures IsWideAddressBack(hi, lo) <==> KindOf32(hi, lo) == Adr1W
    ensures IsWideAddress(hi, lo) <==> KindOf32(hi, lo) == Adr2W
    ensures IsTableBranch(hi, lo) <==> KindOf32(hi, lo) in {Tbb, Tbh}
    ensures IsTableBranch(hi, lo) ==> (KindOf32(hi, lo) == Tbb <==> lo & 0x10 == 0)
  {
    hide *;
    Kind32Is(hi, lo);
  }

  /** Shifting the sum instead of the immediate gives the same only for a base of 0. */
  lemma ShiftedSumIff(pc: bv32, w: bv16)
    ensures ValueAdr(pc, w) == LiteralAddress(pc, w) <==> Align(pc) == 0
  {
  }

  lemma AdrOriginal(isa: Isa, at: bv32, w: bv16, c: Core)
    requires KindOf16(w) == Adr
    ensures Exec16(isa, at, w, c) == Fall(Set(c, Rt(w), LiteralAddress(PcValue(at), w)))
  {
    hide Plus, PcValue, Align, ConditionHolds, Rt;
    assert w & 0xF000 == 0xA000;
  }

  lemma SetsAreSameIff(scratch: bv32 -> bool, c: Core, d: Core, r: bv4, u: bv32, v: bv32)
    requires Same(scratch, c, d) && r != PC
    ensures Same(scratch, Set(c, r, u), Set(d, r, v)) <==> u == v
  {
    assert Set(c, r, u).reg(r) == u && Set(d, r, v).reg(r) == v;
  }

  /** What the chunk of a 16-bit ADR computes: four times the sum, where only the immediate was to be shifted. */
  function AdrResult(at: bv32, w: bv16): bv32 { Plus(Align(PcValue(at)) << 2, Imm8(w) << 2) }

  lemma ShiftedSum(pc: bv32, w: bv16)
    ensures ValueAdr(pc, w) == Plus(Align(pc) << 2, Imm8(w) << 2)
  {
  }

  lemma AdrRun(isa: Isa, scratch: bv32 -> bool, at: bv32, w: bv16, lit: bv32 -> bv32, tr: bv32, d: Core)
    requires IsAddress(w) && tr & 3 == 0 && Holds(d.mem, scratch, tr, Chunk16(PcValue(at), w, lit))
    ensures Run(isa, Running(tr, true, d), 2) == Running(Advance(tr, 4), true, Set(d, Rt(w), AdrResult(at, w)))
  {
    hide Exec16, PcValue, KindOf16, ValueAdr, Step, Same, Run, Advance, Holds, LoadWords, Next, Align, Set, Plus, Imm8;
    Kinds16(w);
    hide IsAddress;
    LowRtIs(w);
    LoadRun(isa, scratch, tr, LowRt(w), ValueAdr(PcValue(at), w), d);
    AdvanceFour(tr);
    ShiftedSum(PcValue(at), w);
  }

  lemma LowRtIs(w: bv16)
    ensures LowRt(w) < 8 && LowRt(w) as bv4 == Rt(w) && Rt(w) != PC
  {
  }

  /** A 16-bit ADR keeps its meaning exactly when the aligned PC is 0. */
  lemma AdrRightIff(isa: Isa, scratch: bv32 -> bool, at: bv32, w: bv16, lit: bv32 -> bv32, c: Core, tr: bv32, d: Core)
    requires IsAddress(w) && tr & 3 == 0 && Same(scratch, c, d)
    requires Holds(d.mem, scratch, tr, Chunk16(PcValue(at), w, lit))
    ensures Leads(Exec16(isa, at, w, c), Advance(tr, 4), Run(isa, Running(tr, true, d), 2), scratch)
       <==> Align(PcValue(at)) == 0
  {
    hide Exec16, PcValue, KindOf16, Chunk16, ValueAdr, LiteralAddress, Same, Run, Advance, Holds, Next, Align, Set, Rt,
      AdrResult, IsAddress;
    Kinds16(w);
    AdrOriginal(isa, at, w, c);
    LowRtIs(w);
    AdrRun(isa, scratch, at, w, lit, tr, d);
    SetsAreSameIff(scratch, c, d, Rt(w), LiteralAddress(PcValue(at), w), AdrResult(at, w));
    ShiftedSumIff(PcValue(at), w);
    ResultIs(at, w);
  }

  lemma ResultIs(at: bv32, w: bv16)
    ensures AdrResult(at, w) == ValueAdr(PcValue(at), w)
  {
    hide PcValue, Align, Plus, Imm8, ValueAdr;
    ShiftedSum(PcValue(at), w);
  }

  lemma ShortTargetsEven(at: bv32, w: bv16)
    requires at & 1 == 0
    ensures TargetB1(PcValue(at), w) & 1 == 0 && TargetB2(PcValue(at), w) & 1 == 0
  {
    hide Plus, PcValue;
    PcEven(at);
    var x, y := Imm8(w) << 1, ((w & 0x7FF) as bv32) << 1;
    PlusEven(PcValue(at), if x >> 8 != 0 then x | 0xFFFFFF00 else x);
    PlusEven(PcValue(at), if y >> 11 != 0 then y | 0xFFFFF800 else y);
  }

  /** A literal without the Thumb bit leads where it says, into the ARM set, or nowhere. */
  function ArmLanding(v: bv32, d: Core): Machine { if v & 2 == 0 then Running(v, false, d) else Halted }

  lemma EvenLiteralLeavesThumb(v: bv32, c: Core, next: bv32)
    requires v & 1 == 0
    ensures Land(WritePC(v, c), next) == ArmLanding(v, c)
  {
  }

  /** Where a 16-bit branch goes. */
  function ShortTarget(at: bv32, w: bv16): bv32 {
    if IsShortBranch(w) then Plus(PcValue(at), SignExtend12(((w & 0x7FF) as bv32) << 1))
    else Plus(PcValue(at), SignExtend9(Imm8(w) << 1))
  }

  lemma ShortTargetsAre(at: bv32, w: bv16)
    ensures !IsShortBranch(w) ==> TargetB1(PcValue(at), w) == ShortTarget(at, w)
    ensures IsShortBranch(w) ==> TargetB2(PcValue(at), w) == ShortTarget(at, w)
  {
    hide Plus, PcValue, IsShortBranch;
    ShortSigns(w);
  }

  lemma ShortSigns(w: bv16)
    ensures
      var x := Imm8(w) << 1;
      (if x >> 8 != 0 then x | 0xFFFFFF00 else x) == SignExtend9(x)
    ensures
      var x := ((w & 0x7FF) as bv32) << 1;
      (if x >> 11 != 0 then x | 0xFFFFF800 else x) == SignExtend12(x)
  {
  }

  lemma ConditionalOriginal16(isa: Isa, at: bv32, w: bv16, c: Core)
    requires IsShortConditional(w)
    ensures Exec16(isa, at, w, c)
         == if ConditionHolds(Cond(w), c.flags) then Goto(ShortTarget(at, w), true, c) else Fall(c)
  {
    hide Plus, PcValue, ConditionHolds, SignExtend9, SignExtend12;
    assert !IsShortBranch(w);
  }

  /** The branch left at the head of the chunk: same condition, no distance. */
  lemma ShortHead(isa: Isa, tr: bv32, w: bv16, d: Core)
    requires IsShortConditional(w)
    ensures !Is32(w & 0xFF00)
    ensures Exec16(isa, tr, w & 0xFF00, d)
         == if ConditionHolds(Cond(w), d.flags) then Goto(Plus(PcValue(tr), 0), true, d) else Fall(d)
  {
    hide Plus, PcValue, ConditionHolds;
    var v := w & 0xFF00;
    assert v & 0xF000 == 0xD000 && v & 0xE00 != 0xE00 && Cond(v) == Cond(w) && SignExtend9(Imm8(v) << 1) == 0;
  }

  /** The chunk of a 16-bit conditional branch goes to its successor if the branch is not taken, and else where the
      branch goes, but in the ARM set, because the literal lacks the Thumb bit. */
  lemma ShortConditionalRun(isa: Isa, scratch: bv32 -> bool, at: bv32, w: bv16, lit: bv32 -> bv32, tr: bv32, d: Core)
    requires IsShortConditional(w) && at & 1 == 0 && tr & 3 == 0
    requires Holds(d.mem, scratch, tr, Chunk16(PcValue(at), w, lit))
    ensures Run(isa, Running(tr, true, d), 2)
         == if ConditionHolds(Cond(w), d.flags) then ArmLanding(ShortTarget(at, w), d)
            else Running(Advance(tr, 6), true, d)
  {
    hide Exec16, PcValue, Run, Jump, WritePC, Advance, KindOf16, Holds, TargetB1, ConditionHolds, Next, Is32, Cond,
      Plus, Land, ShortTarget, ArmLanding;
    Kinds16(w);
    NotShortBranch(w);
    hide IsShortConditional, IsShortBranch;
    var taken := ConditionHolds(Cond(w), d.flags);
    ShortHead(isa, tr, w, d);
    SkipNone(tr);
    ConditionalRun(isa, scratch, tr, w & 0xFF00, TargetB1(PcValue(at), w), taken, d);
    ShortTargetsEven(at, w);
    ShortTargetsAre(at, w);
    EvenLiteralLeavesThumb(TargetB1(PcValue(at), w), d, tr);
  }

  lemma NotShortBranch(w: bv16)
    requires IsShortConditional(w)
    ensures !IsShortBranch(w)
  {
  }

  /** So it keeps its meaning exactly when it is not taken. */
  lemma ShortConditionalRightIffNotTaken(isa: Isa, scratch: bv32 -> bool, at: bv32, w: bv16, lit: bv32 -> bv32, c: Core,
                                         tr: bv32, d: Core)
    requires IsShortConditional(w) && at & 1 == 0 && tr & 3 == 0 && Same(scratch, c, d)
    requires Holds(d.mem, scratch, tr, Chunk16(PcValue(at), w, lit))
    ensures Leads(Exec16(isa, at, w, c), Advance(tr, 6), Run(isa, Running(tr, true, d), 2), scratch)
       <==> !ConditionHolds(Cond(w), c.flags)
  {
    hide Exec16, PcValue, Run, Chunk16, Advance, Holds, ConditionHolds, Cond, ShortTarget, IsShortConditional;
    ConditionalOriginal16(isa, at, w, c);
    ShortConditionalRun(isa, scratch, at, w, lit, tr, d);
  }

  /** The chunk of a 16-bit unconditional branch goes where that goes, but in the ARM set, */
  lemma ShortBranchRun(isa: Isa, scratch: bv32 -> bool, at: bv32, w: bv16, lit: bv32 -> bv32, tr: bv32, d: Core)
    requires IsShortBranch(w) && at & 1 == 0 && tr & 3 == 0
    requires Holds(d.mem, scratch, tr, Chunk16(PcValue(at), w, lit))
    ensures Run(isa, Running(tr, true, d), 1) == ArmLanding(ShortTarget(at, w), d)
  {
    hide PcValue, Run, Jump, WritePC, Holds, TargetB2, Next, Plus, Land, Step, ConditionHolds, KindOf16, ShortTarget,
      ArmLanding;
    Kinds16(w);
    hide IsShortBranch;
    JumpStep(isa, scratch, tr, TargetB2(PcValue(at), w), d, tr);
    RunOne(isa, Running(tr, true, d));
    ShortTargetsEven(at, w);
    ShortTargetsAre(at, w);
    EvenLiteralLeavesThumb(TargetB2(PcValue(at), w), d, tr);
  }

  /** so it never keeps its meaning. */
  lemma ShortBranchIsWrong(isa: Isa, scratch: bv32 -> bool, at: bv32, w: bv16, lit: bv32 -> bv32, c: Core, tr: bv32,
                           d: Core, next: bv32)
    requires IsShortBranch(w) && at & 1 == 0 && tr & 3 == 0
    requires Holds(d.mem, scratch, tr, Chunk16(PcValue(at), w, lit))
    ensures !Leads(Exec16(isa, at, w, c), next, Run(isa, Running(tr, true, d), 1), scratch)
  {
    hide PcValue, Run, Chunk16, Holds, ShortTarget, Plus, SignExtend12, ConditionHolds;
    ShortBranchRun(isa, scratch, at, w, lit, tr, d);
  }

  /** A copied BLX goes where it should, but its link points at the padding, one halfword before the relocated
      successor. */
  lemma CopiedBlxLinksToPadding(isa: Isa, scratch: bv32 -> bool, at: bv32, w: bv16, lit: bv32 -> bv32, c: Core,
                                tr: bv32, d: Core)
    requires IsLinkExchange(w) && Rm(w) != PC && Same(scratch, c, d)
    requires Holds(d.mem, scratch, tr, Chunk16(PcValue(at), w, lit))
    ensures
      var m := Run(isa, Running(tr, true, d), 1);
      match Exec16(isa, at, w, c)
      case Call(a, t, x) =>
        m.Running? && m.pc == a && m.thumb == t && Same(scratch, Set(x, LR, ThumbBit(Next(tr))), m.core)
      case o => o.Unpredictable?
  {
    hide PcValue, Run, Next, Step, ThumbBit, WritePC, Rm, Exec16, Same, Is32, KindOf16, Get;
    BlxCopied(w);
    HeldPair(d.mem, scratch, tr, [w, 0xBF00]);
    Step16(isa, tr, w, d);
    RunOne(isa, Running(tr, true, d));
    RegisterSame(scratch, c, d, at, tr, Rm(w));
    SameWritePC(scratch, Get(c, at, Rm(w)), c, d);
    WriteNeverFalls(Get(c, at, Rm(w)), c);
    BlxDecodes(isa, at, w, c);
    BlxDecodes(isa, tr, w, d);
    SameLands(scratch, ExecBranchLink(at, w, c), ExecBranchLink(tr, w, d), Next(tr));
  }

  lemma BlxCopied(w: bv16)
    requires w & 0xFF80 == 0x4780
    ensures KindOf16(w) == Undefine16 && !Is32(w)
  {
  }

  /** Returning to the padding falls through to the successor's chunk. */
  lemma PaddingFallsThrough(isa: Isa, tr: bv32, e: Core)
    requires e.mem(Next(tr)) == 0xBF00
    ensures Run(isa, Running(Next(tr), true, e), 1) == Running(Advance(tr, 2), true, e)
  {
    hide Run, Next, Step;
    assert !Is32(0xBF00);
    Step16(isa, Next(tr), 0xBF00, e);
    RunOne(isa, Running(Next(tr), true, e));
    AdvanceTwo(tr);
  }

  lemma BlxDecodes(isa: Isa, at: bv32, w: bv16, c: Core)
    requires w & 0xFF80 == 0x4780
    ensures Exec16(isa, at, w, c) == ExecBranchLink(at, w, c)
  {
    hide ExecBranchLink;
  }

  // ----- BLX (immediate) from an address that is no multiple of four -----

  lemma UnalignedTarget(at: bv32, hi: bv16, lo: bv16)
    requires at & 3 == 2
    ensures TargetW(Blx, PcValue(at), hi, lo) & 3 == 2
  {
    hide OffsetW, Plus, PcValue;
    OffsetEven(Blx, hi, lo);
    PcStaysUnaligned(at);
    PlusUnaligned(PcValue(at), OffsetW(Blx, hi, lo));
  }

  lemma PcStaysUnaligned(at: bv32)
    requires at & 3 == 2
    ensures PcValue(at) & 3 == 2
  {
  }

  lemma PlusUnaligned(x: bv32, y: bv32)
    requires x & 3 == 2 && y & 3 == 0
    ensures Plus(x, y) & 3 == 2
  {
  }

  lemma UnalignedNeverLands(v: bv32, c: Core, next: bv32)
    requires v & 3 == 2
    ensures Land(WritePC(v, c), next) == Halted
  {
  }

  lemma TwoOrFour(at: bv32)
    requires at & 1 == 0
    ensures at & 3 == 0 || at & 3 == 2
  {
  }

  /** A BLX to an address keeps its meaning exactly when it is at a multiple of four: its offset is added to a PC that
      is not aligned. One with its last bit set has none. */
  lemma BlxRightIff(isa: Isa, scratch: bv32 -> bool, at: bv32, hi: bv16, lo: bv16, lit: bv32 -> bv32, c: Core, tr: bv32,
                    d: Core)
    requires IsBlx(hi, lo) && at & 1 == 0 && tr & 3 == 0 && Same(scratch, c, d)
    requires Holds(d.mem, scratch, tr, Chunk32(PcValue(at), hi, lo, lit))
    ensures Leads(Exec32(isa, at, hi, lo, c), Advance(tr, 6), Run(isa, Running(tr, true, d), 2), scratch)
       <==> at & 3 == 0 || lo & 1 == 1
  {
    hide Exec32, PcValue, Plus, Align, Run, Jump, WritePC, Advance, KindOf32, Holds, TargetW, OffsetW, Same, ThumbBit,
      Set, Land;
    Kinds32(hi, lo);
    hide IsBlx;
    BranchExchangeOriginal(isa, at, hi, lo, c);
    if at & 3 == 0 {
      LinkChunk(isa, scratch, at, hi, lo, lit, c, tr, d);
    } else {
      TwoOrFour(at);
      UnalignedTarget(at, hi, lo);
      LinkLands(isa, scratch, tr, TargetW(Blx, PcValue(at), hi, lo), d);
      UnalignedNeverLands(TargetW(Blx, PcValue(at), hi, lo), Set(d, LR, ThumbBit(Advance(tr, 6))), tr);
    }
  }

  // ----- Results for the registers that a 16-bit load cannot name -----

  /** The register that the load of a chunk names, when it was meant to name `r`: three of its four bits. */
  function Named(r: bv16): bv4 { (r & 7) as bv4 }

  lemma NamesLow(r: bv16, value: bv32)
    requires r < 16
    ensures LoadWords(r, value) == LoadWords(r & 7, value)
  {
    hide Low, High;
    assert 0x4800 | (r << 8) == 0x4800 | ((r & 7) << 8);
  }

  lemma NamedRun(isa: Isa, scratch: bv32 -> bool, tr: bv32, r: bv16, value: bv32, d: Core)
    requires tr & 3 == 0 && r < 16 && Holds(d.mem, scratch, tr, LoadWords(r, value))
    ensures Run(isa, Running(tr, true, d), 2) == Running(Advance(tr, 4), true, Set(d, Named(r), value))
    ensures Named(r) != PC
  {
    hide LoadWords, Holds, Run, Next, Advance, Set;
    NamesLow(r, value);
    LoadRun(isa, scratch, tr, r & 7, value, d);
    AdvanceFour(tr);
  }

  /** Two cores in which different registers were set are the same exactly if both had those values already. */
  lemma OtherSetIff(scratch: bv32 -> bool, c: Core, d: Core, r: bv4, v: bv32, s: bv4, u: bv32)
    requires Same(scratch, c, d) && r != PC && s != PC && r != s
    ensures Same(scratch, Set(c, r, v), Set(d, s, u)) <==> c.reg(r) == v && c.reg(s) == u
  {
    var e, f := Set(c, r, v), Set(d, s, u);
    assert e.reg(r) == v && f.reg(r) == c.reg(r) && e.reg(s) == c.reg(s) && f.reg(s) == u;
  }

  lemma SetIff(scratch: bv32 -> bool, c: Core, d: Core, s: bv4, u: bv32)
    requires Same(scratch, c, d) && s != PC
    ensures Same(scratch, c, Set(d, s, u)) <==> c.reg(s) == u
  {
    assert Set(d, s, u).reg(s) == u;
  }

  /** Whether a chunk that puts `u` in the register that it names does what writing `v` to `r` does. */
  predicate WritesRight(r: bv16, v: bv32, u: bv32, c: Core)
    requires r < 16
  {
    if r < 8 then v == u else c.reg(r as bv4) == v && c.reg(Named(r)) == u
  }

  lemma WritesRightIff(scratch: bv32 -> bool, r: bv16, v: bv32, u: bv32, c: Core, d: Core)
    requires r < 15 && Same(scratch, c, d)
    ensures Same(scratch, Set(c, r as bv4, v), Set(d, Named(r), u)) <==> WritesRight(r, v, u, c)
  {
    hide Set, Same;
    if r < 8 {
      assert Named(r) == r as bv4;
      SetsAreSameIff(scratch, c, d, r as bv4, v, u);
    } else {
      assert Named(r) != r as bv4 && Named(r) != PC && r as bv4 != PC;
      OtherSetIff(scratch, c, d, r as bv4, v, Named(r), u);
    }
  }

  // ----- 32-bit literal loads -----

  lemma WideLoadIs(isa: Isa, at: bv32, hi: bv16, lo: bv16, c: Core)
    requires KindOf32(hi, lo) == LdrW
    ensures
      var v := Load(c, LiteralAddressW(PcValue(at), hi, lo));
      Exec32(isa, at, hi, lo, c) == if lo >> 12 == 15 then WritePC(v, c) else Fall(Set(c, (lo >> 12) as bv4, v))
    ensures lo >> 12 < 16
  {
    hide PcValue, Plus, Minus, Align, Load, Imm12, WritePC;
  }

  lemma JumpLeadsIff(scratch: bv32 -> bool, v: bv32, u: bv32, next: bv32, c: Core, d: Core)
    requires Same(scratch, c, d) && next & 1 == 0
    ensures Leads(WritePC(v, c), next, Running(next, true, Set(d, 7, u)), scratch) <==>
      v & 3 == 2 || (v == ThumbBit(next) && c.reg(7) == u)
  {
    hide Same, Set;
    SetIff(scratch, c, d, 7, u);
    ThumbBitIff(v, next);
    LowBits(v);
  }

  lemma ThumbBitIff(v: bv32, next: bv32)
    requires next & 1 == 0
    ensures v & 1 == 1 && v & 0xFFFFFFFE == next <==> v == ThumbBit(next)
  {
    hide ThumbBit;
    BitAdded(next);
    if v & 1 == 1 && v & 0xFFFFFFFE == next {
      Rebuilt(v);
    }
  }

  lemma Rebuilt(v: bv32)
    requires v & 1 == 1
    ensures ThumbBit(v & 0xFFFFFFFE) == v
  {
  }

  lemma BitAdded(a: bv32)
    requires a & 1 == 0
    ensures ThumbBit(a) & 1 == 1 && ThumbBit(a) & 0xFFFFFFFE == a
  {
  }

  lemma LowBits(v: bv32)
    ensures v & 3 == 2 <==> v & 1 != 1 && v & 2 != 0
  {
  }

  /** A 32-bit literal load keeps its meaning exactly when: for the first eight registers, the literal is as it was; for
      the others, the register has the loaded value already and the one eight below it has the literal; for the PC, the
      loaded address is the next instruction's, or none at all. */
  lemma WideLoadRightIff(isa: Isa, scratch: bv32 -> bool, at: bv32, hi: bv16, lo: bv16, lit: bv32 -> bv32, c: Core,
                         tr: bv32, d: Core)
    requires IsWideLiteralLoad(hi, lo) && tr & 3 == 0 && Same(scratch, c, d)
    requires Holds(d.mem, scratch, tr, Chunk32(PcValue(at), hi, lo, lit))
    ensures
      var r, a := lo >> 12, LiteralOf32(at, hi, lo);
      Leads(Exec32(isa, at, hi, lo, c), Advance(tr, 4), Run(isa, Running(tr, true, d), 2), scratch) <==>
      if r == 15 then Load(c, a) & 3 == 2 || (Load(c, a) == ThumbBit(Advance(tr, 4)) && c.reg(7) == lit(a))
      else WritesRight(r, Load(c, a), lit(a), c)
  {
    hide Exec32, PcValue, KindOf32, LiteralAddressW, LiteralOf32, Load, Same, Run, Advance, Holds, LoadWords, Set,
      WritesRight, WritePC, ThumbBit, Named;
    var r, a := lo >> 12, LiteralOf32(at, hi, lo);
    Kinds32(hi, lo);
    hide IsWideLiteralLoad;
    LiteralsAre(at, hi, lo);
    WideLoadIs(isa, at, hi, lo, c);
    NamedRun(isa, scratch, tr, r, lit(a), d);
    if r == 15 {
      EvenNext(tr);
      assert Named(r) == 7 by { NamedFifteen(); }
      JumpLeadsIff(scratch, Load(c, a), lit(a), Advance(tr, 4), c, d);
    } else {
      WritesRightIff(scratch, r, Load(c, a), lit(a), c, d);
    }
  }

  lemma NamedFifteen()
    ensures Named(15) == 7
  {
  }

  lemma EvenNext(tr: bv32)
    requires tr & 3 == 0
    ensures Advance(tr, 4) & 1 == 0
  {
    AdvanceFour(tr);
    hide Advance;
  }

  // ----- A MOV of the PC to a high register -----

  lemma HighMoveIs(isa: Isa, at: bv32, w: bv16, c: Core)
    requires KindOf16(w) == Mov
    ensures
      var r := ((w & 0x80) >> 4) | (w & 7);
      && r < 16 && Named(r) == LowRd(w) as bv4
      && Exec16(isa, at, w, c)
         == if r == 15 then Goto(PcValue(at) & 0xFFFFFFFE, true, c) else Fall(Set(c, r as bv4, PcValue(at)))
  {
    hide PcValue;
    assert w & 0xFF00 == 0x4600 && Rm(w) == PC;
  }

  /** A MOV of the PC keeps its meaning exactly when: it is to one of the first eight registers; or to another that has
      the value already, as has the one eight below it; or to the PC, which leads to the address that the PC reads as,
      four on, and that is the next chunk's, and R7 has the value. */
  lemma MoveRightIff(isa: Isa, scratch: bv32 -> bool, at: bv32, w: bv16, lit: bv32 -> bv32, c: Core, tr: bv32, d: Core)
    requires IsMovePc(w) && tr & 3 == 0 && Same(scratch, c, d)
    requires Holds(d.mem, scratch, tr, Chunk16(PcValue(at), w, lit))
    ensures
      var r, pc := ((w & 0x80) >> 4) | (w & 7), PcValue(at);
      Leads(Exec16(isa, at, w, c), Advance(tr, 4), Run(isa, Running(tr, true, d), 2), scratch) <==>
      if r == 15 then pc & 0xFFFFFFFE == Advance(tr, 4) && c.reg(7) == pc else WritesRight(r, pc, pc, c)
  {
    hide Exec16, PcValue, KindOf16, Same, Run, Advance, Holds, LoadWords, Set, WritesRight, Named, LowRd;
    var r, pc := ((w & 0x80) >> 4) | (w & 7), PcValue(at);
    Kinds16(w);
    hide IsMovePc;
    HighMoveIs(isa, at, w, c);
    LowRdIs(w);
    NamedRun(isa, scratch, tr, LowRd(w), pc, d);
    if r == 15 {
      assert Named(r) == 7 by { NamedFifteen(); }
      SetIff(scratch, c, d, 7, pc);
    } else {
      WritesRightIff(scratch, r, pc, pc, c, d);
    }
  }

  lemma LowRdIs(w: bv16)
    ensures LowRd(w) < 8 && Named(LowRd(w)) == LowRd(w) as bv4
  {
  }

  // ----- 32-bit ADR -----

  /** What an ADR.W computes: the classifier calls the one that subtracts the first. */
  function AddressW(kind: Kind32, pc: bv32, hi: bv16, lo: bv16): bv32 {
    if kind == Adr1W then Minus(Align(pc), AddressImm(hi, lo)) else Plus(Align(pc), AddressImm(hi, lo))
  }

  lemma AddressIs(isa: Isa, at: bv32, hi: bv16, lo: bv16, c: Core)
    requires KindOf32(hi, lo) in {Adr1W, Adr2W}
    ensures
      var r := (lo & 0xF00) >> 8;
      && r < 16
      && Exec32(isa, at, hi, lo, c)
         == if r == 13 || r == 15 then Unpredictable
            else Fall(Set(c, r as bv4, AddressW(KindOf32(hi, lo), PcValue(at), hi, lo)))
  {
    hide PcValue, Plus, Minus, Align, AddressImm, Exec32, KindOf32, RdT3;
    AddressDecodes(isa, at, hi, lo, c);
    RdIs(lo);
  }

  lemma AddressDecodes(isa: Isa, at: bv32, hi: bv16, lo: bv16, c: Core)
    ensures KindOf32(hi, lo) == Adr1W ==> Exec32(isa, at, hi, lo, c) == ExecAddressBack(at, hi, lo, c)
    ensures KindOf32(hi, lo) == Adr2W ==> Exec32(isa, at, hi, lo, c) == ExecAddress(at, hi, lo, c)
  {
    hide ExecAddress, ExecAddressBack, ExecLoadLiteral, Plus, PcValue, ConditionHolds;
  }

  lemma RdIs(lo: bv16)
    ensures (lo & 0xF00) >> 8 < 16 && RdT3(lo) == ((lo & 0xF00) >> 8) as bv4
    ensures RdT3(lo) == SP <==> (lo & 0xF00) >> 8 == 13
    ensures RdT3(lo) == PC <==> (lo & 0xF00) >> 8 == 15
  {
  }

  /** The source's shifts agree with the encoding only for an offset of 0. */
  lemma ShiftedFieldsIff(kind: Kind32, pc: bv32, hi: bv16, lo: bv16)
    requires kind in {Adr1W, Adr2W}
    ensures ValueAdrW(kind, pc, hi, lo) == AddressW(kind, pc, hi, lo) <==> AddressImm(hi, lo) == 0
  {
    hide Align, OffsetAdrW, AddressImm, Plus, Minus;
    FieldsTell(hi, lo);
    LowBitsAreZero(hi, lo);
    SumsTell(Align(pc), OffsetAdrW(hi, lo), AddressImm(hi, lo));
  }

  lemma LowBitsAreZero(hi: bv16, lo: bv16)
    ensures OffsetAdrW(hi, lo) & 0x7FFFFFF == 0
    ensures AddressImm(hi, lo) == 0 ==> OffsetAdrW(hi, lo) == 0
  {
  }

  lemma FieldsTell(hi: bv16, lo: bv16)
    ensures AddressImm(hi, lo) < 0x1000
  {
  }

  lemma SumsTell(base: bv32, x: bv32, y: bv32)
    requires x & 0x7FFFFFF == 0 && y < 0x1000
    ensures Plus(base, x) == Minus(base, y) ==> y == 0
    ensures Minus(base, x) == Plus(base, y) ==> y == 0
    ensures x == 0 && y == 0 ==> Plus(base, x) == Minus(base, y) && Minus(base, x) == Plus(base, y)
  {
  }

  /** What the source adds for an offset: each field of it moved too far up. */
  function MovedUp(offset: bv32): bv32 {
    ((offset & 0x800) << 20) | ((offset & 0x700) << 22) | ((offset & 0xFF) << 27)
  }

  /** What the chunk of a 32-bit ADR computes: with the offset moved up, and in the other direction. */
  function WideAdrResult(at: bv32, hi: bv16, lo: bv16): bv32 {
    if IsWideAddressBack(hi, lo) then Plus(Align(PcValue(at)), MovedUp(AddressImm(hi, lo)))
    else Minus(Align(PcValue(at)), MovedUp(AddressImm(hi, lo)))
  }

  /** What the ADR computes. */
  function WideAdrValue(at: bv32, hi: bv16, lo: bv16): bv32 {
    if IsWideAddressBack(hi, lo) then Minus(Align(PcValue(at)), AddressImm(hi, lo))
    else Plus(Align(PcValue(at)), AddressImm(hi, lo))
  }

  lemma MovedFields(hi: bv16, lo: bv16)
    ensures OffsetAdrW(hi, lo) == MovedUp(AddressImm(hi, lo))
  {
  }

  lemma WideAdrResultIs(at: bv32, hi: bv16, lo: bv16)
    requires IsWideAddress(hi, lo) || IsWideAddressBack(hi, lo)
    ensures KindOf32(hi, lo) in {Adr1W, Adr2W}
    ensures ValueAdrW(KindOf32(hi, lo), PcValue(at), hi, lo) == WideAdrResult(at, hi, lo)
    ensures AddressW(KindOf32(hi, lo), PcValue(at), hi, lo) == WideAdrValue(at, hi, lo)
  {
    hide KindOf32, Plus, Minus, Align, PcValue, AddressImm, MovedUp, OffsetAdrW, IsWideAddress, IsWideAddressBack;
    Kinds32(hi, lo);
    MovedFields(hi, lo);
  }

  lemma WideAdrRun(isa: Isa, scratch: bv32 -> bool, at: bv32, hi: bv16, lo: bv16, lit: bv32 -> bv32, tr: bv32, d: Core)
    requires (IsWideAddress(hi, lo) || IsWideAddressBack(hi, lo)) && tr & 3 == 0
    requires Holds(d.mem, scratch, tr, Chunk32(PcValue(at), hi, lo, lit))
    ensures (lo & 0xF00) >> 8 < 16
    ensures Run(isa, Running(tr, true, d), 2)
         == Running(Advance(tr, 4), true, Set(d, Named((lo & 0xF00) >> 8), WideAdrResult(at, hi, lo)))
  {
    hide PcValue, KindOf32, Run, Advance, Holds, LoadWords, Set, ValueAdrW, AddressImm, Named, WideAdrResult,
      IsWideAddress, IsWideAddressBack, AddressW, WideAdrValue;
    WideAdrResultIs(at, hi, lo);
    RdIs(lo);
    NamedRun(isa, scratch, tr, (lo & 0xF00) >> 8, WideAdrResult(at, hi, lo), d);
  }

  /** A 32-bit ADR keeps its meaning exactly when: for the first eight registers, its offset is 0; for the others, the
      register has the address already and the one eight below it has what the source computes; or it has no meaning,
      being for the SP or the PC. */
  lemma WideAdrRightIff(isa: Isa, scratch: bv32 -> bool, at: bv32, hi: bv16, lo: bv16, lit: bv32 -> bv32, c: Core,
                        tr: bv32, d: Core)
    requires (IsWideAddress(hi, lo) || IsWideAddressBack(hi, lo)) && tr & 3 == 0 && Same(scratch, c, d)
    requires Holds(d.mem, scratch, tr, Chunk32(PcValue(at), hi, lo, lit))
    ensures
      var r := (lo & 0xF00) >> 8;
      Leads(Exec32(isa, at, hi, lo, c), Advance(tr, 4), Run(isa, Running(tr, true, d), 2), scratch) <==>
      if r == 13 || r == 15 then true
      else if r < 8 then AddressImm(hi, lo) == 0
      else r < 16 && WritesRight(r, WideAdrValue(at, hi, lo), WideAdrResult(at, hi, lo), c)
  {
    hide Exec32, PcValue, KindOf32, Same, Run, Advance, Holds, Chunk32, Set, AddressW, ValueAdrW, AddressImm, Named,
      WideAdrResult, WideAdrValue, IsWideAddress, IsWideAddressBack;
    var r, kind := (lo & 0xF00) >> 8, KindOf32(hi, lo);
    WideAdrResultIs(at, hi, lo);
    AddressIs(isa, at, hi, lo, c);
    if r != 13 && r != 15 {
      WideAdrRun(isa, scratch, at, hi, lo, lit, tr, d);
      WritesRightIff(scratch, r, WideAdrValue(at, hi, lo), WideAdrResult(at, hi, lo), c, d);
      ShiftedFieldsIff(kind, PcValue(at), hi, lo);
    }
  }

  // ----- An ADD of the PC to any register -----

  /** What the halfwords of its chunk do, with the borrowed register `r`: a push, a load of the last word, the ADD of
      that register instead, a pop, a jump over the last word, and the old PC. */
  ghost predicate Borrows(isa: Isa, tr: bv32, at: bv32, w: bv16, r: bv4, code: seq<bv16>, e: Core) {
    var third := Next(Next(tr));
    var fifth := Next(Next(third));
    && |code| == 8 && r != Rdn(w) && 6 <= r <= 7
    && Exec16(isa, tr, code[0], e) == Fall(Pushed(r, e))
    && Exec16(isa, Next(tr), code[1], e) == Fall(Set(e, r, Load(e, Next(Next(fifth)))))
    && Exec16(isa, third, code[2], e) == Write(e, Rdn(w), Plus(Get(e, third, Rdn(w)), e.reg(r)))
    && Exec16(isa, Next(third), code[3], e) == Fall(Popped(r, e))
    && Exec16(isa, fifth, code[4], e) == Goto(Next(Next(Next(Next(fifth)))), true, e)
    && code[6] == Low(PcValue(at)) && code[7] == High(PcValue(at))
  }

  lemma AddChunkBorrows(isa: Isa, tr: bv32, at: bv32, w: bv16, lit: bv32 -> bv32, e: Core) returns (r: bv4)
    requires IsAddPc(w) && tr & 3 == 0
    ensures Borrows(isa, tr, at, w, r, Chunk16(PcValue(at), w, lit), e)
  {
    hide Exec16, Next, Pushed, Popped, KindOf16, Chunk16, Rdn, Borrowed, PcValue, Low, High, Load, Write, Get, Plus,
      Set, AddWords;
    Kinds16(w);
    hide IsAddPc;
    var b := Borrowed(((w & 0x80) >> 4) | (w & 7));
    BorrowedIsFree(w);
    AddChunkIs(PcValue(at), w, lit);
    r := b as bv4;
    LowBorrowed(b);
    AddWordsDo(isa, tr, w, PcValue(at), b, e);
  }

  lemma LowBorrowed(b: bv16)
    requires 6 <= b <= 7
    ensures 6 <= b as bv4 <= 7
  {
  }

  lemma AddWordsDo(isa: Isa, tr: bv32, w: bv16, pc: bv32, b: bv16, e: Core)
    requires KindOf16(w) == Add && 6 <= b <= 7 && tr & 3 == 0
    ensures
      var third := Next(Next(tr));
      var fifth := Next(Next(third));
      var code := AddWords(w, pc, b);
      && |code| == 8 && code[6] == Low(pc) && code[7] == High(pc)
      && Exec16(isa, tr, code[0], e) == Fall(Pushed(b as bv4, e))
      && Exec16(isa, Next(tr), code[1], e) == Fall(Set(e, b as bv4, Load(e, Next(Next(fifth)))))
      && Exec16(isa, third, code[2], e) == Write(e, Rdn(w), Plus(Get(e, third, Rdn(w)), e.reg(b as bv4)))
      && Exec16(isa, Next(third), code[3], e) == Fall(Popped(b as bv4, e))
      && Exec16(isa, fifth, code[4], e) == Goto(Next(Next(Next(Next(fifth)))), true, e)
  {
    hide Exec16, Next, KindOf16, Rdn, Low, High, Load, Write, Get, Plus, Set, OneBit, Previous, Following;
    PushOne(isa, tr, b, e);
    LoadBorrowed(isa, tr, b, e);
    AddBorrowed(isa, Next(Next(tr)), w, b, e);
    PopOne(isa, Next(Next(Next(tr))), b, e);
    Branches(isa, Next(Next(Next(Next(tr)))), e);
  }

  // ----- What is copied, and what becomes of traps and hints -----

  /** Every instruction that is not rewritten is copied as it is, a 16-bit one with a NOP after it. */
  lemma CopiedAsIs(at: bv32, hi: bv16, lo: bv16, lit: bv32 -> bv32)
    ensures !Rewritten16(hi) ==> Chunk16(PcValue(at), hi, lit) == [hi, 0xBF00]
    ensures !Rewritten32(hi, lo) ==> Chunk32(PcValue(at), hi, lo, lit) == [hi, lo]
  {
    hide KindOf16, KindOf32, Rewritten16, Rewritten32, PcValue;
    Kind16Is(hi);
    Kind32Is(hi, lo);
  }

  /** A trap loses its number, and its chunk goes on after it with a jump over what it would have been as a branch. */
  lemma TrapLosesItsNumber(isa: Isa, at: bv32, w: bv16, lit: bv32 -> bv32, tr: bv32, e: Core)
    requires IsTrap(w)
    ensures
      var code := Chunk16(PcValue(at), w, lit);
      && |code| == 6 && IsTrap(code[0]) && code[0] & 0x100 == w & 0x100 && code[0] & 0xFF == 0
      && Exec16(isa, Next(tr), code[1], e) == Goto(Advance(tr, 6), true, e)
  {
    hide Exec16, KindOf16, PcValue, Low, High, TargetB1, Next, Advance;
    Kinds16(w);
    TrapHead(w);
    hide IsTrap;
    Branches(isa, Next(tr), e);
    AdvanceSix(tr);
    hide HeadB1;
  }

  lemma TrapHead(w: bv16)
    requires IsTrap(w)
    ensures IsTrap(HeadB1(w)) && HeadB1(w) & 0x100 == w & 0x100 && HeadB1(w) & 0xFF == 0
  {
  }

  /** A hint or barrier that is taken for a wide conditional branch becomes UDF #0 or SVC #0. */
  lemma HintBecomesTrap(at: bv32, hi: bv16, lo: bv16, lit: bv32 -> bv32)
    requires IsWideConditional(hi, lo) && hi & 0x380 == 0x380
    ensures
      var code := Chunk32(PcValue(at), hi, lo, lit);
      |code| == 6 && code[0] == if hi & 0x40 == 0 then 0xDE00 else 0xDF00
  {
    hide KindOf32, PcValue, Low, High, TargetW;
    Kind32Is(hi, lo);
    hide IsWideConditional;
    HintHead(hi);
  }

  lemma HintHead(hi: bv16)
    requires hi & 0x380 == 0x380
    ensures 0xD000 | ((hi & 0x3C0) << 2) == if hi & 0x40 == 0 then 0xDE00 else 0xDF00
  {
  }
}
