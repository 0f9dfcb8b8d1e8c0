/** The trampoline does what the instructions it was made from do. */
module ArmSimulation {
  import opened Words
  import opened ArmMachine
  import opened ArmChunks
  import opened ArmDomain

  // ----- The classifier and the architecture -----

  /** The kind of a word by its encoding. */
  function Sort(w: bv32): Kind {
    if IsBlx(w) then BlxArm
    else
      match FormOf(w)
      case BranchLinkForm => BlArm
      case BranchForm => BArm
      case ExchangeForm => if Rm(w) == PC then BxArm else Undefine
      case AddForm => if Rn(w) == PC then AddArm else Undefine
      case AddImmediateForm => if Rn(w) == PC && !SetsFlags(w) then Adr1Arm else Undefine
      case SubImmediateForm => if Rn(w) == PC && !SetsFlags(w) then Adr2Arm else Undefine
      case MoveForm => if Rm(w) == PC then MovArm else Undefine
      case LoadLiteralForm => LdrArm
      case _ => Undefine
  }

  lemma SortRegisters(w: bv32)
    requires w & 0xE000000 == 0
    ensures KindOf(w) == Sort(w)
  {
  }

  lemma AddressMasks(w: bv32)
    ensures w & 0xFFF0000 == 0x28F0000 <==> w & 0xFE00000 == 0x2800000 && Rn(w) == PC && !SetsFlags(w)
    ensures w & 0xFFF0000 == 0x24F0000 <==> w & 0xFE00000 == 0x2400000 && Rn(w) == PC && !SetsFlags(w)
  {
  }

  lemma ImmediateKinds(w: bv32)
    requires w & 0xE000000 == 0x2000000
    ensures KindOf(w)
         == if w & 0xFFF0000 == 0x28F0000 then Adr1Arm else if w & 0xFFF0000 == 0x24F0000 then Adr2Arm else Undefine
    ensures !IsBlx(w)
    ensures FormOf(w)
         == if w & 0xFE00000 == 0x2800000 then AddImmediateForm
            else if w & 0xFE00000 == 0x2400000 then SubImmediateForm else OtherForm
  {
  }

  lemma SortImmediates(w: bv32)
    requires w & 0xE000000 == 0x2000000
    ensures KindOf(w) == Sort(w)
  {
    hide KindOf, FormOf, IsBlx, Rn, Rm, SetsFlags;
    ImmediateKinds(w);
    AddressMasks(w);
  }

  lemma SortLoads(w: bv32)
    requires w & 0xE000000 == 0x4000000
    ensures KindOf(w) == Sort(w)
  {
  }

  lemma SortBranches(w: bv32)
    requires w & 0xE000000 == 0xA000000
    ensures KindOf(w) == Sort(w)
  {
  }

  lemma SortOthers(w: bv32)
    requires w & 0xE000000 !in {0, 0x2000000, 0x4000000, 0xA000000}
    ensures KindOf(w) == Sort(w) == Undefine
  {
  }

  lemma SortIs(w: bv32)
    ensures Sort(w) == BlxArm <==> IsBlx(w)
    ensures Sort(w) == BlArm <==> IsBranchLink(w)
    ensures Sort(w) == BArm <==> IsBranch(w)
    ensures Sort(w) == BxArm <==> IsExchangePc(w)
    ensures Sort(w) == AddArm <==> IsAddPc(w)
    ensures Sort(w) == Adr1Arm <==> IsAddress(w)
    ensures Sort(w) == Adr2Arm <==> IsAddressBack(w)
    ensures Sort(w) == MovArm <==> IsMovePc(w)
    ensures Sort(w) == LdrArm <==> IsLiteralLoad(w)
    ensures Sort(w) == Undefine <==> !Rewritten(w)
  {
    hide IsBlx, FormOf, Rn, Rm, SetsFlags;
    BlxForm(w);
  }

  lemma BlxForm(w: bv32)
    ensures IsBlx(w) ==> FormOf(w) in {BranchLinkForm, BranchForm}
  {
  }

  /** The classifier sorts every word as the architecture does, one kind of the relocator for each encoding. */
  lemma KindIs(w: bv32)
    ensures KindOf(w) == BlxArm <==> IsBlx(w)
    ensures KindOf(w) == BlArm <==> IsBranchLink(w)
    ensures KindOf(w) == BArm <==> IsBranch(w)
    ensures KindOf(w) == BxArm <==> IsExchangePc(w)
    ensures KindOf(w) == AddArm <==> IsAddPc(w)
    ensures KindOf(w) == Adr1Arm <==> IsAddress(w)
    ensures KindOf(w) == Adr2Arm <==> IsAddressBack(w)
    ensures KindOf(w) == MovArm <==> IsMovePc(w)
    ensures KindOf(w) == LdrArm <==> IsLiteralLoad(w)
    ensures KindOf(w) == Undefine <==> !Rewritten(w)
  {
    hide KindOf, Sort, IsBlx, IsBranchLink, IsBranch, IsExchangePc, IsAddPc, IsAddress, IsAddressBack, IsMovePc,
      IsLiteralLoad, Rewritten;
    SortIs(w);
    var group := w & 0xE000000;
    if group == 0 {
      SortRegisters(w);
    } else if group == 0x2000000 {
      SortImmediates(w);
    } else if group == 0x4000000 {
      SortLoads(w);
    } else if group == 0xA000000 {
      SortBranches(w);
    } else {
      SortOthers(w);
    }
  }

  /** The words that keep their meaning, by the kinds of the relocator. */
  predicate KindKeeps(w: bv32) {
    match KindOf(w)
    case BlxArm => true
    case Undefine => !ReadsOwnAddress(w)
    case AddArm => Cond(w) != 15 && Rd(w) != SP && Rd(w) != PC && Rm(w) != SP && Rm(w) != PC
    case Adr1Arm => Cond(w) == 14 && w & 0xF00 == 0
    case Adr2Arm => Cond(w) == 14 && w & 0xF00 == 0
    case MovArm => Cond(w) == 14 && w & 0x100000 == 0
    case _ => Cond(w) == 14
  }

  lemma KeptByKind(w: bv32)
    ensures Keeps(w) <==> KindKeeps(w)
  {
    KindIs(w);
    hide KindOf, IsBlx, IsBranchLink, IsBranch, IsExchangePc, IsAddPc, IsAddress, IsAddressBack, IsMovePc,
      IsLiteralLoad, ReadsOwnAddress, Cond, Rd, Rm;
  }

  // ----- The words the relocator emits, executed -----

  lemma JumpLiteral(isa: Isa, at: bv32, c: Core)
    ensures Exec(isa, at, 0xE51FF004, c) == WritePC(c.mem(Next(at)), c)
  {
  }

  lemma LinkNext(isa: Isa, at: bv32, c: Core)
    ensures Exec(isa, at, 0xE28FE004, c) == Fall(Set(c, LR, Next(Next(Next(at)))))
  {
    assert ExpandImm(4) == 4;
  }

  lemma SkipLiteral(isa: Isa, at: bv32, c: Core)
    requires at & 3 == 0
    ensures Exec(isa, at, 0xE28FF000, c) == Goto(Next(Next(at)), false, c)
  {
    assert ExpandImm(0) == 0;
  }

  lemma LoadLiteral(isa: Isa, at: bv32, r: bv32, c: Core)
    requires r & 0xFFFF0FFF == 0
    ensures Exec(isa, at, 0xE51F0000 | r, c) == Write(c, (r >> 12) as bv4, c.mem(Next(Next(at))))
  {
    var w := 0xE51F0000 | r;
    assert Cond(w) == 14 && Rd(w) == (r >> 12) as bv4;
    assert w & 0xFFF == 0;
  }

  lemma PushOne(isa: Isa, at: bv32, r: bv32, c: Core)
    requires r < 13
    ensures Exec(isa, at, 0xE52D0004 | (r << 12), c)
         == Fall(Set(Store(c, Previous(c.reg(SP)), c.reg(r as bv4)), SP, Previous(c.reg(SP))))
  {
    var w := 0xE52D0004 | (r << 12);
    assert Cond(w) == 14 && Rd(w) == r as bv4;
  }

  lemma LoadBorrowed(isa: Isa, at: bv32, r: bv32, c: Core)
    requires r < 13
    ensures Exec(isa, at, 0xE59F0008 | (r << 12), c) == Fall(Set(c, r as bv4, c.mem(Next(Next(Next(Next(at)))))))
  {
    var w := 0xE59F0008 | (r << 12);
    assert Cond(w) == 14 && Rd(w) == r as bv4;
    assert w & 0xFFF == 8;
  }

  lemma PopOne(isa: Isa, at: bv32, r: bv32, c: Core)
    requires r < 13
    ensures Exec(isa, at, 0xE49D0004 | (r << 12), c)
         == Fall(Set(Set(c, SP, Next(c.reg(SP))), r as bv4, c.mem(c.reg(SP))))
  {
    var w := 0xE49D0004 | (r << 12);
    assert Cond(w) == 14 && Rd(w) == r as bv4;
  }

  /** Replacing the first operand register leaves every other field of an ADD alone. */
  lemma BorrowedFields(w: bv32, r: bv32)
    requires w & 0xFEF0010 == 0x8F0000 && r < 13
    ensures
      var v := (w & 0xFFF0FFFF) | (r << 16);
      && Cond(v) == Cond(w) && Rd(v) == Rd(w) && Rm(v) == Rm(w) && Rn(v) == r as bv4
      && v & 0xFE00010 == 0x800000
      && v & 0x100000 == w & 0x100000 && v & 0xFE0 == w & 0xFE0
  {
  }

  // ----- The words the relocator rewrites, executed where they were -----

  /** Whether a word that can be conditional is executed. */
  predicate Executes(w: bv32, c: Core) { Cond(w) != 15 && ConditionHolds(Cond(w), c.flags) }

  lemma BodyRuns(isa: Isa, at: bv32, w: bv32, c: Core)
    requires KindOf(w) != BlxArm && Cond(w) != 15
    ensures Exec(isa, at, w, c) == if ConditionHolds(Cond(w), c.flags) then ExecBody(isa, at, w, c) else Fall(c)
  {
    hide ExecBody, ConditionHolds, Cond;
    assert w & 0xFE000000 != 0xFA000000;
    hide KindOf;
  }

  /** A word whose condition is AL is executed. */
  lemma AlwaysExecutes(w: bv32, c: Core)
    requires Cond(w) == 14
    ensures Executes(w, c)
  {
  }

  /** The sum and the flags of an ADD whose first operand is `x`. */
  function Sum(w: bv32, x: bv32, c: Core): Outcome {
    var y := Shifted(w & 0xFE0, c.reg(Rm(w)), c.flags.c);
    Arith(c, w, Plus(x, y), AddFlags(x, y))
  }

  lemma AddShape(w: bv32)
    requires w & 0xFE00010 == 0x800000
    ensures w & 0xFE000000 != 0xFA000000 && FormOf(w) == AddForm
  {
  }

  /** An ADD of registers, whatever its first operand. */
  lemma AddBody(isa: Isa, at: bv32, w: bv32, c: Core)
    requires w & 0xFE00010 == 0x800000 && Cond(w) != 15
    ensures Exec(isa, at, w, c) == if ConditionHolds(Cond(w), c.flags) then ExecAdd(at, w, c) else Fall(c)
  {
    hide ExecAdd, ConditionHolds, Cond, FormOf;
    AddShape(w);
  }

  /** The ADD executed where it was: its first operand is the PC. */
  lemma AddOriginal(isa: Isa, at: bv32, w: bv32, c: Core)
    requires KindOf(w) == AddArm && KindKeeps(w)
    ensures Exec(isa, at, w, c) == if ConditionHolds(Cond(w), c.flags) then Sum(w, at + 8, c) else Fall(c)
  {
    hide Shifted, AddFlags, Arith, ConditionHolds;
    assert w & 0xFE00010 == 0x800000 && Rn(w) == PC && Rm(w) != PC && Cond(w) != 15;
    hide KindOf, KindKeeps;
    AddBody(isa, at, w, c);
  }

  /** The ADD with PC replaced by another register. */
  lemma AddBorrowed(isa: Isa, at: bv32, w: bv32, r: bv32, c: Core)
    requires KindOf(w) == AddArm && KindKeeps(w) && r < 13
    ensures Exec(isa, at, (w & 0xFFF0FFFF) | (r << 16), c)
         == if ConditionHolds(Cond(w), c.flags) then Sum(w, c.reg(r as bv4), c) else Fall(c)
  {
    hide ConditionHolds, Sum, ExecAdd;
    assert w & 0xFEF0010 == 0x8F0000 && Rm(w) != PC && Cond(w) != 15;
    hide KindOf, KindKeeps, Cond;
    var v := (w & 0xFFF0FFFF) | (r << 16);
    BorrowedFields(w, r);
    AddBody(isa, at, v, c);
    BorrowedSum(at, v, w, r as bv4, c);
  }

  lemma BorrowedSum(at: bv32, v: bv32, w: bv32, r: bv4, c: Core)
    requires Rd(v) == Rd(w) && Rm(v) == Rm(w) && Rn(v) == r && r != PC && Rm(w) != PC
    requires v & 0x100000 == w & 0x100000 && v & 0xFE0 == w & 0xFE0
    ensures ExecAdd(at, v, c) == Sum(w, c.reg(r), c)
  {
    hide Shifted, AddFlags, Plus, Rd, Rm, Rn;
  }

  lemma TopBitIsSign(x: bv32)
    requires x < 0x4000000
    ensures TopBitExtended(x) == SignExtend26(x)
  {
  }

  lemma OffsetIsExtended(kind: Kind, w: bv32)
    requires kind == BArm || kind == BlArm
    ensures BranchOffset(kind, w) == SignExtend26(Imm24(w) << 2)
  {
    assert Imm24(w) << 2 < 0x4000000;
    TopBitIsSign(Imm24(w) << 2);
    hide SignExtend26, TopBitExtended;
  }

  // What the words that are rewritten are to the machine.

  lemma BranchForms(w: bv32)
    ensures KindOf(w) == BlArm ==> FormOf(w) == BranchLinkForm
    ensures KindOf(w) == BArm ==> FormOf(w) == BranchForm
  {
  }

  lemma BxForm(w: bv32)
    requires KindOf(w) == BxArm
    ensures FormOf(w) == ExchangeForm && Rm(w) == PC
  {
  }

  lemma MovForm(w: bv32)
    requires KindOf(w) == MovArm
    ensures FormOf(w) == MoveForm && Rm(w) == PC
  {
  }

  lemma LdrForm(w: bv32)
    requires KindOf(w) == LdrArm
    ensures FormOf(w) == LoadLiteralForm
  {
  }

  lemma AdrForms(w: bv32)
    requires KindOf(w) in {Adr1Arm, Adr2Arm}
    ensures FormOf(w) == if KindOf(w) == Adr1Arm then AddImmediateForm else SubImmediateForm
    ensures Rn(w) == PC && !Bit(w, 0x100000)
  {
  }

  lemma BranchOriginal(isa: Isa, at: bv32, w: bv32, c: Core)
    requires KindOf(w) == BArm && Executes(w, c)
    ensures Exec(isa, at, w, c) == Goto(BranchLiteral(BArm, at + 8, w), false, c)
  {
    hide KindOf, FormOf, BranchOffset, SignExtend26, Imm24, Plus, Exec;
    BodyRuns(isa, at, w, c);
    BranchForms(w);
    OffsetIsExtended(BArm, w);
  }

  lemma BranchLinkOriginal(isa: Isa, at: bv32, w: bv32, c: Core)
    requires KindOf(w) == BlArm && Executes(w, c)
    ensures Exec(isa, at, w, c) == Call(BranchLiteral(BlArm, at + 8, w), false, c)
  {
    hide KindOf, FormOf, BranchOffset, SignExtend26, Imm24, Plus, Exec;
    BodyRuns(isa, at, w, c);
    BranchForms(w);
    OffsetIsExtended(BlArm, w);
  }

  lemma BranchExchangeOriginal(isa: Isa, at: bv32, w: bv32, c: Core)
    requires KindOf(w) == BlxArm
    ensures Exec(isa, at, w, c) == Call(Plus(at + 8, BranchOffset(BlxArm, w)), true, c)
  {
    var x := (Imm24(w) << 2) | ((w & 0x1000000) >> 23);
    assert BranchOffset(BlxArm, w) == SignExtend26(x);
  }

  lemma BxPcOriginal(isa: Isa, at: bv32, w: bv32, c: Core)
    requires KindOf(w) == BxArm && Executes(w, c)
    ensures Exec(isa, at, w, c) == WritePC(at + 8, c)
  {
    hide KindOf, FormOf, WritePC, Rm, Exec;
    BodyRuns(isa, at, w, c);
    BxForm(w);
  }

  /** A move that sets no flags. */
  lemma MoveOriginal(isa: Isa, at: bv32, w: bv32, c: Core)
    requires KindOf(w) == MovArm && Executes(w, c) && w & 0x100000 == 0
    ensures Exec(isa, at, w, c) == Write(c, Rd(w), at + 8)
  {
    hide KindOf, FormOf, Write, Rd, Rm, Exec;
    BodyRuns(isa, at, w, c);
    MovForm(w);
  }

  lemma AddressOriginal(isa: Isa, at: bv32, w: bv32, c: Core)
    requires KindOf(w) in {Adr1Arm, Adr2Arm} && Executes(w, c)
    ensures Exec(isa, at, w, c) == Write(c, Rd(w), AddressValue(at, w))
  {
    hide KindOf, FormOf, Write, Rd, Rn, ExpandImm, Plus, Minus, Bit, AddFlags, SubFlags, Exec, IsAddress;
    KindIs(w);
    BodyRuns(isa, at, w, c);
    AdrForms(w);
  }

  lemma UnrotatedImmediate(imm12: bv32)
    ensures ExpandImm(imm12 & 0xFFF) == imm12 & 0xFFF <==> imm12 & 0xF00 == 0
  {
  }

  lemma LoadOriginal(isa: Isa, at: bv32, w: bv32, c: Core)
    requires KindOf(w) == LdrArm && Executes(w, c)
    ensures Exec(isa, at, w, c)
         == if IsOffsetForm(w) then Write(c, Rd(w), LoadedValue(LdrArm, at + 8, w, c.mem)) else Unpredictable
  {
    hide KindOf, FormOf, Write, Rd, Plus, Minus, Exec;
    BodyRuns(isa, at, w, c);
    LdrForm(w);
    LoadDirection(w);
  }

  lemma LoadDirection(w: bv32)
    ensures Bit(w, 0x800000) <==> (w & 0x800000) >> 23 != 0
  {
  }

  // ----- Code in memory -----

  /** The words `code` are in memory from address `a` on, none of them in scratch. */
  ghost predicate Holds(mem: bv32 -> bv32, scratch: bv32 -> bool, a: bv32, code: seq<bv32>)
    decreases |code|
  {
    code == [] || (mem(a) == code[0] && !scratch(a) && Holds(mem, scratch, Next(a), code[1..]))
  }

  lemma {:induction false} HoldsSplit(mem: bv32 -> bv32, scratch: bv32 -> bool, a: bv32, x: seq<bv32>, y: seq<bv32>)
    requires Holds(mem, scratch, a, x + y)
    ensures Holds(mem, scratch, a, x) && Holds(mem, scratch, Advance(a, |x|), y)
    decreases |x|
  {
    hide Next;
    if x == [] {
      assert x + y == y;
    } else {
      assert (x + y)[1..] == x[1..] + y;
      HoldsSplit(mem, scratch, Next(a), x[1..], y);
    }
  }

  lemma {:induction false} HoldsElsewhere(mem: bv32 -> bv32, other: bv32 -> bv32, scratch: bv32 -> bool, a: bv32,
                                          code: seq<bv32>)
    requires Holds(mem, scratch, a, code)
    requires forall b: bv32 :: !scratch(b) ==> mem(b) == other(b)
    ensures Holds(other, scratch, a, code)
    decreases |code|
  {
    hide Next;
    if code != [] {
      HoldsElsewhere(mem, other, scratch, Next(a), code[1..]);
    }
  }

  /** The words of a held chunk, one by one. */
  lemma HeldWords(mem: bv32 -> bv32, scratch: bv32 -> bool, a: bv32, code: seq<bv32>)
    requires Holds(mem, scratch, a, code)
    ensures |code| > 0 ==> mem(a) == code[0] && !scratch(a)
    ensures |code| > 1 ==> mem(Next(a)) == code[1] && !scratch(Next(a))
    ensures |code| > 2 ==> Holds(mem, scratch, Next(Next(a)), code[2..])
  {
    hide Next;
    if |code| > 1 {
      assert Holds(mem, scratch, Next(a), code[1..]);
      assert |code| > 2 ==> code[1..][1..] == code[2..];
    }
  }

  // ----- One chunk -----

  /** The machine is where `o`, executed just before `next`, leads. */
  ghost predicate Leads(o: Outcome, next: bv32, m: Machine, scratch: bv32 -> bool) {
    match o
    case Fall(c) => m.Running? && m.pc == next && !m.thumb && Same(scratch, c, m.core)
    case Goto(d, t, c) => m.Running? && m.pc == d && m.thumb == t && Same(scratch, c, m.core)
    case Call(d, t, c) => m.Running? && m.pc == d && m.thumb == t && Same(scratch, Set(c, LR, next), m.core)
    case Unpredictable => true
  }

  lemma SameSet(scratch: bv32 -> bool, c: Core, d: Core, r: bv4, v: bv32)
    requires Same(scratch, c, d)
    ensures Same(scratch, Set(c, r, v), Set(d, r, v))
  {
  }

  lemma SameWrite(scratch: bv32 -> bool, c: Core, d: Core, r: bv4, v: bv32)
    requires Same(scratch, c, d)
    ensures SameOutcome(scratch, Write(c, r, v), Write(d, r, v))
  {
    SameSet(scratch, c, d, r, v);
  }

  lemma BranchAligned(at: bv32, w: bv32)
    requires KindOf(w) in {BlArm, BArm, BxArm} && at & 3 == 0
    ensures BranchLiteral(KindOf(w), at + 8, w) & 3 == 0
    ensures KindOf(w) == BxArm ==> BranchLiteral(KindOf(w), at + 8, w) == at + 8
  {
    assert BranchOffset(KindOf(w), w) & 3 == 0;
  }

  lemma BranchChunk(isa: Isa, scratch: bv32 -> bool, at: bv32, w: bv32, lit: bv32 -> bv32, c: Core, tr: bv32, d: Core)
    requires KindOf(w) in {BArm, BxArm} && KindKeeps(w) && at & 3 == 0 && Same(scratch, c, d)
    requires Holds(d.mem, scratch, tr, Chunk(at + 8, w, lit))
    ensures Leads(Exec(isa, at, w, c), Advance(tr, 2), Run(isa, Running(tr, false, d), 1), scratch)
  {
    hide Exec, Plus, Next;
    HeldWords(d.mem, scratch, tr, Chunk(at + 8, w, lit));
    JumpLiteral(isa, tr, d);
    BranchAligned(at, w);
    AlwaysExecutes(w, c);
    if KindOf(w) == BArm {
      BranchOriginal(isa, at, w, c);
    } else {
      BxPcOriginal(isa, at, w, c);
    }
    assert Run(isa, Running(tr, false, d), 1) == Step(isa, Running(tr, false, d));
  }

  lemma RunTwo(isa: Isa, m: Machine)
    ensures Run(isa, m, 2) == Step(isa, Step(isa, m))
  {
    hide Step;
    assert Run(isa, Step(isa, m), 1) == Run(isa, Step(isa, Step(isa, m)), 0);
  }

  lemma LinkLiteral(at: bv32, w: bv32, c: Core)
    requires KindOf(w) in {BlArm, BlxArm} && at & 3 == 0
    ensures
      var offset := BranchOffset(KindOf(w), w);
      WritePC(BranchLiteral(KindOf(w), at + 8, w), c) == Goto(Plus(at + 8, offset), KindOf(w) == BlxArm, c)
  {
    var kind := KindOf(w);
    var offset := BranchOffset(kind, w);
    if kind == BlArm {
      BranchAligned(at, w);
    } else {
      assert offset & 1 == 0;
      assert Plus(at + 8, offset) & 1 == 0;
    }
  }

  lemma LinkChunk(isa: Isa, scratch: bv32 -> bool, at: bv32, w: bv32, lit: bv32 -> bv32, c: Core, tr: bv32, d: Core)
    requires KindOf(w) in {BlArm, BlxArm} && KindKeeps(w) && at & 3 == 0 && Same(scratch, c, d)
    requires Holds(d.mem, scratch, tr, Chunk(at + 8, w, lit))
    ensures Leads(Exec(isa, at, w, c), Advance(tr, 3), Run(isa, Running(tr, false, d), 2), scratch)
  {
    hide Exec, Plus, Next, WritePC, BranchOffset, BranchLiteral;
    var code := Chunk(at + 8, w, lit);
    HeldWords(d.mem, scratch, tr, code);
    HeldWords(d.mem, scratch, Next(Next(tr)), code[2..]);
    var link := Next(Next(Next(tr)));
    var e := Set(d, LR, link);
    LinkNext(isa, tr, d);
    JumpLiteral(isa, Next(tr), e);
    LinkLiteral(at, w, e);
    SameSet(scratch, c, d, LR, link);
    RunTwo(isa, Running(tr, false, d));
    assert Step(isa, Running(tr, false, d)) == Running(Next(tr), false, e);
    if KindOf(w) == BlArm {
      AlwaysExecutes(w, c);
      BranchLinkOriginal(isa, at, w, c);
      assert BranchLiteral(BlArm, at + 8, w) == Plus(at + 8, BranchOffset(BlArm, w)) by { BranchLiteralSum(at, w); }
    } else {
      BranchExchangeOriginal(isa, at, w, c);
    }
    assert Advance(tr, 3) == link by { AdvanceThree(tr); }
  }

  lemma BranchLiteralSum(at: bv32, w: bv32)
    ensures BranchLiteral(BlArm, at + 8, w) == Plus(at + 8, BranchOffset(BlArm, w))
  {
  }

  lemma AdvanceThree(a: bv32)
    ensures Advance(a, 3) == Next(Next(Next(a)))
  {
    hide Next;
    assert Advance(Next(a), 2) == Advance(Next(Next(a)), 1);
  }

  lemma NextAligned(a: bv32)
    requires a & 3 == 0
    ensures Next(a) & 3 == 0 && Next(Next(a)) & 3 == 0
  {
  }

  /** The chunk of a load: the literal goes where the original value went. */
  lemma LoadRun(isa: Isa, scratch: bv32 -> bool, tr: bv32, r: bv32, value: bv32, d: Core)
    requires tr & 3 == 0 && r & 0xFFFF0FFF == 0
    requires Holds(d.mem, scratch, tr, [0xE51F0000 | r, 0xE28FF000, value])
    ensures
      var rd := (r >> 12) as bv4;
      var m := Run(isa, Running(tr, false, d), if rd == PC then 1 else 2);
      match Write(d, rd, value)
      case Fall(e) => m == Running(Next(Next(Next(tr))), false, e)
      case Goto(a, t, e) => m == Running(a, t, e)
      case _ => m == Halted
  {
    hide Exec, Next;
    var code := [0xE51F0000 | r, 0xE28FF000, value];
    var rd := (r >> 12) as bv4;
    HeldWords(d.mem, scratch, tr, code);
    assert code[2..] == [value];
    HeldWords(d.mem, scratch, Next(Next(tr)), code[2..]);
    LoadLiteral(isa, tr, r, d);
    if rd == PC {
      assert Run(isa, Running(tr, false, d), 1) == Step(isa, Running(tr, false, d));
    } else {
      var e := Set(d, rd, value);
      NextAligned(tr);
      SkipLiteral(isa, Next(tr), e);
      RunTwo(isa, Running(tr, false, d));
      assert Step(isa, Running(tr, false, d)) == Running(Next(tr), false, e);
    }
  }

  lemma LoadChunk(isa: Isa, scratch: bv32 -> bool, at: bv32, w: bv32, lit: bv32 -> bv32, c: Core, tr: bv32, d: Core)
    requires KindOf(w) in {Adr1Arm, Adr2Arm, LdrArm, MovArm} && KindKeeps(w) && tr & 3 == 0 && Same(scratch, c, d)
    requires Holds(d.mem, scratch, tr, Chunk(at + 8, w, lit))
    requires KindOf(w) == LdrArm ==> LoadedValue(LdrArm, at + 8, w, c.mem) == LoadedValue(LdrArm, at + 8, w, lit)
    ensures Leads(Exec(isa, at, w, c), Advance(tr, 3),
                  Run(isa, Running(tr, false, d), if Rd(w) == PC then 1 else 2), scratch)
  {
    hide Exec, Plus, Minus, Next, LoadedValue, Run, Advance, Chunk, Holds;
    var value := LoadedValue(KindOf(w), at + 8, w, lit);
    assert ((w & 0xF000) >> 12) as bv4 == Rd(w);
    assert Chunk(at + 8, w, lit) == [0xE51F0000 | (w & 0xF000), 0xE28FF000, value] by { LoadChunkIs(at, w, lit); }
    LoadRun(isa, scratch, tr, w & 0xF000, value, d);
    SameWrite(scratch, c, d, Rd(w), value);
    AdvanceThree(tr);
    LoadedOriginal(isa, at, w, lit, c);
  }

  lemma LoadChunkIs(at: bv32, w: bv32, lit: bv32 -> bv32)
    requires KindOf(w) in {Adr1Arm, Adr2Arm, LdrArm, MovArm}
    ensures Chunk(at + 8, w, lit) == [0xE51F0000 | (w & 0xF000), 0xE28FF000, LoadedValue(KindOf(w), at + 8, w, lit)]
  {
    hide LoadedValue;
  }

  lemma LoadsAreKept(w: bv32)
    requires KindOf(w) in {Adr1Arm, Adr2Arm, LdrArm, MovArm} && KindKeeps(w)
    ensures Cond(w) == 14
    ensures KindOf(w) == MovArm ==> w & 0x100000 == 0
    ensures KindOf(w) in {Adr1Arm, Adr2Arm} ==> w & 0xF00 == 0
  {
    hide KindOf;
  }

  lemma LoadedOriginal(isa: Isa, at: bv32, w: bv32, lit: bv32 -> bv32, c: Core)
    requires KindOf(w) in {Adr1Arm, Adr2Arm, LdrArm, MovArm} && KindKeeps(w)
    requires KindOf(w) == LdrArm ==> LoadedValue(LdrArm, at + 8, w, c.mem) == LoadedValue(LdrArm, at + 8, w, lit)
    ensures Exec(isa, at, w, c) == Unpredictable
         || Exec(isa, at, w, c) == Write(c, Rd(w), LoadedValue(KindOf(w), at + 8, w, lit))
  {
    hide Exec, Plus, Minus, Cond, ExpandImm, KindOf, Executes, IsAddress, IsAddressBack;
    LoadsAreKept(w);
    AlwaysExecutes(w, c);
    if KindOf(w) == MovArm {
      MoveOriginal(isa, at, w, c);
    } else if KindOf(w) == LdrArm {
      LoadOriginal(isa, at, w, c);
    } else {
      AddressOriginal(isa, at, w, c);
      UnrotatedImmediate(w);
      KindIs(w);
    }
  }

  lemma NextPrevious(a: bv32)
    ensures Next(Previous(a)) == a
  {
  }

  lemma RunFive(isa: Isa, m: Machine)
    ensures Run(isa, m, 5) == Step(isa, Step(isa, Step(isa, Step(isa, Step(isa, m)))))
  {
    hide Step;
    var m3 := Step(isa, Step(isa, Step(isa, m)));
    assert Run(isa, Step(isa, m), 4) == Run(isa, Step(isa, Step(isa, m)), 3) == Run(isa, m3, 2);
    RunTwo(isa, m3);
  }

  /** One step over a word that falls through. */
  lemma StepFalls(isa: Isa, pc: bv32, d: Core, e: Core)
    requires Exec(isa, pc, d.mem(pc), d) == Fall(e)
    ensures Step(isa, Running(pc, false, d)) == Running(Next(pc), false, e)
  {
    hide Exec;
  }

  /** The result of an ADD that is neither to PC nor from SP. */
  function Summed(w: bv32, x: bv32, c: Core): Core {
    var y := Shifted(w & 0xFE0, c.reg(Rm(w)), c.flags.c);
    Resulting(c, Rd(w), Plus(x, y), if Bit(w, 0x100000) then AddFlags(x, y) else c.flags)
  }

  function Resulting(c: Core, rd: bv4, v: bv32, f: Flags): Core { Set(c, rd, v).(flags := f) }

  /** The same if its condition holds. */
  function Added(w: bv32, x: bv32, c: Core): Core {
    if ConditionHolds(Cond(w), c.flags) then Summed(w, x, c) else c
  }

  lemma SumIsSummed(w: bv32, x: bv32, c: Core)
    requires Rd(w) != PC
    ensures Sum(w, x, c) == Fall(Summed(w, x, c))
  {
    hide Shifted, Plus, AddFlags;
  }

  lemma SumIsAdded(w: bv32, x: bv32, c: Core)
    requires Rd(w) != PC
    ensures (if ConditionHolds(Cond(w), c.flags) then Sum(w, x, c) else Fall(c)) == Fall(Added(w, x, c))
  {
    hide Sum, Summed, ConditionHolds, Cond, Rd;
    SumIsSummed(w, x, c);
  }

  /** The core after each of the first four words of the chunk of an ADD. */
  function Pushed(r: bv4, d: Core): Core {
    Set(Store(d, Previous(d.reg(SP)), d.reg(r)), SP, Previous(d.reg(SP)))
  }

  function Popped(r: bv4, d: Core): Core {
    Set(Set(d, SP, Next(d.reg(SP))), r, d.mem(d.reg(SP)))
  }

  /** Borrowing a register and giving it back leaves only what was done in between, and one stale scratch word. */
  lemma ResultReturns(scratch: bv32 -> bool, rd: bv4, v: bv32, f: Flags, x: bv32, r: bv4, c: Core, d: Core)
    requires Same(scratch, c, d) && scratch(Previous(c.reg(SP)))
    requires rd != SP && rd != PC && r != rd && r != SP && r != PC
    ensures Same(scratch, Resulting(c, rd, v, f), Popped(r, Resulting(Set(Pushed(r, d), r, x), rd, v, f)))
  {
    hide Next, Previous;
    NextPrevious(d.reg(SP));
  }

  lemma SumReturns(scratch: bv32 -> bool, w: bv32, x: bv32, r: bv4, c: Core, d: Core)
    requires Same(scratch, c, d) && scratch(Previous(c.reg(SP)))
    requires Rd(w) != SP && Rd(w) != PC && Rm(w) != SP && Rm(w) != PC
    requires r != Rd(w) && r != Rm(w) && r != SP && r != PC
    ensures Same(scratch, Summed(w, x, c), Popped(r, Summed(w, x, Set(Pushed(r, d), r, x))))
  {
    hide Shifted, Plus, AddFlags, Next, Previous, Bit, Rd, Rm, Popped, Resulting;
    var e := Set(Pushed(r, d), r, x);
    assert e.flags == c.flags && e.reg(Rm(w)) == c.reg(Rm(w));
    hide Same, Pushed, Set;
    var y := Shifted(w & 0xFE0, c.reg(Rm(w)), c.flags.c);
    ResultReturns(scratch, Rd(w), Plus(x, y), if Bit(w, 0x100000) then AddFlags(x, y) else c.flags, x, r, c, d);
  }

  /** Doing nothing in between leaves nothing else. */
  lemma NothingReturns(scratch: bv32 -> bool, x: bv32, r: bv4, c: Core, d: Core)
    requires Same(scratch, c, d) && scratch(Previous(c.reg(SP)))
    requires r != SP && r != PC
    ensures Same(scratch, c, Popped(r, Set(Pushed(r, d), r, x)))
  {
    hide Next, Previous;
    NextPrevious(d.reg(SP));
  }

  lemma BorrowReturns(scratch: bv32 -> bool, w: bv32, x: bv32, r: bv4, c: Core, d: Core)
    requires Same(scratch, c, d) && scratch(Previous(c.reg(SP)))
    requires Rd(w) != SP && Rd(w) != PC && Rm(w) != SP && Rm(w) != PC
    requires r != Rd(w) && r != Rm(w) && r != SP && r != PC
    ensures Same(scratch, Added(w, x, c), Popped(r, Added(w, x, Set(Pushed(r, d), r, x))))
  {
    hide Summed, Popped, Previous, ConditionHolds, Cond, Rd, Rm;
    assert Set(Pushed(r, d), r, x).flags == c.flags;
    hide Same, Pushed, Set;
    if ConditionHolds(Cond(w), c.flags) {
      SumReturns(scratch, w, x, r, c, d);
    } else {
      NothingReturns(scratch, x, r, c, d);
    }
  }

  lemma HeldSix(mem: bv32 -> bv32, scratch: bv32 -> bool, a: bv32, code: seq<bv32>)
    requires Holds(mem, scratch, a, code) && |code| == 6
    ensures
      var b := Next(Next(a));
      var c := Next(Next(b));
      && mem(a) == code[0] && mem(Next(a)) == code[1] && mem(b) == code[2]
      && mem(Next(b)) == code[3] && mem(c) == code[4] && mem(Next(c)) == code[5]
      && !scratch(a) && !scratch(Next(a)) && !scratch(b) && !scratch(Next(b)) && !scratch(c) && !scratch(Next(c))
  {
    hide Next;
    HeldWords(mem, scratch, a, code);
    HeldWords(mem, scratch, Next(Next(a)), code[2..]);
    assert code[2..][2..] == code[4..];
    HeldWords(mem, scratch, Next(Next(Next(Next(a)))), code[4..]);
  }

  /** The chunk of an ADD, run: push, load the old PC, add, pop, skip the literal. */
  lemma AddRun(isa: Isa, scratch: bv32 -> bool, w: bv32, pc: bv32, r: bv32, tr: bv32, d: Core)
    requires KindOf(w) == AddArm && KindKeeps(w) && tr & 3 == 0 && r < 13 && r as bv4 != Rd(w)
    requires scratch(Previous(d.reg(SP)))
    requires Holds(d.mem, scratch, tr, AddChunkWords(w, pc, r))
    ensures
      var rr := r as bv4;
      var end := Next(Next(Next(Next(Next(Next(tr))))));
      Run(isa, Running(tr, false, d), 5)
      == Running(end, false, Popped(rr, Added(w, pc, Set(Pushed(rr, d), rr, pc))))
  {
    hide Exec, Next, Previous, Added, Shifted, Plus, AddFlags, KindOf, KindKeeps, Sum, Rd, Rm, Step, Run,
      ConditionHolds, Cond;
    var rr := r as bv4;
    HeldSix(d.mem, scratch, tr, AddChunkWords(w, pc, r));
    var d1 := Pushed(rr, d);
    var d2 := Set(d1, rr, pc);
    var d3 := Added(w, pc, d2);
    var d4 := Popped(rr, d3);
    var t1 := Next(tr);
    var t2 := Next(t1);
    var t3 := Next(t2);
    var t4 := Next(t3);
    PushOne(isa, tr, r, d);
    StepFalls(isa, tr, d, d1);
    LoadBorrowed(isa, t1, r, d1);
    StepFalls(isa, t1, d1, d2);
    AddBorrowed(isa, t2, w, r, d2);
    AddTargets(w);
    SumIsAdded(w, pc, d2);
    StepFalls(isa, t2, d2, d3);
    AddedMemory(w, pc, d2);
    PopOne(isa, t3, r, d3);
    StepFalls(isa, t3, d3, d4);
    NextAligned(tr);
    NextAligned(t2);
    SkipLiteral(isa, t4, d4);
    StepJumps(isa, t4, d4, Next(Next(t4)), d4);
    RunFive(isa, Running(tr, false, d));
  }

  lemma StepJumps(isa: Isa, pc: bv32, d: Core, dest: bv32, e: Core)
    requires Exec(isa, pc, d.mem(pc), d) == Goto(dest, false, e)
    ensures Step(isa, Running(pc, false, d)) == Running(dest, false, e)
  {
    hide Exec;
  }

  lemma AddTargets(w: bv32)
    requires KindOf(w) == AddArm && KindKeeps(w)
    ensures Rd(w) != SP && Rd(w) != PC && Rm(w) != SP && Rm(w) != PC
  {
  }

  lemma AddedMemory(w: bv32, x: bv32, c: Core)
    ensures Added(w, x, c).mem == c.mem
  {
    hide Shifted, Plus, AddFlags, ConditionHolds, Cond, Rd, Rm, Bit;
  }

  lemma AddChunk(isa: Isa, scratch: bv32 -> bool, at: bv32, w: bv32, lit: bv32 -> bv32, c: Core, tr: bv32, d: Core)
    requires KindOf(w) == AddArm && KindKeeps(w) && tr & 3 == 0 && Same(scratch, c, d)
    requires scratch(Previous(c.reg(SP)))
    requires Holds(d.mem, scratch, tr, Chunk(at + 8, w, lit))
    ensures Leads(Exec(isa, at, w, c), Advance(tr, 6), Run(isa, Running(tr, false, d), 5), scratch)
  {
    hide Exec, Next, Previous, Added, Holds, Chunk, Run, Sum, Shifted, Plus, AddFlags, KindOf, KindKeeps, Rd, Rm,
      Borrowed, Pushed, Popped, Advance, AddChunkWords, ConditionHolds, Cond;
    var r := Borrowed((w & 0xF000) >> 12, w & 0xF);
    AddTargets(w);
    AddChunkIs(at, w, lit);
    BorrowedIsFree(w);
    AddRun(isa, scratch, w, at + 8, r, tr, d);
    AddOriginal(isa, at, w, c);
    SumIsAdded(w, at + 8, c);
    BorrowReturns(scratch, w, at + 8, r as bv4, c, d);
    assert Advance(tr, 6) == Advance(Next(Next(Next(tr))), 3) by { AdvanceSix(tr); }
    AdvanceThree(Next(Next(Next(tr))));
  }

  lemma BorrowedIsFree(w: bv32)
    ensures
      var r := Borrowed((w & 0xF000) >> 12, w & 0xF);
      r < 13 && r as bv4 != Rd(w) && r as bv4 != Rm(w) && r as bv4 != SP && r as bv4 != PC
  {
  }

  lemma AdvanceSix(a: bv32)
    ensures Advance(a, 6) == Advance(Next(Next(Next(a))), 3)
  {
    hide Next;
    assert Advance(a, 6) == Advance(Next(a), 5) == Advance(Next(Next(a)), 4) == Advance(Next(Next(Next(a))), 3);
  }

  lemma AddChunkIs(at: bv32, w: bv32, lit: bv32 -> bv32)
    requires KindOf(w) == AddArm
    ensures Chunk(at + 8, w, lit) == AddChunkWords(w, at + 8, Borrowed((w & 0xF000) >> 12, w & 0xF))
  {
  }

  // ----- Words that are copied -----

  /** Executing `w` in `c` does not read the PC, nor any scratch word. */
  ghost predicate Portable(isa: Isa, scratch: bv32 -> bool, w: bv32, c: Core) {
    && !isa.readsPc(w)
    && (w & 0xFFF0FFF == 0x49D0004 ==> !scratch(c.reg(SP)))
    && (forall a: bv32 :: isa.looksAt(w, c, a) ==> !scratch(a))
  }

  lemma SameArith(scratch: bv32 -> bool, c: Core, d: Core, w: bv32, v: bv32, f: Flags)
    requires Same(scratch, c, d)
    ensures SameOutcome(scratch, Arith(c, w, v, f), Arith(d, w, v, f))
  {
    SameSet(scratch, c, d, Rd(w), v);
  }

  lemma PushElsewhere(scratch: bv32 -> bool, at: bv32, tr: bv32, w: bv32, c: Core, d: Core)
    requires Same(scratch, c, d) && Rd(w) != PC
    ensures SameOutcome(scratch, ExecPush(at, w, c), ExecPush(tr, w, d))
  {
    hide Previous;
  }

  lemma PopElsewhere(scratch: bv32 -> bool, w: bv32, c: Core, d: Core)
    requires Same(scratch, c, d) && !scratch(c.reg(SP))
    ensures SameOutcome(scratch, ExecPop(w, c), ExecPop(w, d))
  {
    hide Next;
    SameSet(scratch, c, d, SP, Next(c.reg(SP)));
  }

  /** The operands of a copied data-processing word do not depend on where it is. */
  lemma ArithElsewhere(scratch: bv32 -> bool, at: bv32, tr: bv32, w: bv32, c: Core, d: Core)
    requires Same(scratch, c, d)
    ensures Rn(w) != PC && Rm(w) != PC ==> SameOutcome(scratch, ExecAdd(at, w, c), ExecAdd(tr, w, d))
    ensures Rn(w) != PC ==> SameOutcome(scratch, ExecAddImmediate(at, w, c), ExecAddImmediate(tr, w, d))
    ensures Rn(w) != PC ==> SameOutcome(scratch, ExecSubImmediate(at, w, c), ExecSubImmediate(tr, w, d))
    ensures Rm(w) != PC ==> SameOutcome(scratch, ExecMove(at, w, c), ExecMove(tr, w, d))
  {
    hide Shifted, Plus, Minus, AddFlags, SubFlags, ExpandImm, Arith, SameOutcome;
    var x, y, z := c.reg(Rn(w)), Shifted(w & 0xFE0, c.reg(Rm(w)), c.flags.c), ExpandImm(w & 0xFFF);
    if Rn(w) != PC {
      if Rm(w) != PC {
        SameArith(scratch, c, d, w, Plus(x, y), AddFlags(x, y));
      }
      SameArith(scratch, c, d, w, Plus(x, z), AddFlags(x, z));
      SameArith(scratch, c, d, w, Minus(x, z), SubFlags(x, z));
    }
    if Rm(w) != PC {
      var v := c.reg(Rm(w));
      SameArith(scratch, c, d, w, v, Flags(v & 0x80000000 != 0, v == 0, c.flags.c, c.flags.v));
    }
  }

  /** Which forms a copied word can have. */
  lemma CopiedForms(w: bv32)
    requires KindOf(w) == Undefine && KindKeeps(w) && Cond(w) != 15
    ensures FormOf(w) !in {BranchLinkForm, BranchForm, LoadLiteralForm}
    ensures FormOf(w) == ExchangeForm ==> Rm(w) != PC
    ensures FormOf(w) == AddForm ==> Rn(w) != PC && Rm(w) != PC
    ensures FormOf(w) in {AddImmediateForm, SubImmediateForm} ==> Rn(w) != PC
    ensures FormOf(w) == MoveForm ==> Rm(w) != PC
    ensures FormOf(w) == PopForm <==> w & 0xFFF0FFF == 0x49D0004
    ensures FormOf(w) == PushForm ==> Rd(w) != PC
  {
  }

  lemma ExchangeElsewhere(scratch: bv32 -> bool, at: bv32, tr: bv32, r: bv4, c: Core, d: Core)
    requires Same(scratch, c, d) && r != PC
    ensures SameOutcome(scratch, WritePC(Get(c, at, r), c), WritePC(Get(d, tr, r), d))
  {
  }

  lemma OtherElsewhere(isa: Isa, scratch: bv32 -> bool, at: bv32, tr: bv32, w: bv32, c: Core, d: Core)
    requires Local(isa, scratch) && Same(scratch, c, d) && Portable(isa, scratch, w, c)
    ensures SameOutcome(scratch, isa.other(at, w, c), isa.other(tr, w, d))
  {
    hide Same, SameOutcome;
  }

  lemma ExecBodyElsewhere(isa: Isa, scratch: bv32 -> bool, at: bv32, tr: bv32, w: bv32, c: Core, d: Core)
    requires KindOf(w) == Undefine && KindKeeps(w) && Cond(w) != 15
    requires Local(isa, scratch) && Same(scratch, c, d) && Portable(isa, scratch, w, c)
    ensures SameOutcome(scratch, ExecBody(isa, at, w, c), ExecBody(isa, tr, w, d))
  {
    hide KindOf, FormOf, KindKeeps, ExecAdd, ExecAddImmediate, ExecSubImmediate, ExecMove, ExecPush, ExecPop,
      ExecLoadLiteral, Rn, Rm, Rd, Cond, SameOutcome, Local, Same, WritePC, Get;
    CopiedForms(w);
    match FormOf(w)
    case ExchangeForm => ExchangeElsewhere(scratch, at, tr, Rm(w), c, d);
    case PushForm => PushElsewhere(scratch, at, tr, w, c, d);
    case PopForm => PopElsewhere(scratch, w, c, d);
    case OtherForm => OtherElsewhere(isa, scratch, at, tr, w, c, d);
    case _ => ArithElsewhere(scratch, at, tr, w, c, d);
  }

  /** A copied word does the same at its new address. */
  lemma CopyElsewhere(isa: Isa, scratch: bv32 -> bool, at: bv32, tr: bv32, w: bv32, c: Core, d: Core)
    requires KindOf(w) == Undefine && KindKeeps(w) && Same(scratch, c, d)
    requires Local(isa, scratch) && Portable(isa, scratch, w, c)
    ensures SameOutcome(scratch, Exec(isa, at, w, c), Exec(isa, tr, w, d))
  {
    hide ExecBody, KindKeeps, ConditionHolds, Portable, Local, Cond;
    if Cond(w) != 15 {
      ExecBodyElsewhere(isa, scratch, at, tr, w, c, d);
      BodyRuns(isa, at, w, c);
      BodyRuns(isa, tr, w, d);
    } else {
      NotBlx(w);
      hide KindOf;
      OtherElsewhere(isa, scratch, at, tr, w, c, d);
    }
  }

  lemma NotBlx(w: bv32)
    requires KindOf(w) != BlxArm
    ensures w & 0xFE000000 != 0xFA000000
  {
  }

  lemma CopyChunk(isa: Isa, scratch: bv32 -> bool, at: bv32, w: bv32, lit: bv32 -> bv32, c: Core, tr: bv32, d: Core)
    requires KindOf(w) == Undefine && KindKeeps(w) && Same(scratch, c, d)
    requires Local(isa, scratch) && Portable(isa, scratch, w, c)
    requires Holds(d.mem, scratch, tr, Chunk(at + 8, w, lit))
    ensures Leads(Exec(isa, at, w, c), Advance(tr, 1), Run(isa, Running(tr, false, d), 1), scratch)
  {
    hide Exec, Next, KindKeeps, Local, Portable;
    assert d.mem(tr) == w;
    hide KindOf, Holds, Chunk;
    CopyElsewhere(isa, scratch, at, tr, w, c, d);
    var o := Exec(isa, tr, w, d);
    assert Run(isa, Running(tr, false, d), 1) == Step(isa, Running(tr, false, d));
    if o.Call? {
      SameSet(scratch, Exec(isa, at, w, c).core, o.core, LR, Next(tr));
    }
    assert Advance(tr, 1) == Next(tr);
  }
}
