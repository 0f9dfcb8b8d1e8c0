/** The part of the Thumb (T32) instruction set that the relocator reads or writes, after chapter A8 of ARM DDI 0406C.
    Memory is made of halfwords; every other instruction is left abstract. */
module ThumbMachine {
  import opened Words

  /** `mem(a)` is the halfword at the even address `a`; `reg(15)` means nothing. */
  datatype Core = Core(reg: bv4 -> bv32, flags: Flags, mem: bv32 -> bv16)

  datatype Outcome =
    | Fall(core: Core)
    | Goto(dest: bv32, thumb: bool, core: Core)
    | Call(dest: bv32, thumb: bool, core: Core)
    | Unpredictable

  /** The instructions this model does not decode (16-bit ones zero-extended): their effect at an address, the halfwords
      they read, and whether they read the PC. */
  datatype Isa = Isa(other: (bv32, bv32, Core) -> Outcome, looksAt: (bv32, Core, bv32) -> bool, readsPc: bv32 -> bool)

  // ----- Addresses -----

  function Next(a: bv32): bv32 { a + 2 }

  function Advance(a: bv32, n: nat): bv32
    decreases n
  {
    if n == 0 then a else Advance(Next(a), n - 1)
  }

  /** What the PC reads as. */
  function PcValue(at: bv32): bv32 { at + 4 }

  function Align(a: bv32): bv32 { a & 0xFFFFFFFC }

  /** An even address with the Thumb bit added. */
  function PlusOne(a: bv32): bv32 { a + 1 }

  /** A return address keeps the instruction set in bit 0. */
  function ThumbBit(a: bv32): bv32 { a | 1 }

  function Previous(a: bv32): bv32 { a - 4 }

  function Following(a: bv32): bv32 { a + 4 }

  // ----- Registers and memory -----

  function Get(c: Core, at: bv32, r: bv4): bv32 {
    if r == PC then PcValue(at) else c.reg(r)
  }

  function Set(c: Core, r: bv4, v: bv32): Core {
    c.(reg := (k: bv4) => if k == r then v else c.reg(k))
  }

  function Join(low: bv16, high: bv16): bv32 { (high as bv32 << 16) | low as bv32 }
  function Low(v: bv32): bv16 { (v & 0xFFFF) as bv16 }
  function High(v: bv32): bv16 { (v >> 16) as bv16 }

  function Load(c: Core, a: bv32): bv32 { Join(c.mem(a), c.mem(Next(a))) }

  function Store(c: Core, a: bv32, v: bv32): Core {
    var b := Next(a);
    c.(mem := (k: bv32) => if k == a then Low(v) else if k == b then High(v) else c.mem(k))
  }

  /** BXWritePC, and loads to PC: bit 0 picks the instruction set. */
  function WritePC(v: bv32, c: Core): Outcome {
    if v & 1 == 1 then Goto(v & 0xFFFFFFFE, true, c)
    else if v & 2 == 0 then Goto(v, false, c)
    else Unpredictable
  }

  /** Writes by a data-processing instruction stay in the Thumb set. */
  function Write(c: Core, r: bv4, v: bv32): Outcome {
    if r == PC then Goto(v & 0xFFFFFFFE, true, c) else Fall(Set(c, r, v))
  }

  // ----- 16-bit instructions -----

  predicate Is32(h: bv16) { h >> 11 >= 0x1D }

  function Cond(w: bv16): bv4 { ((w >> 8) & 0xF) as bv4 }
  function Rd3(w: bv16): bv4 { (w & 7) as bv4 }
  function Rt(w: bv16): bv4 { ((w >> 8) & 7) as bv4 }
  function Rdn(w: bv16): bv4 { (((w & 0x80) >> 4) | (w & 7)) as bv4 }
  function Rm(w: bv16): bv4 { ((w >> 3) & 0xF) as bv4 }
  function Imm8(w: bv16): bv32 { (w & 0xFF) as bv32 }

  function SignExtend9(x: bv32): bv32 { if x & 0x100 != 0 then x | 0xFFFFFE00 else x }
  function SignExtend12(x: bv32): bv32 { if x & 0x800 != 0 then x | 0xFFFFF000 else x }

  /** The register of a one-register list, if it is one. */
  function OnlyRegister(list: bv16): bv4 {
    if list == 1 then 0 else if list == 2 then 1 else if list == 4 then 2 else if list == 8 then 3
    else if list == 16 then 4 else if list == 32 then 5 else if list == 64 then 6 else if list == 128 then 7 else PC
  }

  /** The halfword `w` executed at `at`. */
  function Exec16(isa: Isa, at: bv32, w: bv16, c: Core): Outcome {
    if w & 0xF000 == 0xD000 && w & 0xE00 != 0xE00 then
      if ConditionHolds(Cond(w), c.flags) then Goto(Plus(PcValue(at), SignExtend9(Imm8(w) << 1)), true, c) else Fall(c)
    else if w & 0xF800 == 0xE000 then Goto(Plus(PcValue(at), SignExtend12(((w & 0x7FF) as bv32) << 1)), true, c)
    else if w & 0xFF80 == 0x4700 then WritePC(Get(c, at, Rm(w)), c)
    else if w & 0xFF80 == 0x4780 then ExecBranchLink(at, w, c)
    else if w & 0xFF00 == 0x4400 then ExecAdd(at, w, c)
    else if w & 0xFF00 == 0x4600 then Write(c, Rdn(w), Get(c, at, Rm(w)))
    else if w & 0xF800 == 0xA000 then Fall(Set(c, Rt(w), Plus(Align(PcValue(at)), Imm8(w) << 2)))
    else if w & 0xF800 == 0x4800 then Fall(Set(c, Rt(w), Load(c, Plus(Align(PcValue(at)), Imm8(w) << 2))))
    else if w & 0xF500 == 0xB100 then ExecCompareBranch(at, w, c)
    else if w & 0xFF00 == 0xB400 && OnlyRegister(w & 0xFF) != PC then ExecPush(OnlyRegister(w & 0xFF), c)
    else if w & 0xFF00 == 0xBC00 && OnlyRegister(w & 0xFF) != PC then ExecPop(OnlyRegister(w & 0xFF), c)
    else if w == 0xBF00 then Fall(c)
    else isa.other(at, w as bv32, c)
  }

  function ExecBranchLink(at: bv32, w: bv16, c: Core): Outcome {
    match WritePC(Get(c, at, Rm(w)), c)
    case Goto(d, t, e) => Call(d, t, e)
    case o => o
  }

  /** ADD (register) between any two registers. */
  function ExecAdd(at: bv32, w: bv16, c: Core): Outcome {
    Write(c, Rdn(w), Plus(Get(c, at, Rdn(w)), Get(c, at, Rm(w))))
  }

  /** CBZ and CBNZ. */
  function ExecCompareBranch(at: bv32, w: bv16, c: Core): Outcome {
    var imm32 := (((w & 0x200) as bv32) >> 3) | (((w & 0xF8) as bv32) >> 2);
    if (w & 0x800 != 0) == (c.reg(Rd3(w)) != 0) then Goto(Plus(PcValue(at), imm32), true, c) else Fall(c)
  }

  function ExecPush(r: bv4, c: Core): Outcome {
    Fall(Set(Store(c, Previous(c.reg(SP)), c.reg(r)), SP, Previous(c.reg(SP))))
  }

  function ExecPop(r: bv4, c: Core): Outcome {
    Fall(Set(Set(c, SP, Following(c.reg(SP))), r, Load(c, c.reg(SP))))
  }

  // ----- 32-bit instructions -----

  function SignExtend25(x: bv32): bv32 { if x & 0x1000000 != 0 then x | 0xFE000000 else x }
  function SignExtend21(x: bv32): bv32 { if x & 0x100000 != 0 then x | 0xFFE00000 else x }

  function Imm6(hi: bv16): bv32 { (hi & 0x3F) as bv32 }
  function Imm10(hi: bv16): bv32 { (hi & 0x3FF) as bv32 }
  function Imm11(lo: bv16): bv32 { (lo & 0x7FF) as bv32 }

  function Fields25(s: bv32, i1: bv32, i2: bv32, imm10: bv32, imm11: bv32): bv32 {
    (s << 24) | (i1 << 23) | (i2 << 22) | (imm10 << 12) | (imm11 << 1)
  }

  function Fields21(s: bv32, j2: bv32, j1: bv32, imm6: bv32, imm11: bv32): bv32 {
    (s << 20) | (j2 << 19) | (j1 << 18) | (imm6 << 12) | (imm11 << 1)
  }

  /** S:I1:I2:imm10:imm11:0, with I1 = NOT(J1 EOR S) and I2 = NOT(J2 EOR S). */
  function BranchOffset25(hi: bv16, lo: bv16): bv32 {
    var s: bv32 := if hi & 0x400 != 0 then 1 else 0;
    var i1: bv32 := if (hi & 0x400 != 0) == (lo & 0x2000 != 0) then 1 else 0;
    var i2: bv32 := if (hi & 0x400 != 0) == (lo & 0x800 != 0) then 1 else 0;
    SignExtend25(Fields25(s, i1, i2, Imm10(hi), Imm11(lo)))
  }

  /** S:J2:J1:imm6:imm11:0. */
  function BranchOffset21(hi: bv16, lo: bv16): bv32 {
    var s: bv32 := if hi & 0x400 != 0 then 1 else 0;
    var j1: bv32 := if lo & 0x2000 != 0 then 1 else 0;
    var j2: bv32 := if lo & 0x800 != 0 then 1 else 0;
    SignExtend21(Fields21(s, j2, j1, Imm6(hi), Imm11(lo)))
  }

  /** The two halfwords as one word. */
  function Wide(hi: bv16, lo: bv16): bv32 { (hi as bv32 << 16) | lo as bv32 }

  function CondT3(hi: bv16): bv4 { ((hi >> 6) & 0xF) as bv4 }
  function RtT2(lo: bv16): bv4 { (lo >> 12) as bv4 }
  function Imm12(lo: bv16): bv32 { (lo & 0xFFF) as bv32 }

  /** The instruction whose halfwords are `hi` and `lo`, executed at `at`. */
  function Exec32(isa: Isa, at: bv32, hi: bv16, lo: bv16, c: Core): Outcome {
    if hi & 0xF800 == 0xF000 && lo & 0xD000 == 0xC000 then
      if lo & 1 == 1 then Unpredictable
      else Call(Plus(Align(PcValue(at)), BranchOffset25(hi, lo)), false, c)
    else if hi & 0xF800 == 0xF000 && lo & 0xD000 == 0xD000 then Call(Plus(PcValue(at), BranchOffset25(hi, lo)), true, c)
    else if hi & 0xF800 == 0xF000 && lo & 0xD000 == 0x8000 && hi & 0x380 != 0x380 then
      if ConditionHolds(CondT3(hi), c.flags) then Goto(Plus(PcValue(at), BranchOffset21(hi, lo)), true, c) else Fall(c)
    else if hi & 0xF800 == 0xF000 && lo & 0xD000 == 0x9000 then Goto(Plus(PcValue(at), BranchOffset25(hi, lo)), true, c)
    else if hi & 0xFBFF == 0xF20F && lo & 0x8000 == 0 then ExecAddress(at, hi, lo, c)
    else if hi & 0xFBFF == 0xF2AF && lo & 0x8000 == 0 then ExecAddressBack(at, hi, lo, c)
    else if hi & 0xFF7F == 0xF85F then ExecLoadLiteral(at, hi, lo, c)
    else isa.other(at, Wide(hi, lo), c)
  }

  /** i:imm3:imm8. */
  function AddressImm(hi: bv16, lo: bv16): bv32 {
    (((hi & 0x400) as bv32) << 1) | (((lo & 0x7000) as bv32) >> 4) | ((lo & 0xFF) as bv32)
  }

  function RdT3(lo: bv16): bv4 { ((lo >> 8) & 0xF) as bv4 }

  function ExecAddress(at: bv32, hi: bv16, lo: bv16, c: Core): Outcome {
    if RdT3(lo) == SP || RdT3(lo) == PC then Unpredictable
    else Fall(Set(c, RdT3(lo), Plus(Align(PcValue(at)), AddressImm(hi, lo))))
  }

  function ExecAddressBack(at: bv32, hi: bv16, lo: bv16, c: Core): Outcome {
    if RdT3(lo) == SP || RdT3(lo) == PC then Unpredictable
    else Fall(Set(c, RdT3(lo), Minus(Align(PcValue(at)), AddressImm(hi, lo))))
  }

  /** LDR.W (literal). */
  function ExecLoadLiteral(at: bv32, hi: bv16, lo: bv16, c: Core): Outcome {
    var base := Align(PcValue(at));
    var v := Load(c, if hi & 0x80 != 0 then Plus(base, Imm12(lo)) else Minus(base, Imm12(lo)));
    if RtT2(lo) == PC then WritePC(v, c) else Fall(Set(c, RtT2(lo), v))
  }

  // ----- Runs -----

  datatype Machine = Running(pc: bv32, thumb: bool, core: Core) | Halted

  /** Where the machine is after an instruction that ends at `next`; a link keeps bit 0 set. */
  function Land(o: Outcome, next: bv32): Machine {
    match o
    case Fall(c) => Running(next, true, c)
    case Goto(d, t, c) => Running(d, t, c)
    case Call(d, t, c) => Running(d, t, Set(c, LR, ThumbBit(next)))
    case Unpredictable => Halted
  }

  function Step(isa: Isa, m: Machine): Machine {
    if m.Halted? || !m.thumb then m
    else
      var h := m.core.mem(m.pc);
      if Is32(h) then
        Land(Exec32(isa, m.pc, h, m.core.mem(Next(m.pc)), m.core), Next(Next(m.pc)))
      else Land(Exec16(isa, m.pc, h, m.core), Next(m.pc))
  }

  function Run(isa: Isa, m: Machine, n: nat): Machine
    decreases n
  {
    if n == 0 then m else Run(isa, Step(isa, m), n - 1)
  }

  lemma {:induction false} RunAdds(isa: Isa, m: Machine, i: nat, j: nat)
    ensures Run(isa, m, i + j) == Run(isa, Run(isa, m, i), j)
    decreases i
  {
    hide Step;
    if i > 0 {
      RunAdds(isa, Step(isa, m), i - 1, j);
    }
  }

  // ----- Cores that differ only in scratch halfwords -----

  ghost predicate Same(scratch: bv32 -> bool, c: Core, d: Core) {
    && c.flags == d.flags
    && (forall r: bv4 :: r != PC ==> c.reg(r) == d.reg(r))
    && (forall a: bv32 :: !scratch(a) ==> c.mem(a) == d.mem(a))
  }

  ghost predicate SameOutcome(scratch: bv32 -> bool, o: Outcome, p: Outcome) {
    match o
    case Fall(c) => p.Fall? && Same(scratch, c, p.core)
    case Goto(d, t, c) => p.Goto? && p.dest == d && p.thumb == t && Same(scratch, c, p.core)
    case Call(d, t, c) => p.Call? && p.dest == d && p.thumb == t && Same(scratch, c, p.core)
    case Unpredictable => p.Unpredictable?
  }

  /** What is asked of the abstract instructions: they see nothing they do not read, one that does not read the PC
      cannot tell where it is, and the only 16-bit call is BLX, which is decoded. */
  ghost predicate Local(isa: Isa, scratch: bv32 -> bool) {
    && (forall a: bv32, b: bv32, w: bv32, c: Core, d: Core ::
          Same(scratch, c, d) && (forall x: bv32 :: isa.looksAt(w, c, x) ==> !scratch(x)) && (a == b || !isa.readsPc(w))
          ==> SameOutcome(scratch, isa.other(a, w, c), isa.other(b, w, d)))
    && (forall a: bv32, w: bv32, c: Core :: w < 0x10000 ==> !isa.other(a, w, c).Call?)
  }
}
