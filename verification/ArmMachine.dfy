/** The part of the ARM (A32) instruction set that the relocator reads or writes, after chapter A8 of the ARM
    Architecture Reference Manual (ARM DDI 0406C). Every other instruction is left abstract. */
module ArmMachine {
  import opened Words

  /** What an instruction works on. The program counter is kept outside, so `reg(15)` means nothing. `mem(a)` is the
      aligned word at address `a`. */
  datatype Core = Core(reg: bv4 -> bv32, flags: Flags, mem: bv32 -> bv32)

  /** What one instruction does: go on to the next one, jump, jump with a link to the next one, or something the
      architecture leaves unpredictable. */
  datatype Outcome =
    | Fall(core: Core)
    | Goto(dest: bv32, thumb: bool, core: Core)
    | Call(dest: bv32, thumb: bool, core: Core)
    | Unpredictable

  /** The instructions this model does not decode: their effect at an address, the words they read, and whether they
      read the PC. */
  datatype Isa = Isa(other: (bv32, bv32, Core) -> Outcome, looksAt: (bv32, Core, bv32) -> bool, readsPc: bv32 -> bool)

  // ----- Fields of an instruction word -----

  function Cond(w: bv32): bv4 { (w >> 28) as bv4 }
  function Rn(w: bv32): bv4 { ((w >> 16) & 0xF) as bv4 }
  function Rd(w: bv32): bv4 { ((w >> 12) & 0xF) as bv4 }
  function Rm(w: bv32): bv4 { (w & 0xF) as bv4 }
  function Imm24(w: bv32): bv32 { w & 0xFFFFFF }
  predicate Bit(w: bv32, mask: bv32) { w & mask != 0 }

  // ----- Registers -----

  function Get(c: Core, at: bv32, r: bv4): bv32 {
    if r == PC then at + 8 else c.reg(r)
  }

  function Set(c: Core, r: bv4, v: bv32): Core {
    c.(reg := (k: bv4) => if k == r then v else c.reg(k))
  }

  function Store(c: Core, a: bv32, v: bv32): Core {
    c.(mem := (k: bv32) => if k == a then v else c.mem(k))
  }

  /** BXWritePC: bit 0 picks the instruction set. */
  function WritePC(v: bv32, c: Core): Outcome {
    if v & 1 == 1 then Goto(v & 0xFFFFFFFE, true, c)
    else if v & 2 == 0 then Goto(v, false, c)
    else Unpredictable
  }

  function Write(c: Core, r: bv4, v: bv32): Outcome {
    if r == PC then WritePC(v, c) else Fall(Set(c, r, v))
  }

  // ----- Arithmetic -----

  function SignExtend26(x: bv32): bv32 {
    if x & 0x2000000 != 0 then x | 0xFC000000 else x
  }

  function RotateRight(x: bv32, n: bv32): bv32 {
    var k := n & 31;
    if k == 0 then x else (x >> k as bv6) | (x << (32 - k) as bv6)
  }

  function ExpandImm(imm12: bv32): bv32 {
    RotateRight(imm12 & 0xFF, (imm12 >> 8) << 1)
  }

  /** The shifter operand of a data-processing instruction whose shift field (bits 11 to 5) is `field`. */
  function Shifted(field: bv32, x: bv32, carry: bool): bv32 {
    var n := (field >> 7) & 31;
    var kind := (field >> 5) & 3;
    if kind == 0 then x << n as bv6
    else if kind == 1 then (if n == 0 then 0 else x >> n as bv6)
    else if kind == 2 then
      var m: bv32 := if n == 0 then 31 else n;
      if x & 0x80000000 != 0 then !(!x >> m as bv6) else x >> m as bv6
    else if n == 0 then (x >> 1) | (if carry then 0x80000000 else 0)
    else RotateRight(x, n)
  }

  function AddFlags(x: bv32, y: bv32): Flags {
    var r := x + y;
    Flags(r & 0x80000000 != 0, r == 0, r < x, (x ^ r) & (y ^ r) & 0x80000000 != 0)
  }

  function SubFlags(x: bv32, y: bv32): Flags {
    var r := x - y;
    Flags(r & 0x80000000 != 0, r == 0, y <= x, (x ^ y) & (x ^ r) & 0x80000000 != 0)
  }

  /** A data-processing result: with S set the flags change too, and writing PC is an exception return. */
  function Arith(c: Core, w: bv32, v: bv32, f: Flags): Outcome {
    if !Bit(w, 0x100000) then Write(c, Rd(w), v)
    else if Rd(w) == PC then Unpredictable
    else Fall(Set(c, Rd(w), v).(flags := f))
  }

  // ----- Execution -----

  /** The word `w` executed at address `at`. */
  function Exec(isa: Isa, at: bv32, w: bv32, c: Core): Outcome {
    if w & 0xFE000000 == 0xFA000000 then
      Call(Plus(at + 8, SignExtend26((Imm24(w) << 2) | ((w & 0x1000000) >> 23))), true, c)
    else if Cond(w) == 15 then isa.other(at, w, c)
    else if !ConditionHolds(Cond(w), c.flags) then Fall(c)
    else ExecBody(isa, at, w, c)
  }

  /** The encodings that a word whose condition is not 15 is told apart by. */
  datatype Form =
    | BranchLinkForm | BranchForm | ExchangeForm | AddForm | AddImmediateForm | SubImmediateForm | MoveForm
    | LoadLiteralForm | PopForm | PushForm | OtherForm

  function FormOf(w: bv32): Form {
    if w & 0xF000000 == 0xB000000 then BranchLinkForm
    else if w & 0xF000000 == 0xA000000 then BranchForm
    else if w & 0xFF000F0 == 0x1200010 then ExchangeForm
    else if w & 0xFE00010 == 0x800000 then AddForm
    else if w & 0xFE00000 == 0x2800000 then AddImmediateForm
    else if w & 0xFE00000 == 0x2400000 then SubImmediateForm
    else if w & 0xFE00FF0 == 0x1A00000 then MoveForm
    else if w & 0xE5F0000 == 0x41F0000 then LoadLiteralForm
    else if w & 0xFFF0FFF == 0x49D0004 then PopForm
    else if w & 0xFFF0FFF == 0x52D0004 then PushForm
    else OtherForm
  }

  /** The word `w`, whose condition holds. */
  function ExecBody(isa: Isa, at: bv32, w: bv32, c: Core): Outcome {
    match FormOf(w)
    case BranchLinkForm => Call(Plus(at + 8, SignExtend26(Imm24(w) << 2)), false, c)
    case BranchForm => Goto(Plus(at + 8, SignExtend26(Imm24(w) << 2)), false, c)
    case ExchangeForm => WritePC(Get(c, at, Rm(w)), c)
    case AddForm => ExecAdd(at, w, c)
    case AddImmediateForm => ExecAddImmediate(at, w, c)
    case SubImmediateForm => ExecSubImmediate(at, w, c)
    case MoveForm => ExecMove(at, w, c)
    case LoadLiteralForm => ExecLoadLiteral(at, w, c)
    case PopForm => ExecPop(w, c)
    case PushForm => ExecPush(at, w, c)
    case OtherForm => isa.other(at, w, c)
  }

  /** ADD (register). */
  function ExecAdd(at: bv32, w: bv32, c: Core): Outcome {
    var x, y := Get(c, at, Rn(w)), Shifted(w & 0xFE0, Get(c, at, Rm(w)), c.flags.c);
    Arith(c, w, Plus(x, y), AddFlags(x, y))
  }

  /** ADD (immediate); with PC as its operand, ADR. */
  function ExecAddImmediate(at: bv32, w: bv32, c: Core): Outcome {
    var x, y := Get(c, at, Rn(w)), ExpandImm(w & 0xFFF);
    Arith(c, w, Plus(x, y), AddFlags(x, y))
  }

  /** SUB (immediate); with PC as its operand, ADR backwards. */
  function ExecSubImmediate(at: bv32, w: bv32, c: Core): Outcome {
    var x, y := Get(c, at, Rn(w)), ExpandImm(w & 0xFFF);
    Arith(c, w, Minus(x, y), SubFlags(x, y))
  }

  /** MOV (register). */
  function ExecMove(at: bv32, w: bv32, c: Core): Outcome {
    var v := Get(c, at, Rm(w));
    Arith(c, w, v, Flags(v & 0x80000000 != 0, v == 0, c.flags.c, c.flags.v))
  }

  /** LDR (literal): only the offset form is defined. */
  function ExecLoadLiteral(at: bv32, w: bv32, c: Core): Outcome {
    if Bit(w, 0x1000000) && !Bit(w, 0x200000) then
      var a := if Bit(w, 0x800000) then Plus(at + 8, w & 0xFFF) else Minus(at + 8, w & 0xFFF);
      Write(c, Rd(w), c.mem(a))
    else Unpredictable
  }

  /** POP of one register. */
  function ExecPop(w: bv32, c: Core): Outcome {
    if Rd(w) == SP then Unpredictable
    else Write(Set(c, SP, Next(c.reg(SP))), Rd(w), c.mem(c.reg(SP)))
  }

  /** PUSH of one register. */
  function ExecPush(at: bv32, w: bv32, c: Core): Outcome {
    if Rd(w) == SP then Unpredictable
    else Fall(Set(Store(c, Previous(c.reg(SP)), Get(c, at, Rd(w))), SP, Previous(c.reg(SP))))
  }

  // ----- Runs -----

  /** The address of the following word. */
  function Next(a: bv32): bv32 { a + 4 }

  /** What the PC reads as, two words ahead of the instruction. */
  function PcValue(at: bv32): bv32 { at + 8 }

  function Previous(a: bv32): bv32 { a - 4 }

  /** The address `n` words further on. */
  function Advance(a: bv32, n: nat): bv32
    decreases n
  {
    if n == 0 then a else Advance(Next(a), n - 1)
  }

  datatype Machine = Running(pc: bv32, thumb: bool, core: Core) | Halted

  /** One step. A machine that has switched to the Thumb set is somebody else's. */
  function Step(isa: Isa, m: Machine): Machine {
    if m.Halted? || m.thumb then m
    else
      match Exec(isa, m.pc, m.core.mem(m.pc), m.core)
      case Fall(c) => Running(Next(m.pc), false, c)
      case Goto(d, t, c) => Running(d, t, c)
      case Call(d, t, c) => Running(d, t, Set(c, LR, Next(m.pc)))
      case Unpredictable => Halted
  }

  function Run(isa: Isa, m: Machine, n: nat): Machine
    decreases n
  {
    if n == 0 then m else Run(isa, Step(isa, m), n - 1)
  }

  lemma {:induction false} RunAdds(isa: Isa, m: Machine, i: nat, j: nat)
    ensures Run(isa, m, i + j) == Run(isa, Run(isa, m, i), j)
    decreases i
  {
    if i > 0 {
      RunAdds(isa, Step(isa, m), i - 1, j);
    }
  }

  // ----- Cores that differ only in scratch words -----

  /** Equal registers, flags and memory, except for the words in `scratch`. */
  ghost predicate Same(scratch: bv32 -> bool, c: Core, d: Core) {
    && c.flags == d.flags
    && (forall r: bv4 :: r != PC ==> c.reg(r) == d.reg(r))
    && (forall a: bv32 :: !scratch(a) ==> c.mem(a) == d.mem(a))
  }

  ghost predicate SameOutcome(scratch: bv32 -> bool, o: Outcome, p: Outcome) {
    match o
    case Fall(c) => p.Fall? && Same(scratch, c, p.core)
    case Goto(d, t, c) => p.Goto? && p.dest == d && p.thumb == t && Same(scratch, c, p.core)
    case Call(d, t, c) => p.Call? && p.dest == d && p.thumb == t && Same(scratch, c, p.core)
    case Unpredictable => p.Unpredictable?
  }

  /** What is asked of the instructions left abstract: one that reads no scratch word cannot tell apart two cores that
      differ only there, and one that does not read the PC cannot tell where it is. */
  ghost predicate Local(isa: Isa, scratch: bv32 -> bool) {
    forall a: bv32, b: bv32, w: bv32, c: Core, d: Core ::
      Same(scratch, c, d) && (forall x: bv32 :: isa.looksAt(w, c, x) ==> !scratch(x)) && (a == b || !isa.readsPc(w))
      ==> SameOutcome(scratch, isa.other(a, w, c), isa.other(b, w, d))
  }
}
