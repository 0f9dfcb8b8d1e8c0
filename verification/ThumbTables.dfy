/** What the chunk of a table branch does. */
module ThumbTables {
  import opened Words
  import opened ThumbMachine
  import opened ThumbChunks
  import opened ThumbDomain
  import opened ThumbSimulation
  import opened ThumbChunkRuns

  // ----- The instructions of the chunk that are abstract to the machine -----

  /** The byte at `a`. */
  function ByteAt(mem: bv32 -> bv16, a: bv32): bv32 {
    var h := mem(a & 0xFFFFFFFE) as bv32;
    if a & 1 == 0 then h & 0xFF else h >> 8
  }

  function Doubled(x: bv32): bv32 { x << 1 }

  function Scaled(half: bool, x: bv32): bv32 { if half then Doubled(x) else x }

  function Low3(v: bv32): bv4 { (v & 7) as bv4 }
  function Mid3(v: bv32): bv4 { ((v >> 3) & 7) as bv4 }
  function High3(v: bv32): bv4 { ((v >> 8) & 7) as bv4 }
  function Imm5(v: bv32): bv32 { (v >> 6) & 31 }

  /** LDRB (immediate). */
  function LoadByte(v: bv32, c: Core): Core { Set(c, Low3(v), ByteAt(c.mem, Plus(c.reg(Mid3(v)), Imm5(v)))) }

  /** LDRH (immediate), from an even address. */
  function LoadHalf(v: bv32, c: Core): Core { Set(c, Low3(v), c.mem(Plus(c.reg(Mid3(v)), Imm5(v) << 1)) as bv32) }

  /** ADDS (immediate). */
  function AddSmall(v: bv32, c: Core): Core {
    var x, y := c.reg(High3(v)), v & 0xFF;
    var r := Plus(x, y);
    var f := Flags(r & 0x80000000 != 0, r == 0, r < x, (x ^ r) & (y ^ r) & 0x80000000 != 0);
    Set(c, High3(v), r).(flags := f)
  }

  function WideRd(v: bv32): bv4 { ((v >> 8) & 0xF) as bv4 }
  function WideRn(v: bv32): bv4 { ((v >> 16) & 0xF) as bv4 }
  function WideRm(v: bv32): bv4 { (v & 0xF) as bv4 }
  function Shift(v: bv32): bv32 { ((v >> 10) & 0x1C) | ((v >> 6) & 3) }

  /** ADD.W (register), with the second operand shifted left. */
  function AddWide(v: bv32, c: Core): Core {
    Set(c, WideRd(v), Plus(c.reg(WideRn(v)), c.reg(WideRm(v)) << Shift(v) as bv6))
  }

  /** The machine has these, at encodings T1, T1, T2 and T3 of sections A8.8.67, A8.8.79, A8.8.4 and A8.8.6. */
  ghost predicate HasTableCode(isa: Isa) {
    && (forall at: bv32, v: bv32, c: Core :: v & 0xFFFFF800 == 0x7800 ==> isa.other(at, v, c) == Fall(LoadByte(v, c)))
    && (forall at: bv32, v: bv32, c: Core ::
          v & 0xFFFFF800 == 0x8800 && c.reg(Mid3(v)) & 1 == 0 ==> isa.other(at, v, c) == Fall(LoadHalf(v, c)))
    && (forall at: bv32, v: bv32, c: Core :: v & 0xFFFFF800 == 0x3000 ==> isa.other(at, v, c) == Fall(AddSmall(v, c)))
    && (forall at: bv32, v: bv32, c: Core ::
          v & 0xFFF08030 == 0xEB000000 ==> isa.other(at, v, c) == Fall(AddWide(v, c)))
  }

  // ----- The instructions of the chunk, executed -----

  lemma LoadsTable(isa: Isa, tr: bv32, r: bv16, c: Core)
    requires tr & 3 == 0 && r < 8
    ensures Exec16(isa, Next(tr), 0x4805 | (r << 8), c)
         == Fall(Set(c, r as bv4, Load(c, Ahead(tr, 12))))
  {
    hide Plus, Align, PcValue, Next, Load, Ahead;
    TwelveAhead(tr);
    var w := 0x4805 | (r << 8);
    assert Rt(w) == r as bv4 && Imm8(w) << 2 == 20;
  }

  /** The halfword that is `n` halfwords ahead. */
  function Ahead(a: bv32, n: bv32): bv32 { a + (n << 1) }

  lemma TwelveAhead(tr: bv32)
    requires tr & 3 == 0
    ensures Plus(Align(PcValue(Next(tr))), 20) == Ahead(tr, 12)
  {
  }

  lemma MovesIndex(isa: Isa, at: bv32, rm: bv16, rx: bv16, c: Core)
    requires rm < 16 && rx < 8
    ensures Exec16(isa, at, 0x4600 | (rm << 3) | rx, c) == Fall(Set(c, rx as bv4, Get(c, at, rm as bv4)))
    ensures !Is32(0x4600 | (rm << 3) | rx)
  {
    hide Get;
    var w := 0x4600 | (rm << 3) | rx;
    assert w & 0xFF00 == 0x4600 && Rdn(w) == rx as bv4 && Rm(w) == rm as bv4;
  }

  lemma AddsWide(isa: Isa, at: bv32, rd: bv16, rn: bv16, rm: bv16, twice: bool, c: Core)
    requires HasTableCode(isa) && rd < 8 && rn < 8 && rm < 8
    ensures Is32(0xEB00 | rn)
    ensures
      var lo: bv16 := if twice then 0x0040 | (rd << 8) | rm else (rd << 8) | rm;
      Exec32(isa, at, 0xEB00 | rn, lo, c)
      == Fall(Set(c, rd as bv4, Plus(c.reg(rn as bv4), Scaled(twice, c.reg(rm as bv4)))))
  {
    hide Plus, Doubled;
    var lo: bv16 := if twice then 0x0040 | (rd << 8) | rm else (rd << 8) | rm;
    WideFields(rd, rn, rm, twice);
    ShiftIs(c.reg(rm as bv4), twice);
    CopiedWide(isa, at, 0xEB00 | rn, lo, c);
  }

  lemma ShiftIs(x: bv32, twice: bool)
    ensures x << (if twice then 1 else 0) as bv6 == Scaled(twice, x)
  {
    if twice {
      assert x << 1 as bv6 == x << 1;
    } else {
      ShiftNone(x);
    }
  }

  lemma ShiftNone(x: bv32)
    ensures x << 0 as bv6 == x
  {
  }

  lemma WideFields(rd: bv16, rn: bv16, rm: bv16, twice: bool)
    requires rd < 8 && rn < 8 && rm < 8
    ensures
      var lo: bv16 := if twice then 0x0040 | (rd << 8) | rm else (rd << 8) | rm;
      var v := Wide(0xEB00 | rn, lo);
      && KindOf32(0xEB00 | rn, lo) == Undefine32 && v & 0xFFF08030 == 0xEB000000
      && WideRd(v) == rd as bv4 && WideRn(v) == rn as bv4 && WideRm(v) == rm as bv4 && Shift(v) == if twice then 1
          else 0
  {
  }

  lemma NarrowFields(n: bv16)
    requires n < 8
    ensures
      var v := (0x7800 | (n << 3) | n) as bv32;
      v & 0xFFFFF800 == 0x7800 && Low3(v) == n as bv4 && Mid3(v) == n as bv4 && Imm5(v) == 0
    ensures
      var v := (0x8800 | (n << 3) | n) as bv32;
      v & 0xFFFFF800 == 0x8800 && Low3(v) == n as bv4 && Mid3(v) == n as bv4 && Imm5(v) == 0
    ensures
      var v := (0x3001 | (n << 8)) as bv32;
      v & 0xFFFFF800 == 0x3000 && High3(v) == n as bv4 && v & 0xFF == 1
    ensures KindOf16(0x7800 | (n << 3) | n) == Undefine16 && KindOf16(0x8800 | (n << 3) | n) == Undefine16
    ensures KindOf16(0x3001 | (n << 8)) == Undefine16
    ensures !Is32(0x7800 | (n << 3) | n) && !Is32(0x8800 | (n << 3) | n) && !Is32(0x3001 | (n << 8))
  {
  }

  lemma LoadsByte(isa: Isa, at: bv32, n: bv16, c: Core)
    requires HasTableCode(isa) && n < 8
    ensures Exec16(isa, at, 0x7800 | (n << 3) | n, c) == Fall(Set(c, n as bv4, ByteAt(c.mem, c.reg(n as bv4))))
  {
    hide ByteAt, Set, KindOf16;
    NarrowFields(n);
    NarrowOther(isa, at, 0x7800 | (n << 3) | n, c);
    PlusZero(c.reg(n as bv4));
    hide Plus;
  }

  lemma PlusZero(x: bv32)
    ensures Plus(x, 0) == x
  {
  }

  lemma LoadsHalf(isa: Isa, at: bv32, n: bv16, c: Core)
    requires HasTableCode(isa) && n < 8 && c.reg(n as bv4) & 1 == 0
    ensures Exec16(isa, at, 0x8800 | (n << 3) | n, c) == Fall(Set(c, n as bv4, c.mem(c.reg(n as bv4)) as bv32))
  {
    hide Set, KindOf16;
    NarrowFields(n);
    NarrowOther(isa, at, 0x8800 | (n << 3) | n, c);
    PlusZero(c.reg(n as bv4));
    hide Plus;
    assert (0 as bv32) << 1 == 0;
  }

  /** The flags of adding 1. */
  function OneMore(c: Core, r: bv4): Core {
    var x := c.reg(r);
    var y := PlusOne(x);
    Set(c, r, y).(flags := Flags(y & 0x80000000 != 0, y == 0, y < x, (x ^ y) & (1 ^ y) & 0x80000000 != 0))
  }

  lemma AddsOne(isa: Isa, at: bv32, n: bv16, c: Core)
    requires HasTableCode(isa) && n < 8
    ensures Exec16(isa, at, 0x3001 | (n << 8), c) == Fall(OneMore(c, n as bv4))
  {
    hide Set, KindOf16;
    NarrowFields(n);
    NarrowOther(isa, at, 0x3001 | (n << 8), c);
    assert Plus(c.reg(n as bv4), 1) == PlusOne(c.reg(n as bv4));
    hide Plus, PlusOne;
  }

  /** These are abstract to the machine. */
  lemma NarrowOther(isa: Isa, at: bv32, w: bv16, c: Core)
    requires w & 0xF800 in {0x7800, 0x8800, 0x3000}
    ensures Exec16(isa, at, w, c) == isa.other(at, w as bv32, c)
  {
    hide Plus, PcValue, ConditionHolds;
  }

  lemma Exchanges(isa: Isa, at: bv32, r: bv16, c: Core)
    requires r < 8
    ensures Exec16(isa, at, 0x4700 | (r << 3), c) == WritePC(c.reg(r as bv4), c)
    ensures !Is32(0x4700 | (r << 3))
  {
    hide WritePC;
    var w := 0x4700 | (r << 3);
    assert w & 0xFF80 == 0x4700 && Rm(w) == r as bv4 && r as bv4 != PC;
  }

  // ----- The chunk, run -----

  lemma {:induction false} HeldAt(mem: bv32 -> bv16, scratch: bv32 -> bool, a: bv32, code: seq<bv16>, k: nat)
    requires Holds(mem, scratch, a, code) && k < |code|
    ensures mem(Advance(a, k)) == code[k] && !scratch(Advance(a, k))
    decreases k
  {
    hide Next;
    if k > 0 {
      HeldAt(mem, scratch, Next(a), code[1..], k - 1);
    }
  }

  lemma NextAdvance(a: bv32, k: nat)
    ensures Next(Advance(a, k)) == Advance(a, k + 1)
  {
    hide Next;
    AdvanceAdds(a, k, 1);
    assert Advance(Advance(a, k), 1) == Advance(Next(Advance(a, k)), 0);
  }

  lemma AdvanceTwelve(a: bv32)
    ensures Advance(a, 12) == Ahead(a, 12)
  {
    AdvanceAdds(a, 8, 4);
    AdvanceEight(a);
    AdvanceFour(Advance(a, 8));
    hide Advance;
  }

  /** One narrow instruction of held code. */
  lemma NarrowStep(isa: Isa, scratch: bv32 -> bool, tr: bv32, code: seq<bv16>, k: nat, d: Core, e: Core)
    requires k < |code| && Holds(d.mem, scratch, tr, code) && !Is32(code[k])
    requires Exec16(isa, Advance(tr, k), code[k], d) == Fall(e)
    ensures Step(isa, Running(Advance(tr, k), true, d)) == Running(Advance(tr, k + 1), true, e)
  {
    hide Exec16, Is32, Advance, Step, Next;
    HeldAt(d.mem, scratch, tr, code, k);
    StepFalls(isa, Advance(tr, k), code[k], d, e);
    NextAdvance(tr, k);
  }

  /** One wide one. */
  lemma WideStep(isa: Isa, scratch: bv32 -> bool, tr: bv32, code: seq<bv16>, k: nat, d: Core, e: Core)
    requires k + 1 < |code| && Holds(d.mem, scratch, tr, code) && Is32(code[k])
    requires Exec32(isa, Advance(tr, k), code[k], code[k + 1], d) == Fall(e)
    ensures Step(isa, Running(Advance(tr, k), true, d)) == Running(Advance(tr, k + 2), true, e)
  {
    hide Exec32, Is32, Advance, Step, Next;
    HeldAt(d.mem, scratch, tr, code, k);
    HeldAt(d.mem, scratch, tr, code, k + 1);
    NextAdvance(tr, k);
    NextAdvance(tr, k + 1);
    Step32(isa, Advance(tr, k), code[k], code[k + 1], d);
  }

  /** The entry at `a`: a byte, or a halfword. */
  function Entry(mem: bv32 -> bv16, half: bool, a: bv32): bv32 { if half then mem(a) as bv32 else ByteAt(mem, a) }

  /** The core when the address of the entry is in the index register, when the entry is, and when the destination is in
      the other one, which keeps it. */
  function Found(half: bool, r: bv4, rx: bv4, m: bv4, pc: bv32, d: Core): Core {
    var e := Set(Pushed(rx, d), r, pc);
    var f := Set(e, rx, e.reg(m));
    Set(f, rx, Plus(f.reg(r), Scaled(half, f.reg(rx))))
  }

  function Looked(half: bool, rx: bv4, e: Core): Core { Set(e, rx, Entry(e.mem, half, e.reg(rx))) }

  function Aimed(r: bv4, rx: bv4, e: Core): Core {
    OneMore(Set(e, r, Plus(e.reg(r), Doubled(e.reg(rx)))), r)
  }

  /** The halfwords of the chunk, with its three registers. */
  predicate IsTableCode(code: seq<bv16>, half: bool, r: bv16, rx: bv16, rm: bv16, pc: bv32)
    requires rx < 8
  {
    && |code| == 14 && code[12] == Low(pc) && code[13] == High(pc)
    && code[0] == 0xB400 | OneBit(rx) && code[1] == 0x4805 | (r << 8) && code[2] == 0x4600 | (rm << 3) | rx
    && code[3] == 0xEB00 | r && code[4] == (if half then 0x0040 | (rx << 8) | rx else (rx << 8) | rx)
    && code[5] == (if half then 0x8800 | (rx << 3) | rx else 0x7800 | (rx << 3) | rx)
    && code[6] == 0xEB00 | r && code[7] == 0x0040 | (r << 8) | rx && code[8] == 0x3001 | (r << 8)
    && code[9] == 0xBC00 | OneBit(rx) && code[10] == 0x4700 | (r << 3)
  }

  /** The registers are low, but for the one given, and different, and none is the SP or the PC. */
  predicate AreApart(r: bv16, rx: bv16, rm: bv16) {
    && r < 8 && rx < 8 && rm < 15 && r != rx && rm != rx && rm != r && rm != 13
    && rm as bv4 !in {r as bv4, rx as bv4, SP, PC} && r as bv4 !in {rx as bv4, SP, PC} && rx as bv4 !in {SP, PC}
  }

  lemma FirstSteps(isa: Isa, scratch: bv32 -> bool, tr: bv32, half: bool, r: bv16, rx: bv16, rm: bv16, pc: bv32,
                   code: seq<bv16>, d: Core)
    requires HasTableCode(isa) && tr & 3 == 0 && AreApart(r, rx, rm) && IsTableCode(code, half, r, rx, rm, pc)
    requires StackScratch(scratch, d) && Holds(d.mem, scratch, tr, code)
    ensures
      var e := Found(half, r as bv4, rx as bv4, rm as bv4, pc, d);
      && Run(isa, Running(tr, true, d), 4) == Running(Advance(tr, 5), true, e) && Holds(e.mem, scratch, tr, code)
  {
    hide Exec16, Exec32, Next, Previous, Step, Load, Is32, Low, High, Holds, Join, Advance, Run, OneBit, Plus, Ahead,
      HasTableCode;
    var d1 := Pushed(rx as bv4, d);
    PushHolds(scratch, rx as bv4, tr, code, d);
    var d2 := Set(d1, r as bv4, pc);
    var d3 := Set(d2, rx as bv4, d2.reg(rm as bv4));
    Starts(tr);
    StackIsNarrow(rx, r);
    PushOne(isa, tr, rx, d);
    NarrowStep(isa, scratch, tr, code, 0, d, d1);
    LoadsTable(isa, tr, r, d1);
    HeldAt(d1.mem, scratch, tr, code, 12);
    HeldAt(d1.mem, scratch, tr, code, 13);
    NextAdvance(tr, 12);
    AdvanceTwelve(tr);
    LoadHalves(d1, Ahead(tr, 12), pc);
    NarrowStep(isa, scratch, tr, code, 1, d1, d2);
    MovesIndex(isa, Advance(tr, 2), rm, rx, d2);
    NotPc(d2, Advance(tr, 2), rm);
    NarrowStep(isa, scratch, tr, code, 2, d2, d3);
    AddsWide(isa, Advance(tr, 3), rx, r, rx, half, d3);
    WideStep(isa, scratch, tr, code, 3, d3, Found(half, r as bv4, rx as bv4, rm as bv4, pc, d));
    RunFour(isa, Running(tr, true, d));
  }

  lemma Starts(tr: bv32)
    ensures Advance(tr, 0) == tr && Advance(tr, 1) == Next(tr)
  {
    hide Next;
    assert Advance(tr, 1) == Advance(Next(tr), 0);
  }

  lemma StackIsNarrow(rx: bv16, r: bv16)
    requires rx < 8 && r < 8
    ensures !Is32(0xB400 | OneBit(rx)) && !Is32(0xBC00 | OneBit(rx)) && !Is32(0x4805 | (r << 8))
  {
  }

  lemma NotPc(c: Core, at: bv32, r: bv16)
    requires r < 15
    ensures Get(c, at, r as bv4) == c.reg(r as bv4)
  {
  }

  lemma PushHolds(scratch: bv32 -> bool, rx: bv4, tr: bv32, code: seq<bv16>, d: Core)
    requires StackScratch(scratch, d) && Holds(d.mem, scratch, tr, code)
    ensures Holds(Pushed(rx, d).mem, scratch, tr, code)
  {
    hide Previous, Next, Low, High;
    HoldsElsewhere(d.mem, Pushed(rx, d).mem, scratch, tr, code);
  }

  lemma RunFour(isa: Isa, m: Machine)
    ensures Run(isa, m, 4) == Step(isa, Step(isa, Step(isa, Step(isa, m))))
  {
    hide Step;
    RunAdds(isa, m, 2, 2);
    RunTwo(isa, m);
    RunTwo(isa, Run(isa, m, 2));
  }

  lemma AimSteps(isa: Isa, scratch: bv32 -> bool, tr: bv32, r: bv16, rx: bv16, code: seq<bv16>, e: Core)
    requires HasTableCode(isa) && r < 8 && rx < 8
    requires Holds(e.mem, scratch, tr, code) && |code| == 14
    requires code[6] == 0xEB00 | r && code[7] == 0x0040 | (r << 8) | rx && code[8] == 0x3001 | (r << 8)
    ensures
      var f := Aimed(r as bv4, rx as bv4, e);
      f.mem == e.mem && Run(isa, Running(Advance(tr, 6), true, e), 2) == Running(Advance(tr, 9), true, f)
  {
    hide Exec16, Exec32, Next, Step, Is32, Holds, Advance, Run, Plus, HasTableCode, OneMore, Doubled;
    var d6 := Set(e, r as bv4, Plus(e.reg(r as bv4), Doubled(e.reg(rx as bv4))));
    NarrowFields(r);
    AddsWide(isa, Advance(tr, 6), r, r, rx, true, e);
    WideStep(isa, scratch, tr, code, 6, e, d6);
    hide Set;
    AddsOne(isa, Advance(tr, 8), r, d6);
    OneMoreMemory(d6, r as bv4);
    NarrowStep(isa, scratch, tr, code, 8, d6, OneMore(d6, r as bv4));
    RunTwo(isa, Running(Advance(tr, 6), true, e));
  }

  lemma EndSteps(isa: Isa, scratch: bv32 -> bool, tr: bv32, r: bv16, rx: bv16, code: seq<bv16>, e: Core)
    requires r < 8 && rx < 8 && Holds(e.mem, scratch, tr, code) && |code| == 14
    requires code[9] == 0xBC00 | OneBit(rx) && code[10] == 0x4700 | (r << 3)
    ensures
      var f := Popped(rx as bv4, e);
      Run(isa, Running(Advance(tr, 9), true, e), 2) == Land(WritePC(f.reg(r as bv4), f), tr)
  {
    hide Exec16, Next, Following, Step, Load, Is32, Holds, Advance, Run, OneBit, WritePC;
    var f := Popped(rx as bv4, e);
    StackIsNarrow(rx, r);
    PopOne(isa, Advance(tr, 9), rx, e);
    NarrowStep(isa, scratch, tr, code, 9, e, f);
    HeldAt(f.mem, scratch, tr, code, 10);
    hide Popped, Set;
    Exchanges(isa, Advance(tr, 10), r, f);
    Step16(isa, Advance(tr, 10), code[10], f);
    WriteNeverFalls(f.reg(r as bv4), f);
    LandsAnywhere(WritePC(f.reg(r as bv4), f), Next(Advance(tr, 10)), tr);
    RunTwo(isa, Running(Advance(tr, 9), true, e));
  }

  lemma LastSteps(isa: Isa, scratch: bv32 -> bool, tr: bv32, half: bool, r: bv16, rx: bv16, rm: bv16, pc: bv32,
                  code: seq<bv16>, e: Core)
    requires HasTableCode(isa) && AreApart(r, rx, rm) && IsTableCode(code, half, r, rx, rm, pc)
    requires Holds(e.mem, scratch, tr, code) && (half ==> e.reg(rx as bv4) & 1 == 0)
    ensures
      var f := Popped(rx as bv4, Aimed(r as bv4, rx as bv4, Looked(half, rx as bv4, e)));
      Run(isa, Running(Advance(tr, 5), true, e), 5) == Land(WritePC(f.reg(r as bv4), f), tr)
  {
    hide Step, Holds, Advance, Run, OneBit, HasTableCode, Aimed, Looked, Popped, WritePC, Land;
    var m := Running(Advance(tr, 5), true, e);
    var d := Looked(half, rx as bv4, e);
    LookStep(isa, scratch, tr, half, rx, code, e);
    RunOne(isa, m);
    AimSteps(isa, scratch, tr, r, rx, code, d);
    EndSteps(isa, scratch, tr, r, rx, code, Aimed(r as bv4, rx as bv4, d));
    RunAdds(isa, m, 1, 2);
    RunAdds(isa, m, 3, 2);
  }

  lemma LandsAnywhere(o: Outcome, next: bv32, other: bv32)
    requires !o.Fall? && !o.Call?
    ensures Land(o, next) == Land(o, other)
  {
  }

  lemma OneMoreMemory(c: Core, r: bv4)
    ensures OneMore(c, r).mem == c.mem
  {
    hide PlusOne;
  }

  lemma LookStep(isa: Isa, scratch: bv32 -> bool, tr: bv32, half: bool, rx: bv16, code: seq<bv16>, e: Core)
    requires HasTableCode(isa) && rx < 8 && (half ==> e.reg(rx as bv4) & 1 == 0)
    requires Holds(e.mem, scratch, tr, code) && |code| == 14
    requires code[5] == if half then 0x8800 | (rx << 3) | rx else 0x7800 | (rx << 3) | rx
    ensures Step(isa, Running(Advance(tr, 5), true, e)) == Running(Advance(tr, 6), true, Looked(half, rx as bv4, e))
    ensures Looked(half, rx as bv4, e).mem == e.mem
  {
    hide Exec16, Next, Step, Is32, Holds, Advance, HasTableCode, ByteAt;
    NarrowFields(rx);
    if half {
      LoadsHalf(isa, Advance(tr, 5), rx, e);
    } else {
      LoadsByte(isa, Advance(tr, 5), rx, e);
    }
    NarrowStep(isa, scratch, tr, code, 5, e, Looked(half, rx as bv4, e));
  }

  // ----- Where it leads -----

  lemma EvenSum(x: bv32, y: bv32)
    requires x & 1 == 0
    ensures Plus(x, Doubled(y)) & 1 == 0
  {
  }

  /** Whether two cores differ in nothing but register `r`, the flags, and scratch. */
  ghost predicate SameButOne(scratch: bv32 -> bool, r: bv4, c: Core, d: Core) {
    && (forall k: bv4 :: k != r && k != PC ==> c.reg(k) == d.reg(k))
    && (forall a: bv32 :: !scratch(a) ==> c.mem(a) == d.mem(a))
  }

  /** The core at the end: the index register and the stack pointer are back. */
  lemma RestOfCore(scratch: bv32 -> bool, half: bool, r: bv4, rx: bv4, m: bv4, pc: bv32, d: Core)
    requires r != rx && r != SP && r != PC && rx != SP && rx != PC && m != r && m != rx && m != SP && m != PC
    requires StackScratch(scratch, d)
    ensures
      var e := Found(half, r, rx, m, pc, d);
      var g := Aimed(r, rx, Looked(half, rx, e));
      var f := Popped(rx, g);
      && SameButOne(scratch, r, d, f) && e.reg(rx) == Plus(pc, Scaled(half, d.reg(m)))
      && f.reg(r) == PlusOne(Plus(pc, Doubled(Entry(e.mem, half, e.reg(rx)))))
      && e.mem == Pushed(rx, d).mem
  {
    hide Plus, Doubled, Scaled, Entry, PlusOne, Next, Previous, Following, Load, Low, High, Entry;
    var a := Previous(d.reg(SP));
    LoadStored(d, a, d.reg(rx));
    FollowingPrevious(d.reg(SP));
    var g := Aimed(r, rx, Looked(half, rx, Found(half, r, rx, m, pc, d)));
    SameMemoryLoads(g, Store(d, a, d.reg(rx)), a);
  }

  lemma EntryIsThere(scratch: bv32 -> bool, half: bool, rx: bv4, d: Core, a: bv32)
    requires StackScratch(scratch, d) && !IsScratch(scratch, a) && (half ==> a & 1 == 0)
    ensures Entry(Pushed(rx, d).mem, half, a) == Entry(d.mem, half, a)
  {
    hide Next, Previous, Low, High;
    EvenIsSelf(a);
  }

  lemma EvenIsSelf(a: bv32)
    ensures a & 1 == 0 ==> a & 0xFFFFFFFE == a
  {
  }

  lemma TableWordsAre(kind: Kind32, pc: bv32, lo: bv16)
    requires kind in {Tbb, Tbh}
    ensures
      var rm := lo & 0xF;
      var r := TableRegister(rm);
      var rx := IndexRegister(rm, r);
      IsTableCode(TableWords(kind, pc, lo), kind == Tbh, r, rx, rm, pc)
  {
    hide Low, High, OneBit, TableRegister, IndexRegister;
  }

  lemma TableRegisters(rm: bv16)
    requires rm < 15 && rm != 13
    ensures AreApart(TableRegister(rm), IndexRegister(rm, TableRegister(rm)), rm)
  {
  }

  /** The register that holds the index. */
  function Index(lo: bv16): bv16 { lo & 0xF }

  function IndexOf(lo: bv16): bv4 { (lo & 0xF) as bv4 }

  predicate IsHalf(lo: bv16) { lo & 0x10 != 0 }

  /** Where the entry is. */
  function EntryAddress(at: bv32, lo: bv16, d: Core): bv32 { Plus(PcValue(at), Scaled(IsHalf(lo), d.reg(IndexOf(lo)))) }

  predicate IsScratch(scratch: bv32 -> bool, a: bv32) { scratch(a & 0xFFFFFFFE) }

  /** The chunk of a TBB or TBH comes to the PC plus twice the entry, with one low register and the flags clobbered, and
      everything else as it was. */
  lemma TableBranchRuns(isa: Isa, scratch: bv32 -> bool, at: bv32, hi: bv16, lo: bv16, lit: bv32 -> bv32, tr: bv32,
                        d: Core)
    returns (r: bv4)
    requires IsTableBranch(hi, lo) && IndexOf(lo) != SP && IndexOf(lo) != PC && at & 1 == 0 && tr & 3 == 0
    requires HasTableCode(isa) && StackScratch(scratch, d)
      && Holds(d.mem, scratch, tr, Chunk32(PcValue(at), hi, lo, lit))
    requires !IsScratch(scratch, EntryAddress(at, lo, d))
    ensures r < 8 && r != IndexOf(lo)
    ensures
      var entry := Entry(d.mem, IsHalf(lo), EntryAddress(at, lo, d));
      var m := Run(isa, Running(tr, true, d), 9);
      && m.Running? && m.thumb && m.pc == Plus(PcValue(at), Doubled(entry)) && SameButOne(scratch, r, d, m.core)
  {
    hide *;
    var b := TableRegister(Index(lo));
    var x := IndexRegister(Index(lo), b);
    IndexIs(lo);
    TableRegisters(Index(lo));
    r := b as bv4;
    TableChunkIs(at, hi, lo, lit);
    var code := Chunk32(PcValue(at), hi, lo, lit);
    PcEven(at);
    TableSteps(isa, scratch, tr, IsHalf(lo), b, x, Index(lo), PcValue(at), code, d);
    ApartRegisters(b, x, Index(lo));
    EntryAddressIs(at, lo, d);
    TableLands(scratch, IsHalf(lo), r, x as bv4, IndexOf(lo), PcValue(at), d, tr);
  }

  lemma IndexIs(lo: bv16)
    requires IndexOf(lo) != SP && IndexOf(lo) != PC
    ensures Index(lo) < 15 && Index(lo) != 13 && Index(lo) as bv4 == IndexOf(lo)
  {
  }

  lemma ApartRegisters(r: bv16, rx: bv16, rm: bv16)
    requires AreApart(r, rx, rm)
    ensures r < 8 && rx < 8 && rm < 15 && r as bv4 < 8
    ensures r as bv4 !in {rx as bv4, rm as bv4, SP, PC} && rx as bv4 !in {SP, PC}
    ensures rm as bv4 !in {r as bv4, rx as bv4, SP, PC}
  {
  }

  lemma EntryAddressIs(at: bv32, lo: bv16, d: Core)
    ensures EntryAddress(at, lo, d) == Plus(PcValue(at), Scaled(IsHalf(lo), d.reg(IndexOf(lo))))
  {
  }

  lemma TableChunkIs(at: bv32, hi: bv16, lo: bv16, lit: bv32 -> bv32)
    requires IsTableBranch(hi, lo)
    ensures
      var r := TableRegister(Index(lo));
      var rx := IndexRegister(Index(lo), r);
      IsTableCode(Chunk32(PcValue(at), hi, lo, lit), IsHalf(lo), r, rx, Index(lo), PcValue(at))
  {
    hide KindOf32, TableWords, PcValue, IsTableCode;
    Kind32Is(hi, lo);
    hide IsTableBranch;
    TableWordsAre(KindOf32(hi, lo), PcValue(at), lo);
  }

  lemma TableSteps(isa: Isa, scratch: bv32 -> bool, tr: bv32, half: bool, b: bv16, x: bv16, rm: bv16, pc: bv32,
                   code: seq<bv16>, d: Core)
    requires HasTableCode(isa) && tr & 3 == 0 && AreApart(b, x, rm) && IsTableCode(code, half, b, x, rm, pc)
    requires StackScratch(scratch, d) && Holds(d.mem, scratch, tr, code) && pc & 1 == 0
    ensures
      var e := Found(half, b as bv4, x as bv4, rm as bv4, pc, d);
      var f := Popped(x as bv4, Aimed(b as bv4, x as bv4, Looked(half, x as bv4, e)));
      Run(isa, Running(tr, true, d), 9) == Land(WritePC(f.reg(b as bv4), f), tr)
  {
    hide *;
    ApartRegisters(b, x, rm);
    var e := Found(half, b as bv4, x as bv4, rm as bv4, pc, d);
    FirstSteps(isa, scratch, tr, half, b, x, rm, pc, code, d);
    RestOfCore(scratch, half, b as bv4, x as bv4, rm as bv4, pc, d);
    HalfIsEven(half, pc, d.reg(rm as bv4));
    LastSteps(isa, scratch, tr, half, b, x, rm, pc, code, e);
    RunAdds(isa, Running(tr, true, d), 4, 5);
  }

  lemma HalfIsEven(half: bool, pc: bv32, x: bv32)
    requires half ==> pc & 1 == 0
    ensures half ==> Plus(pc, Scaled(half, x)) & 1 == 0
  {
    if half {
      EvenSum(pc, x);
    }
    hide Plus, Doubled;
  }

  lemma TableLands(scratch: bv32 -> bool, half: bool, r: bv4, rx: bv4, rm: bv4, pc: bv32, d: Core, tr: bv32)
    requires r != rx && r != SP && r != PC && rx != SP && rx != PC && rm != r && rm != rx && rm != SP && rm != PC
    requires StackScratch(scratch, d) && pc & 1 == 0
    requires !IsScratch(scratch, Plus(pc, Scaled(half, d.reg(rm))))
    ensures
      var e := Found(half, r, rx, rm, pc, d);
      var f := Popped(rx, Aimed(r, rx, Looked(half, rx, e)));
      var entry := Entry(d.mem, half, Plus(pc, Scaled(half, d.reg(rm))));
      Land(WritePC(f.reg(r), f), tr) == Running(Plus(pc, Doubled(entry)), true, f) && SameButOne(scratch, r, d, f)
  {
    hide *;
    var e := Found(half, r, rx, rm, pc, d);
    var f := Popped(rx, Aimed(r, rx, Looked(half, rx, e)));
    var a := Plus(pc, Scaled(half, d.reg(rm)));
    RestOfCore(scratch, half, r, rx, rm, pc, d);
    HalfIsEven(half, pc, d.reg(rm));
    EntryIsThere(scratch, half, rx, d, a);
    var entry := Entry(d.mem, half, a);
    EvenSum(pc, entry);
    OddSuccessor(Plus(pc, Doubled(entry)));
    WriteOdd(PlusOne(Plus(pc, Doubled(entry))), Plus(pc, Doubled(entry)), f);
    LandGoto(Plus(pc, Doubled(entry)), f, tr);
  }

  lemma LandGoto(dest: bv32, c: Core, next: bv32)
    ensures Land(Goto(dest, true, c), next) == Running(dest, true, c)
  {
  }
}
