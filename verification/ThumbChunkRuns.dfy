/** Every Thumb chunk, run from its first halfword. */
module ThumbChunkRuns {
  import opened Words
  import opened ThumbMachine
  import opened ThumbChunks
  import opened ThumbDomain
  import opened ThumbSimulation

  // ----- Code in memory -----

  /** The halfwords `code` are in memory from address `a` on, none of them in scratch. */
  ghost predicate Holds(mem: bv32 -> bv16, scratch: bv32 -> bool, a: bv32, code: seq<bv16>)
    decreases |code|
  {
    code == [] || (mem(a) == code[0] && !scratch(a) && Holds(mem, scratch, Next(a), code[1..]))
  }

  lemma {:induction false} HoldsSplit(mem: bv32 -> bv16, scratch: bv32 -> bool, a: bv32, x: seq<bv16>, y: seq<bv16>)
    requires Holds(mem, scratch, a, x + y)
    ensures Holds(mem, scratch, a, x) && Holds(mem, scratch, Advance(a, |x|), y)
    decreases |x|
  {
    hide Next;
    if x == [] {
      assert x + y == y;
    } else {
      assert (x + y)[1..] == x[1..] + y;
      HoldsSplit(mem, scratch, Next(a), x[1..], y);
    }
  }

  lemma {:induction false} HoldsElsewhere(mem: bv32 -> bv16, other: bv32 -> bv16, scratch: bv32 -> bool, a: bv32,
                                          code: seq<bv16>)
    requires Holds(mem, scratch, a, code)
    requires forall b: bv32 :: !scratch(b) ==> mem(b) == other(b)
    ensures Holds(other, scratch, a, code)
    decreases |code|
  {
    hide Next;
    if code != [] {
      HoldsElsewhere(mem, other, scratch, Next(a), code[1..]);
    }
  }

  /** The first two halfwords of held code, and the rest. */
  lemma HeldPair(mem: bv32 -> bv16, scratch: bv32 -> bool, a: bv32, code: seq<bv16>)
    requires Holds(mem, scratch, a, code) && |code| >= 2
    ensures mem(a) == code[0] && !scratch(a) && mem(Next(a)) == code[1] && !scratch(Next(a))
    ensures Holds(mem, scratch, Next(Next(a)), code[2..])
  {
    hide Next;
    assert Holds(mem, scratch, Next(a), code[1..]);
    assert code[1..][1..] == code[2..];
  }

  // ----- Steps -----

  /** The machine is where `o`, executed just before `next`, leads. */
  ghost predicate Leads(o: Outcome, next: bv32, m: Machine, scratch: bv32 -> bool) {
    match o
    case Fall(c) => m.Running? && m.pc == next && m.thumb && Same(scratch, c, m.core)
    case Goto(d, t, c) => m.Running? && m.pc == d && m.thumb == t && Same(scratch, c, m.core)
    case Call(d, t, c) => m.Running? && m.pc == d && m.thumb == t && Same(scratch, Set(c, LR, ThumbBit(next)), m.core)
    case Unpredictable => true
  }

  lemma Step16(isa: Isa, pc: bv32, w: bv16, d: Core)
    requires d.mem(pc) == w && !Is32(w)
    ensures Step(isa, Running(pc, true, d)) == Land(Exec16(isa, pc, w, d), Next(pc))
  {
    hide Exec16, Exec32, Is32, Land;
  }

  lemma Step32(isa: Isa, pc: bv32, hi: bv16, lo: bv16, d: Core)
    requires d.mem(pc) == hi && d.mem(Next(pc)) == lo && Is32(hi)
    ensures Step(isa, Running(pc, true, d)) == Land(Exec32(isa, pc, hi, lo, d), Next(Next(pc)))
  {
    hide Exec16, Exec32, Is32, Land, Next;
  }

  lemma RunOne(isa: Isa, m: Machine)
    ensures Run(isa, m, 1) == Step(isa, m)
  {
    hide Step;
    assert Run(isa, Step(isa, m), 0) == Step(isa, m);
  }

  lemma RunTwo(isa: Isa, m: Machine)
    ensures Run(isa, m, 2) == Step(isa, Step(isa, m))
  {
    hide Step;
    RunOne(isa, Step(isa, m));
  }

  lemma RunFive(isa: Isa, m: Machine)
    ensures Run(isa, m, 5) == Step(isa, Step(isa, Step(isa, Step(isa, Step(isa, m)))))
  {
    hide Step;
    var m3 := Step(isa, Step(isa, Step(isa, m)));
    assert Run(isa, Step(isa, m), 4) == Run(isa, Step(isa, Step(isa, m)), 3) == Run(isa, m3, 2);
    RunTwo(isa, m3);
  }

  /** The long jump through a literal. */
  lemma JumpStep(isa: Isa, scratch: bv32 -> bool, tr: bv32, value: bv32, d: Core, next: bv32)
    requires tr & 3 == 0 && Holds(d.mem, scratch, tr, Jump(value))
    ensures Step(isa, Running(tr, true, d)) == Land(WritePC(value, d), next)
  {
    hide Exec16, Exec32, Next, WritePC, Join, Low, High, Step;
    var code := Jump(value);
    HeldPair(d.mem, scratch, tr, code);
    HeldPair(d.mem, scratch, Next(Next(tr)), code[2..]);
    assert Is32(0xF8DF);
    Step32(isa, tr, 0xF8DF, 0xF000, d);
    JumpLiteral(isa, tr, d);
    JoinHalves(value);
    WriteNeverFalls(value, d);
  }

  lemma WriteNeverFalls(v: bv32, c: Core)
    ensures !WritePC(v, c).Fall? && !WritePC(v, c).Call?
  {
  }

  lemma SameWritePC(scratch: bv32 -> bool, v: bv32, c: Core, d: Core)
    requires Same(scratch, c, d)
    ensures SameOutcome(scratch, WritePC(v, c), WritePC(v, d))
  {
  }

  lemma SameSet(scratch: bv32 -> bool, c: Core, d: Core, r: bv4, v: bv32)
    requires Same(scratch, c, d)
    ensures Same(scratch, Set(c, r, v), Set(d, r, v))
  {
  }

  lemma SameLands(scratch: bv32 -> bool, o: Outcome, p: Outcome, next: bv32)
    requires SameOutcome(scratch, o, p)
    ensures Leads(o, next, Land(p, next), scratch)
  {
    if o.Call? {
      SameSet(scratch, o.core, p.core, LR, ThumbBit(next));
    }
  }

  /** The two-step chunk of a load: the literal into the register, and over it. */
  lemma LoadRun(isa: Isa, scratch: bv32 -> bool, tr: bv32, r: bv16, value: bv32, d: Core)
    requires tr & 3 == 0 && r < 8 && Holds(d.mem, scratch, tr, LoadWords(r, value))
    ensures Run(isa, Running(tr, true, d), 2)
         == Running(Next(Next(Next(Next(tr)))), true, Set(d, r as bv4, value))
  {
    hide Exec16, Exec32, Next, Join, Low, High, Step;
    var code := LoadWords(r, value);
    HeldPair(d.mem, scratch, tr, code);
    HeldPair(d.mem, scratch, Next(Next(tr)), code[2..]);
    var e := Set(d, r as bv4, value);
    LoadIsNarrow(r);
    Step16(isa, tr, 0x4800 | (r << 8), d);
    LoadLiteral(isa, tr, r, d);
    JoinHalves(value);
    assert Step(isa, Running(tr, true, d)) == Running(Next(tr), true, e);
    Step16(isa, Next(tr), 0xE001, e);
    Branches(isa, Next(tr), e);
    RunTwo(isa, Running(tr, true, d));
  }

  lemma LoadIsNarrow(r: bv16)
    requires r < 8
    ensures !Is32(0x4800 | (r << 8)) && !Is32(0x4802 | (r << 8)) && !Is32(0xE001) && !Is32(0xE002) && !Is32(0xE003)
  {
  }

  lemma {:induction false} AdvanceAdds(a: bv32, m: nat, n: nat)
    ensures Advance(Advance(a, m), n) == Advance(a, m + n)
    decreases m
  {
    hide Next;
    if m > 0 {
      AdvanceAdds(Next(a), m - 1, n);
    }
  }

  lemma AdvanceTwo(a: bv32)
    ensures Advance(a, 2) == Next(Next(a))
  {
    hide Next;
    assert Advance(Next(a), 1) == Advance(Next(Next(a)), 0);
  }

  lemma AdvanceFour(a: bv32)
    ensures Advance(a, 4) == Next(Next(Next(Next(a))))
  {
    hide Next;
    AdvanceAdds(a, 2, 2);
    AdvanceTwo(a);
    AdvanceTwo(Next(Next(a)));
  }

  lemma AdvanceSix(a: bv32)
    ensures Advance(a, 6) == Next(Next(Next(Next(Next(Next(a))))))
  {
    hide Next;
    AdvanceAdds(a, 4, 2);
    AdvanceFour(a);
    AdvanceTwo(Next(Next(Next(Next(a)))));
  }

  lemma AdvanceEight(a: bv32)
    ensures Advance(a, 8) == Next(Next(Next(Next(Next(Next(Next(Next(a))))))))
  {
    hide Next;
    AdvanceAdds(a, 6, 2);
    AdvanceSix(a);
    AdvanceTwo(Next(Next(Next(Next(Next(Next(a)))))));
  }

  // ----- Chunks of 16-bit instructions -----

  lemma BxChunk(isa: Isa, scratch: bv32 -> bool, at: bv32, w: bv16, lit: bv32 -> bv32, c: Core, tr: bv32, d: Core)
    requires KindOf16(w) == Bx && tr & 3 == 0 && Same(scratch, c, d)
    requires Holds(d.mem, scratch, tr, Chunk16(PcValue(at), w, lit))
    ensures Leads(Exec16(isa, at, w, c), Advance(tr, 4), Run(isa, Running(tr, true, d), 1), scratch)
  {
    hide Exec16, PcValue, WritePC, KindOf16, Step, Land, Same, Run, Advance, Leads, Holds, Jump;
    var next := Advance(tr, 4);
    BxOriginal(isa, at, w, c);
    JumpStep(isa, scratch, tr, PcValue(at), d, next);
    RunOne(isa, Running(tr, true, d));
    SameWritePC(scratch, PcValue(at), c, d);
    SameLands(scratch, WritePC(PcValue(at), c), WritePC(PcValue(at), d), next);
  }

  lemma MoveChunk(isa: Isa, scratch: bv32 -> bool, at: bv32, w: bv16, lit: bv32 -> bv32, c: Core, tr: bv32, d: Core)
    requires KindOf16(w) == Mov && KindKeeps16(w) && tr & 3 == 0 && Same(scratch, c, d)
    requires Holds(d.mem, scratch, tr, Chunk16(PcValue(at), w, lit))
    ensures Leads(Exec16(isa, at, w, c), Advance(tr, 4), Run(isa, Running(tr, true, d), 2), scratch)
  {
    hide Exec16, PcValue, KindOf16, KindKeeps16, Step, Same, Run, Advance, Holds, LoadWords, Next;
    MoveOriginal(isa, at, w, c);
    LoadRun(isa, scratch, tr, w & 7, PcValue(at), d);
    SameSet(scratch, c, d, (w & 7) as bv4, PcValue(at));
    AdvanceFour(tr);
  }

  lemma LoadChunk(isa: Isa, scratch: bv32 -> bool, at: bv32, w: bv16, lit: bv32 -> bv32, c: Core, tr: bv32, d: Core)
    requires KindOf16(w) == Ldr && tr & 3 == 0 && Same(scratch, c, d)
    requires Holds(d.mem, scratch, tr, Chunk16(PcValue(at), w, lit))
    requires Load(c, LiteralAddress(PcValue(at), w)) == lit(LiteralAddress(PcValue(at), w))
    ensures Leads(Exec16(isa, at, w, c), Advance(tr, 4), Run(isa, Running(tr, true, d), 2), scratch)
  {
    hide Exec16, PcValue, KindOf16, LiteralAddress, Load, Step, Same, Run, Advance, Holds, LoadWords, Next;
    var r := (w & 0x700) >> 8;
    var value := lit(LiteralAddress(PcValue(at), w));
    LoadOriginal(isa, at, w, c);
    LoadRun(isa, scratch, tr, r, value, d);
    SameSet(scratch, c, d, r as bv4, value);
    AdvanceFour(tr);
  }

  /** A conditional chunk: a short branch over a skip, onto a long jump. */
  lemma ConditionalRun(isa: Isa, scratch: bv32 -> bool, tr: bv32, w: bv16, target: bv32, taken: bool, d: Core)
    requires tr & 3 == 0 && !Is32(w)
    requires Holds(d.mem, scratch, tr, [w, 0xE003] + Jump(target))
    requires Exec16(isa, tr, w, d) == if taken then Goto(Next(Next(tr)), true, d) else Fall(d)
    ensures Run(isa, Running(tr, true, d), 2)
         == if taken then Land(WritePC(target, d), tr) else Running(Advance(tr, 6), true, d)
  {
    hide Exec16, Next, Step, Jump, Is32, Advance, WritePC;
    var code := [w, 0xE003] + Jump(target);
    HeldPair(d.mem, scratch, tr, code);
    assert code[2..] == Jump(target);
    Step16(isa, tr, w, d);
    RunTwo(isa, Running(tr, true, d));
    if taken {
      NextAligned(tr);
      JumpStep(isa, scratch, Next(Next(tr)), target, d, tr);
    } else {
      LoadIsNarrow(0);
      Step16(isa, Next(tr), 0xE003, d);
      Branches(isa, Next(tr), d);
      AdvanceSix(tr);
    }
  }

  lemma CompareShape(tr: bv32, at: bv32, w: bv16, c: Core)
    requires KindOf16(w) == Cb
    ensures !Is32(w & 0xFD07) && KindOf16(w & 0xFD07) == Cb
    ensures ExecCompareBranch(tr, w & 0xFD07, c)
         == if (w & 0x800 != 0) == (c.reg(Rd3(w)) != 0) then Goto(Plus(PcValue(tr), 0), true, c) else Fall(c)
  {
    hide Plus, PcValue;
    var v := w & 0xFD07;
    assert v & 0x800 == w & 0x800 && Rd3(v) == Rd3(w);
    assert (((v & 0x200) as bv32) >> 3) | (((v & 0xF8) as bv32) >> 2) == 0;
  }

  lemma CompareTarget(at: bv32, w: bv16)
    requires at & 1 == 0
    ensures TargetCb(PcValue(at), w) & 1 == 1
    ensures TargetCb(PcValue(at), w) & 0xFFFFFFFE
         == Plus(PcValue(at), (((w & 0x200) as bv32) >> 3) | (((w & 0xF8) as bv32) >> 2))
  {
    hide Plus, PlusOne, PcValue;
    var imm32 := (((w & 0x200) as bv32) >> 3) | (((w & 0xF8) as bv32) >> 2);
    CompareOffsetIsEven(w);
    PcIsEven(at);
    PlusEven(PcValue(at), imm32);
    OddSuccessor(Plus(PcValue(at), imm32));
  }

  lemma CompareOffsetIsEven(w: bv16)
    ensures ((((w & 0x200) as bv32) >> 3) | (((w & 0xF8) as bv32) >> 2)) & 1 == 0
  {
  }

  lemma PcIsEven(at: bv32)
    requires at & 1 == 0
    ensures PcValue(at) & 1 == 0
  {
  }

  lemma OddSuccessor(p: bv32)
    requires p & 1 == 0
    ensures PlusOne(p) & 1 == 1 && PlusOne(p) & 0xFFFFFFFE == p
  {
  }

  lemma PlusEven(x: bv32, y: bv32)
    requires x & 1 == 0 && y & 1 == 0
    ensures Plus(x, y) & 1 == 0
  {
  }

  lemma CompareChunk(isa: Isa, scratch: bv32 -> bool, at: bv32, w: bv16, lit: bv32 -> bv32, c: Core, tr: bv32, d: Core)
    requires KindOf16(w) == Cb && tr & 3 == 0 && at & 1 == 0 && Same(scratch, c, d)
    requires Holds(d.mem, scratch, tr, Chunk16(PcValue(at), w, lit))
    ensures Leads(Exec16(isa, at, w, c), Advance(tr, 6), Run(isa, Running(tr, true, d), 2), scratch)
  {
    hide Exec16, PcValue, KindOf16, Step, Run, Advance, Holds, Jump, Next, Plus, TargetCb, Is32, Rd3, WritePC;
    var taken := (w & 0x800 != 0) == (d.reg(Rd3(w)) != 0);
    CompareOriginal(isa, at, w, c);
    CompareShape(tr, at, w, d);
    CompareOriginal(isa, tr, w & 0xFD07, d);
    SkipNone(tr);
    CompareTarget(at, w);
    WriteOdd(TargetCb(PcValue(at), w), TargetCb(PcValue(at), w) & 0xFFFFFFFE, d);
    ConditionalRun(isa, scratch, tr, w & 0xFD07, TargetCb(PcValue(at), w), taken, d);
    Rd3IsLow(w);
  }

  lemma Rd3IsLow(w: bv16)
    ensures Rd3(w) != PC
  {
  }

  // ----- The chunk of an ADD -----

  function Pushed(r: bv4, d: Core): Core {
    Set(Store(d, Previous(d.reg(SP)), d.reg(r)), SP, Previous(d.reg(SP)))
  }

  function Popped(r: bv4, d: Core): Core {
    Set(Set(d, SP, Following(d.reg(SP))), r, Load(d, d.reg(SP)))
  }

  /** The result of an ADD that is neither to PC nor to SP. */
  function Added(w: bv16, x: bv32, c: Core): Core {
    Set(c, Rdn(w), Plus(c.reg(Rdn(w)), x))
  }

  /** The two halfwords below the stack pointer are scratch. */
  ghost predicate StackScratch(scratch: bv32 -> bool, c: Core) {
    scratch(Previous(c.reg(SP))) && scratch(Next(Previous(c.reg(SP))))
  }

  lemma LoadStored(d: Core, a: bv32, v: bv32)
    ensures Load(Store(d, a, v), a) == v
  {
    hide Join, Low, High;
    JoinHalves(v);
    assert Next(a) != a;
  }

  lemma FollowingPrevious(a: bv32)
    ensures Following(Previous(a)) == a
  {
  }

  /** Borrowing a register and giving it back leaves only the result of the ADD, and one stale scratch word. */
  lemma BorrowReturns(scratch: bv32 -> bool, w: bv16, x: bv32, r: bv4, c: Core, d: Core)
    requires Same(scratch, c, d) && StackScratch(scratch, c)
    requires Rdn(w) != SP && Rdn(w) != PC && r != Rdn(w) && r != SP && r != PC
    ensures Same(scratch, Added(w, x, c), Popped(r, Set(Set(Pushed(r, d), r, x), Rdn(w), Plus(d.reg(Rdn(w)), x))))
  {
    hide Plus, Next, Previous, Following, Load, Rdn, Low, High;
    var a := Previous(d.reg(SP));
    var stored := Store(d, a, d.reg(r));
    LoadStored(d, a, d.reg(r));
    var e := Set(Set(Pushed(r, d), r, x), Rdn(w), Plus(d.reg(Rdn(w)), x));
    assert Load(e, a) == Load(stored, a) by { SameMemoryLoads(e, stored, a); }
    FollowingPrevious(d.reg(SP));
  }

  lemma SameMemoryLoads(c: Core, d: Core, a: bv32)
    requires c.mem == d.mem
    ensures Load(c, a) == Load(d, a)
  {
    hide Join, Next;
  }

  lemma HeldEight(mem: bv32 -> bv16, scratch: bv32 -> bool, a: bv32, code: seq<bv16>)
    requires Holds(mem, scratch, a, code) && |code| == 8
    ensures
      var b := Next(Next(a));
      var c := Next(Next(b));
      var e := Next(Next(c));
      && mem(a) == code[0] && mem(Next(a)) == code[1] && mem(b) == code[2] && mem(Next(b)) == code[3]
      && mem(c) == code[4] && mem(e) == code[6] && mem(Next(e)) == code[7]
      && !scratch(a) && !scratch(Next(a)) && !scratch(b) && !scratch(Next(b))
      && !scratch(c) && !scratch(e) && !scratch(Next(e))
  {
    hide Next, Holds;
    HeldPair(mem, scratch, a, code);
    HeldPair(mem, scratch, Next(Next(a)), code[2..]);
    assert code[2..][2..] == code[4..];
    HeldPair(mem, scratch, Next(Next(Next(Next(a)))), code[4..]);
    assert code[4..][2..] == code[6..];
    HeldPair(mem, scratch, Next(Next(Next(Next(Next(Next(a)))))), code[6..]);
  }

  lemma StepFalls(isa: Isa, pc: bv32, w: bv16, d: Core, e: Core)
    requires d.mem(pc) == w && !Is32(w) && Exec16(isa, pc, w, d) == Fall(e)
    ensures Step(isa, Running(pc, true, d)) == Running(Next(pc), true, e)
  {
    hide Exec16, Is32;
  }

  lemma AddNarrow(w: bv16, r: bv16)
    requires KindOf16(w) == Add && 6 <= r <= 7
    ensures !Is32(0xB400 | OneBit(r)) && !Is32((w & 0xFF87) | (r << 3)) && !Is32(0xBC00 | OneBit(r))
  {
  }

  lemma AddFalls(isa: Isa, at: bv32, w: bv16, r: bv16, c: Core)
    requires KindOf16(w) == Add && r < 8 && Rdn(w) != PC
    ensures Exec16(isa, at, (w & 0xFF87) | (r << 3), c) == Fall(Set(c, Rdn(w), Plus(c.reg(Rdn(w)), c.reg(r as bv4))))
  {
    hide Exec16, Plus, Rdn, KindOf16;
    AddBorrowed(isa, at, w, r, c);
  }

  /** The chunk of an ADD, run: push, load the old PC, add, pop, skip the literal. */
  lemma AddRun(isa: Isa, scratch: bv32 -> bool, w: bv16, pc: bv32, r: bv16, tr: bv32, d: Core)
    requires KindOf16(w) == Add && Rdn(w) != SP && Rdn(w) != PC && tr & 3 == 0
    requires 6 <= r <= 7 && r as bv4 != Rdn(w)
    requires StackScratch(scratch, d) && Holds(d.mem, scratch, tr, AddWords(w, pc, r))
    ensures
      var rr := r as bv4;
      Run(isa, Running(tr, true, d), 5)
      == Running(Advance(tr, 8), true, Popped(rr, Set(Set(Pushed(rr, d), rr, pc), Rdn(w), Plus(d.reg(Rdn(w)), pc))))
  {
    hide Exec16, Next, Previous, Following, Plus, KindOf16, Rdn, Step, Run, Load, Is32, Low, High, Holds, Join;
    var rr := r as bv4;
    HeldEight(d.mem, scratch, tr, AddWords(w, pc, r));
    var d1 := Pushed(rr, d);
    var d2 := Set(d1, rr, pc);
    var d3 := Set(d2, Rdn(w), Plus(d.reg(Rdn(w)), pc));
    var d4 := Popped(rr, d3);
    var t1 := Next(tr);
    var t2 := Next(t1);
    var t3 := Next(t2);
    var t4 := Next(t3);
    var t6 := Next(Next(t4));
    AddNarrow(w, r);
    LoadIsNarrow(r);
    PushOne(isa, tr, r, d);
    StepFalls(isa, tr, 0xB400 | OneBit(r), d, d1);
    LoadBorrowed(isa, tr, r, d1);
    assert Load(d1, t6) == pc by { LoadHalves(d1, t6, pc); }
    StepFalls(isa, t1, 0x4802 | (r << 8), d1, d2);
    AddFalls(isa, t2, w, r, d2);
    StepFalls(isa, t2, (w & 0xFF87) | (r << 3), d2, d3);
    PopOne(isa, t3, r, d3);
    StepFalls(isa, t3, 0xBC00 | OneBit(r), d3, d4);
    Step16(isa, t4, 0xE002, d4);
    Branches(isa, t4, d4);
    AdvanceEight(tr);
    RunFive(isa, Running(tr, true, d));
  }

  lemma LoadHalves(c: Core, a: bv32, v: bv32)
    requires c.mem(a) == Low(v) && c.mem(Next(a)) == High(v)
    ensures Load(c, a) == v
  {
    hide Join, Low, High, Next;
    JoinHalves(v);
  }

  lemma BorrowedIsFree(w: bv16)
    ensures
      var r := Borrowed(((w & 0x80) >> 4) | (w & 7));
      6 <= r <= 7 && r as bv4 != Rdn(w) && r as bv4 != SP && r as bv4 != PC
  {
  }

  lemma AddChunk(isa: Isa, scratch: bv32 -> bool, at: bv32, w: bv16, lit: bv32 -> bv32, c: Core, tr: bv32, d: Core)
    requires KindOf16(w) == Add && KindKeeps16(w) && tr & 3 == 0 && Same(scratch, c, d)
    requires StackScratch(scratch, c) && Holds(d.mem, scratch, tr, Chunk16(PcValue(at), w, lit))
    ensures Leads(Exec16(isa, at, w, c), Advance(tr, 8), Run(isa, Running(tr, true, d), 5), scratch)
  {
    hide Exec16, PcValue, Next, Previous, Holds, Run, Plus, KindOf16, Rdn, Borrowed, Pushed, Popped, Advance, AddWords,
      Chunk16, Same, StackScratch, KindKeeps16;
    AddKept(w);
    var r := Borrowed(((w & 0x80) >> 4) | (w & 7));
    BorrowedIsFree(w);
    AddChunkIs(PcValue(at), w, lit);
    SameStack(scratch, c, d);
    AddRun(isa, scratch, w, PcValue(at), r, tr, d);
    AddOriginal(isa, at, w, c);
    BorrowReturns(scratch, w, PcValue(at), r as bv4, c, d);
  }

  lemma AddKept(w: bv16)
    requires KindOf16(w) == Add && KindKeeps16(w)
    ensures Rdn(w) != SP && Rdn(w) != PC
  {
    hide KindOf16, Rdn;
  }

  lemma AddChunkIs(pc: bv32, w: bv16, lit: bv32 -> bv32)
    requires KindOf16(w) == Add
    ensures Chunk16(pc, w, lit) == AddWords(w, pc, Borrowed(((w & 0x80) >> 4) | (w & 7)))
  {
    hide KindOf16, AddWords;
  }

  lemma SameStack(scratch: bv32 -> bool, c: Core, d: Core)
    requires Same(scratch, c, d) && StackScratch(scratch, c)
    ensures StackScratch(scratch, d) && c.reg(SP) == d.reg(SP)
  {
  }

  // ----- Copied 16-bit instructions -----

  /** Executing `w` in `c` does not read the PC, nor any scratch halfword. */
  ghost predicate Portable(isa: Isa, scratch: bv32 -> bool, w: bv32, c: Core) {
    && !isa.readsPc(w)
    && (w & 0xFFFFFF00 == 0xBC00 ==> !scratch(c.reg(SP)) && !scratch(Next(c.reg(SP))))
    && (forall a: bv32 :: isa.looksAt(w, c, a) ==> !scratch(a))
  }

  lemma CopiedFields(w: bv16)
    requires KindOf16(w) == Undefine16 && KindKeeps16(w)
    ensures w & 0xF000 != 0xD000 && w & 0xF800 != 0xE000 && w & 0xFF80 != 0x4780
    ensures w & 0xF800 != 0xA000 && w & 0xF800 != 0x4800 && w & 0xF500 != 0xB100
    ensures w & 0xFF80 == 0x4700 ==> Rm(w) != PC
    ensures w & 0xFF00 == 0x4400 ==> Rm(w) != PC && Rdn(w) != PC
    ensures w & 0xFF00 == 0x4600 ==> Rm(w) != PC
    ensures w & 0xFF00 == 0xBC00 ==> (w as bv32) & 0xFFFFFF00 == 0xBC00
  {
  }

  lemma PushElsewhere(scratch: bv32 -> bool, r: bv4, c: Core, d: Core)
    requires Same(scratch, c, d) && r != PC
    ensures SameOutcome(scratch, ExecPush(r, c), ExecPush(r, d))
  {
    hide Previous, Next, Low, High;
  }

  lemma PopElsewhere(scratch: bv32 -> bool, r: bv4, c: Core, d: Core)
    requires Same(scratch, c, d) && !scratch(c.reg(SP)) && !scratch(Next(c.reg(SP)))
    ensures SameOutcome(scratch, ExecPop(r, c), ExecPop(r, d))
  {
    hide Next, Following, Join;
    SameSet(scratch, c, d, SP, Following(c.reg(SP)));
  }

  lemma AddElsewhere(scratch: bv32 -> bool, at: bv32, tr: bv32, w: bv16, c: Core, d: Core)
    requires Same(scratch, c, d) && Rdn(w) != PC && Rm(w) != PC
    ensures SameOutcome(scratch, ExecAdd(at, w, c), ExecAdd(tr, w, d))
  {
    hide Plus, Rdn, Rm;
    SameSet(scratch, c, d, Rdn(w), Plus(c.reg(Rdn(w)), c.reg(Rm(w))));
  }

  lemma SameWrite(scratch: bv32 -> bool, c: Core, d: Core, r: bv4, v: bv32)
    requires Same(scratch, c, d)
    ensures SameOutcome(scratch, Write(c, r, v), Write(d, r, v))
  {
    SameSet(scratch, c, d, r, v);
  }

  /** What a copied 16-bit instruction can be. */
  lemma CopiedIs(isa: Isa, at: bv32, w: bv16, c: Core)
    requires KindOf16(w) == Undefine16 && KindKeeps16(w)
    ensures Exec16(isa, at, w, c)
         == if w & 0xFF80 == 0x4700 then WritePC(Get(c, at, Rm(w)), c)
            else if w & 0xFF00 == 0x4400 then ExecAdd(at, w, c)
            else if w & 0xFF00 == 0x4600 then Write(c, Rdn(w), Get(c, at, Rm(w)))
            else if w & 0xFF00 == 0xB400 && OnlyRegister(w & 0xFF) != PC then ExecPush(OnlyRegister(w & 0xFF), c)
            else if w & 0xFF00 == 0xBC00 && OnlyRegister(w & 0xFF) != PC then ExecPop(OnlyRegister(w & 0xFF), c)
            else if w == 0xBF00 then Fall(c)
            else isa.other(at, w as bv32, c)
  {
    CopiedFields(w);
    hide KindOf16, KindKeeps16, ExecAdd, ExecPush, ExecPop, ExecBranchLink, ExecCompareBranch, Rm, Rdn, Write, WritePC,
      OnlyRegister, ConditionHolds, PcValue;
  }

  lemma CopiedElsewhere(isa: Isa, scratch: bv32 -> bool, at: bv32, tr: bv32, w: bv16, c: Core, d: Core)
    requires KindOf16(w) == Undefine16 && KindKeeps16(w)
    requires Local(isa, scratch) && Same(scratch, c, d) && Portable(isa, scratch, w as bv32, c)
    ensures SameOutcome(scratch, Exec16(isa, at, w, c), Exec16(isa, tr, w, d))
    ensures !Exec16(isa, tr, w, d).Call?
  {
    hide Exec16, KindOf16, KindKeeps16, ExecAdd, ExecPush, ExecPop, ExecBranchLink, ExecCompareBranch, Rm, Rdn, Write,
      WritePC, OnlyRegister, ConditionHolds, Same, PcValue, Next;
    CopiedFields(w);
    CopiedIs(isa, at, w, c);
    CopiedIs(isa, tr, w, d);
    if w & 0xFF80 == 0x4700 {
      RegisterSame(scratch, c, d, at, tr, Rm(w));
      SameWritePC(scratch, Get(c, at, Rm(w)), c, d);
      WriteNeverFalls(Get(c, at, Rm(w)), d);
    } else if w & 0xFF00 == 0x4400 {
      AddElsewhere(scratch, at, tr, w, c, d);
      AddNeverCalls(tr, w, d);
    } else if w & 0xFF00 == 0x4600 {
      RegisterSame(scratch, c, d, at, tr, Rm(w));
      SameWrite(scratch, c, d, Rdn(w), Get(c, at, Rm(w)));
      WriteNeverCalls(d, Rdn(w), Get(d, tr, Rm(w)));
    } else if w & 0xFF00 == 0xB400 {
      if OnlyRegister(w & 0xFF) != PC {
        PushElsewhere(scratch, OnlyRegister(w & 0xFF), c, d);
        StackNeverCalls(OnlyRegister(w & 0xFF), d);
      }
    } else if w & 0xFF00 == 0xBC00 {
      if OnlyRegister(w & 0xFF) != PC {
        PopElsewhere(scratch, OnlyRegister(w & 0xFF), c, d);
        StackNeverCalls(OnlyRegister(w & 0xFF), d);
      }
    }
  }

  lemma RegisterSame(scratch: bv32 -> bool, c: Core, d: Core, at: bv32, tr: bv32, r: bv4)
    requires Same(scratch, c, d) && r != PC
    ensures Get(c, at, r) == Get(d, tr, r)
  {
  }

  lemma WriteNeverCalls(c: Core, r: bv4, v: bv32)
    ensures !Write(c, r, v).Call?
  {
  }

  lemma AddNeverCalls(at: bv32, w: bv16, c: Core)
    ensures !ExecAdd(at, w, c).Call?
  {
  }

  lemma StackNeverCalls(r: bv4, c: Core)
    ensures !ExecPush(r, c).Call? && !ExecPop(r, c).Call?
  {
  }

  /** A copied 16-bit instruction takes one step, or two when it falls into the padding. */
  lemma CopyChunk16(isa: Isa, scratch: bv32 -> bool, at: bv32, w: bv16, lit: bv32 -> bv32, c: Core, tr: bv32, d: Core)
    returns (n: nat)
    requires KindOf16(w) == Undefine16 && KindKeeps16(w) && !Is32(w)
    requires Local(isa, scratch) && Same(scratch, c, d) && Portable(isa, scratch, w as bv32, c)
    requires Holds(d.mem, scratch, tr, [w, 0xBF00])
    requires Exec16(isa, at, w, c).Fall? ==> Holds(Exec16(isa, at, w, c).core.mem, scratch, tr, [w, 0xBF00])
    ensures Leads(Exec16(isa, at, w, c), Advance(tr, 2), Run(isa, Running(tr, true, d), n), scratch)
  {
    hide Exec16, KindKeeps16, KindOf16, Local, Next, Step, Is32, Run, Advance, Portable, Same;
    HeldPair(d.mem, scratch, tr, [w, 0xBF00]);
    CopiedElsewhere(isa, scratch, at, tr, w, c, d);
    Step16(isa, tr, w, d);
    var o, p := Exec16(isa, at, w, c), Exec16(isa, tr, w, d);
    if p.Fall? {
      HeldPair(o.core.mem, scratch, tr, [w, 0xBF00]);
      n := 2;
      RunTwo(isa, Running(tr, true, d));
      PaddingStep(isa, scratch, Next(tr), o.core, p.core);
      AdvanceTwo(tr);
    } else {
      n := 1;
      RunOne(isa, Running(tr, true, d));
    }
  }

  lemma PaddingStep(isa: Isa, scratch: bv32 -> bool, pc: bv32, c: Core, d: Core)
    requires Same(scratch, c, d) && c.mem(pc) == 0xBF00 && !scratch(pc)
    ensures Step(isa, Running(pc, true, d)) == Running(Next(pc), true, d)
  {
    hide Step, Next;
    assert d.mem(pc) == 0xBF00 && !Is32(0xBF00);
    Step16(isa, pc, 0xBF00, d);
  }

  lemma TrapZeroShape(isa: Isa, at: bv32, w: bv16, c: Core)
    requires IsTrapZero(w)
    ensures KindOf16(w) == B1 && !Is32(w) && HeadB1(w) == w && Exec16(isa, at, w, c) == isa.other(at, w as bv32, c)
    ensures w as bv32 < 0x10000
  {
    hide Plus, PcValue, ConditionHolds;
  }

  /** SVC #0 is copied to the head of its chunk, and skips the rest when it returns. */
  lemma TrapChunk(isa: Isa, scratch: bv32 -> bool, at: bv32, w: bv16, lit: bv32 -> bv32, c: Core, tr: bv32, d: Core)
    returns (n: nat)
    requires IsTrapZero(w) && Local(isa, scratch) && Same(scratch, c, d) && Portable(isa, scratch, w as bv32, c)
    requires Holds(d.mem, scratch, tr, Chunk16(PcValue(at), w, lit))
    requires
      var o := Exec16(isa, at, w, c); o.Fall? ==> Holds(o.core.mem, scratch, tr, Chunk16(PcValue(at), w, lit))
    ensures Leads(Exec16(isa, at, w, c), Advance(tr, 6), Run(isa, Running(tr, true, d), n), scratch)
  {
    hide Exec16, KindOf16, Next, Step, Is32, Run, Advance, Same, PcValue, Jump, TargetB1, HeadB1, IsTrapZero;
    TrapZeroShape(isa, at, w, c);
    TrapZeroShape(isa, tr, w, d);
    var code := [w, 0xE003] + Jump(TargetB1(PcValue(at), w));
    HeldPair(d.mem, scratch, tr, code);
    Step16(isa, tr, w, d);
    var o, p := Exec16(isa, at, w, c), Exec16(isa, tr, w, d);
    assert SameOutcome(scratch, o, p) && !p.Call?;
    if p.Fall? {
      HeldPair(o.core.mem, scratch, tr, code);
      n := 2;
      RunTwo(isa, Running(tr, true, d));
      SkipStep(isa, scratch, Next(tr), o.core, p.core);
      AdvanceSix(tr);
    } else {
      n := 1;
      RunOne(isa, Running(tr, true, d));
    }
  }

  lemma SkipStep(isa: Isa, scratch: bv32 -> bool, pc: bv32, c: Core, d: Core)
    requires Same(scratch, c, d) && c.mem(pc) == 0xE003 && !scratch(pc)
    ensures Step(isa, Running(pc, true, d)) == Running(Next(Next(Next(Next(Next(pc))))), true, d)
  {
    hide Step, Next, Exec16;
    LoadIsNarrow(0);
    Step16(isa, pc, 0xE003, d);
    Branches(isa, pc, d);
  }

  // ----- Chunks of 32-bit instructions -----

  lemma OffsetEven(kind: Kind32, hi: bv16, lo: bv16)
    requires kind == Bl || kind == B1W || kind == B2W || kind == Blx
    ensures OffsetW(kind, hi, lo) & 1 == 0
    ensures kind == Blx ==> OffsetW(kind, hi, lo) & 3 == 0
  {
    hide S, J1, J2, Not, Imm6, Imm10, Imm11;
  }

  lemma PcEven(at: bv32)
    ensures at & 1 == 0 ==> PcValue(at) & 1 == 0
    ensures at & 3 == 0 ==> PcValue(at) & 3 == 0 && Align(PcValue(at)) == PcValue(at)
  {
  }

  lemma PlusAligned(x: bv32, y: bv32)
    requires x & 3 == 0 && y & 3 == 0
    ensures Plus(x, y) & 3 == 0
  {
  }

  lemma TargetParity(kind: Kind32, at: bv32, hi: bv16, lo: bv16)
    requires (kind == Bl || kind == B1W || kind == B2W) && at & 1 == 0
    ensures TargetW(kind, PcValue(at), hi, lo) & 1 == 1
    ensures TargetW(kind, PcValue(at), hi, lo) & 0xFFFFFFFE == Plus(PcValue(at), OffsetW(kind, hi, lo))
  {
    hide OffsetW, Plus, PcValue, PlusOne;
    assert Plus(PcValue(at), OffsetW(kind, hi, lo)) & 1 == 0 by {
      OffsetEven(kind, hi, lo);
      PcEven(at);
      PlusEven(PcValue(at), OffsetW(kind, hi, lo));
    }
    OddSuccessor(Plus(PcValue(at), OffsetW(kind, hi, lo)));
  }

  /** The literal of a branch into the Thumb set. */
  lemma ThumbTarget(kind: Kind32, at: bv32, hi: bv16, lo: bv16, c: Core)
    requires (kind == Bl || kind == B1W || kind == B2W) && at & 1 == 0
    ensures TargetW(kind, PcValue(at), hi, lo) & 1 == 1
    ensures TargetW(kind, PcValue(at), hi, lo) & 0xFFFFFFFE == Plus(PcValue(at), OffsetW(kind, hi, lo))
    ensures WritePC(TargetW(kind, PcValue(at), hi, lo), c) == Goto(Plus(PcValue(at), OffsetW(kind, hi, lo)), true, c)
  {
    hide OffsetW, Plus, PcValue, WritePC, TargetW;
    TargetParity(kind, at, hi, lo);
    WriteOdd(TargetW(kind, PcValue(at), hi, lo), Plus(PcValue(at), OffsetW(kind, hi, lo)), c);
  }

  lemma WriteOdd(v: bv32, dest: bv32, c: Core)
    requires v & 1 == 1 && v & 0xFFFFFFFE == dest
    ensures WritePC(v, c) == Goto(dest, true, c)
  {
  }

  /** The literal of a branch into the ARM set. */
  lemma ArmTarget(at: bv32, hi: bv16, lo: bv16, c: Core)
    requires at & 3 == 0
    ensures WritePC(TargetW(Blx, PcValue(at), hi, lo), c)
        == Goto(Plus(Align(PcValue(at)), OffsetW(Blx, hi, lo)), false, c)
  {
    hide OffsetW, Plus, PcValue, Align;
    OffsetEven(Blx, hi, lo);
    PcEven(at);
    PlusAligned(PcValue(at), OffsetW(Blx, hi, lo));
  }

  /** BL and BLX: the link, then the long jump. */
  lemma LinkLands(isa: Isa, scratch: bv32 -> bool, tr: bv32, value: bv32, d: Core)
    requires tr & 3 == 0 && Holds(d.mem, scratch, tr, [0xF20F, 0x0E09] + Jump(value))
    ensures Run(isa, Running(tr, true, d), 2) == Land(WritePC(value, Set(d, LR, ThumbBit(Advance(tr, 6)))), tr)
  {
    hide Exec32, Next, Step, Jump, WritePC, Advance, ThumbBit;
    var code := [0xF20F, 0x0E09] + Jump(value);
    HeldPair(d.mem, scratch, tr, code);
    assert code[2..] == Jump(value);
    AdvanceSix(tr);
    var e := Set(d, LR, ThumbBit(Advance(tr, 6)));
    assert Is32(0xF20F);
    Step32(isa, tr, 0xF20F, 0x0E09, d);
    LinkNext(isa, tr, d);
    NextAligned(tr);
    JumpStep(isa, scratch, Next(Next(tr)), value, e, tr);
    RunTwo(isa, Running(tr, true, d));
  }

  lemma LinkRun(isa: Isa, scratch: bv32 -> bool, tr: bv32, value: bv32, d: Core, dest: bv32, thumb: bool)
    requires tr & 3 == 0 && Holds(d.mem, scratch, tr, [0xF20F, 0x0E09] + Jump(value))
    requires WritePC(value, Set(d, LR, ThumbBit(Advance(tr, 6))))
        == Goto(dest, thumb, Set(d, LR, ThumbBit(Advance(tr, 6))))
    ensures Run(isa, Running(tr, true, d), 2) == Running(dest, thumb, Set(d, LR, ThumbBit(Advance(tr, 6))))
  {
    hide Run, Jump, WritePC, Advance, ThumbBit, Holds;
    LinkLands(isa, scratch, tr, value, d);
  }

  lemma LinkChunk(isa: Isa, scratch: bv32 -> bool, at: bv32, hi: bv16, lo: bv16, lit: bv32 -> bv32, c: Core, tr: bv32,
                  d: Core)
    requires KindOf32(hi, lo) in {Bl, Blx} && KindKeeps32(at, hi, lo)
    requires at & 1 == 0 && tr & 3 == 0 && Same(scratch, c, d)
    requires Holds(d.mem, scratch, tr, Chunk32(PcValue(at), hi, lo, lit))
    ensures Leads(Exec32(isa, at, hi, lo, c), Advance(tr, 6), Run(isa, Running(tr, true, d), 2), scratch)
  {
    hide Exec32, PcValue, Plus, Align, Next, Run, Jump, WritePC, Advance, KindOf32, Holds, TargetW, OffsetW, Same,
      ThumbBit;
    var kind := KindOf32(hi, lo);
    var link := ThumbBit(Advance(tr, 6));
    var e := Set(d, LR, link);
    SameSet(scratch, c, d, LR, link);
    if kind == Bl {
      ThumbTarget(kind, at, hi, lo, e);
      BranchLinkOriginal(isa, at, hi, lo, c);
      LinkRun(isa, scratch, tr, TargetW(kind, PcValue(at), hi, lo), d, Plus(PcValue(at), OffsetW(kind, hi, lo)), true);
    } else {
      ArmTarget(at, hi, lo, e);
      BranchExchangeOriginal(isa, at, hi, lo, c);
      LinkRun(isa, scratch, tr, TargetW(kind, PcValue(at), hi, lo), d,
          Plus(Align(PcValue(at)), OffsetW(kind, hi, lo)), false);
    }
  }

  lemma WideBranchChunk(isa: Isa, scratch: bv32 -> bool, at: bv32, hi: bv16, lo: bv16, lit: bv32 -> bv32, c: Core,
                        tr: bv32, d: Core)
    requires KindOf32(hi, lo) == B2W && at & 1 == 0 && tr & 3 == 0 && Same(scratch, c, d)
    requires Holds(d.mem, scratch, tr, Chunk32(PcValue(at), hi, lo, lit))
    ensures Leads(Exec32(isa, at, hi, lo, c), Advance(tr, 4), Run(isa, Running(tr, true, d), 1), scratch)
  {
    hide Exec32, PcValue, Plus, Run, Jump, WritePC, Advance, KindOf32, Holds, TargetW, OffsetW, Same, Step;
    WideBranchOriginal(isa, at, hi, lo, c);
    ThumbTarget(B2W, at, hi, lo, d);
    JumpStep(isa, scratch, tr, TargetW(B2W, PcValue(at), hi, lo), d, tr);
    RunOne(isa, Running(tr, true, d));
  }

  /** The short branch the relocator makes of a B<c>.W. */
  lemma ShortConditional(isa: Isa, tr: bv32, hi: bv16, d: Core)
    requires hi & 0x380 != 0x380
    ensures
      var w := 0xD000 | ((hi & 0x3C0) << 2);
      && !Is32(w)
      && Exec16(isa, tr, w, d) == if ConditionHolds(CondT3(hi), d.flags) then Goto(Plus(PcValue(tr), 0), true, d)
          else Fall(d)
  {
    hide Plus, PcValue, ConditionHolds;
    var w := 0xD000 | ((hi & 0x3C0) << 2);
    assert w & 0xF000 == 0xD000 && w & 0xE00 != 0xE00 && Cond(w) == CondT3(hi) && SignExtend9(Imm8(w) << 1) == 0;
  }

  lemma ConditionalChunk(isa: Isa, scratch: bv32 -> bool, at: bv32, hi: bv16, lo: bv16, lit: bv32 -> bv32, c: Core,
                         tr: bv32, d: Core)
    requires KindOf32(hi, lo) == B1W && KindKeeps32(at, hi, lo) && at & 1 == 0 && tr & 3 == 0 && Same(scratch, c, d)
    requires Holds(d.mem, scratch, tr, Chunk32(PcValue(at), hi, lo, lit))
    ensures Leads(Exec32(isa, at, hi, lo, c), Advance(tr, 6), Run(isa, Running(tr, true, d), 2), scratch)
  {
    hide Exec32, Exec16, PcValue, Plus, Run, Jump, WritePC, Advance, KindOf32, Holds, TargetW, OffsetW, ConditionHolds,
      Next, Is32, CondT3;
    var w := 0xD000 | ((hi & 0x3C0) << 2);
    var taken := ConditionHolds(CondT3(hi), d.flags);
    ConditionalOriginal(isa, at, hi, lo, c);
    ThumbTarget(B1W, at, hi, lo, d);
    ShortConditional(isa, tr, hi, d);
    SkipNone(tr);
    ConditionalRun(isa, scratch, tr, w, TargetW(B1W, PcValue(at), hi, lo), taken, d);
  }

  lemma WideLoadChunk(isa: Isa, scratch: bv32 -> bool, at: bv32, hi: bv16, lo: bv16, lit: bv32 -> bv32, c: Core,
                      tr: bv32, d: Core)
    requires KindOf32(hi, lo) == LdrW && lo < 0x8000 && tr & 3 == 0 && Same(scratch, c, d)
    requires Holds(d.mem, scratch, tr, Chunk32(PcValue(at), hi, lo, lit))
    requires Load(c, LiteralAddressW(PcValue(at), hi, lo)) == lit(LiteralAddressW(PcValue(at), hi, lo))
    ensures Leads(Exec32(isa, at, hi, lo, c), Advance(tr, 4), Run(isa, Running(tr, true, d), 2), scratch)
  {
    hide Exec32, PcValue, KindOf32, LiteralAddressW, Load, Step, Same, Run, Advance, Holds, LoadWords, Next;
    var r := lo >> 12;
    assert r < 8 && r & 7 == r;
    var value := lit(LiteralAddressW(PcValue(at), hi, lo));
    WideLoadOriginal(isa, at, hi, lo, c);
    LoadRun(isa, scratch, tr, r, value, d);
    SameSet(scratch, c, d, r as bv4, value);
    AdvanceFour(tr);
  }

  lemma CopyChunk32(isa: Isa, scratch: bv32 -> bool, at: bv32, hi: bv16, lo: bv16, lit: bv32 -> bv32, c: Core, tr: bv32,
                    d: Core)
    requires KindOf32(hi, lo) == Undefine32 && Is32(hi) && Local(isa, scratch) && Same(scratch, c, d)
    requires Portable(isa, scratch, Wide(hi, lo), c)
    requires Holds(d.mem, scratch, tr, Chunk32(PcValue(at), hi, lo, lit))
    ensures Leads(Exec32(isa, at, hi, lo, c), Advance(tr, 2), Run(isa, Running(tr, true, d), 1), scratch)
  {
    hide Next, Is32, Step, Run, Advance, Same, PcValue, ConditionHolds, Plus, Exec32, KindOf32, Leads, Wide;
    HeldPair(d.mem, scratch, tr, [hi, lo]);
    Step32(isa, tr, hi, lo, d);
    RunOne(isa, Running(tr, true, d));
    AdvanceTwo(tr);
    var w := Wide(hi, lo);
    CopiedWide(isa, at, hi, lo, c);
    CopiedWide(isa, tr, hi, lo, d);
    assert SameOutcome(scratch, isa.other(at, w, c), isa.other(tr, w, d));
    SameLands(scratch, isa.other(at, w, c), isa.other(tr, w, d), Next(Next(tr)));
  }

  lemma CopiedWide(isa: Isa, at: bv32, hi: bv16, lo: bv16, c: Core)
    requires KindOf32(hi, lo) == Undefine32
    ensures Exec32(isa, at, hi, lo, c) == isa.other(at, Wide(hi, lo), c)
  {
    hide ConditionHolds, Plus, PcValue;
  }
}
