/** A Thumb chunk does what the instruction it was made from does. */
module ThumbSimulation {
  import opened Words
  import opened ThumbMachine
  import opened ThumbChunks
  import opened ThumbDomain

  // ----- The classifiers and the architecture -----

  lemma ExchangeMask(w: bv16)
    ensures w & 0xFFF8 == 0x4778 <==> IsExchangePc(w)
  {
  }

  lemma AddMask(w: bv16)
    ensures w & 0xFF78 == 0x4478 <==> IsAddPc(w)
  {
  }

  lemma MoveMask(w: bv16)
    ensures w & 0xFF78 == 0x4678 <==> IsMovePc(w)
  {
  }

  lemma ConditionMask(w: bv16)
    ensures w & 0xF000 == 0xD000 <==> IsShortConditional(w) || IsTrap(w)
  {
  }

  /** The first encoding that an instruction has, in the order of the classifier. */
  function Sort16(w: bv16): Kind16 {
    if IsShortConditional(w) || IsTrap(w) then B1
    else if IsShortBranch(w) then B2
    else if IsExchangePc(w) then Bx
    else if IsAddPc(w) then Add
    else if IsMovePc(w) then Mov
    else if IsAddress(w) then Adr
    else if IsLiteralLoad(w) then Ldr
    else if IsCompareBranch(w) then Cb
    else Undefine16
  }

  lemma KindIsSort16(w: bv16)
    ensures KindOf16(w) == Sort16(w)
  {
    hide IsShortConditional, IsTrap, IsExchangePc, IsAddPc, IsMovePc;
    ExchangeMask(w);
    AddMask(w);
    MoveMask(w);
    ConditionMask(w);
  }

  function Key(w: bv16): bv16 { w & 0xF000 }
  function LongKey(w: bv16): bv16 { w & 0xFF00 }

  /** No instruction has two of the encodings. */
  lemma Keys16(w: bv16)
    ensures IsShortConditional(w) || IsTrap(w) ==> Key(w) == 0xD000
    ensures IsShortBranch(w) ==> Key(w) == 0xE000
    ensures IsExchangePc(w) ==> Key(w) == 0x4000 && LongKey(w) == 0x4700
    ensures IsAddPc(w) ==> Key(w) == 0x4000 && LongKey(w) == 0x4400
    ensures IsMovePc(w) ==> Key(w) == 0x4000 && LongKey(w) == 0x4600
    ensures IsAddress(w) ==> Key(w) == 0xA000
    ensures IsLiteralLoad(w) ==> Key(w) == 0x4000 && LongKey(w) !in {0x4700, 0x4400, 0x4600}
    ensures IsCompareBranch(w) ==> Key(w) == 0xB000
  {
  }

  /** The classifiers sort every instruction as the architecture does, one kind of the relocator for each encoding; a
      trap is taken for a conditional branch. */
  lemma Kind16Is(w: bv16)
    ensures KindOf16(w) == B1 <==> IsShortConditional(w) || IsTrap(w)
    ensures KindOf16(w) == B2 <==> IsShortBranch(w)
    ensures KindOf16(w) == Bx <==> IsExchangePc(w)
    ensures KindOf16(w) == Add <==> IsAddPc(w)
    ensures KindOf16(w) == Mov <==> IsMovePc(w)
    ensures KindOf16(w) == Adr <==> IsAddress(w)
    ensures KindOf16(w) == Ldr <==> IsLiteralLoad(w)
    ensures KindOf16(w) == Cb <==> IsCompareBranch(w)
    ensures KindOf16(w) == Undefine16 <==> !Rewritten16(w)
  {
    hide KindOf16, IsShortConditional, IsTrap, IsShortBranch, IsExchangePc, IsAddPc, IsMovePc, IsAddress, IsLiteralLoad,
      IsCompareBranch, Key, LongKey;
    KindIsSort16(w);
    Keys16(w);
  }

  function Sort32(hi: bv16, lo: bv16): Kind32 {
    if IsBlx(hi, lo) then Blx
    else if IsBranchLink(hi, lo) then Bl
    else if IsWideConditional(hi, lo) then B1W
    else if IsWideBranch(hi, lo) then B2W
    else if IsWideAddressBack(hi, lo) then Adr1W
    else if IsWideAddress(hi, lo) then Adr2W
    else if IsWideLiteralLoad(hi, lo) then LdrW
    else if IsTableBranch(hi, lo) then if lo & 0x10 == 0 then Tbb else Tbh
    else Undefine32
  }

  lemma TableMasks(hi: bv16, lo: bv16)
    ensures hi == 0xE8DF && lo & 0xF0 == 0 <==> IsTableBranch(hi, lo) && lo & 0x10 == 0
    ensures hi == 0xE8DF && lo & 0xF0 == 0x10 <==> IsTableBranch(hi, lo) && lo & 0x10 != 0
  {
  }

  lemma KindIsSort32(hi: bv16, lo: bv16)
    ensures KindOf32(hi, lo) == Sort32(hi, lo)
  {
    hide IsTableBranch;
    TableMasks(hi, lo);
  }

  /** The first bits of the two halves. */
  function HighKey(hi: bv16): bv16 { hi & 0xFB00 }
  function LowKey(lo: bv16): bv16 { lo & 0xD000 }

  lemma BranchKeys(hi: bv16, lo: bv16, kind: bv16)
    requires kind & 0x8000 != 0
    ensures IsWideBranchPart(hi, lo, kind) ==> LowKey(lo) == kind && hi & 0xF800 == 0xF000
    ensures IsWideBranchPart(hi, lo, kind) ==> !IsWideAddress(hi, lo) && !IsWideAddressBack(hi, lo)
    ensures IsWideBranchPart(hi, lo, kind) ==> !IsWideLiteralLoad(hi, lo) && !IsTableBranch(hi, lo)
  {
  }

  lemma Keys32(hi: bv16, lo: bv16)
    ensures IsWideAddress(hi, lo) ==> HighKey(hi) == 0xF200 && hi & 0xFF != 0xAF
    ensures IsWideAddressBack(hi, lo) ==> HighKey(hi) == 0xF200 && hi & 0xFF == 0xAF
    ensures IsWideLiteralLoad(hi, lo) ==> HighKey(hi) == 0xF800
    ensures IsTableBranch(hi, lo) ==> HighKey(hi) == 0xE800
  {
  }

  lemma Kind32Is(hi: bv16, lo: bv16)
    ensures KindOf32(hi, lo) == Blx <==> IsBlx(hi, lo)
    ensures KindOf32(hi, lo) == Bl <==> IsBranchLink(hi, lo)
    ensures KindOf32(hi, lo) == B1W <==> IsWideConditional(hi, lo)
    ensures KindOf32(hi, lo) == B2W <==> IsWideBranch(hi, lo)
    ensures KindOf32(hi, lo) == Adr1W <==> IsWideAddressBack(hi, lo)
    ensures KindOf32(hi, lo) == Adr2W <==> IsWideAddress(hi, lo)
    ensures KindOf32(hi, lo) == LdrW <==> IsWideLiteralLoad(hi, lo)
    ensures KindOf32(hi, lo) == Tbb <==> IsTableBranch(hi, lo) && lo & 0x10 == 0
    ensures KindOf32(hi, lo) == Tbh <==> IsTableBranch(hi, lo) && lo & 0x10 != 0
    ensures KindOf32(hi, lo) == Undefine32 <==> !Rewritten32(hi, lo)
  {
    hide KindOf32, IsWideBranchPart, IsWideAddress, IsWideAddressBack, IsWideLiteralLoad, IsTableBranch, HighKey,
      LowKey;
    KindIsSort32(hi, lo);
    BranchKeys(hi, lo, 0xC000);
    BranchKeys(hi, lo, 0xD000);
    BranchKeys(hi, lo, 0x8000);
    BranchKeys(hi, lo, 0x9000);
    Keys32(hi, lo);
  }

  /** SVC #0 and UDF #0, the ones whose number is kept. */
  predicate IsTrapZero(w: bv16) { w & 0xFEFF == 0xDE00 }

  /** The instructions that keep their meaning, by the kinds of the relocator. */
  predicate KindKeeps16(w: bv16) {
    match KindOf16(w)
    case B1 => IsTrapZero(w)
    case Bx => true
    case Add => Rdn(w) != SP && Rdn(w) != PC
    case Mov => w & 0x80 == 0
    case Ldr => true
    case Cb => true
    case Undefine16 =>
      && w & 0xFF80 != 0x4780
      && (w & 0xFF87 != 0x4487)
      && (w & 0xFF00 == 0xBF00 ==> w & 0xF == 0)
    case _ => false
  }

  predicate KindKeeps32(at: bv32, hi: bv16, lo: bv16) {
    match KindOf32(hi, lo)
    case Blx => at & 3 == 0
    case Bl => true
    case B1W => hi & 0x380 != 0x380
    case B2W => true
    case LdrW => lo < 0x8000
    case Undefine32 => true
    case _ => false
  }

  lemma KeptByKind16(w: bv16)
    ensures Keeps16(w) <==> KindKeeps16(w)
  {
    hide KindOf16, IsShortConditional, IsShortBranch, IsExchangePc, IsAddPc, IsMovePc, IsAddress, IsLiteralLoad,
      IsCompareBranch;
    Kind16Is(w);
  }

  lemma KeptByKind32(at: bv32, hi: bv16, lo: bv16)
    ensures Keeps32(at, hi, lo) <==> KindKeeps32(at, hi, lo)
  {
    hide KindOf32, IsBlx, IsBranchLink, IsWideConditional, IsWideBranch, IsWideAddress, IsWideAddressBack,
      IsWideLiteralLoad, IsTableBranch;
    Kind32Is(hi, lo);
    assert RtT2(lo) < 8 <==> lo < 0x8000;
  }

  lemma LiteralsAre(at: bv32, hi: bv16, lo: bv16)
    ensures LiteralAddress(PcValue(at), hi) == LiteralOf16(at, hi)
    ensures LiteralAddressW(PcValue(at), hi, lo) == LiteralOf32(at, hi, lo)
  {
    hide Plus, Minus, Align, PcValue;
  }

  // ----- Addresses inside an aligned chunk -----

  lemma LiteralAhead(tr: bv32)
    requires tr & 3 == 0
    ensures Plus(Align(PcValue(tr)), 0) == Next(Next(tr))
  {
  }

  lemma LiteralSixAhead(tr: bv32)
    requires tr & 3 == 0
    ensures Plus(Align(PcValue(Next(tr))), 8) == Next(Next(Next(Next(Next(Next(tr))))))
  {
  }

  lemma SkipTwo(a: bv32)
    ensures Plus(PcValue(a), 2) == Next(Next(Next(a)))
  {
  }

  lemma SkipFour(a: bv32)
    ensures Plus(PcValue(a), 4) == Next(Next(Next(Next(a))))
  {
  }

  lemma SkipSix(a: bv32)
    ensures Plus(PcValue(a), 6) == Next(Next(Next(Next(Next(a)))))
  {
  }

  lemma SkipNone(a: bv32)
    ensures Plus(PcValue(a), 0) == Next(Next(a))
  {
  }

  lemma LinkAhead(tr: bv32)
    requires tr & 3 == 0
    ensures Plus(Align(PcValue(tr)), 9) == ThumbBit(Next(Next(Next(Next(Next(Next(tr)))))))
  {
  }

  lemma NextAligned(a: bv32)
    requires a & 3 == 0
    ensures Next(Next(a)) & 3 == 0
  {
  }

  lemma JoinHalves(v: bv32)
    ensures Join(Low(v), High(v)) == v
  {
  }

  // ----- The halfwords the relocator emits, executed -----

  lemma JumpLiteral(isa: Isa, tr: bv32, c: Core)
    requires tr & 3 == 0
    ensures Exec32(isa, tr, 0xF8DF, 0xF000, c) == WritePC(Load(c, Next(Next(tr))), c)
  {
    hide Plus, Align, PcValue, Next, Load, WritePC;
    LiteralAhead(tr);
    assert Imm12(0xF000) == 0 && RtT2(0xF000) == PC;
  }

  lemma LinkNext(isa: Isa, tr: bv32, c: Core)
    requires tr & 3 == 0
    ensures Exec32(isa, tr, 0xF20F, 0x0E09, c)
         == Fall(Set(c, LR, ThumbBit(Next(Next(Next(Next(Next(Next(tr)))))))))
  {
    hide Plus, Align, PcValue, Next, ThumbBit;
    LinkAhead(tr);
    assert RdT3(0x0E09) == LR && AddressImm(0xF20F, 0x0E09) == 9;
  }

  lemma LoadLiteral(isa: Isa, tr: bv32, r: bv16, c: Core)
    requires tr & 3 == 0 && r < 8
    ensures Exec16(isa, tr, 0x4800 | (r << 8), c) == Fall(Set(c, r as bv4, Load(c, Next(Next(tr)))))
  {
    hide Plus, Align, PcValue, Next, Load;
    LiteralAhead(tr);
    var w := 0x4800 | (r << 8);
    assert Rt(w) == r as bv4 && Imm8(w) << 2 == 0;
  }

  lemma LoadBorrowed(isa: Isa, tr: bv32, r: bv16, c: Core)
    requires tr & 3 == 0 && r < 8
    ensures Exec16(isa, Next(tr), 0x4802 | (r << 8), c)
         == Fall(Set(c, r as bv4, Load(c, Next(Next(Next(Next(Next(Next(tr)))))))))
  {
    hide Plus, Align, PcValue, Next, Load;
    LiteralSixAhead(tr);
    var w := 0x4802 | (r << 8);
    assert Rt(w) == r as bv4 && Imm8(w) << 2 == 8;
  }

  lemma Branches(isa: Isa, at: bv32, c: Core)
    ensures Exec16(isa, at, 0xE001, c) == Goto(Next(Next(Next(at))), true, c)
    ensures Exec16(isa, at, 0xE002, c) == Goto(Next(Next(Next(Next(at)))), true, c)
    ensures Exec16(isa, at, 0xE003, c) == Goto(Next(Next(Next(Next(Next(at))))), true, c)
  {
    hide Plus, PcValue, Next;
    SkipTwo(at);
    SkipFour(at);
    SkipSix(at);
    assert SignExtend12(2) == 2 && SignExtend12(4) == 4 && SignExtend12(6) == 6;
  }

  lemma PushOne(isa: Isa, at: bv32, r: bv16, c: Core)
    requires r < 8
    ensures Exec16(isa, at, 0xB400 | OneBit(r), c) == ExecPush(r as bv4, c)
  {
    hide ExecPush;
  }

  lemma PopOne(isa: Isa, at: bv32, r: bv16, c: Core)
    requires r < 8
    ensures Exec16(isa, at, 0xBC00 | OneBit(r), c) == ExecPop(r as bv4, c)
  {
    hide ExecPop;
  }

  lemma AddBorrowed(isa: Isa, at: bv32, w: bv16, r: bv16, c: Core)
    requires KindOf16(w) == Add && r < 8
    ensures Exec16(isa, at, (w & 0xFF87) | (r << 3), c) == Write(c, Rdn(w), Plus(Get(c, at, Rdn(w)), c.reg(r as bv4)))
  {
    hide Plus, Get, Write;
    var v := (w & 0xFF87) | (r << 3);
    assert v & 0xFF00 == 0x4400 && Rdn(v) == Rdn(w) && Rm(v) == r as bv4;
    assert Get(c, at, r as bv4) == c.reg(r as bv4) by { LowRegister(c, at, r); }
  }

  lemma LowRegister(c: Core, at: bv32, r: bv16)
    requires r < 8
    ensures Get(c, at, r as bv4) == c.reg(r as bv4)
  {
  }

  // ----- The instructions the relocator rewrites, executed where they were -----

  lemma BxOriginal(isa: Isa, at: bv32, w: bv16, c: Core)
    requires KindOf16(w) == Bx
    ensures Exec16(isa, at, w, c) == WritePC(PcValue(at), c)
  {
    hide PcValue, WritePC;
    assert w & 0xFF80 == 0x4700 && Rm(w) == PC;
  }

  lemma AddOriginal(isa: Isa, at: bv32, w: bv16, c: Core)
    requires KindOf16(w) == Add
    ensures Exec16(isa, at, w, c) == Write(c, Rdn(w), Plus(Get(c, at, Rdn(w)), PcValue(at)))
  {
    hide PcValue, Plus, Write, Rdn;
    assert w & 0xFF00 == 0x4400 && Rm(w) == PC;
  }

  lemma MoveOriginal(isa: Isa, at: bv32, w: bv16, c: Core)
    requires KindOf16(w) == Mov && KindKeeps16(w)
    ensures Exec16(isa, at, w, c) == Fall(Set(c, (w & 7) as bv4, PcValue(at)))
  {
    hide PcValue;
    assert w & 0xFF00 == 0x4600 && Rm(w) == PC && Rdn(w) == (w & 7) as bv4;
  }

  lemma LoadOriginal(isa: Isa, at: bv32, w: bv16, c: Core)
    requires KindOf16(w) == Ldr
    ensures Exec16(isa, at, w, c) == Fall(Set(c, ((w & 0x700) >> 8) as bv4, Load(c, LiteralAddress(PcValue(at), w))))
  {
    hide PcValue, Plus, Align, Load, Imm8;
    assert Rt(w) == ((w & 0x700) >> 8) as bv4;
  }

  lemma CompareOriginal(isa: Isa, at: bv32, w: bv16, c: Core)
    requires KindOf16(w) == Cb
    ensures Exec16(isa, at, w, c) == ExecCompareBranch(at, w, c)
  {
    hide ExecCompareBranch;
  }

  lemma BranchLinkOriginal(isa: Isa, at: bv32, hi: bv16, lo: bv16, c: Core)
    requires KindOf32(hi, lo) == Bl
    ensures Exec32(isa, at, hi, lo, c) == Call(Plus(PcValue(at), OffsetW(Bl, hi, lo)), true, c)
  {
    hide PcValue, Plus, BranchOffset25, OffsetW;
    OffsetAgrees(Bl, hi, lo);
  }

  lemma BranchExchangeOriginal(isa: Isa, at: bv32, hi: bv16, lo: bv16, c: Core)
    requires KindOf32(hi, lo) == Blx
    ensures Exec32(isa, at, hi, lo, c)
         == if lo & 1 == 1 then Unpredictable else Call(Plus(Align(PcValue(at)), OffsetW(Blx, hi, lo)), false, c)
  {
    hide PcValue, Plus, Align, BranchOffset25, OffsetW;
    if lo & 1 == 0 {
      OffsetAgrees(Blx, hi, lo);
    }
  }

  lemma WideBranchOriginal(isa: Isa, at: bv32, hi: bv16, lo: bv16, c: Core)
    requires KindOf32(hi, lo) == B2W
    ensures Exec32(isa, at, hi, lo, c) == Goto(Plus(PcValue(at), OffsetW(B2W, hi, lo)), true, c)
  {
    hide PcValue, Plus, BranchOffset25, OffsetW;
    OffsetAgrees(B2W, hi, lo);
  }

  lemma ConditionalOriginal(isa: Isa, at: bv32, hi: bv16, lo: bv16, c: Core)
    requires KindOf32(hi, lo) == B1W && KindKeeps32(at, hi, lo)
    ensures Exec32(isa, at, hi, lo, c)
         == if ConditionHolds(CondT3(hi), c.flags) then Goto(Plus(PcValue(at), OffsetW(B1W, hi, lo)), true, c)
             else Fall(c)
  {
    hide PcValue, Plus, BranchOffset21, OffsetW, ConditionHolds;
    ShortOffsetAgrees(hi, lo);
  }

  lemma SourceOffset(kind: Kind32, hi: bv16, lo: bv16)
    requires kind == Bl || kind == B2W || (kind == Blx && lo & 1 == 0)
    ensures OffsetW(kind, hi, lo)
         == if S(hi) != 0 then FieldsW(hi, lo, Imm11(lo)) | 0xFE000000 else FieldsW(hi, lo, Imm11(lo))
  {
    hide FieldsW, S, Imm11, Low11;
    LowAgrees(kind, lo);
  }

  lemma LowAgrees(kind: Kind32, lo: bv16)
    requires kind == Blx ==> lo & 1 == 0
    ensures Low11(kind, lo) == Imm11(lo)
  {
    hide Imm11;
    EvenLow(lo);
  }

  lemma ArchitectureOffset(hi: bv16, lo: bv16)
    ensures BranchOffset25(hi, lo) == SignExtend25(FieldsW(hi, lo, Imm11(lo)))
  {
    hide Fields25, S, I1, I2, SignExtend25, Imm10, Imm11;
    OffsetBits(hi, lo);
  }

  /** The source's way of putting the offset together gives the architecture's. */
  lemma OffsetAgrees(kind: Kind32, hi: bv16, lo: bv16)
    requires kind == Bl || kind == B2W || (kind == Blx && lo & 1 == 0)
    ensures OffsetW(kind, hi, lo) == BranchOffset25(hi, lo)
  {
    hide *;
    SourceOffset(kind, hi, lo);
    ArchitectureOffset(hi, lo);
    FieldsAreSmall(hi, lo);
    FieldsAreSigned(hi, lo, Imm11(lo));
  }

  lemma FieldsAreSmall(hi: bv16, lo: bv16)
    ensures S(hi) <= 1 && I1(hi, lo) <= 1 && I2(hi, lo) <= 1 && Imm10(hi) < 0x400 && Imm11(lo) < 0x800
  {
    Immediates(hi, lo);
    hide J1, J2, Imm10, Imm11;
  }

  lemma FieldsAreSigned(hi: bv16, lo: bv16, low: bv32)
    requires S(hi) <= 1 && I1(hi, lo) <= 1 && I2(hi, lo) <= 1 && Imm10(hi) < 0x400 && low < 0x800
    ensures SignExtend25(FieldsW(hi, lo, low))
         == if S(hi) != 0 then FieldsW(hi, lo, low) | 0xFE000000 else FieldsW(hi, lo, low)
  {
    hide Fields25, S, I1, I2, SignExtend25, Imm10;
    SignOf25(S(hi), I1(hi, lo), I2(hi, lo), Imm10(hi), low);
  }

  lemma EvenLow(lo: bv16)
    ensures lo & 1 == 0 ==> (lo & 0x7FE) as bv32 == Imm11(lo)
  {
  }

  lemma Immediates(hi: bv16, lo: bv16)
    ensures Imm6(hi) < 0x40 && Imm10(hi) < 0x400 && Imm11(lo) < 0x800
  {
  }

  lemma OffsetBits(hi: bv16, lo: bv16)
    ensures S(hi) == (if hi & 0x400 != 0 then 1 else 0)
    ensures I1(hi, lo) == if (hi & 0x400 != 0) == (lo & 0x2000 != 0) then 1 else 0
    ensures I2(hi, lo) == if (hi & 0x400 != 0) == (lo & 0x800 != 0) then 1 else 0
  {
  }

  lemma SignOf25(s: bv32, i1: bv32, i2: bv32, u: bv32, v: bv32)
    requires s <= 1 && i1 <= 1 && i2 <= 1 && u < 0x400 && v < 0x800
    ensures
      var x := Fields25(s, i1, i2, u, v);
      SignExtend25(x) == if s != 0 then x | 0xFE000000 else x
  {
  }

  lemma ShortOffsetAgrees(hi: bv16, lo: bv16)
    ensures OffsetW(B1W, hi, lo) == BranchOffset21(hi, lo)
  {
    hide Fields21, S, J1, J2, SignExtend21, Imm6, Imm11;
    ShortOffsetBits(hi, lo);
    Immediates(hi, lo);
    SignOf21(S(hi), J2(lo), J1(lo), Imm6(hi), Imm11(lo));
  }

  lemma ShortOffsetBits(hi: bv16, lo: bv16)
    ensures S(hi) == (if hi & 0x400 != 0 then 1 else 0)
    ensures J1(lo) == (if lo & 0x2000 != 0 then 1 else 0)
    ensures J2(lo) == (if lo & 0x800 != 0 then 1 else 0)
  {
  }

  lemma SignOf21(s: bv32, j2: bv32, j1: bv32, u: bv32, v: bv32)
    requires s <= 1 && j1 <= 1 && j2 <= 1 && u < 0x40 && v < 0x800
    ensures
      var x := Fields21(s, j2, j1, u, v);
      SignExtend21(x) == if s != 0 then x | 0xFFE00000 else x
  {
  }

  lemma WideLoadOriginal(isa: Isa, at: bv32, hi: bv16, lo: bv16, c: Core)
    requires KindOf32(hi, lo) == LdrW && lo < 0x8000
    ensures Exec32(isa, at, hi, lo, c)
         == Fall(Set(c, ((lo >> 12) & 7) as bv4, Load(c, LiteralAddressW(PcValue(at), hi, lo))))
  {
    hide PcValue, Plus, Minus, Align, Load, Imm12;
    assert RtT2(lo) == ((lo >> 12) & 7) as bv4 && RtT2(lo) != PC;
  }
}
