/** The Thumb instructions by what the architecture makes of them. */
module ThumbDomain {
  import opened Words
  import opened ThumbMachine

  // ----- 16-bit instructions -----

  predicate IsShortConditional(w: bv16) { w & 0xF000 == 0xD000 && w & 0xE00 != 0xE00 }

  /** SVC and UDF, which have the places of two conditions. */
  predicate IsTrap(w: bv16) { w & 0xF000 == 0xD000 && w & 0xE00 == 0xE00 }

  predicate IsShortBranch(w: bv16) { w & 0xF800 == 0xE000 }

  predicate IsExchangePc(w: bv16) { w & 0xFF80 == 0x4700 && Rm(w) == PC }

  predicate IsLinkExchange(w: bv16) { w & 0xFF80 == 0x4780 }

  predicate IsAddPc(w: bv16) { w & 0xFF00 == 0x4400 && Rm(w) == PC }

  predicate IsMovePc(w: bv16) { w & 0xFF00 == 0x4600 && Rm(w) == PC }

  predicate IsAddress(w: bv16) { w & 0xF800 == 0xA000 }

  predicate IsLiteralLoad(w: bv16) { w & 0xF800 == 0x4800 }

  predicate IsCompareBranch(w: bv16) { w & 0xF500 == 0xB100 }

  predicate Rewritten16(w: bv16) {
    IsShortConditional(w) || IsTrap(w) || IsShortBranch(w) || IsExchangePc(w) || IsAddPc(w) || IsMovePc(w)
    || IsAddress(w) || IsLiteralLoad(w) || IsCompareBranch(w)
  }

  /** A 16-bit instruction that keeps its meaning. Branches lose the Thumb bit, a trap its number, ADR its precedence, a
      MOV to a high register its destination, and an IT block its extent; a BLX links to the padding. */
  predicate Keeps16(w: bv16) {
    if IsExchangePc(w) || IsLiteralLoad(w) || IsCompareBranch(w) then true
    else if IsTrap(w) then w & 0xFF == 0
    else if IsAddPc(w) then Rdn(w) != SP && Rdn(w) != PC
    else if IsMovePc(w) then Rdn(w) < 8
    else if Rewritten16(w) then false
    else !IsLinkExchange(w) && !(w & 0xFF00 == 0x4400 && Rdn(w) == PC) && (w & 0xFF00 == 0xBF00 ==> w & 0xF == 0)
  }

  /** Where a 16-bit literal load reads. */
  function LiteralOf16(at: bv32, w: bv16): bv32 { Plus(Align(PcValue(at)), Imm8(w) << 2) }

  // ----- 32-bit instructions -----

  predicate IsWideBranchPart(hi: bv16, lo: bv16, kind: bv16) { hi & 0xF800 == 0xF000 && lo & 0xD000 == kind }

  /** BLX to an address. */
  predicate IsBlx(hi: bv16, lo: bv16) { IsWideBranchPart(hi, lo, 0xC000) }

  predicate IsBranchLink(hi: bv16, lo: bv16) { IsWideBranchPart(hi, lo, 0xD000) }

  /** A conditional branch, or with the last two conditions a hint, a barrier or another system instruction. */
  predicate IsWideConditional(hi: bv16, lo: bv16) { IsWideBranchPart(hi, lo, 0x8000) }

  predicate IsWideBranch(hi: bv16, lo: bv16) { IsWideBranchPart(hi, lo, 0x9000) }

  predicate IsWideAddress(hi: bv16, lo: bv16) { hi & 0xFBFF == 0xF20F && lo & 0x8000 == 0 }

  predicate IsWideAddressBack(hi: bv16, lo: bv16) { hi & 0xFBFF == 0xF2AF && lo & 0x8000 == 0 }

  predicate IsWideLiteralLoad(hi: bv16, lo: bv16) { hi & 0xFF7F == 0xF85F }

  /** TBB and TBH with a table at the PC. */
  predicate IsTableBranch(hi: bv16, lo: bv16) { hi == 0xE8DF && lo & 0xE0 == 0 }

  predicate Rewritten32(hi: bv16, lo: bv16) {
    IsBlx(hi, lo) || IsBranchLink(hi, lo) || IsWideConditional(hi, lo) || IsWideBranch(hi, lo) || IsWideAddress(hi, lo)
    || IsWideAddressBack(hi, lo) || IsWideLiteralLoad(hi, lo) || IsTableBranch(hi, lo)
  }

  /** A 32-bit instruction at `at` that keeps its meaning. */
  predicate Keeps32(at: bv32, hi: bv16, lo: bv16) {
    if IsBlx(hi, lo) then at & 3 == 0
    else if IsBranchLink(hi, lo) || IsWideBranch(hi, lo) then true
    else if IsWideConditional(hi, lo) then hi & 0x380 != 0x380
    else if IsWideLiteralLoad(hi, lo) then RtT2(lo) < 8
    else !Rewritten32(hi, lo)
  }

  /** Where a 32-bit literal load reads. */
  function LiteralOf32(at: bv32, hi: bv16, lo: bv16): bv32 {
    if hi & 0x80 != 0 then Plus(Align(PcValue(at)), Imm12(lo)) else Minus(Align(PcValue(at)), Imm12(lo))
  }
}
