/** The ARM words by what the architecture makes of them. */
module ArmDomain {
  import opened Words
  import opened ArmMachine

  predicate IsBlx(w: bv32) { w & 0xFE000000 == 0xFA000000 }

  predicate IsBranchLink(w: bv32) { !IsBlx(w) && FormOf(w) == BranchLinkForm }

  predicate IsBranch(w: bv32) { !IsBlx(w) && FormOf(w) == BranchForm }

  predicate IsExchangePc(w: bv32) { FormOf(w) == ExchangeForm && Rm(w) == PC }

  predicate IsAddPc(w: bv32) { FormOf(w) == AddForm && Rn(w) == PC }

  /** ADR, forwards and backwards: an immediate added to the PC or taken from it, with no flags. */
  predicate IsAddress(w: bv32) { FormOf(w) == AddImmediateForm && Rn(w) == PC && !SetsFlags(w) }

  predicate IsAddressBack(w: bv32) { FormOf(w) == SubImmediateForm && Rn(w) == PC && !SetsFlags(w) }

  predicate IsMovePc(w: bv32) { FormOf(w) == MoveForm && Rm(w) == PC }

  predicate IsLiteralLoad(w: bv32) { FormOf(w) == LoadLiteralForm }

  predicate SetsFlags(w: bv32) { Bit(w, 0x100000) }

  /** The words whose condition is lost. */
  predicate LosesCondition(w: bv32) {
    IsBranchLink(w) || IsBranch(w) || IsExchangePc(w) || IsAddress(w) || IsAddressBack(w) || IsMovePc(w)
    || IsLiteralLoad(w)
  }

  /** The words that are not copied. */
  predicate Rewritten(w: bv32) { IsBlx(w) || IsAddPc(w) || LosesCondition(w) }

  /** A copied word that is known here to read its own address. */
  predicate ReadsOwnAddress(w: bv32) {
    && Cond(w) != 15
    && match FormOf(w)
       case AddForm => Rm(w) == PC
       case AddImmediateForm => Rn(w) == PC
       case SubImmediateForm => Rn(w) == PC
       case PushForm => Rd(w) == PC
       case _ => false
  }

  /** The words that keep their meaning: unconditional where the condition is lost, an address constant that is not
      rotated, a MOV that sets no flags, and an ADD on any condition that stays clear of SP and PC. */
  predicate Keeps(w: bv32) {
    if IsBlx(w) then true
    else if IsAddPc(w) then Cond(w) != 15 && Rd(w) != SP && Rd(w) != PC && Rm(w) != SP && Rm(w) != PC
    else if IsAddress(w) || IsAddressBack(w) then Cond(w) == 14 && w & 0xF00 == 0
    else if IsMovePc(w) then Cond(w) == 14 && !SetsFlags(w)
    else if LosesCondition(w) then Cond(w) == 14
    else !ReadsOwnAddress(w)
  }

  /** Where a branch of one kind or another goes, if it is taken. */
  function Destination(at: bv32, w: bv32): bv32 {
    if IsBlx(w) then Plus(at + 8, SignExtend26((Imm24(w) << 2) | ((w & 0x1000000) >> 23)))
    else if IsExchangePc(w) then at + 8
    else Plus(at + 8, SignExtend26(Imm24(w) << 2))
  }

  /** Where a literal load reads. */
  function LiteralAddress(at: bv32, w: bv32): bv32 {
    if Bit(w, 0x800000) then Plus(at + 8, w & 0xFFF) else Minus(at + 8, w & 0xFFF)
  }

  /** The value of an address constant. */
  function AddressValue(at: bv32, w: bv32): bv32 {
    if IsAddress(w) then Plus(at + 8, ExpandImm(w & 0xFFF)) else Minus(at + 8, ExpandImm(w & 0xFFF))
  }

  /** The same with its immediate taken as it is. */
  function UnrotatedValue(at: bv32, w: bv32): bv32 {
    if IsAddress(w) then Plus(at + 8, w & 0xFFF) else Minus(at + 8, w & 0xFFF)
  }

  /** Only the offset form of a literal load is defined. */
  predicate IsOffsetForm(w: bv32) { Bit(w, 0x1000000) && !Bit(w, 0x200000) }
}
