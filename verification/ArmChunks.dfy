/** What the relocator makes of each ARM instruction: the words it emits, as a function. */
module ArmChunks {
  import opened Words
  import opened ArmMachine

  datatype Kind = BlxArm | BlArm | BArm | BxArm | AddArm | Adr1Arm | Adr2Arm | MovArm | LdrArm | Undefine

  /** The classifier; the order of the tests matters. */
  function KindOf(w: bv32): Kind {
    if w & 0xFE000000 == 0xFA000000 then BlxArm
    else if w & 0xF000000 == 0xB000000 then BlArm
    else if w & 0xF000000 == 0xA000000 then BArm
    else if w & 0xFF000FF == 0x120001F then BxArm
    else if w & 0xFEF0010 == 0x8F0000 then AddArm
    else if w & 0xFFF0000 == 0x28F0000 then Adr1Arm
    else if w & 0xFFF0000 == 0x24F0000 then Adr2Arm
    else if w & 0xE5F0000 == 0x41F0000 then LdrArm
    else if w & 0xFE00FFF == 0x1A0000F then MovArm
    else Undefine
  }

  function TopBitExtended(x: bv32): bv32 {
    if x >> 25 != 0 then x | 0xFC000000 else x
  }

  /** The branch offset, sign-extended from 26 bits; BX PC has none. */
  function BranchOffset(kind: Kind, w: bv32): bv32 {
    var x :=
      if kind == BlxArm then (Imm24(w) << 2) | ((w & 0x1000000) >> 23)
      else if kind == BxArm then 0
      else Imm24(w) << 2;
    TopBitExtended(x)
  }

  function BranchLiteral(kind: Kind, pc: bv32, w: bv32): bv32 {
    if kind == BlxArm then Plus(pc, BranchOffset(kind, w)) + 1 else Plus(pc, BranchOffset(kind, w))
  }

  /** The register an ADD borrows to hold the old PC: the highest of R12, R11, R10 it does not use. */
  function Borrowed(rd: bv32, rm: bv32): (r: bv32)
    ensures r != rd && r != rm && 10 <= r <= 12
  {
    if 12 != rd && 12 != rm then 12 else if 11 != rd && 11 != rm then 11 else 10
  }

  /** The value a PC-relative address, move or literal load produces; `lit` is memory at relocation time. */
  function LoadedValue(kind: Kind, pc: bv32, w: bv32, lit: bv32 -> bv32): bv32 {
    LoadedFrom(kind, pc, w & 0xFFF, (w & 0x800000) >> 23 != 0, lit)
  }

  function LoadedFrom(kind: Kind, pc: bv32, imm32: bv32, isAdd: bool, lit: bv32 -> bv32): bv32 {
    if kind == Adr1Arm then Plus(pc, imm32)
    else if kind == Adr2Arm then Minus(pc, imm32)
    else if kind == LdrArm then
      if isAdd then lit(Plus(pc, imm32)) else lit(Minus(pc, imm32))
    else pc
  }

  /** An ADD works on a borrowed register that is pushed, loaded with the old PC, and popped. */
  function AddChunkWords(w: bv32, pc: bv32, r: bv32): seq<bv32> {
    [0xE52D0004 | (r << 12), 0xE59F0008 | (r << 12), (w & 0xFFF0FFFF) | (r << 16)]
    + [0xE49D0004 | (r << 12), 0xE28FF000, pc]
  }

  /** The words emitted for `w`, whose PC reads as `pc`. */
  function Chunk(pc: bv32, w: bv32, lit: bv32 -> bv32): seq<bv32> {
    var kind := KindOf(w);
    if kind == BlxArm || kind == BlArm then [0xE28FE004, 0xE51FF004, BranchLiteral(kind, pc, w)]
    else if kind == BArm || kind == BxArm then [0xE51FF004, BranchLiteral(kind, pc, w)]
    else if kind == AddArm then
      AddChunkWords(w, pc, Borrowed((w & 0xF000) >> 12, w & 0xF))
    else if kind == Undefine then [w]
    else [0xE51F0000 | (w & 0xF000), 0xE28FF000, LoadedValue(kind, pc, w, lit)]
  }

  /** How many words the chunk for `w` has. */
  function ChunkLength(w: bv32): nat {
    var kind := KindOf(w);
    if kind == Undefine then 1
    else if kind == BArm || kind == BxArm then 2
    else if kind == AddArm then 6
    else 3
  }

  /** The trampoline for the words `ws` that sit at `at`: their chunks, then a jump to what follows them. */
  function Trampoline(at: bv32, ws: seq<bv32>, lit: bv32 -> bv32): seq<bv32>
    decreases |ws|
  {
    if ws == [] then [0xE51FF004, at]
    else Chunk(PcValue(at), ws[0], lit) + Trampoline(Next(at), ws[1..], lit)
  }

  /** Where the chunk of word `k` starts, in a trampoline at `tr`. */
  function ChunkAddress(tr: bv32, ws: seq<bv32>, k: nat): bv32
    requires k <= |ws|
    decreases k
  {
    if k == 0 then tr else ChunkAddress(Advance(tr, ChunkLength(ws[0])), ws[1..], k - 1)
  }
}
