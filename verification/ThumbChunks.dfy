/** What the relocator makes of each Thumb instruction: the halfwords it emits, as functions. */
module ThumbChunks {
  import opened Words
  import opened ThumbMachine

  datatype Kind16 = B1 | B2 | Bx | Add | Mov | Adr | Ldr | Cb | Undefine16
  datatype Kind32 = Blx | Bl | B1W | B2W | Adr1W | Adr2W | LdrW | Tbb | Tbh | Undefine32

  function KindOf16(w: bv16): Kind16 {
    if w & 0xF000 == 0xD000 then B1
    else if w & 0xF800 == 0xE000 then B2
    else if w & 0xFFF8 == 0x4778 then Bx
    else if w & 0xFF78 == 0x4478 then Add
    else if w & 0xFF78 == 0x4678 then Mov
    else if w & 0xF800 == 0xA000 then Adr
    else if w & 0xF800 == 0x4800 then Ldr
    else if w & 0xF500 == 0xB100 then Cb
    else Undefine16
  }

  /** The masks of the source, split over the two halfwords. */
  function KindOf32(hi: bv16, lo: bv16): Kind32 {
    if hi & 0xF800 == 0xF000 && lo & 0xD000 == 0xC000 then Blx
    else if hi & 0xF800 == 0xF000 && lo & 0xD000 == 0xD000 then Bl
    else if hi & 0xF800 == 0xF000 && lo & 0xD000 == 0x8000 then B1W
    else if hi & 0xF800 == 0xF000 && lo & 0xD000 == 0x9000 then B2W
    else if hi & 0xFBFF == 0xF2AF && lo & 0x8000 == 0 then Adr1W
    else if hi & 0xFBFF == 0xF20F && lo & 0x8000 == 0 then Adr2W
    else if hi & 0xFF7F == 0xF85F then LdrW
    else if hi == 0xE8DF && lo & 0xF0 == 0 then Tbb
    else if hi == 0xE8DF && lo & 0xF0 == 0x10 then Tbh
    else Undefine32
  }

  /** The register an ADD borrows: R7, or R6 when R7 is the one it writes. */
  function Borrowed(rdn: bv16): (r: bv16)
    ensures r != rdn && 6 <= r <= 7
  {
    if 7 != rdn then 7 else 6
  }

  // ----- 16-bit instructions -----

  function Jump(value: bv32): seq<bv16> { [0xF8DF, 0xF000, Low(value), High(value)] }

  function TargetB1(pc: bv32, w: bv16): bv32 {
    var x := Imm8(w) << 1;
    Plus(pc, if x >> 8 != 0 then x | 0xFFFFFF00 else x)
  }

  function TargetB2(pc: bv32, w: bv16): bv32 {
    var x := ((w & 0x7FF) as bv32) << 1;
    Plus(pc, if x >> 11 != 0 then x | 0xFFFFF800 else x)
  }

  function TargetCb(pc: bv32, w: bv16): bv32 {
    PlusOne(Plus(pc, (((w & 0x200) as bv32) >> 3) | (((w & 0xF8) as bv32) >> 2)))
  }

  /** The operator precedence of the source: the sum is shifted, not the immediate. */
  function ValueAdr(pc: bv32, w: bv16): bv32 { Plus(Align(pc), Imm8(w)) << 2 }

  function LiteralAddress(pc: bv32, w: bv16): bv32 { Plus(Align(pc), Imm8(w) << 2) }

  function LoadWords(r: bv16, value: bv32): seq<bv16> { [0x4800 | (r << 8), 0xE001, Low(value), High(value)] }

  /** The register list that holds just `r`. */
  function OneBit(r: bv16): bv16
    requires r < 8
  {
    1 << r as bv5
  }

  /** An ADD works on a borrowed register that is pushed, loaded with the old PC, and popped. */
  function AddWords(w: bv16, pc: bv32, r: bv16): seq<bv16>
    requires r < 8
  {
    [0xB400 | OneBit(r), 0x4802 | (r << 8), (w & 0xFF87) | (r << 3), 0xBC00 | OneBit(r), 0xE002, 0xBF00,
     Low(pc), High(pc)]
  }

  function LowRd(w: bv16): bv16 { w & 7 }
  function LowRt(w: bv16): bv16 { (w & 0x700) >> 8 }
  function HeadB1(w: bv16): bv16 { w & 0xFF00 }
  function HeadCb(w: bv16): bv16 { w & 0xFD07 }

  /** The halfwords emitted for `w`, whose PC reads as `pc`; `lit` is memory, by words, at relocation time. */
  function Chunk16(pc: bv32, w: bv16, lit: bv32 -> bv32): seq<bv16> {
    match KindOf16(w)
    case B1 => [HeadB1(w), 0xE003] + Jump(TargetB1(pc, w))
    case B2 => Jump(TargetB2(pc, w))
    case Bx => Jump(pc)
    case Add => AddWords(w, pc, Borrowed(((w & 0x80) >> 4) | (w & 7)))
    case Mov => LoadWords(LowRd(w), pc)
    case Adr => LoadWords(LowRt(w), ValueAdr(pc, w))
    case Ldr => LoadWords(LowRt(w), lit(LiteralAddress(pc, w)))
    case Cb => [HeadCb(w), 0xE003] + Jump(TargetCb(pc, w))
    case Undefine16 => [w, 0xBF00]
  }

  function Length16(w: bv16): nat {
    match KindOf16(w)
    case B1 => 6
    case Cb => 6
    case Add => 8
    case Undefine16 => 2
    case _ => 4
  }

  // ----- 32-bit instructions -----

  function J1(lo: bv16): bv32 { ((lo & 0x2000) as bv32) >> 13 }
  function J2(lo: bv16): bv32 { ((lo & 0x800) as bv32) >> 11 }
  function S(hi: bv16): bv32 { ((hi & 0x400) as bv32) >> 10 }
  function Not(x: bv32): bv32 { if x == 0 then 1 else 0 }

  /** The offsets of the four branches, sign-extended from bit `s`; BLX drops the last bit of its low half. */
  function OffsetW(kind: Kind32, hi: bv16, lo: bv16): bv32 {
    var s := S(hi);
    if kind == B1W then
      var x := Fields21(s, J2(lo), J1(lo), Imm6(hi), Imm11(lo));
      if s != 0 then x | 0xFFE00000 else x
    else
      var x := FieldsW(hi, lo, Low11(kind, lo));
      if s != 0 then x | 0xFE000000 else x
  }

  function I1(hi: bv16, lo: bv16): bv32 { Not(J1(lo) ^ S(hi)) }
  function I2(hi: bv16, lo: bv16): bv32 { Not(J2(lo) ^ S(hi)) }

  function Low11(kind: Kind32, lo: bv16): bv32 { if kind == Blx then (lo & 0x7FE) as bv32 else Imm11(lo) }

  /** The fields of a wide branch, the lowest of them `low`. */
  function FieldsW(hi: bv16, lo: bv16, low: bv32): bv32 { Fields25(S(hi), I1(hi, lo), I2(hi, lo), Imm10(hi), low) }

  function TargetW(kind: Kind32, pc: bv32, hi: bv16, lo: bv16): bv32 {
    if kind == Blx then Plus(pc, OffsetW(kind, hi, lo)) else PlusOne(Plus(pc, OffsetW(kind, hi, lo)))
  }

  function LiteralAddressW(pc: bv32, hi: bv16, lo: bv16): bv32 {
    if (hi & 0x80) >> 7 != 0 then Plus(Align(pc), Imm12(lo)) else Minus(Align(pc), Imm12(lo))
  }

  /** The offset of an ADR.W as the source computes it: every field shifted too far, */
  function OffsetAdrW(hi: bv16, lo: bv16): bv32 {
    var i, imm3, imm8 := ((hi & 0x400) as bv32) >> 10, ((lo & 0x7000) as bv32) >> 12, (lo & 0xFF) as bv32;
    (i << 31) | (imm3 << 30) | (imm8 << 27)
  }

  /** and the two directions exchanged. */
  function ValueAdrW(kind: Kind32, pc: bv32, hi: bv16, lo: bv16): bv32 {
    if kind == Adr1W then Plus(Align(pc), OffsetAdrW(hi, lo)) else Minus(Align(pc), OffsetAdrW(hi, lo))
  }

  /** The highest of R7, R6 that is not Rm, and the highest of R7, R6, R5 that is neither. */
  function TableRegister(rm: bv16): (r: bv16)
    ensures r != rm && 6 <= r <= 7
  {
    if 7 != rm then 7 else 6
  }

  function IndexRegister(rm: bv16, r: bv16): (rx: bv16)
    ensures rx != rm && rx != r && 5 <= rx <= 7
  {
    if 7 != rm && 7 != r then 7 else if 6 != rm && 6 != r then 6 else 5
  }

  /** The address of the table entry, and the entry. */
  function TableHead(kind: Kind32, rm: bv16, r: bv16, rx: bv16): seq<bv16>
    requires rx < 8
  {
    [0xB400 | OneBit(rx), 0x4805 | (r << 8), 0x4600 | (rm << 3) | rx, 0xEB00 | r]
    + if kind == Tbb then [(rx << 8) | rx, 0x7800 | (rx << 3) | rx]
      else [0x0040 | (rx << 8) | rx, 0x8800 | (rx << 3) | rx]
  }

  /** The jump through the entry, and the literal. */
  function TableEnd(r: bv16, rx: bv16, pc: bv32): seq<bv16>
    requires rx < 8
  {
    [0xEB00 | r, 0x0040 | (r << 8) | rx, 0x3001 | (r << 8), 0xBC00 | OneBit(rx), 0x4700 | (r << 3), 0xBF00,
     Low(pc), High(pc)]
  }

  function TableWords(kind: Kind32, pc: bv32, lo: bv16): seq<bv16> {
    var rm := lo & 0xF;
    var r := TableRegister(rm);
    var rx := IndexRegister(rm, r);
    TableHead(kind, rm, r, rx) + TableEnd(r, rx, pc)
  }

  function Chunk32(pc: bv32, hi: bv16, lo: bv16, lit: bv32 -> bv32): seq<bv16> {
    var kind := KindOf32(hi, lo);
    match kind
    case Blx => [0xF20F, 0x0E09] + Jump(TargetW(kind, pc, hi, lo))
    case Bl => [0xF20F, 0x0E09] + Jump(TargetW(kind, pc, hi, lo))
    case B1W => [0xD000 | ((hi & 0x3C0) << 2), 0xE003] + Jump(TargetW(kind, pc, hi, lo))
    case B2W => Jump(TargetW(kind, pc, hi, lo))
    case Adr1W => LoadWords((lo & 0xF00) >> 8, ValueAdrW(kind, pc, hi, lo))
    case Adr2W => LoadWords((lo & 0xF00) >> 8, ValueAdrW(kind, pc, hi, lo))
    case LdrW => LoadWords(lo >> 12, lit(LiteralAddressW(pc, hi, lo)))
    case Tbb => TableWords(kind, pc, lo)
    case Tbh => TableWords(kind, pc, lo)
    case Undefine32 => [hi, lo]
  }

  function Length32(hi: bv16, lo: bv16): nat {
    match KindOf32(hi, lo)
    case Blx => 6
    case Bl => 6
    case B1W => 6
    case Tbb => 14
    case Tbh => 14
    case Undefine32 => 2
    case _ => 4
  }

  // ----- Streams of halfwords -----

  /** The first instruction of `hs` fits in it. */
  predicate Whole(hs: seq<bv16>) { hs != [] && (Is32(hs[0]) ==> |hs| >= 2) }

  /** How many halfwords the first instruction takes. */
  function Size(hs: seq<bv16>): (n: nat)
    requires Whole(hs)
    ensures 1 <= n <= 2 && n <= |hs|
  {
    if Is32(hs[0]) then 2 else 1
  }

  function FirstChunk(at: bv32, hs: seq<bv16>, lit: bv32 -> bv32): seq<bv16>
    requires Whole(hs)
  {
    if Is32(hs[0]) then Chunk32(PcValue(at), hs[0], hs[1], lit) else Chunk16(PcValue(at), hs[0], lit)
  }

  function FirstLength(hs: seq<bv16>): nat
    requires Whole(hs)
  {
    if Is32(hs[0]) then Length32(hs[0], hs[1]) else Length16(hs[0])
  }

  /** The jump to what follows: a halfword left over is the start of a 32-bit instruction, and is resumed at. */
  function Tail(at: bv32): seq<bv16> { Jump(PlusOne(at)) }

  /** The trampoline for the halfwords `hs` that sit at `at`. */
  function Trampoline(at: bv32, hs: seq<bv16>, lit: bv32 -> bv32): seq<bv16>
    decreases |hs|
  {
    if !Whole(hs) then Tail(at)
    else FirstChunk(at, hs, lit) + Trampoline(Advance(at, Size(hs)), hs[Size(hs)..], lit)
  }
}
