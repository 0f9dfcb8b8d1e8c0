/** The Thumb relocator as it works: running positions into the trampoline and the two boundary tables. */
module ThumbRelocator {
  import opened Words
  import opened ThumbMachine
  import opened ThumbChunks
  import opened ThumbChunkRuns
  import opened ThumbMeaning

  // ----- What the loop leaves behind -----

  /** The chunks of the whole instructions of `hs`, without the jump back. */
  function Chunks(at: bv32, hs: seq<bv16>, lit: bv32 -> bv32): seq<bv16>
    decreases |hs|
  {
    if !Whole(hs) then []
    else FirstChunk(at, hs, lit) + Chunks(Advance(at, Size(hs)), hs[Size(hs)..], lit)
  }

  /** The halfwords recorded from `from` on: one at the top of every round of the loop, the round that finds only half
      an instruction included. */
  function OrigStarts(hs: seq<bv16>, from: nat): seq<nat>
    decreases |hs|
  {
    if hs == [] then [] else [from] + if Whole(hs) then OrigStarts(hs[Size(hs)..], from + Size(hs)) else []
  }

  /** The matching positions in the trampoline, from `pos` on. */
  function TrampStarts(hs: seq<bv16>, pos: nat): seq<nat>
    decreases |hs|
  {
    if hs == [] then [] else [pos] + if Whole(hs) then TrampStarts(hs[Size(hs)..], pos + FirstLength(hs)) else []
  }

  /** Halfword positions as the byte offsets that are stored. */
  function Bytes(s: seq<nat>): (r: seq<nat>)
    ensures |r| == |s| && forall i :: 0 <= i < |s| ==> r[i] == 2 * s[i]
  {
    seq(|s|, i requires 0 <= i < |s| => 2 * s[i])
  }

  lemma {:induction false} TrampolineIsChunks(at: bv32, hs: seq<bv16>, lit: bv32 -> bv32)
    ensures Trampoline(at, hs, lit) == Chunks(at, hs, lit) + Tail(Advance(at, Consumed(hs)))
    decreases |hs|
  {
    hide FirstChunk, Next, Is32, Tail, Advance;
    if Whole(hs) {
      var rest := hs[Size(hs)..];
      TrampolineIsChunks(Advance(at, Size(hs)), rest, lit);
      AdvanceAdds(at, Size(hs), Consumed(rest));
      Regroup(FirstChunk(at, hs, lit), Chunks(Advance(at, Size(hs)), rest, lit), Tail(Advance(at, Consumed(hs))));
    } else {
      assert Advance(at, 0) == at by { AdvanceNone(at); }
      assert [] + Tail(at) == Tail(at);
    }
  }

  lemma AdvanceNone(a: bv32)
    ensures Advance(a, 0) == a
  {
  }

  /** Strictly increasing, from `low` on. */
  predicate Increasing(s: seq<nat>, low: nat) {
    && (forall i :: 0 <= i < |s| ==> low <= s[i])
    && (forall i, j :: 0 <= i < j < |s| ==> s[i] < s[j])
  }

  lemma IncreasingCons(x: nat, s: seq<nat>, low: nat)
    requires Increasing(s, low) && x < low
    ensures Increasing([x] + s, x)
  {
  }

  /** Both tables have the same length, one entry a round. */
  lemma {:induction false} StartsMatch(hs: seq<bv16>, from: nat, pos: nat)
    ensures |OrigStarts(hs, from)| == |TrampStarts(hs, pos)| <= |hs|
    decreases |hs|
  {
    hide Is32, FirstLength, OrigStarts, TrampStarts;
    StartsUnfold(hs, from);
    TrampsUnfold(hs, pos);
    if hs != [] && Whole(hs) {
      StartsMatch(hs[Size(hs)..], from + Size(hs), pos + FirstLength(hs));
    }
  }

  lemma {:induction false} OrigStartsIncrease(hs: seq<bv16>, from: nat)
    ensures Increasing(OrigStarts(hs, from), from)
    decreases |hs|
  {
    hide Is32, Increasing;
    if hs == [] {
      EmptyIncreases(from);
    } else if Whole(hs) {
      OrigStartsIncrease(hs[Size(hs)..], from + Size(hs));
      IncreasingCons(from, OrigStarts(hs[Size(hs)..], from + Size(hs)), from + Size(hs));
    } else {
      EmptyIncreases(from + 1);
      IncreasingCons(from, [], from + 1);
    }
  }

  lemma FirstLengthPositive(hs: seq<bv16>)
    requires Whole(hs)
    ensures 0 < FirstLength(hs) <= 8 * Size(hs)
  {
    hide Is32, FirstLength;
    ChunkHasItsLength(0, hs, (a: bv32) => 0);
  }

  lemma {:induction false} TrampStartsIncrease(hs: seq<bv16>, pos: nat)
    ensures Increasing(TrampStarts(hs, pos), pos)
    decreases |hs|
  {
    hide Is32, Increasing, FirstLength;
    if hs == [] {
      EmptyIncreases(pos);
    } else if Whole(hs) {
      FirstLengthPositive(hs);
      TrampStartsIncrease(hs[Size(hs)..], pos + FirstLength(hs));
      IncreasingCons(pos, TrampStarts(hs[Size(hs)..], pos + FirstLength(hs)), pos + FirstLength(hs));
    } else {
      EmptyIncreases(pos + 1);
      IncreasingCons(pos, [], pos + 1);
    }
  }

  lemma EmptyIncreases(low: nat)
    ensures Increasing([], low)
  {
  }

  /** No position is beyond what the halfwords before it can need. */
  lemma {:induction false} StartsBounded(hs: seq<bv16>, from: nat, pos: nat)
    ensures forall i :: 0 <= i < |OrigStarts(hs, from)| ==> OrigStarts(hs, from)[i] < from + |hs|
    ensures forall i :: 0 <= i < |TrampStarts(hs, pos)| ==> TrampStarts(hs, pos)[i] <= pos + 8 * |hs|
    decreases |hs|
  {
    hide Is32, FirstLength;
    if hs != [] && Whole(hs) {
      FirstLengthPositive(hs);
      StartsBounded(hs[Size(hs)..], from + Size(hs), pos + FirstLength(hs));
    }
  }

  /** Every recorded position is the start of an instruction, and of its chunk. */
  lemma {:induction false} StartsAreBoundaries(tr: bv32, hs: seq<bv16>, from: nat, pos: nat, i: nat)
    requires i < |OrigStarts(hs, from)| && i < |TrampStarts(hs, pos)|
    ensures
      var k, p := OrigStarts(hs, from)[i], TrampStarts(hs, pos)[i];
      && k >= from && p >= pos && Boundary(hs, k - from)
      && ChunkAddress(tr, hs, k - from) == Advance(tr, p - pos)
    decreases |hs|
  {
    hide Is32, FirstLength, Next, OrigStarts, TrampStarts, Boundary, ChunkAddress, Advance;
    if i == 0 {
      FirstEntries(tr, hs, from, pos);
    } else {
      SecondEntryIsWhole(hs, from, i);
      StartsUnfold(hs, from);
      TrampsUnfold(hs, pos);
      var n, l := Size(hs), FirstLength(hs);
      StartsAreBoundaries(Advance(tr, l), hs[n..], from + n, pos + l, i - 1);
      var k, p := OrigStarts(hs[n..], from + n)[i - 1], TrampStarts(hs[n..], pos + l)[i - 1];
      AdvanceAdds(tr, l, p - (pos + l));
      BoundaryStep(tr, hs, k - (from + n));
    }
  }

  /** And no start of an instruction is left out, nor that of a half one at the end: what is recorded is exactly the
      positions where the loop begins a round. */
  lemma {:induction false} EveryStartIsRecorded(hs: seq<bv16>, from: nat, k: nat)
    ensures from + k in OrigStarts(hs, from) <==> k < |hs| && Boundary(hs, k)
    decreases |hs|
  {
    hide Is32, OrigStarts;
    StartsUnfold(hs, from);
    if hs != [] && Whole(hs) {
      var n := Size(hs);
      OrigStartsIncrease(hs[n..], from + n);
      if k >= n {
        EveryStartIsRecorded(hs[n..], from + n, k - n);
        assert from + k == from + n + (k - n);
      }
    }
  }

  lemma StartsUnfold(hs: seq<bv16>, from: nat)
    ensures
      var rest := if Whole(hs) then OrigStarts(hs[Size(hs)..], from + Size(hs)) else [];
      OrigStarts(hs, from) == if hs == [] then [] else [from] + rest
  {
    hide Is32;
  }

  lemma TrampsUnfold(hs: seq<bv16>, pos: nat)
    ensures
      var rest := if Whole(hs) then TrampStarts(hs[Size(hs)..], pos + FirstLength(hs)) else [];
      TrampStarts(hs, pos) == if hs == [] then [] else [pos] + rest
  {
    hide Is32, FirstLength;
  }

  lemma FirstEntries(tr: bv32, hs: seq<bv16>, from: nat, pos: nat)
    requires OrigStarts(hs, from) != [] && TrampStarts(hs, pos) != []
    ensures OrigStarts(hs, from)[0] == from && TrampStarts(hs, pos)[0] == pos
    ensures Boundary(hs, 0) && ChunkAddress(tr, hs, 0) == Advance(tr, 0)
  {
    hide Is32, FirstLength;
  }

  lemma SecondEntryIsWhole(hs: seq<bv16>, from: nat, i: nat)
    requires 0 < i < |OrigStarts(hs, from)|
    ensures Whole(hs)
  {
    hide Is32;
  }

  // ----- The code -----

  /** `trampoline_instructions[i] = v` */
  method Put(trampoline: array<bv16>, pos: nat, v: bv16) returns (next: nat)
    requires pos < trampoline.Length
    modifies trampoline
    ensures next == pos + 1 && trampoline[..next] == old(trampoline[..pos]) + [v]
  {
    trampoline[pos] := v;
    next := pos + 1;
  }

  method PutTwo(trampoline: array<bv16>, pos: nat, u: bv16, v: bv16) returns (next: nat)
    requires pos + 2 <= trampoline.Length
    modifies trampoline
    ensures next == pos + 2 && trampoline[..next] == old(trampoline[..pos]) + [u, v]
  {
    next := Put(trampoline, pos, u);
    next := Put(trampoline, next, v);
  }

  method PutThree(trampoline: array<bv16>, pos: nat, u: bv16, v: bv16, w: bv16) returns (next: nat)
    requires pos + 3 <= trampoline.Length
    modifies trampoline
    ensures next == pos + 3 && trampoline[..next] == old(trampoline[..pos]) + [u, v, w]
  {
    next := PutTwo(trampoline, pos, u, v);
    next := Put(trampoline, next, w);
  }

  /** LDR.W PC, [PC] and its literal. */
  method PutJump(trampoline: array<bv16>, start: nat, value: bv32) returns (pos: nat)
    requires start + 4 <= trampoline.Length
    modifies trampoline
    ensures pos == start + 4 && trampoline[..pos] == old(trampoline[..start]) + Jump(value)
  {
    hide Low, High;
    pos := PutTwo(trampoline, start, 0xF8DF, 0xF000);
    pos := PutTwo(trampoline, pos, Low(value), High(value));
  }

  /** LDR Rr, [PC], a branch over the literal, and the literal. */
  method PutLoad(trampoline: array<bv16>, start: nat, r: bv16, value: bv32) returns (pos: nat)
    requires start + 4 <= trampoline.Length
    modifies trampoline
    ensures pos == start + 4 && trampoline[..pos] == old(trampoline[..start]) + LoadWords(r, value)
  {
    hide Low, High;
    pos := PutTwo(trampoline, start, 0x4800 | (r << 8), 0xE001);
    pos := PutTwo(trampoline, pos, Low(value), High(value));
  }

  /** The loop that looks for a register other than `rdn`, from R7 down. */
  method PickRegister(rdn: bv16) returns (r: bv16)
    ensures r == Borrowed(rdn) == TableRegister(rdn)
  {
    r := 7;
    while r == rdn
      invariant r == 7 || (r == 6 && rdn == 7)
      decreases r
    {
      r := r - 1;
    }
  }

  /** The loop that looks for a register other than both. */
  method PickSecond(rm: bv16, r: bv16) returns (rx: bv16)
    requires 6 <= r <= 7
    ensures rx == IndexRegister(rm, r)
  {
    rx := 7;
    while rx == rm || rx == r
      invariant rx == 7 || (rx == 6 && (rm == 7 || r == 7)) || (rx == 5 && ((rm == 7 && r == 6) || (rm == 6 && r == 7)))
      decreases rx
    {
      rx := rx - 1;
    }
  }

  method PutAdd(trampoline: array<bv16>, start: nat, w: bv16, pc: bv32) returns (pos: nat)
    requires start + 8 <= trampoline.Length
    modifies trampoline
    ensures pos == start + 8
    ensures trampoline[..pos] == old(trampoline[..start]) + AddWords(w, pc, Borrowed(((w & 0x80) >> 4) | (w & 7)))
  {
    hide Borrowed, AddWords;
    var r := PickRegister(((w & 0x80) >> 4) | (w & 7));
    pos := PutAddWith(trampoline, start, w, pc, r);
  }

  method PutAddWith(trampoline: array<bv16>, start: nat, w: bv16, pc: bv32, r: bv16) returns (pos: nat)
    requires start + 8 <= trampoline.Length && r < 8
    modifies trampoline
    ensures pos == start + 8 && trampoline[..pos] == old(trampoline[..start]) + AddWords(w, pc, r)
  {
    hide Low, High, OneBit;
    pos := PutThree(trampoline, start, 0xB400 | OneBit(r), 0x4802 | (r << 8), (w & 0xFF87) | (r << 3));
    pos := PutThree(trampoline, pos, 0xBC00 | OneBit(r), 0xE002, 0xBF00);
    pos := PutTwo(trampoline, pos, Low(pc), High(pc));
  }

  /** A short branch over a skip, onto a long jump. */
  method PutConditional(trampoline: array<bv16>, start: nat, head: bv16, value: bv32) returns (pos: nat)
    requires start + 6 <= trampoline.Length
    modifies trampoline
    ensures pos == start + 6 && trampoline[..pos] == old(trampoline[..start]) + ([head, 0xE003] + Jump(value))
  {
    hide Jump;
    pos := PutTwo(trampoline, start, head, 0xE003);
    pos := PutJump(trampoline, pos, value);
  }

  /** One 16-bit instruction. */
  method RelocateInstructionInThumb16(pc: bv32, w: bv16, lit: bv32 -> bv32, trampoline: array<bv16>, start: nat)
    returns (pos: nat)
    requires start + 8 <= trampoline.Length
    modifies trampoline
    ensures pos == start + Length16(w)
    ensures trampoline[..pos] == old(trampoline[..start]) + Chunk16(pc, w, lit)
  {
    hide KindOf16, Jump, LoadWords, AddWords, Borrowed, TargetB1, TargetB2, TargetCb, ValueAdr, LiteralAddress, LowRd,
      LowRt, HeadB1, HeadCb;
    match KindOf16(w) {
      case B1 => pos := PutConditional(trampoline, start, HeadB1(w), TargetB1(pc, w));
      case B2 => pos := PutJump(trampoline, start, TargetB2(pc, w));
      case Bx => pos := PutJump(trampoline, start, pc);
      case Add => pos := PutAdd(trampoline, start, w, pc);
      case Mov => pos := PutLoad(trampoline, start, LowRd(w), pc);
      case Adr => pos := PutLoad(trampoline, start, LowRt(w), ValueAdr(pc, w));
      case Ldr => pos := PutLoad(trampoline, start, LowRt(w), lit(LiteralAddress(pc, w)));
      case Cb => pos := PutConditional(trampoline, start, HeadCb(w), TargetCb(pc, w));
      case Undefine16 =>
        pos := PutTwo(trampoline, start, w, 0xBF00);
    }
  }

  method PutTable(trampoline: array<bv16>, start: nat, kind: Kind32, pc: bv32, lo: bv16) returns (pos: nat)
    requires start + 14 <= trampoline.Length && (kind == Tbb || kind == Tbh)
    modifies trampoline
    ensures pos == start + 14
    ensures trampoline[..pos] == old(trampoline[..start]) + TableWords(kind, pc, lo)
  {
    hide TableRegister, IndexRegister, TableHead, TableEnd;
    var rm := lo & 0xF;
    var r := PickRegister(rm);
    var rx := PickSecond(rm, r);
    pos := PutTableHead(trampoline, start, kind, rm, r, rx);
    pos := PutTableEnd(trampoline, pos, r, rx, pc);
  }

  /** The address of the table entry, and the entry. */
  method PutTableHead(trampoline: array<bv16>, start: nat, kind: Kind32, rm: bv16, r: bv16, rx: bv16) returns (pos: nat)
    requires start + 6 <= trampoline.Length && (kind == Tbb || kind == Tbh) && rx < 8
    modifies trampoline
    ensures pos == start + 6 && trampoline[..pos] == old(trampoline[..start]) + TableHead(kind, rm, r, rx)
  {
    hide OneBit;
    pos := PutTwo(trampoline, start, 0xB400 | OneBit(rx), 0x4805 | (r << 8));
    pos := PutTwo(trampoline, pos, 0x4600 | (rm << 3) | rx, 0xEB00 | r);
    if kind == Tbb {
      pos := PutTwo(trampoline, pos, (rx << 8) | rx, 0x7800 | (rx << 3) | rx);
    } else {
      pos := PutTwo(trampoline, pos, 0x0040 | (rx << 8) | rx, 0x8800 | (rx << 3) | rx);
    }
  }

  /** The jump through the entry, and the literal. */
  method PutTableEnd(trampoline: array<bv16>, start: nat, r: bv16, rx: bv16, pc: bv32) returns (pos: nat)
    requires start + 8 <= trampoline.Length && rx < 8
    modifies trampoline
    ensures pos == start + 8 && trampoline[..pos] == old(trampoline[..start]) + TableEnd(r, rx, pc)
  {
    hide Low, High, OneBit;
    pos := PutThree(trampoline, start, 0xEB00 | r, 0x0040 | (r << 8) | rx, 0x3001 | (r << 8));
    pos := PutThree(trampoline, pos, 0xBC00 | OneBit(rx), 0x4700 | (r << 3), 0xBF00);
    pos := PutTwo(trampoline, pos, Low(pc), High(pc));
  }

  /** The link of a call, then the long jump. */
  method PutLink(trampoline: array<bv16>, start: nat, value: bv32) returns (pos: nat)
    requires start + 6 <= trampoline.Length
    modifies trampoline
    ensures pos == start + 6 && trampoline[..pos] == old(trampoline[..start]) + ([0xF20F, 0x0E09] + Jump(value))
  {
    hide Jump;
    pos := PutTwo(trampoline, start, 0xF20F, 0x0E09);
    pos := PutJump(trampoline, pos, value);
  }

  /** One 32-bit instruction. */
  method RelocateInstructionInThumb32(pc: bv32, hi: bv16, lo: bv16, lit: bv32 -> bv32, trampoline: array<bv16>,
                                      start: nat)
    returns (pos: nat)
    requires start + 14 <= trampoline.Length
    modifies trampoline
    ensures pos == start + Length32(hi, lo)
    ensures trampoline[..pos] == old(trampoline[..start]) + Chunk32(pc, hi, lo, lit)
  {
    hide KindOf32, Jump, LoadWords, TableWords, TargetW, ValueAdrW, LiteralAddressW;
    var kind := KindOf32(hi, lo);
    match kind {
      case Blx => pos := PutLink(trampoline, start, TargetW(kind, pc, hi, lo));
      case Bl => pos := PutLink(trampoline, start, TargetW(kind, pc, hi, lo));
      case B1W => pos := PutConditional(trampoline, start, 0xD000 | ((hi & 0x3C0) << 2), TargetW(kind, pc, hi, lo));
      case B2W => pos := PutJump(trampoline, start, TargetW(kind, pc, hi, lo));
      case Adr1W => pos := PutLoad(trampoline, start, (lo & 0xF00) >> 8, ValueAdrW(kind, pc, hi, lo));
      case Adr2W => pos := PutLoad(trampoline, start, (lo & 0xF00) >> 8, ValueAdrW(kind, pc, hi, lo));
      case LdrW => pos := PutLoad(trampoline, start, lo >> 12, lit(LiteralAddressW(pc, hi, lo)));
      case Tbb => pos := PutTable(trampoline, start, kind, pc, lo);
      case Tbh => pos := PutTable(trampoline, start, kind, pc, lo);
      case Undefine32 =>
        pos := PutTwo(trampoline, start, hi, lo);
    }
  }

  method RecordBoundary(origBoundaries: array<nat>, trampBoundaries: array<nat>, count: nat, orig: nat, tramp: nat)
    requires count < origBoundaries.Length && count < trampBoundaries.Length && origBoundaries != trampBoundaries
    modifies origBoundaries, trampBoundaries
    ensures origBoundaries[..count + 1] == old(origBoundaries[..count]) + [orig]
    ensures trampBoundaries[..count + 1] == old(trampBoundaries[..count]) + [tramp]
  {
    origBoundaries[count] := orig;
    trampBoundaries[count] := tramp;
  }

  /** One whole instruction of the loop. */
  method RelocateOne(pc: bv32, ghost at: bv32, hs: seq<bv16>, lit: bv32 -> bv32, trampoline: array<bv16>, start: nat)
    returns (pos: nat)
    requires Whole(hs) && pc == PcValue(at) && start + (if Is32(hs[0]) then 14 else 8) <= trampoline.Length
    modifies trampoline
    ensures pos == start + FirstLength(hs)
    ensures trampoline[..pos] == old(trampoline[..start]) + FirstChunk(at, hs, lit)
  {
    hide Chunk16, Chunk32, Length16, Length32, Is32, PcValue;
    if Is32(hs[0]) {
      pos := RelocateInstructionInThumb32(pc, hs[0], hs[1], lit, trampoline, start);
    } else {
      pos := RelocateInstructionInThumb16(pc, hs[0], lit, trampoline, start);
    }
  }

  /** One round of the loop that finds a whole instruction. */
  method RelocateRound(ghost at: bv32, pc: bv32, hs: seq<bv16>, lit: bv32 -> bv32, trampoline: array<bv16>, start: nat,
                       origBoundaries: array<nat>, trampBoundaries: array<nat>, count: nat, i: nat)
    returns (pos: nat)
    requires Whole(hs) && pc == PcValue(at) && start + (if Is32(hs[0]) then 14 else 8) <= trampoline.Length
    requires count < origBoundaries.Length && count < trampBoundaries.Length && origBoundaries != trampBoundaries
    requires trampoline as object != origBoundaries && trampoline as object != trampBoundaries
    modifies trampoline, origBoundaries, trampBoundaries
    ensures pos == start + FirstLength(hs)
    ensures trampoline[..pos] == old(trampoline[..start]) + FirstChunk(at, hs, lit)
    ensures origBoundaries[..count + 1] == old(origBoundaries[..count]) + [2 * i]
    ensures trampBoundaries[..count + 1] == old(trampBoundaries[..count]) + [2 * start]
  {
    hide FirstChunk, FirstLength, Is32, PcValue;
    RecordBoundary(origBoundaries, trampBoundaries, count, 2 * i, 2 * start);
    pos := RelocateOne(pc, at, hs, lit, trampoline, start);
  }

  /** The whole relocation: trampoline and boundary tables, appended from entry `count` on. */
  method RelocateInstructionInThumb(target: bv32, original: array<bv16>, length: nat, lit: bv32 -> bv32,
                                    trampoline: array<bv16>, origBoundaries: array<nat>, trampBoundaries: array<nat>,
                                    count: nat)
    returns (newCount: nat, end: nat)
    requires 0 < length / 2 <= original.Length && original != trampoline
    requires 8 * (length / 2) + 4 <= trampoline.Length
    requires count + length / 2 <= origBoundaries.Length && count + length / 2 <= trampBoundaries.Length
    requires origBoundaries != trampBoundaries
    requires {original as object, trampoline} !! {origBoundaries as object, trampBoundaries}
    modifies trampoline, origBoundaries, trampBoundaries
    ensures end <= trampoline.Length && trampoline[..end] == Trampoline(target, original[..length / 2], lit)
    ensures count <= newCount <= origBoundaries.Length && newCount <= trampBoundaries.Length
    ensures origBoundaries[..newCount] == old(origBoundaries[..count]) + Bytes(OrigStarts(original[..length / 2], 0))
    ensures trampBoundaries[..newCount] == old(trampBoundaries[..count]) + Bytes(TrampStarts(original[..length / 2], 0))
  {
    hide FirstChunk, FirstLength, Is32, OrigStarts, TrampStarts, Trampoline, Chunks, Consumed, Advance, Tail, Bytes,
      Progress, Next, Following, PcValue;
    var n := length / 2;
    var hs := original[..n];
    ghost var origs, tramps := origBoundaries[..count], trampBoundaries[..count];
    var i: nat := 0;
    var pos: nat := 0;
    newCount := count;
    var pc := PcValue(target);
    LoopStarts(target, hs, lit, trampoline[..0], origs, tramps);
    while i < n
      invariant i <= n && pos <= 8 * i && count <= newCount <= count + i
      invariant pc == PcValue(Advance(target, i))
      invariant Progress(target, hs, lit, i, pos, trampoline[..pos], origs, tramps,
                         origBoundaries[..newCount], trampBoundaries[..newCount])
    {
      var rest := hs[i..];
      if Is32(rest[0]) && i + 2 > n {
        HalfStops(target, hs, lit, i, pos, trampoline[..pos], origs, tramps, origBoundaries[..newCount],
            trampBoundaries[..newCount]);
        RecordBoundary(origBoundaries, trampBoundaries, newCount, 2 * i, 2 * pos);
        newCount := newCount + 1;
        break;
      }
      RoundKeeps(target, hs, lit, i, pos, trampoline[..pos], origs, tramps, origBoundaries[..newCount],
          trampBoundaries[..newCount]);
      pos := RelocateRound(Advance(target, i), pc, rest, lit, trampoline, pos, origBoundaries, trampBoundaries,
          newCount, i);
      newCount := newCount + 1;
      pc := if Is32(rest[0]) then Following(pc) else Next(pc);
      i := i + Size(rest);
    }
    if i == n {
      LoopEnds(target, hs, lit, pos, trampoline[..pos], origs, tramps, origBoundaries[..newCount],
          trampBoundaries[..newCount]);
    }
    end := PutTail(trampoline, pos, Advance(target, i));
  }

  /** What the loop has done after `i` halfwords and `pos` positions, in terms of what is left to do. */
  ghost predicate Progress(target: bv32, hs: seq<bv16>, lit: bv32 -> bv32, i: nat, pos: nat, out: seq<bv16>,
                           origs: seq<nat>, tramps: seq<nat>, origNow: seq<nat>, trampNow: seq<nat>)
    requires i <= |hs|
  {
    && Boundary(hs, i) && Consumed(hs) == i + Consumed(hs[i..])
    && Chunks(target, hs, lit) == out + Chunks(Advance(target, i), hs[i..], lit)
    && origs + Bytes(OrigStarts(hs, 0)) == origNow + Bytes(OrigStarts(hs[i..], i))
    && tramps + Bytes(TrampStarts(hs, 0)) == trampNow + Bytes(TrampStarts(hs[i..], pos))
  }

  lemma LoopStarts(target: bv32, hs: seq<bv16>, lit: bv32 -> bv32, out: seq<bv16>, origs: seq<nat>, tramps: seq<nat>)
    requires out == []
    ensures Progress(target, hs, lit, 0, 0, out, origs, tramps, origs, tramps) && Advance(target, 0) == target
  {
    hide Chunks, OrigStarts, TrampStarts, Bytes, Consumed;
    assert hs[0..] == hs;
    assert [] + Chunks(target, hs, lit) == Chunks(target, hs, lit);
  }

  /** The round that finds half an instruction adds an entry, and the loop is done. */
  lemma HalfStops(target: bv32, hs: seq<bv16>, lit: bv32 -> bv32, i: nat, pos: nat, out: seq<bv16>, origs: seq<nat>,
                  tramps: seq<nat>, origNow: seq<nat>, trampNow: seq<nat>)
    requires i < |hs| && !Whole(hs[i..])
    requires Progress(target, hs, lit, i, pos, out, origs, tramps, origNow, trampNow)
    ensures Trampoline(target, hs, lit) == out + Tail(Advance(target, i))
    ensures origs + Bytes(OrigStarts(hs, 0)) == origNow + [2 * i]
    ensures tramps + Bytes(TrampStarts(hs, 0)) == trampNow + [2 * pos]
  {
    hide Advance, Tail, Is32, Boundary, Trampoline, Chunks, Consumed, OrigStarts, TrampStarts, Bytes;
    NothingLeft(Advance(target, i), hs[i..], lit, i, pos);
    TrampolineIsChunks(target, hs, lit);
    assert out + [] == out;
  }

  lemma NothingLeft(at: bv32, rest: seq<bv16>, lit: bv32 -> bv32, i: nat, pos: nat)
    requires !Whole(rest)
    ensures Chunks(at, rest, lit) == [] && Consumed(rest) == 0
    ensures rest != [] ==> Bytes(OrigStarts(rest, i)) == [2 * i] && Bytes(TrampStarts(rest, pos)) == [2 * pos]
    ensures rest == [] ==> Bytes(OrigStarts(rest, i)) == [] && Bytes(TrampStarts(rest, pos)) == []
  {
    hide Is32;
  }

  lemma LoopEnds(target: bv32, hs: seq<bv16>, lit: bv32 -> bv32, pos: nat, out: seq<bv16>, origs: seq<nat>,
                 tramps: seq<nat>, origNow: seq<nat>, trampNow: seq<nat>)
    requires Progress(target, hs, lit, |hs|, pos, out, origs, tramps, origNow, trampNow)
    ensures Trampoline(target, hs, lit) == out + Tail(Advance(target, |hs|))
    ensures origs + Bytes(OrigStarts(hs, 0)) == origNow
    ensures tramps + Bytes(TrampStarts(hs, 0)) == trampNow
  {
    hide Advance, Tail, Is32, Boundary, Trampoline, Chunks, Consumed, OrigStarts, TrampStarts, Bytes;
    NothingLeft(Advance(target, |hs|), hs[|hs|..], lit, |hs|, pos);
    TrampolineIsChunks(target, hs, lit);
    assert out + [] == out && origNow + [] == origNow && trampNow + [] == trampNow;
  }

  /** A round over a whole instruction keeps the account. */
  lemma RoundKeeps(target: bv32, hs: seq<bv16>, lit: bv32 -> bv32, i: nat, pos: nat, out: seq<bv16>, origs: seq<nat>,
                   tramps: seq<nat>, origNow: seq<nat>, trampNow: seq<nat>)
    requires i < |hs| && Whole(hs[i..])
    requires Progress(target, hs, lit, i, pos, out, origs, tramps, origNow, trampNow)
    ensures
      var rest := hs[i..];
      var n := Size(rest);
      && n == (if Is32(rest[0]) then 2 else 1)
      && FirstLength(rest) <= (if Is32(rest[0]) then 14 else 8) <= 8 * n
      && Progress(target, hs, lit, i + n, pos + FirstLength(rest), out + FirstChunk(Advance(target, i), rest, lit),
                  origs, tramps, origNow + [2 * i], trampNow + [2 * pos])
      && PcValue(Advance(target, i + n))
         == if Is32(rest[0]) then Following(PcValue(Advance(target, i))) else Next(PcValue(Advance(target, i)))
  {
    hide FirstChunk, FirstLength, Is32, Chunks, OrigStarts, TrampStarts, Bytes, Advance, Next, Following, PcValue,
      Boundary, Consumed;
    var rest := hs[i..];
    var n := Size(rest);
    LoopRound(target, hs, i, lit);
    TablesRound(hs, i, pos);
    Regroup(origNow, [2 * i], Bytes(OrigStarts(hs[i + n..], i + n)));
    Regroup(trampNow, [2 * pos], Bytes(TrampStarts(hs[i + n..], pos + FirstLength(rest))));
    Regroup(out, FirstChunk(Advance(target, i), rest, lit), Chunks(Advance(target, i + n), hs[i + n..], lit));
    PcMovesOne(target, i);
    PcMovesTwo(target, i);
  }

  method PutTail(trampoline: array<bv16>, start: nat, at: bv32) returns (pos: nat)
    requires start + 4 <= trampoline.Length
    modifies trampoline
    ensures pos == start + 4 && trampoline[..pos] == old(trampoline[..start]) + Tail(at)
  {
    hide Jump, PlusOne;
    pos := PutJump(trampoline, start, PlusOne(at));
  }

  /** What one round over a whole instruction adds to the trampoline. */
  lemma LoopRound(target: bv32, hs: seq<bv16>, i: nat, lit: bv32 -> bv32)
    requires i < |hs| && Boundary(hs, i) && Whole(hs[i..])
    ensures
      var rest := hs[i..];
      var n := Size(rest);
      var at := Advance(target, i);
      && Boundary(hs, i + n)
      && Chunks(at, rest, lit) == FirstChunk(at, rest, lit) + Chunks(Advance(target, i + n), hs[i + n..], lit)
      && Consumed(rest) == n + Consumed(hs[i + n..])
      && FirstLength(rest) <= (if Is32(rest[0]) then 14 else 8) <= 8 * n && n == if Is32(rest[0]) then 2 else 1
  {
    hide FirstChunk, FirstLength, Is32, Next, Advance;
    var rest := hs[i..];
    var n := Size(rest);
    assert rest[n..] == hs[i + n..];
    AdvanceAdds(target, i, n);
    ChunkHasItsLength(Advance(target, i), rest, lit);
    assert Boundary(rest, n) by { assert Boundary(rest[n..], 0); }
    ChunkAddressAdds(0, hs, i, n);
  }

  /** What it adds to the tables. */
  lemma TablesRound(hs: seq<bv16>, i: nat, pos: nat)
    requires i < |hs| && Whole(hs[i..])
    ensures
      var rest := hs[i..];
      var n := Size(rest);
      && Bytes(OrigStarts(rest, i)) == [2 * i] + Bytes(OrigStarts(hs[i + n..], i + n))
      && Bytes(TrampStarts(rest, pos)) == [2 * pos] + Bytes(TrampStarts(hs[i + n..], pos + FirstLength(rest)))
  {
    hide FirstLength, Is32, Bytes, OrigStarts, TrampStarts;
    var rest := hs[i..];
    var n := Size(rest);
    assert rest[n..] == hs[i + n..];
    StartsUnfold(rest, i);
    TrampsUnfold(rest, pos);
    BytesCons(i, OrigStarts(hs[i + n..], i + n));
    BytesCons(pos, TrampStarts(hs[i + n..], pos + FirstLength(rest)));
  }

  lemma Regroup<T>(a: seq<T>, b: seq<T>, c: seq<T>)
    ensures a + (b + c) == a + b + c
  {
  }

  lemma BytesCons(x: nat, s: seq<nat>)
    ensures Bytes([x] + s) == [2 * x] + Bytes(s)
  {
  }

  lemma PcMovesOne(target: bv32, i: nat)
    ensures PcValue(Advance(target, i + 1)) == Next(PcValue(Advance(target, i)))
  {
    hide PcValue, Next, Advance;
    AdvanceAdds(target, i, 1);
    AdvanceOne(Advance(target, i));
    PcNext(Advance(target, i));
  }

  lemma PcMovesTwo(target: bv32, i: nat)
    ensures PcValue(Advance(target, i + 2)) == Following(PcValue(Advance(target, i)))
  {
    hide PcValue, Next, Advance, Following;
    AdvanceAdds(target, i, 2);
    AdvanceTwo(Advance(target, i));
    PcNextNext(Advance(target, i));
  }

  lemma AdvanceOne(a: bv32)
    ensures Advance(a, 1) == Next(a)
  {
    hide Next;
  }

  lemma PcNext(a: bv32)
    ensures PcValue(Next(a)) == Next(PcValue(a))
  {
  }

  lemma PcNextNext(a: bv32)
    ensures PcValue(Next(Next(a))) == Following(PcValue(a))
  {
  }
}
