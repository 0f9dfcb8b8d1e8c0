/** The ARM relocator as it works: running positions into the trampoline and the two boundary tables. */
module ArmRelocator {
  import opened Words
  import opened ArmMachine
  import opened ArmChunks

  /** The chunks of `ws`, without the jump back. */
  function Chunks(at: bv32, ws: seq<bv32>, lit: bv32 -> bv32): seq<bv32>
    decreases |ws|
  {
    if ws == [] then [] else Chunk(PcValue(at), ws[0], lit) + Chunks(Next(at), ws[1..], lit)
  }

  /** How many words precede the chunk of word `k`. */
  function ChunkStart(ws: seq<bv32>, k: nat): nat
    requires k <= |ws|
  {
    if k == 0 then 0 else ChunkStart(ws, k - 1) + ChunkLength(ws[k - 1])
  }

  // ----- The chunks laid out -----

  lemma {:induction false} ChunksAppend(at: bv32, ws: seq<bv32>, w: bv32, lit: bv32 -> bv32)
    ensures Chunks(at, ws + [w], lit) == Chunks(at, ws, lit) + Chunk(PcValue(Advance(at, |ws|)), w, lit)
    decreases |ws|
  {
    hide Chunk, Next, PcValue;
    if ws == [] {
      assert ws + [w] == [w];
      assert Chunks(at, [w], lit) == Chunk(PcValue(at), w, lit) + Chunks(Next(at), [w][1..], lit);
    } else {
      assert (ws + [w])[1..] == ws[1..] + [w];
      ChunksAppend(Next(at), ws[1..], w, lit);
    }
  }

  lemma {:induction false} TrampolineIsChunks(at: bv32, ws: seq<bv32>, lit: bv32 -> bv32)
    ensures Trampoline(at, ws, lit) == Chunks(at, ws, lit) + [0xE51FF004, Advance(at, |ws|)]
    decreases |ws|
  {
    hide Chunk, Next, PcValue;
    if ws != [] {
      TrampolineIsChunks(Next(at), ws[1..], lit);
    }
  }

  lemma {:induction false} AdvanceOne(a: bv32, n: nat)
    ensures Advance(a, n + 1) == Next(Advance(a, n))
    decreases n
  {
    hide Next;
    if n > 0 {
      AdvanceOne(Next(a), n - 1);
    }
  }

  /** No word needs more than six; starts grow strictly. */
  lemma {:induction false} ChunkStartBounds(ws: seq<bv32>, k: nat)
    requires k <= |ws|
    ensures k <= ChunkStart(ws, k) <= 6 * k
    ensures forall j :: 0 <= j < k ==> ChunkStart(ws, j) < ChunkStart(ws, k)
    decreases k
  {
    hide KindOf;
    if k > 0 {
      ChunkStartBounds(ws, k - 1);
    }
  }

  lemma ChunkHasLength(pc: bv32, w: bv32, lit: bv32 -> bv32)
    ensures |Chunk(pc, w, lit)| == ChunkLength(w)
  {
    hide BranchLiteral, LoadedValue, Borrowed;
  }

  /** `w` words need at most `6w + 2`. */
  lemma {:induction false} TrampolineFits(at: bv32, ws: seq<bv32>, lit: bv32 -> bv32)
    ensures |Trampoline(at, ws, lit)| <= 6 * |ws| + 2
    decreases |ws|
  {
    hide Chunk, KindOf, Next, PcValue;
    if ws != [] {
      ChunkHasLength(PcValue(at), ws[0], lit);
      TrampolineFits(Next(at), ws[1..], lit);
    }
  }

  // ----- The code -----

  /** The loop that looks for a register an ADD can borrow. */
  method PickRegister(rd: bv32, rm: bv32) returns (r: bv32)
    ensures r == Borrowed(rd, rm)
  {
    r := 12;
    while r == rd || r == rm
      invariant r == 12 || (r == 11 && (rd == 12 || rm == 12))
             || (r == 10 && ((rd == 12 && rm == 11) || (rd == 11 && rm == 12)))
      decreases r
    {
      r := r - 1;
    }
  }

  /** `trampoline_instructions[trampoline_pos++] = v` */
  method Put(trampoline: array<bv32>, pos: nat, v: bv32) returns (next: nat)
    requires pos < trampoline.Length
    modifies trampoline
    ensures next == pos + 1 && trampoline[..next] == old(trampoline[..pos]) + [v]
  {
    trampoline[pos] := v;
    next := pos + 1;
  }

  method PutThree(trampoline: array<bv32>, pos: nat, u: bv32, v: bv32, w: bv32) returns (next: nat)
    requires pos + 3 <= trampoline.Length
    modifies trampoline
    ensures next == pos + 3 && trampoline[..next] == old(trampoline[..pos]) + [u, v, w]
  {
    next := Put(trampoline, pos, u);
    next := Put(trampoline, next, v);
    next := Put(trampoline, next, w);
  }

  /** One round of the relocation loop: the chunk of `w` written from `start` on. */
  method EmitChunk(pc: bv32, w: bv32, lit: bv32 -> bv32, trampoline: array<bv32>, start: nat) returns (pos: nat)
    requires start + 6 <= trampoline.Length
    modifies trampoline
    ensures pos == start + ChunkLength(w)
    ensures trampoline[..pos] == old(trampoline[..start]) + Chunk(pc, w, lit)
  {
    hide BranchOffset, Plus, Minus, KindOf, LoadedValue, Borrowed;
    var kind := KindOf(w);
    if kind == BlxArm || kind == BlArm || kind == BArm || kind == BxArm {
      pos := start;
      if kind == BlxArm || kind == BlArm {
        pos := Put(trampoline, pos, 0xE28FE004);
      }
      pos := Put(trampoline, pos, 0xE51FF004);
      var imm32 := BranchOffset(kind, w);
      var value := if kind == BlxArm then Plus(pc, imm32) + 1 else Plus(pc, imm32);
      pos := Put(trampoline, pos, value);
    } else if kind == AddArm {
      pos := EmitAdd(pc, w, trampoline, start);
    } else if kind == Undefine {
      pos := Put(trampoline, start, w);
    } else {
      var value := LoadedValue(kind, pc, w, lit);
      pos := PutThree(trampoline, start, 0xE51F0000 | (w & 0xF000), 0xE28FF000, value);
    }
  }

  /** The branch of the loop for an ADD. */
  method EmitAdd(pc: bv32, w: bv32, trampoline: array<bv32>, start: nat) returns (pos: nat)
    requires start + 6 <= trampoline.Length
    modifies trampoline
    ensures pos == start + 6
    ensures trampoline[..pos] == old(trampoline[..start]) + AddChunkWords(w, pc, Borrowed((w & 0xF000) >> 12, w & 0xF))
  {
    hide Borrowed, AddChunkWords;
    var r := PickRegister((w & 0xF000) >> 12, w & 0xF);
    pos := EmitAddWith(pc, w, r, trampoline, start);
  }

  method EmitAddWith(pc: bv32, w: bv32, r: bv32, trampoline: array<bv32>, start: nat) returns (pos: nat)
    requires start + 6 <= trampoline.Length
    modifies trampoline
    ensures pos == start + 6 && trampoline[..pos] == old(trampoline[..start]) + AddChunkWords(w, pc, r)
  {
    pos := PutThree(trampoline, start, 0xE52D0004 | (r << 12), 0xE59F0008 | (r << 12), (w & 0xFFF0FFFF) | (r << 16));
    pos := PutThree(trampoline, pos, 0xE49D0004 | (r << 12), 0xE28FF000, pc);
  }

  /** Where the first `n` words start, in bytes. */
  function OrigStarts(n: nat): seq<nat> { seq(n, k => 4 * k) }

  /** Where the chunks of the first `n` words start, in bytes. */
  function TrampStarts(ws: seq<bv32>, n: nat): seq<nat>
    requires n <= |ws|
  {
    seq(n, k requires 0 <= k < n => 4 * ChunkStart(ws, k))
  }

  /** The entry made in both boundary tables before each chunk. */
  method RecordBoundary(origBoundaries: array<nat>, trampBoundaries: array<nat>, count: nat, orig: nat, tramp: nat)
    requires count < origBoundaries.Length && count < trampBoundaries.Length && origBoundaries != trampBoundaries
    modifies origBoundaries, trampBoundaries
    ensures origBoundaries[..count + 1] == old(origBoundaries[..count]) + [orig]
    ensures trampBoundaries[..count + 1] == old(trampBoundaries[..count]) + [tramp]
  {
    origBoundaries[count] := orig;
    trampBoundaries[count] := tramp;
  }

  /** One round of the relocation loop: both table entries, then the chunk. */
  method RelocateOne(pc: bv32, w: bv32, lit: bv32 -> bv32, trampoline: array<bv32>, start: nat,
                     origBoundaries: array<nat>, trampBoundaries: array<nat>, count: nat, i: nat)
    returns (pos: nat)
    requires start + 6 <= trampoline.Length
    requires count < origBoundaries.Length && count < trampBoundaries.Length && origBoundaries != trampBoundaries
    requires trampoline as object != origBoundaries && trampoline as object != trampBoundaries
    modifies trampoline, origBoundaries, trampBoundaries
    ensures pos == start + ChunkLength(w)
    ensures trampoline[..pos] == old(trampoline[..start]) + Chunk(pc, w, lit)
    ensures origBoundaries[..count + 1] == old(origBoundaries[..count]) + [4 * i]
    ensures trampBoundaries[..count + 1] == old(trampBoundaries[..count]) + [4 * start]
  {
    hide Chunk, ChunkLength;
    RecordBoundary(origBoundaries, trampBoundaries, count, i * 4, start * 4);
    pos := EmitChunk(pc, w, lit, trampoline, start);
  }

  /** The whole relocation: trampoline and boundary tables, appended from entry `count` on. */
  method RelocateInstructionInArm(target: bv32, original: array<bv32>, length: nat, lit: bv32 -> bv32,
                                  trampoline: array<bv32>, origBoundaries: array<nat>, trampBoundaries: array<nat>,
                                  count: nat)
    returns (newCount: nat, end: nat)
    requires length % 4 == 0 && length / 4 <= original.Length && original != trampoline
    requires 6 * (length / 4) + 2 <= trampoline.Length
    requires count + length / 4 <= origBoundaries.Length && count + length / 4 <= trampBoundaries.Length
    requires origBoundaries != trampBoundaries
    requires {original as object, trampoline} !! {origBoundaries as object, trampBoundaries}
    modifies trampoline, origBoundaries, trampBoundaries
    ensures newCount == count + length / 4
    ensures end <= trampoline.Length && trampoline[..end] == Trampoline(target, original[..length / 4], lit)
    ensures origBoundaries[..newCount] == old(origBoundaries[..count]) + OrigStarts(length / 4)
    ensures trampBoundaries[..newCount]
         == old(trampBoundaries[..count]) + TrampStarts(original[..length / 4], length / 4)
  {
    hide Chunk, ChunkLength, Next, KindOf, PcValue, ChunkStart, Chunks, Advance, OrigStarts, TrampStarts, Trampoline;
    ghost var ws := original[..length / 4];
    ghost var origs, tramps := origBoundaries[..count], trampBoundaries[..count];
    var words := length / 4;
    var pc := PcValue(target);
    var pos := 0;
    newCount := count;
    var i := 0;
    StartOfChunks(target, ws, lit);
    while i < words
      invariant 0 <= i <= words == |ws| && newCount == count + i
      invariant original[..words] == ws
      invariant pc == PcValue(Advance(target, i))
      invariant pos == ChunkStart(ws, i) <= 6 * i
      invariant trampoline[..pos] == Chunks(target, ws[..i], lit)
      invariant origBoundaries[..newCount] == origs + OrigStarts(i)
      invariant trampBoundaries[..newCount] == tramps + TrampStarts(ws, i)
    {
      assert original[i] == original[..words][i] == ws[i];
      pos := RelocateOne(pc, original[i], lit, trampoline, pos, origBoundaries, trampBoundaries, newCount, i);
      newCount := newCount + 1;
      StartsGrow(ws, i);
      ChunksGrow(target, ws, i, lit);
      NextPc(Advance(target, i));
      pc := pc + 4;
      i := i + 1;
    }
    assert ws[..i] == ws;
    TrampolineIsChunks(target, ws, lit);
    pos := Put(trampoline, pos, 0xE51FF004);
    end := Put(trampoline, pos, Advance(target, words));
    assert trampoline[..end] == Trampoline(target, ws, lit);
  }

  lemma StartsGrow(ws: seq<bv32>, i: nat)
    requires i < |ws|
    ensures OrigStarts(i + 1) == OrigStarts(i) + [4 * i]
    ensures TrampStarts(ws, i + 1) == TrampStarts(ws, i) + [4 * ChunkStart(ws, i)]
  {
    hide ChunkStart;
  }

  lemma StartOfChunks(target: bv32, ws: seq<bv32>, lit: bv32 -> bv32)
    ensures OrigStarts(0) == [] && TrampStarts(ws, 0) == []
    ensures Chunks(target, ws[..0], lit) == [] && ChunkStart(ws, 0) == 0 && Advance(target, 0) == target
  {
  }

  lemma ChunksGrow(target: bv32, ws: seq<bv32>, i: nat, lit: bv32 -> bv32)
    requires i < |ws|
    ensures Chunks(target, ws[..i + 1], lit)
         == Chunks(target, ws[..i], lit) + Chunk(PcValue(Advance(target, i)), ws[i], lit)
    ensures ChunkStart(ws, i + 1) == ChunkStart(ws, i) + ChunkLength(ws[i]) <= 6 * (i + 1)
    ensures Advance(target, i + 1) == Next(Advance(target, i))
  {
    hide Chunk, Chunks, Next, PcValue, Advance, KindOf;
    ChunksAppend(target, ws[..i], ws[i], lit);
    assert ws[..i] + [ws[i]] == ws[..i + 1];
    AdvanceOne(target, i);
    ChunkStartBounds(ws, i + 1);
  }

  lemma NextPc(a: bv32)
    ensures PcValue(Next(a)) == PcValue(a) + 4
  {
  }

  /** The recorded starts are where the chunks are. */
  lemma {:induction false} ChunkStartAddress(tr: bv32, ws: seq<bv32>, k: nat)
    requires k <= |ws|
    ensures ChunkAddress(tr, ws, k) == Advance(tr, ChunkStart(ws, k))
    decreases k
  {
    hide ChunkLength, Next;
    if k > 0 {
      ChunkStartAddress(Advance(tr, ChunkLength(ws[0])), ws[1..], k - 1);
      AdvanceAdds(tr, ChunkLength(ws[0]), ChunkStart(ws[1..], k - 1));
      ChunkStartTail(ws, k);
    }
  }

  lemma {:induction false} ChunkStartTail(ws: seq<bv32>, k: nat)
    requires 0 < k <= |ws|
    ensures ChunkStart(ws, k) == ChunkLength(ws[0]) + ChunkStart(ws[1..], k - 1)
    decreases k
  {
    hide ChunkLength;
    if k > 1 {
      ChunkStartTail(ws, k - 1);
    }
  }

  lemma {:induction false} AdvanceAdds(a: bv32, m: nat, n: nat)
    ensures Advance(Advance(a, m), n) == Advance(a, m + n)
    decreases m
  {
    hide Next;
    if m > 0 {
      AdvanceAdds(Next(a), m - 1, n);
    }
  }
}
