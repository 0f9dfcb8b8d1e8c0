/** A page that holds an ARM trampoline, and the literals it was made with. */
module ArmPage {
  import Words
  import opened ArmMachine
  import opened ArmChunks
  import opened ArmDomain
  import opened ArmSimulation
  import opened ArmMeaning
  import opened ArmRelocator

  /** Every step of the original run is safe, and the code of the page is there before and after it. */
  ghost predicate Careful(isa: Isa, scratch: bv32 -> bool, at: bv32, ws: seq<bv32>, lit: bv32 -> bv32, page: bv32,
                          code: seq<bv32>, c: Core)
    decreases |ws|
  {
    && Holds(c.mem, scratch, page, code)
    && (ws != [] ==>
          && StepSafe(isa, scratch, at, ws[0], lit, c)
          && var o := Exec(isa, at, ws[0], c);
             (o.Fall? ==> Careful(isa, scratch, Next(at), ws[1..], lit, page, code, o.core)))
  }

  /** If the page ends with the trampoline of the words, such a run is safe for it. */
  lemma {:induction false} CarefulIsSafe(isa: Isa, scratch: bv32 -> bool, at: bv32, ws: seq<bv32>, lit: bv32 -> bv32,
                                         page: bv32, before: seq<bv32>, c: Core)
    requires Careful(isa, scratch, at, ws, lit, page, before + Trampoline(at, ws, lit), c)
    ensures Safe(isa, scratch, at, ws, lit, Advance(page, |before|), c)
    decreases |ws|
  {
    hide Exec, StepSafe, Holds, Advance, Next, Chunk, ChunkLength;
    HoldsSplit(c.mem, scratch, page, before, Trampoline(at, ws, lit));
    if ws != [] {
      var o := Exec(isa, at, ws[0], c);
      if o.Fall? {
        var more := before + Chunk(PcValue(at), ws[0], lit);
        assert before + Trampoline(at, ws, lit) == more + Trampoline(Next(at), ws[1..], lit);
        CarefulIsSafe(isa, scratch, Next(at), ws[1..], lit, page, more, o.core);
        ChunkHasLength(PcValue(at), ws[0], lit);
        AdvanceAdds(page, |before|, ChunkLength(ws[0]));
      }
    }
  }

  /** What is in a trampoline before the chunk of word `k`. */
  lemma {:induction false} TrampolineSplits(at: bv32, ws: seq<bv32>, lit: bv32 -> bv32, page: bv32, k: nat)
    returns (before: seq<bv32>)
    requires k <= |ws|
    ensures Trampoline(at, ws, lit) == before + Trampoline(Advance(at, k), ws[k..], lit)
    ensures Advance(page, |before|) == ChunkAddress(page, ws, k)
    decreases k
  {
    hide Next, Chunk, ChunkLength;
    if k == 0 {
      before := [];
      assert ws[0..] == ws;
    } else {
      var n := ChunkLength(ws[0]);
      var first := Chunk(PcValue(at), ws[0], lit);
      ChunkHasLength(PcValue(at), ws[0], lit);
      var rest := TrampolineSplits(Next(at), ws[1..], lit, Advance(page, n), k - 1);
      assert ws[1..][k - 1..] == ws[k..];
      before := first + rest;
      AdvanceAdds(page, n, |rest|);
    }
  }

  /** So a page that holds a whole trampoline, entered at any chunk, means what the words mean from there on. */
  lemma PageRuns(isa: Isa, scratch: bv32 -> bool, target: bv32, ws: seq<bv32>, lit: bv32 -> bv32, page: bv32, k: nat,
                 c: Core, d: Core)
    requires k <= |ws| && Local(isa, scratch) && Relocatable(target, ws, page) && Same(scratch, c, d)
    requires Careful(isa, scratch, Advance(target, k), ws[k..], lit, page, Trampoline(target, ws, lit), c)
    ensures
      var start := ChunkAddress(page, ws, k);
      exists n: nat ::
        Arrives(Original(isa, Advance(target, k), ws[k..], c), start, ws[k..], Run(isa, Running(start, false, d), n),
            scratch)
  {
    hide *;
    var before := TrampolineSplits(target, ws, lit, page, k);
    CarefulIsSafe(isa, scratch, Advance(target, k), ws[k..], lit, page, before, c);
    ArmRelocationKeepsMeaning(isa, scratch, target, ws, lit, page, k, c, d);
  }

  // ----- What a relocation reads -----

  /** The addresses of the literals that the words load. */
  function Literals(at: bv32, ws: seq<bv32>): set<bv32>
    decreases |ws|
  {
    if ws == [] then {}
    else (if IsLiteralLoad(ws[0]) then {LiteralAddress(at, ws[0])} else {}) + Literals(Next(at), ws[1..])
  }

  lemma SameChunkIff(at: bv32, w: bv32, lit: bv32 -> bv32, other: bv32 -> bv32)
    ensures Chunk(PcValue(at), w, lit) == Chunk(PcValue(at), w, other) <==>
      (IsLiteralLoad(w) ==> lit(LiteralAddress(at, w)) == other(LiteralAddress(at, w)))
  {
    hide KindOf, LoadedValue, AddChunkWords, Borrowed, BranchLiteral, IsLiteralLoad, LiteralAddress;
    KindIs(w);
    if KindOf(w) == LdrArm {
      LoadedLiteral(at, w, lit);
      LoadedLiteral(at, w, other);
      assert Chunk(PcValue(at), w, lit)[2] == LoadedValue(LdrArm, at + 8, w, lit);
      assert Chunk(PcValue(at), w, other)[2] == LoadedValue(LdrArm, at + 8, w, other);
    } else {
      OnlyLoadsRead(KindOf(w), at + 8, w, lit, other);
    }
  }

  lemma OnlyLoadsRead(kind: Kind, pc: bv32, w: bv32, lit: bv32 -> bv32, other: bv32 -> bv32)
    requires kind != LdrArm
    ensures LoadedValue(kind, pc, w, lit) == LoadedValue(kind, pc, w, other)
  {
    hide Words.Plus, Words.Minus;
  }

  /** Two trampolines of the same words are equal exactly if they were made with the same words for those literals. */
  lemma {:induction false} OnlyLiteralsMatter(at: bv32, ws: seq<bv32>, lit: bv32 -> bv32, other: bv32 -> bv32)
    ensures Trampoline(at, ws, lit) == Trampoline(at, ws, other) <==>
      forall a :: a in Literals(at, ws) ==> lit(a) == other(a)
    decreases |ws|
  {
    hide IsLiteralLoad, LiteralAddress, Chunk, ChunkLength, Next;
    if ws != [] {
      SameChunkIff(at, ws[0], lit, other);
      ChunkHasLength(PcValue(at), ws[0], lit);
      ChunkHasLength(PcValue(at), ws[0], other);
      Words.SamePartsIff(Chunk(PcValue(at), ws[0], lit), Trampoline(Next(at), ws[1..], lit),
                   Chunk(PcValue(at), ws[0], other), Trampoline(Next(at), ws[1..], other));
      OnlyLiteralsMatter(Next(at), ws[1..], lit, other);
    }
  }
}
