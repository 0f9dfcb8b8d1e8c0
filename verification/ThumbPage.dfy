/** A page that holds a Thumb trampoline, and the literals it was made with. */
module ThumbPage {
  import Words
  import opened ThumbMachine
  import opened ThumbChunks
  import opened ThumbDomain
  import opened ThumbChunkRuns
  import opened ThumbMeaning
  import opened ThumbSimulation

  /** Every step of the original run is safe, and the code of the page is there before and after it. */
  ghost predicate Careful(isa: Isa, scratch: bv32 -> bool, at: bv32, hs: seq<bv16>, lit: bv32 -> bv32, page: bv32,
                          code: seq<bv16>, c: Core)
    decreases |hs|
  {
    && Holds(c.mem, scratch, page, code)
    && (Whole(hs) ==>
          && StepSafe(isa, scratch, at, hs, lit, c)
          && var o := ExecFirst(isa, at, hs, c);
             (o.Fall? ==>
                Careful(isa, scratch, Advance(at, Size(hs)), hs[Size(hs)..], lit, page, code, o.core)))
  }

  lemma CarefulHolds(isa: Isa, scratch: bv32 -> bool, at: bv32, hs: seq<bv16>, lit: bv32 -> bv32, page: bv32,
                     before: seq<bv16>, code: seq<bv16>, c: Core)
    requires Careful(isa, scratch, at, hs, lit, page, before + code, c)
    ensures Holds(c.mem, scratch, Advance(page, |before|), code)
  {
    hide Holds, Advance, StepSafe, ExecFirst;
    HoldsSplit(c.mem, scratch, page, before, code);
  }

  /** If the page ends with the trampoline of the halfwords, such a run is safe for it. */
  lemma {:induction false} CarefulIsSafe(isa: Isa, scratch: bv32 -> bool, at: bv32, hs: seq<bv16>, lit: bv32 -> bv32,
                                         page: bv32, before: seq<bv16>, c: Core)
    requires Careful(isa, scratch, at, hs, lit, page, before + Trampoline(at, hs, lit), c)
    ensures Safe(isa, scratch, at, hs, lit, Advance(page, |before|), c)
    decreases |hs|
  {
    hide ExecFirst, StepSafe, Holds, Advance, Next, FirstChunk, FirstLength, Is32, Tail;
    CarefulHolds(isa, scratch, at, hs, lit, page, before, Trampoline(at, hs, lit), c);
    if Whole(hs) {
      var o := ExecFirst(isa, at, hs, c);
      if o.Fall? {
        var next, rest := Advance(at, Size(hs)), hs[Size(hs)..];
        var more := before + FirstChunk(at, hs, lit);
        assert before + Trampoline(at, hs, lit) == more + Trampoline(next, rest, lit);
        CarefulIsSafe(isa, scratch, next, rest, lit, page, more, o.core);
        CarefulHolds(isa, scratch, next, rest, lit, page, before, Trampoline(at, hs, lit), o.core);
        ChunkHasItsLength(at, hs, lit);
        AdvanceAdds(page, |before|, FirstLength(hs));
      }
    }
  }

  lemma BehindFirst(at: bv32, hs: seq<bv16>, lit: bv32 -> bv32, rest: seq<bv16>, end: seq<bv16>)
    requires Whole(hs) && Trampoline(Advance(at, Size(hs)), hs[Size(hs)..], lit) == rest + end
    ensures Trampoline(at, hs, lit) == (FirstChunk(at, hs, lit) + rest) + end
  {
    hide FirstChunk, Is32, Tail, Advance;
  }

  /** What is in a trampoline before the chunk of the instruction at halfword `k`. */
  lemma {:induction false} TrampolineSplits(at: bv32, hs: seq<bv16>, lit: bv32 -> bv32, page: bv32, k: nat)
    returns (before: seq<bv16>)
    requires k <= |hs| && Boundary(hs, k)
    ensures Trampoline(at, hs, lit) == before + Trampoline(Advance(at, k), hs[k..], lit)
    ensures Advance(page, |before|) == ChunkAddress(page, hs, k)
    decreases |hs|
  {
    hide Next, FirstChunk, FirstLength, Is32, Tail, Boundary, ChunkAddress, Trampoline;
    if k == 0 {
      NoChunksBefore(page, hs);
      before := [];
      assert hs[0..] == hs;
    } else {
      BoundaryOfRest(page, hs, k);
      var n, s := FirstLength(hs), Size(hs);
      BoundaryWithin(hs[s..], k - s);
      var rest := TrampolineSplits(Advance(at, s), hs[s..], lit, Advance(page, n), k - s);
      AdvanceAdds(at, s, k - s);
      assert hs[s..][k - s..] == hs[k..];
      BehindFirst(at, hs, lit, rest, Trampoline(Advance(at, k), hs[k..], lit));
      before := FirstChunk(at, hs, lit) + rest;
      ChunkHasItsLength(at, hs, lit);
      AdvanceAdds(page, n, |rest|);
    }
  }

  /** So a page that holds a whole trampoline, entered at any chunk, means what the instructions mean from there on. */
  lemma PageRuns(isa: Isa, scratch: bv32 -> bool, target: bv32, hs: seq<bv16>, lit: bv32 -> bv32, page: bv32, k: nat,
                 c: Core, d: Core)
    requires Boundary(hs, k) && k <= |hs| && KeepsAll(target, hs) && target & 1 == 0 && page & 3 == 0
    requires Local(isa, scratch) && Same(scratch, c, d)
    requires Careful(isa, scratch, Advance(target, k), hs[k..], lit, page, Trampoline(target, hs, lit), c)
    ensures
      var start := ChunkAddress(page, hs, k);
      exists n: nat ::
        Arrives(Original(isa, Advance(target, k), hs[k..], c), start, hs[k..], Run(isa, Running(start, true, d), n),
            scratch)
  {
    hide *;
    var before := TrampolineSplits(target, hs, lit, page, k);
    CarefulIsSafe(isa, scratch, Advance(target, k), hs[k..], lit, page, before, c);
    ThumbRelocationKeepsMeaning(isa, scratch, target, hs, lit, page, k, c, d);
  }

  // ----- What a relocation reads -----

  /** Where the first instruction loads a literal from, if it does. */
  function LiteralOfFirst(at: bv32, hs: seq<bv16>): set<bv32>
    requires Whole(hs)
  {
    if Is32(hs[0]) then if IsWideLiteralLoad(hs[0], hs[1]) then {LiteralOf32(at, hs[0], hs[1])} else {}
    else if IsLiteralLoad(hs[0]) then {LiteralOf16(at, hs[0])} else {}
  }

  /** The addresses of the literals that the instructions load. */
  function Literals(at: bv32, hs: seq<bv16>): set<bv32>
    decreases |hs|
  {
    if !Whole(hs) then {} else LiteralOfFirst(at, hs) + Literals(Advance(at, Size(hs)), hs[Size(hs)..])
  }

  lemma SameLoadIff(r: bv16, v: bv32, u: bv32)
    ensures LoadWords(r, v) == LoadWords(r, u) <==> v == u
  {
    hide Low, High;
    HalvesTell(v, u);
    assert LoadWords(r, v)[2] == Low(v) && LoadWords(r, v)[3] == High(v);
    assert LoadWords(r, u)[2] == Low(u) && LoadWords(r, u)[3] == High(u);
  }

  lemma HalvesTell(v: bv32, u: bv32)
    ensures Low(v) == Low(u) && High(v) == High(u) <==> v == u
  {
    hide Low, High, Join;
    JoinHalves(v);
    JoinHalves(u);
  }

  lemma SameNarrowIff(pc: bv32, w: bv16, lit: bv32 -> bv32, other: bv32 -> bv32)
    ensures Chunk16(pc, w, lit) == Chunk16(pc, w, other) <==>
      (KindOf16(w) == Ldr ==> lit(LiteralAddress(pc, w)) == other(LiteralAddress(pc, w)))
  {
    hide KindOf16, LiteralAddress, LoadWords, AddWords, Borrowed, Jump, TargetB1, TargetB2, TargetCb, ValueAdr, HeadB1,
      HeadCb, LowRd, LowRt;
    var a := LiteralAddress(pc, w);
    SameLoadIff(LowRt(w), lit(a), other(a));
  }

  lemma SameWideIff(pc: bv32, hi: bv16, lo: bv16, lit: bv32 -> bv32, other: bv32 -> bv32)
    ensures Chunk32(pc, hi, lo, lit) == Chunk32(pc, hi, lo, other) <==>
      (KindOf32(hi, lo) == LdrW ==> lit(LiteralAddressW(pc, hi, lo)) == other(LiteralAddressW(pc, hi, lo)))
  {
    hide KindOf32, LiteralAddressW, LoadWords, TableWords, Jump, TargetW, ValueAdrW;
    var a := LiteralAddressW(pc, hi, lo);
    SameLoadIff(lo >> 12, lit(a), other(a));
  }

  lemma SameFirstIff(at: bv32, hs: seq<bv16>, lit: bv32 -> bv32, other: bv32 -> bv32)
    requires Whole(hs)
    ensures |FirstChunk(at, hs, lit)| == |FirstChunk(at, hs, other)|
    ensures FirstChunk(at, hs, lit) == FirstChunk(at, hs, other) <==>
      forall a :: a in LiteralOfFirst(at, hs) ==> lit(a) == other(a)
  {
    hide Is32, Chunk16, Chunk32, KindOf16, KindOf32, FirstLength, PcValue, LiteralAddress, LiteralAddressW,
      IsLiteralLoad, IsWideLiteralLoad, LiteralOf16, LiteralOf32;
    ChunkHasItsLength(at, hs, lit);
    ChunkHasItsLength(at, hs, other);
    if Is32(hs[0]) {
      SameWideIff(PcValue(at), hs[0], hs[1], lit, other);
      WideLiteral(at, hs[0], hs[1]);
    } else {
      SameNarrowIff(PcValue(at), hs[0], lit, other);
      NarrowLiteral(at, hs[0]);
    }
  }

  lemma NarrowLiteral(at: bv32, w: bv16)
    ensures KindOf16(w) == Ldr <==> IsLiteralLoad(w)
    ensures LiteralAddress(PcValue(at), w) == LiteralOf16(at, w)
  {
    hide *;
    Kind16Is(w);
    LiteralsAre(at, w, 0);
  }

  lemma WideLiteral(at: bv32, hi: bv16, lo: bv16)
    ensures KindOf32(hi, lo) == LdrW <==> IsWideLiteralLoad(hi, lo)
    ensures LiteralAddressW(PcValue(at), hi, lo) == LiteralOf32(at, hi, lo)
  {
    hide *;
    Kind32Is(hi, lo);
    LiteralsAre(at, hi, lo);
  }

  /** Two trampolines of the same halfwords are equal exactly if they were made with the same words for those
      literals. */
  lemma {:induction false} OnlyLiteralsMatter(at: bv32, hs: seq<bv16>, lit: bv32 -> bv32, other: bv32 -> bv32)
    ensures Trampoline(at, hs, lit) == Trampoline(at, hs, other) <==>
      forall a :: a in Literals(at, hs) ==> lit(a) == other(a)
    decreases |hs|
  {
    hide Is32, FirstChunk, LiteralOfFirst, Advance, Tail;
    if Whole(hs) {
      var next, rest := Advance(at, Size(hs)), hs[Size(hs)..];
      SameFirstIff(at, hs, lit, other);
      Words.SamePartsIff(FirstChunk(at, hs, lit), Trampoline(next, rest, lit), FirstChunk(at, hs, other),
                   Trampoline(next, rest, other));
      OnlyLiteralsMatter(next, rest, lit, other);
    }
  }
}
