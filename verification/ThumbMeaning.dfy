/** A whole Thumb trampoline means what the instructions under the patch meant. */
module ThumbMeaning {
  import opened Words
  import opened ThumbMachine
  import opened ThumbChunks
  import opened ThumbDomain
  import opened ThumbSimulation
  import opened ThumbChunkRuns

  /** How a run over the original halfwords ends: it leaves them, or leaves them with a link to halfword `next`. */
  datatype Exit =
    | Leave(dest: bv32, thumb: bool, core: Core)
    | LinkOut(dest: bv32, thumb: bool, next: nat, core: Core)
    | Lost

  function Later(n: nat, e: Exit): Exit {
    if e.LinkOut? then e.(next := e.next + n) else e
  }

  /** Halfword `k` of the stream starts an instruction, or ends the last whole one. */
  predicate Boundary(hs: seq<bv16>, k: nat)
    decreases |hs|
  {
    k == 0 || (Whole(hs) && k >= Size(hs) && Boundary(hs[Size(hs)..], k - Size(hs)))
  }

  /** Where the chunk of the instruction at halfword `k` starts, in a trampoline at `tr`. */
  function ChunkAddress(tr: bv32, hs: seq<bv16>, k: nat): bv32
    requires Boundary(hs, k)
    decreases |hs|
  {
    if k == 0 then tr else ChunkAddress(Advance(tr, FirstLength(hs)), hs[Size(hs)..], k - Size(hs))
  }

  function ExecFirst(isa: Isa, at: bv32, hs: seq<bv16>, c: Core): Outcome
    requires Whole(hs)
  {
    if Is32(hs[0]) then Exec32(isa, at, hs[0], hs[1], c) else Exec16(isa, at, hs[0], c)
  }

  /** The halfwords `hs`, executed where they were, at `at`. A lone first half of a 32-bit instruction is not executed
      here: the run goes on from it. */
  function Original(isa: Isa, at: bv32, hs: seq<bv16>, c: Core): (e: Exit)
    ensures e.LinkOut? ==> Boundary(hs, e.next)
    decreases |hs|
  {
    if !Whole(hs) then Leave(at, true, c)
    else
      match ExecFirst(isa, at, hs, c)
      case Fall(d) => Later(Size(hs), Original(isa, Advance(at, Size(hs)), hs[Size(hs)..], d))
      case Goto(a, t, d) => Leave(a, t, d)
      case Call(a, t, d) => LinkOut(a, t, Size(hs), d)
      case Unpredictable => Lost
  }

  /** The machine is where the original run ended; a link leads to the relocated successor. */
  ghost predicate Arrives(e: Exit, tr: bv32, hs: seq<bv16>, m: Machine, scratch: bv32 -> bool)
    requires e.LinkOut? ==> Boundary(hs, e.next)
  {
    match e
    case Leave(a, t, c) => m.Running? && m.pc == a && m.thumb == t && Same(scratch, c, m.core)
    case LinkOut(a, t, k, c) =>
      m.Running? && m.pc == a && m.thumb == t && Same(scratch, Set(c, LR, ThumbBit(ChunkAddress(tr, hs, k))), m.core)
    case Lost => true
  }

  /** What executing the first instruction must respect: the literal it loads is as it was at relocation, the stack word
      an ADD borrows is scratch, and anything copied reads no scratch and not the PC. */
  ghost predicate StepSafe(isa: Isa, scratch: bv32 -> bool, at: bv32, hs: seq<bv16>, lit: bv32 -> bv32, c: Core)
    requires Whole(hs)
  {
    if Is32(hs[0]) then StepSafe32(isa, scratch, at, hs[0], hs[1], lit, c)
    else StepSafe16(isa, scratch, at, hs[0], lit, c)
  }

  ghost predicate StepSafe32(isa: Isa, scratch: bv32 -> bool, at: bv32, hi: bv16, lo: bv16, lit: bv32 -> bv32,
                             c: Core) {
    && (IsWideLiteralLoad(hi, lo) ==> Load(c, LiteralOf32(at, hi, lo)) == lit(LiteralOf32(at, hi, lo)))
    && (!Rewritten32(hi, lo) ==> Portable(isa, scratch, Wide(hi, lo), c))
  }

  ghost predicate StepSafe16(isa: Isa, scratch: bv32 -> bool, at: bv32, w: bv16, lit: bv32 -> bv32, c: Core) {
    && (IsLiteralLoad(w) ==> Load(c, LiteralOf16(at, w)) == lit(LiteralOf16(at, w)))
    && (IsAddPc(w) ==> StackScratch(scratch, c))
    && (IsTrap(w) || !Rewritten16(w) ==> Portable(isa, scratch, w as bv32, c))
  }

  // ----- Which streams keep their meaning -----

  predicate Keeps(at: bv32, hs: seq<bv16>)
    requires Whole(hs)
  {
    if Is32(hs[0]) then Keeps32(at, hs[0], hs[1]) else Keeps16(hs[0])
  }

  /** Every instruction of the stream keeps its meaning. */
  predicate KeepsAll(at: bv32, hs: seq<bv16>)
    decreases |hs|
  {
    Whole(hs) ==> Keeps(at, hs) && KeepsAll(Advance(at, Size(hs)), hs[Size(hs)..])
  }

  /** Every step of the original run is safe, and none overwrites what is left of the trampoline. */
  ghost predicate Safe(isa: Isa, scratch: bv32 -> bool, at: bv32, hs: seq<bv16>, lit: bv32 -> bv32, tr: bv32, c: Core)
    decreases |hs|
  {
    && Holds(c.mem, scratch, tr, Trampoline(at, hs, lit))
    && (Whole(hs) ==>
          && StepSafe(isa, scratch, at, hs, lit, c)
          && var o := ExecFirst(isa, at, hs, c);
             (o.Fall? ==>
                && Holds(o.core.mem, scratch, tr, Trampoline(at, hs, lit))
                && Safe(isa, scratch, Advance(at, Size(hs)), hs[Size(hs)..], lit, Advance(tr, FirstLength(hs)),
                    o.core)))
  }

  lemma PieceLengths(v: bv32, r: bv16, w: bv16, kind: Kind32)
    ensures |Jump(v)| == 4 && |LoadWords(r, v)| == 4 && |TableWords(kind, v, w)| == 14
    ensures r < 8 ==> |AddWords(w, v, r)| == 8
  {
    hide Low, High, TableRegister, IndexRegister;
  }

  lemma ChunkHasItsLength(at: bv32, hs: seq<bv16>, lit: bv32 -> bv32)
    requires Whole(hs)
    ensures |FirstChunk(at, hs, lit)| == FirstLength(hs) && FirstLength(hs) % 2 == 0
    ensures 2 <= FirstLength(hs) <= if Is32(hs[0]) then 14 else 8
  {
    hide Is32, PcValue, Chunk16, Chunk32, Length16, Length32;
    if Is32(hs[0]) {
      WideLength(PcValue(at), hs[0], hs[1], lit);
    } else {
      NarrowLength(PcValue(at), hs[0], lit);
    }
  }

  lemma NarrowLength(pc: bv32, w: bv16, lit: bv32 -> bv32)
    ensures |Chunk16(pc, w, lit)| == Length16(w) && Length16(w) % 2 == 0 && 2 <= Length16(w) <= 8
  {
    hide KindOf16, Jump, LoadWords, AddWords, Borrowed, TargetB1, TargetB2, TargetCb, ValueAdr, LiteralAddress;
    match KindOf16(w)
    case B1 => PieceLengths(TargetB1(pc, w), 0, 0, Tbb);
    case B2 => PieceLengths(TargetB2(pc, w), 0, 0, Tbb);
    case Bx => PieceLengths(pc, 0, 0, Tbb);
    case Add => PieceLengths(pc, Borrowed(((w & 0x80) >> 4) | (w & 7)), w, Tbb);
    case Mov => PieceLengths(pc, w & 7, 0, Tbb);
    case Adr => PieceLengths(ValueAdr(pc, w), (w & 0x700) >> 8, 0, Tbb);
    case Ldr => PieceLengths(lit(LiteralAddress(pc, w)), (w & 0x700) >> 8, 0, Tbb);
    case Cb => PieceLengths(TargetCb(pc, w), 0, 0, Tbb);
    case Undefine16 =>
  }

  lemma WideLength(pc: bv32, hi: bv16, lo: bv16, lit: bv32 -> bv32)
    ensures |Chunk32(pc, hi, lo, lit)| == Length32(hi, lo) && Length32(hi, lo) % 2 == 0 && 2 <= Length32(hi, lo) <= 14
  {
    hide KindOf32, Jump, LoadWords, TableWords, TargetW, ValueAdrW, LiteralAddressW;
    var kind := KindOf32(hi, lo);
    match kind
    case Adr1W => PieceLengths(ValueAdrW(kind, pc, hi, lo), (lo & 0xF00) >> 8, 0, Tbb);
    case Adr2W => PieceLengths(ValueAdrW(kind, pc, hi, lo), (lo & 0xF00) >> 8, 0, Tbb);
    case LdrW => PieceLengths(lit(LiteralAddressW(pc, hi, lo)), lo >> 12, 0, Tbb);
    case Tbb => PieceLengths(pc, 0, lo, kind);
    case Tbh => PieceLengths(pc, 0, lo, kind);
    case Undefine32 =>
    case _ => PieceLengths(TargetW(kind, pc, hi, lo), 0, 0, Tbb);
  }

  lemma ChunkRuns(isa: Isa, scratch: bv32 -> bool, at: bv32, hs: seq<bv16>, lit: bv32 -> bv32, c: Core, tr: bv32,
                  d: Core)
    returns (n: nat)
    requires Whole(hs) && Keeps(at, hs) && at & 1 == 0 && tr & 3 == 0
    requires Local(isa, scratch) && Same(scratch, c, d) && StepSafe(isa, scratch, at, hs, lit, c)
    requires Holds(d.mem, scratch, tr, FirstChunk(at, hs, lit))
    requires var o := ExecFirst(isa, at, hs, c); o.Fall? ==> Holds(o.core.mem, scratch, tr, FirstChunk(at, hs, lit))
    ensures Leads(ExecFirst(isa, at, hs, c), Advance(tr, FirstLength(hs)), Run(isa, Running(tr, true, d), n), scratch)
  {
    if Is32(hs[0]) {
      n := ChunkRuns32(isa, scratch, at, hs, lit, c, tr, d);
    } else {
      n := ChunkRuns16(isa, scratch, at, hs, lit, c, tr, d);
    }
  }

  lemma KeptKinds(w: bv16)
    requires KindKeeps16(w)
    ensures KindOf16(w) == B1 ==> IsTrapZero(w)
    ensures KindOf16(w) != B2 && KindOf16(w) != Adr
    ensures KindOf16(w) == Undefine16 ==> forall pc: bv32, lit: bv32 -> bv32 :: Chunk16(pc, w, lit) == [w, 0xBF00]
  {
    hide KindOf16, Rdn;
  }

  lemma ZeroIsTrap(w: bv16)
    ensures IsTrapZero(w) ==> IsTrap(w)
  {
  }

  lemma ChunkRuns16(isa: Isa, scratch: bv32 -> bool, at: bv32, hs: seq<bv16>, lit: bv32 -> bv32, c: Core, tr: bv32,
                    d: Core)
    returns (n: nat)
    requires Whole(hs) && !Is32(hs[0]) && Keeps16(hs[0]) && at & 1 == 0 && tr & 3 == 0
    requires Local(isa, scratch) && Same(scratch, c, d) && StepSafe16(isa, scratch, at, hs[0], lit, c)
    requires Holds(d.mem, scratch, tr, Chunk16(PcValue(at), hs[0], lit))
    requires var o := Exec16(isa, at, hs[0], c);
             o.Fall? ==> Holds(o.core.mem, scratch, tr, Chunk16(PcValue(at), hs[0], lit))
    ensures Leads(Exec16(isa, at, hs[0], c), Advance(tr, Length16(hs[0])), Run(isa, Running(tr, true, d), n), scratch)
  {
    hide Exec16, Run, Same, Local, Load, Portable, StackScratch, Advance, Leads, KindOf16, Is32, PcValue, Jump,
      LoadWords, AddWords, TargetB1, TargetB2, TargetCb, ValueAdr, LiteralAddress, Holds, Borrowed, Keeps16,
      KindKeeps16, Chunk16, IsShortConditional, IsTrap, IsShortBranch, IsExchangePc, IsAddPc, IsMovePc, IsAddress,
      IsLiteralLoad, IsCompareBranch, LiteralOf16, Rewritten16, IsTrapZero;
    var w := hs[0];
    Kind16Is(w);
    KeptByKind16(w);
    KeptKinds(w);
    LiteralsAre(at, w, 0);
    ZeroIsTrap(w);
    match KindOf16(w)
    case B1 => n := TrapChunk(isa, scratch, at, w, lit, c, tr, d);
    case Bx => BxChunk(isa, scratch, at, w, lit, c, tr, d); n := 1;
    case Add => AddChunk(isa, scratch, at, w, lit, c, tr, d); n := 5;
    case Mov => MoveChunk(isa, scratch, at, w, lit, c, tr, d); n := 2;
    case Ldr => LoadChunk(isa, scratch, at, w, lit, c, tr, d); n := 2;
    case Cb => CompareChunk(isa, scratch, at, w, lit, c, tr, d); n := 2;
    case Undefine16 => n := CopyChunk16(isa, scratch, at, w, lit, c, tr, d);
  }

  lemma ChunkRuns32(isa: Isa, scratch: bv32 -> bool, at: bv32, hs: seq<bv16>, lit: bv32 -> bv32, c: Core, tr: bv32,
                    d: Core)
    returns (n: nat)
    requires Whole(hs) && Is32(hs[0]) && Keeps32(at, hs[0], hs[1]) && at & 1 == 0 && tr & 3 == 0
    requires Local(isa, scratch) && Same(scratch, c, d) && StepSafe32(isa, scratch, at, hs[0], hs[1], lit, c)
    requires Holds(d.mem, scratch, tr, Chunk32(PcValue(at), hs[0], hs[1], lit))
    ensures Leads(Exec32(isa, at, hs[0], hs[1], c), Advance(tr, Length32(hs[0], hs[1])),
        Run(isa, Running(tr, true, d), n), scratch)
  {
    hide Exec32, Run, Same, Local, Load, Portable, Advance, Leads, KindOf32, Is32, PcValue, Chunk32, LiteralAddressW,
      Holds, Wide, IsBlx, IsBranchLink, IsWideConditional, IsWideBranch, IsWideAddress, IsWideAddressBack,
      IsWideLiteralLoad, IsTableBranch, LiteralOf32, Rewritten32, Keeps32;
    var hi, lo := hs[0], hs[1];
    Kind32Is(hi, lo);
    KeptByKind32(at, hi, lo);
    LiteralsAre(at, hi, lo);
    match KindOf32(hi, lo)
    case Blx => LinkChunk(isa, scratch, at, hi, lo, lit, c, tr, d); n := 2;
    case Bl => LinkChunk(isa, scratch, at, hi, lo, lit, c, tr, d); n := 2;
    case B1W => ConditionalChunk(isa, scratch, at, hi, lo, lit, c, tr, d); n := 2;
    case B2W => WideBranchChunk(isa, scratch, at, hi, lo, lit, c, tr, d); n := 1;
    case LdrW => WideLoadChunk(isa, scratch, at, hi, lo, lit, c, tr, d); n := 2;
    case Undefine32 => CopyChunk32(isa, scratch, at, hi, lo, lit, c, tr, d); n := 1;
  }

  lemma {:induction false} AdvanceAligned(a: bv32, n: nat)
    ensures a & 1 == 0 ==> Advance(a, n) & 1 == 0
    ensures a & 3 == 0 && n % 2 == 0 ==> Advance(a, n) & 3 == 0
    decreases n
  {
    if n > 0 {
      assert a & 1 == 0 ==> Next(a) & 1 == 0;
      if n == 1 {
        AdvanceAligned(Next(a), 0);
      } else {
        AdvanceTwice(a, n);
        assert a & 3 == 0 ==> Next(Next(a)) & 3 == 0;
        assert a & 1 == 0 ==> Next(Next(a)) & 1 == 0;
        AdvanceAligned(Next(Next(a)), n - 2);
      }
    }
  }

  lemma AdvanceTwice(a: bv32, n: nat)
    requires n >= 2
    ensures Advance(a, n) == Advance(Next(Next(a)), n - 2)
  {
    hide Next;
    assert Advance(a, n) == Advance(Next(a), n - 1);
  }

  /** An instruction that does not fall through ends the run. */
  lemma JumpEnds(isa: Isa, scratch: bv32 -> bool, at: bv32, hs: seq<bv16>, c: Core, tr: bv32, m: Machine)
    requires Whole(hs) && !ExecFirst(isa, at, hs, c).Fall?
    requires Leads(ExecFirst(isa, at, hs, c), Advance(tr, FirstLength(hs)), m, scratch)
    ensures Arrives(Original(isa, at, hs, c), tr, hs, m, scratch)
  {
    hide ExecFirst, Advance, FirstLength, Same, Set, Is32, ThumbBit;
    assert Boundary(hs[Size(hs)..], 0);
    assert ChunkAddress(tr, hs, Size(hs)) == ChunkAddress(Advance(tr, FirstLength(hs)), hs[Size(hs)..], 0);
  }

  /** An instruction that falls through leaves the end to those after it. */
  lemma FallGoesOn(isa: Isa, scratch: bv32 -> bool, at: bv32, hs: seq<bv16>, c: Core, tr: bv32, m: Machine)
    requires Whole(hs) && ExecFirst(isa, at, hs, c).Fall?
    requires Arrives(Original(isa, Advance(at, Size(hs)), hs[Size(hs)..], ExecFirst(isa, at, hs, c).core),
                     Advance(tr, FirstLength(hs)), hs[Size(hs)..], m, scratch)
    ensures Arrives(Original(isa, at, hs, c), tr, hs, m, scratch)
  {
    hide ExecFirst, Advance, FirstLength, Same, Set, Is32, ThumbBit;
  }

  lemma EndRuns(isa: Isa, scratch: bv32 -> bool, at: bv32, hs: seq<bv16>, c: Core, tr: bv32, d: Core)
    requires !Whole(hs) && at & 1 == 0 && tr & 3 == 0 && Same(scratch, c, d) && Holds(d.mem, scratch, tr, Tail(at))
    ensures Arrives(Original(isa, at, hs, c), tr, hs, Run(isa, Running(tr, true, d), 1), scratch)
  {
    hide Step, Jump, Run, Same, PlusOne, WritePC, Is32;
    JumpStep(isa, scratch, tr, PlusOne(at), d, tr);
    RunOne(isa, Running(tr, true, d));
    OddSuccessor(at);
    WriteOdd(PlusOne(at), at, d);
  }

  lemma {:induction false} SequenceRuns(isa: Isa, scratch: bv32 -> bool, at: bv32, hs: seq<bv16>, lit: bv32 -> bv32,
                                        c: Core, tr: bv32, d: Core)
    returns (n: nat)
    requires Local(isa, scratch) && KeepsAll(at, hs) && at & 1 == 0 && tr & 3 == 0 && Same(scratch, c, d)
    requires Safe(isa, scratch, at, hs, lit, tr, c)
    ensures Arrives(Original(isa, at, hs, c), tr, hs, Run(isa, Running(tr, true, d), n), scratch)
    decreases |hs|
  {
    hide ExecFirst, FirstChunk, Run, Keeps, Holds, Local, Advance, Next, StepSafe, FirstLength, Original, Arrives, Is32,
      Tail;
    HoldsElsewhere(c.mem, d.mem, scratch, tr, Trampoline(at, hs, lit));
    if !Whole(hs) {
      EndRuns(isa, scratch, at, hs, c, tr, d);
      n := 1;
    } else {
      var rest := Trampoline(Advance(at, Size(hs)), hs[Size(hs)..], lit);
      ChunkHasItsLength(at, hs, lit);
      HoldsSplit(d.mem, scratch, tr, FirstChunk(at, hs, lit), rest);
      var o := ExecFirst(isa, at, hs, c);
      if o.Fall? {
        HoldsSplit(o.core.mem, scratch, tr, FirstChunk(at, hs, lit), rest);
      }
      n := ChunkRuns(isa, scratch, at, hs, lit, c, tr, d);
      var m := Run(isa, Running(tr, true, d), n);
      if o.Fall? {
        AdvanceAligned(at, Size(hs));
        AdvanceAligned(tr, FirstLength(hs));
        var j := SequenceRuns(isa, scratch, Advance(at, Size(hs)), hs[Size(hs)..], lit, o.core,
                              Advance(tr, FirstLength(hs)), m.core);
        FallGoesOn(isa, scratch, at, hs, c, tr, Run(isa, m, j));
        RunAdds(isa, Running(tr, true, d), n, j);
        n := n + j;
      } else {
        JumpEnds(isa, scratch, at, hs, c, tr, m);
      }
    }
  }

  // ----- The theorem, from every boundary -----

  lemma {:induction false} BoundaryWithin(hs: seq<bv16>, k: nat)
    requires Boundary(hs, k)
    ensures k <= |hs|
    decreases |hs|
  {
    if k != 0 {
      BoundaryWithin(hs[Size(hs)..], k - Size(hs));
    }
  }

  lemma {:induction false} SuffixKeeps(at: bv32, hs: seq<bv16>, k: nat)
    requires Boundary(hs, k) && k <= |hs| && KeepsAll(at, hs)
    ensures KeepsAll(Advance(at, k), hs[k..])
    decreases |hs|
  {
    hide Keeps, Next, Is32;
    if k == 0 {
      assert hs[0..] == hs;
    } else {
      var n := Size(hs);
      BoundaryWithin(hs[n..], k - n);
      assert hs[n..][k - n..] == hs[k..];
      AdvanceAdds(at, n, k - n);
      SuffixKeeps(Advance(at, n), hs[n..], k - n);
    }
  }

  lemma {:induction false} ChunkAddressAligned(tr: bv32, hs: seq<bv16>, k: nat)
    requires Boundary(hs, k) && tr & 3 == 0
    ensures ChunkAddress(tr, hs, k) & 3 == 0
    decreases |hs|
  {
    hide FirstLength, Is32, Advance;
    if k != 0 {
      ChunkHasItsLength(0, hs, (a: bv32) => 0);
      AdvanceAligned(tr, FirstLength(hs));
      ChunkAddressAligned(Advance(tr, FirstLength(hs)), hs[Size(hs)..], k - Size(hs));
    }
  }

  /** A boundary behind the first instruction is one of the rest. */
  lemma BoundaryOfRest(tr: bv32, hs: seq<bv16>, k: nat)
    requires Boundary(hs, k) && k != 0
    ensures Whole(hs) && Size(hs) <= k && Boundary(hs[Size(hs)..], k - Size(hs))
    ensures ChunkAddress(tr, hs, k) == ChunkAddress(Advance(tr, FirstLength(hs)), hs[Size(hs)..], k - Size(hs))
  {
    hide Is32, FirstLength, Advance;
  }

  /** A boundary of the rest is one of the whole stream. */
  lemma BoundaryStep(tr: bv32, hs: seq<bv16>, j: nat)
    requires Whole(hs) && Boundary(hs[Size(hs)..], j)
    ensures Boundary(hs, j + Size(hs))
    ensures ChunkAddress(tr, hs, j + Size(hs)) == ChunkAddress(Advance(tr, FirstLength(hs)), hs[Size(hs)..], j)
  {
    hide Is32, FirstLength, Advance;
  }

  lemma NoChunksBefore(tr: bv32, hs: seq<bv16>)
    ensures Boundary(hs, 0) && ChunkAddress(tr, hs, 0) == tr
  {
  }

  /** Addresses of chunks compose, so a link taken in the suffix is a boundary of the whole trampoline. */
  lemma {:induction false} ChunkAddressAdds(tr: bv32, hs: seq<bv16>, k: nat, j: nat)
    requires Boundary(hs, k) && k <= |hs| && Boundary(hs[k..], j)
    ensures Boundary(hs, k + j)
    ensures ChunkAddress(ChunkAddress(tr, hs, k), hs[k..], j) == ChunkAddress(tr, hs, k + j)
    decreases |hs|
  {
    hide Advance, FirstLength, Is32, Boundary, ChunkAddress;
    if k == 0 {
      NoChunksBefore(tr, hs);
      assert hs[0..] == hs;
    } else {
      BoundaryOfRest(tr, hs, k);
      var n := Size(hs);
      BoundaryWithin(hs[n..], k - n);
      assert hs[n..][k - n..] == hs[k..];
      ChunkAddressAdds(Advance(tr, FirstLength(hs)), hs[n..], k - n, j);
      BoundaryStep(tr, hs, k - n + j);
    }
  }

  /** Relocated code means what the original meant, from whichever instruction both start. */
  lemma ThumbRelocationKeepsMeaning(isa: Isa, scratch: bv32 -> bool, target: bv32, hs: seq<bv16>, lit: bv32 -> bv32,
                                    tr: bv32, k: nat, c: Core, d: Core)
    requires Boundary(hs, k) && k <= |hs| && KeepsAll(target, hs) && target & 1 == 0 && tr & 3 == 0
    requires Local(isa, scratch) && Same(scratch, c, d)
    requires Safe(isa, scratch, Advance(target, k), hs[k..], lit, ChunkAddress(tr, hs, k), c)
    ensures
      var start := ChunkAddress(tr, hs, k);
      exists n: nat ::
        Arrives(Original(isa, Advance(target, k), hs[k..], c), start, hs[k..], Run(isa, Running(start, true, d), n),
            scratch)
  {
    hide Safe, Local, Same, Original, Run, Arrives, ChunkAddress, Advance, Keeps, KeepsAll, Boundary;
    AdvanceAligned(target, k);
    SuffixKeeps(target, hs, k);
    ChunkAddressAligned(tr, hs, k);
    var n := SequenceRuns(isa, scratch, Advance(target, k), hs[k..], lit, c, ChunkAddress(tr, hs, k), d);
  }

  // ----- Where the trampoline goes back -----

  /** How many halfwords the whole instructions of the stream take. */
  function Consumed(hs: seq<bv16>): (n: nat)
    ensures n <= |hs|
    decreases |hs|
  {
    if !Whole(hs) then 0 else Size(hs) + Consumed(hs[Size(hs)..])
  }

  /** All of the stream, or all but the first half of an instruction that straddles its end; always the start of an
      instruction. */
  lemma {:induction false} ConsumedIsABoundary(hs: seq<bv16>)
    ensures Boundary(hs, Consumed(hs)) && |hs| - 1 <= Consumed(hs) <= |hs|
    ensures Consumed(hs) < |hs| <==> Consumed(hs) == |hs| - 1 && Is32(hs[|hs| - 1])
    decreases |hs|
  {
    hide Is32;
    if Whole(hs) {
      var rest := hs[Size(hs)..];
      ConsumedIsABoundary(rest);
      assert rest != [] ==> rest[|rest| - 1] == hs[|hs| - 1];
    }
  }

  /** The trampoline ends with a jump to the address just after the whole instructions. */
  lemma {:induction false} TrampolineResumes(at: bv32, hs: seq<bv16>, lit: bv32 -> bv32)
    ensures |Trampoline(at, hs, lit)| >= 4
    ensures var t := Trampoline(at, hs, lit); t[|t| - 4..] == Tail(Advance(at, Consumed(hs)))
    decreases |hs|
  {
    hide FirstChunk, Next, Is32, PlusOne;
    if Whole(hs) {
      var rest := Trampoline(Advance(at, Size(hs)), hs[Size(hs)..], lit);
      TrampolineResumes(Advance(at, Size(hs)), hs[Size(hs)..], lit);
      AdvanceAdds(at, Size(hs), Consumed(hs[Size(hs)..]));
      var t := FirstChunk(at, hs, lit) + rest;
      assert t[|t| - 4..] == rest[|rest| - 4..];
    } else {
      assert Tail(at)[0..] == Tail(at);
    }
  }

  /** How many bytes the hook overwrites at a Thumb target: a NOP first, unless it is word aligned. */
  function PatchBytes(target: bv32): nat { if target & 3 != 0 then 10 else 8 }

  /** For the twelve bytes a Thumb hook saves, the trampoline always goes back past the patch: to target + 12, or to
      target + 10 when an instruction straddles the end. */
  lemma ResumesPastThePatch(target: bv32, hs: seq<bv16>, lit: bv32 -> bv32)
    requires |hs| == 6
    ensures Consumed(hs) in {5, 6} && Boundary(hs, Consumed(hs)) && 2 * Consumed(hs) >= PatchBytes(target)
    ensures Consumed(hs) == 5 <==> Is32(hs[5]) && Boundary(hs, 5)
    ensures var t := Trampoline(target, hs, lit); |t| >= 4 && t[|t| - 4..] == Tail(Advance(target, Consumed(hs)))
  {
    hide Trampoline, Is32, Tail, Advance;
    ConsumedIsABoundary(hs);
    TrampolineResumes(target, hs, lit);
    if Is32(hs[5]) && Boundary(hs, 5) {
      LastHalfStops(hs, 5);
    }
  }

  /** A boundary followed by one half of a 32-bit instruction is where the whole instructions stop. */
  lemma {:induction false} LastHalfStops(hs: seq<bv16>, k: nat)
    requires Boundary(hs, k) && k == |hs| - 1 && Is32(hs[k])
    ensures Consumed(hs) == k
    decreases |hs|
  {
    hide Is32;
    if k > 0 {
      LastHalfStops(hs[Size(hs)..], k - Size(hs));
    }
  }

  /** `h` halfwords need at most `8h + 4`. */
  lemma {:induction false} TrampolineFits(at: bv32, hs: seq<bv16>, lit: bv32 -> bv32)
    ensures |Trampoline(at, hs, lit)| <= 8 * |hs| + 4
    decreases |hs|
  {
    hide FirstChunk, Is32, Low, High;
    if Whole(hs) {
      ChunkHasItsLength(at, hs, lit);
      TrampolineFits(Advance(at, Size(hs)), hs[Size(hs)..], lit);
    }
  }
}
