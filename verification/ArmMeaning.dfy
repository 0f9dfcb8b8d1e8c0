/** A whole ARM trampoline means what the instructions under the patch meant. */
module ArmMeaning {
  import opened Words
  import opened ArmMachine
  import opened ArmChunks
  import opened ArmDomain
  import opened ArmSimulation

  /** How a run over the original words ends: it leaves them, or leaves them with a link to word `next`. */
  datatype Exit =
    | Leave(dest: bv32, thumb: bool, core: Core)
    | LinkOut(dest: bv32, thumb: bool, next: nat, core: Core)
    | Lost

  function Later(e: Exit): Exit {
    if e.LinkOut? then e.(next := e.next + 1) else e
  }

  /** The words `ws`, executed where they were, at `at`. */
  function Original(isa: Isa, at: bv32, ws: seq<bv32>, c: Core): (e: Exit)
    ensures e.LinkOut? ==> 1 <= e.next <= |ws|
    decreases |ws|
  {
    if ws == [] then Leave(at, false, c)
    else
      match Exec(isa, at, ws[0], c)
      case Fall(d) => Later(Original(isa, Next(at), ws[1..], d))
      case Goto(a, t, d) => Leave(a, t, d)
      case Call(a, t, d) => LinkOut(a, t, 1, d)
      case Unpredictable => Lost
  }

  /** The machine is where the original run ended; a link leads to the relocated successor. */
  ghost predicate Arrives(e: Exit, tr: bv32, ws: seq<bv32>, m: Machine, scratch: bv32 -> bool)
    requires e.LinkOut? ==> e.next <= |ws|
  {
    match e
    case Leave(a, t, c) => m.Running? && m.pc == a && m.thumb == t && Same(scratch, c, m.core)
    case LinkOut(a, t, k, c) =>
      m.Running? && m.pc == a && m.thumb == t && Same(scratch, Set(c, LR, ChunkAddress(tr, ws, k)), m.core)
    case Lost => true
  }

  /** What executing `w` at `at` must respect: the literal it loads is as it was at relocation, the stack word an ADD
      borrows is scratch, and anything copied reads no scratch and not the PC. */
  ghost predicate StepSafe(isa: Isa, scratch: bv32 -> bool, at: bv32, w: bv32, lit: bv32 -> bv32, c: Core) {
    && (IsLiteralLoad(w) ==> c.mem(LiteralAddress(at, w)) == lit(LiteralAddress(at, w)))
    && (IsAddPc(w) ==> scratch(Previous(c.reg(SP))))
    && (!Rewritten(w) ==> Portable(isa, scratch, w, c))
  }

  /** Every step of the original run is safe, and none overwrites what is left of the trampoline. */
  ghost predicate Safe(isa: Isa, scratch: bv32 -> bool, at: bv32, ws: seq<bv32>, lit: bv32 -> bv32, tr: bv32, c: Core)
    decreases |ws|
  {
    && Holds(c.mem, scratch, tr, Trampoline(at, ws, lit))
    && (ws != [] ==>
          && StepSafe(isa, scratch, at, ws[0], lit, c)
          && var o := Exec(isa, at, ws[0], c);
             (o.Fall? ==> Safe(isa, scratch, Next(at), ws[1..], lit, Advance(tr, ChunkLength(ws[0])), o.core)))
  }

  /** A trampoline makes sense at `tr` for the words at `at`. */
  predicate Relocatable(at: bv32, ws: seq<bv32>, tr: bv32) {
    at & 3 == 0 && tr & 3 == 0 && forall i :: 0 <= i < |ws| ==> Keeps(ws[i])
  }

  lemma LoadedLiteral(at: bv32, w: bv32, lit: bv32 -> bv32)
    ensures LoadedValue(LdrArm, at + 8, w, lit) == lit(LiteralAddress(at, w))
  {
    LoadDirection(w);
    hide Bit, Plus, Minus;
  }

  lemma ChunkRuns(isa: Isa, scratch: bv32 -> bool, at: bv32, w: bv32, lit: bv32 -> bv32, c: Core, tr: bv32, d: Core)
    returns (n: nat)
    requires Local(isa, scratch) && Keeps(w) && at & 3 == 0 && tr & 3 == 0 && Same(scratch, c, d)
    requires StepSafe(isa, scratch, at, w, lit, c)
    requires Holds(d.mem, scratch, tr, Chunk(at + 8, w, lit))
    ensures Leads(Exec(isa, at, w, c), Advance(tr, ChunkLength(w)), Run(isa, Running(tr, false, d), n), scratch)
  {
    hide Exec, Chunk, Run, Keeps, KindKeeps, Same, Holds, Local, LoadedValue, Portable, Advance, Leads, Rd, IsBlx,
      IsBranchLink, IsBranch, IsExchangePc, IsAddPc, IsAddress, IsAddressBack, IsMovePc, IsLiteralLoad, Rewritten;
    KindIs(w);
    KeptByKind(w);
    LoadedLiteral(at, w, c.mem);
    LoadedLiteral(at, w, lit);
    match KindOf(w)
    case BlxArm => LinkChunk(isa, scratch, at, w, lit, c, tr, d); n := 2;
    case BlArm => LinkChunk(isa, scratch, at, w, lit, c, tr, d); n := 2;
    case BArm => BranchChunk(isa, scratch, at, w, lit, c, tr, d); n := 1;
    case BxArm => BranchChunk(isa, scratch, at, w, lit, c, tr, d); n := 1;
    case AddArm => AddChunk(isa, scratch, at, w, lit, c, tr, d); n := 5;
    case Undefine => CopyChunk(isa, scratch, at, w, lit, c, tr, d); n := 1;
    case _ => LoadChunk(isa, scratch, at, w, lit, c, tr, d); n := if Rd(w) == PC then 1 else 2;
  }

  lemma {:induction false} AdvanceAligned(a: bv32, n: nat)
    requires a & 3 == 0
    ensures Advance(a, n) & 3 == 0
    decreases n
  {
    if n > 0 {
      NextAligned(a);
      AdvanceAligned(Next(a), n - 1);
    }
  }

  /** A word that does not fall through ends the run. */
  lemma JumpEnds(isa: Isa, scratch: bv32 -> bool, at: bv32, ws: seq<bv32>, c: Core, tr: bv32, m: Machine)
    requires ws != [] && !Exec(isa, at, ws[0], c).Fall?
    requires Leads(Exec(isa, at, ws[0], c), Advance(tr, ChunkLength(ws[0])), m, scratch)
    ensures Arrives(Original(isa, at, ws, c), tr, ws, m, scratch)
  {
    hide Exec, Advance, ChunkLength, Same, Set;
    assert ChunkAddress(tr, ws, 1) == ChunkAddress(Advance(tr, ChunkLength(ws[0])), ws[1..], 0);
  }

  /** A word that falls through leaves the end to the words after it. */
  lemma FallGoesOn(isa: Isa, scratch: bv32 -> bool, at: bv32, ws: seq<bv32>, c: Core, tr: bv32, m: Machine)
    requires ws != [] && Exec(isa, at, ws[0], c).Fall?
    requires Arrives(Original(isa, Next(at), ws[1..], Exec(isa, at, ws[0], c).core),
                     Advance(tr, ChunkLength(ws[0])), ws[1..], m, scratch)
    ensures Arrives(Original(isa, at, ws, c), tr, ws, m, scratch)
  {
    hide Exec, Advance, ChunkLength, Same, Set, Next;
  }

  lemma {:induction false} SequenceRuns(isa: Isa, scratch: bv32 -> bool, at: bv32, ws: seq<bv32>, lit: bv32 -> bv32,
                                        c: Core, tr: bv32, d: Core)
    returns (n: nat)
    requires Local(isa, scratch) && Relocatable(at, ws, tr) && Same(scratch, c, d)
    requires Safe(isa, scratch, at, ws, lit, tr, c)
    ensures Arrives(Original(isa, at, ws, c), tr, ws, Run(isa, Running(tr, false, d), n), scratch)
    decreases |ws|
  {
    hide Exec, Chunk, Run, Keeps, Holds, Local, LoadedValue, Portable, Advance, Next, KindOf, StepSafe, ChunkLength,
      Original, Arrives;
    HoldsElsewhere(c.mem, d.mem, scratch, tr, Trampoline(at, ws, lit));
    if ws == [] {
      EmptyRuns(isa, scratch, at, lit, c, tr, d);
      n := 1;
    } else {
      var w := ws[0];
      HoldsSplit(d.mem, scratch, tr, Chunk(at + 8, w, lit), Trampoline(Next(at), ws[1..], lit));
      n := ChunkRuns(isa, scratch, at, w, lit, c, tr, d);
      var m := Run(isa, Running(tr, false, d), n);
      var o := Exec(isa, at, w, c);
      if o.Fall? {
        var next := Advance(tr, ChunkLength(w));
        NextAligned(at);
        AdvanceAligned(tr, ChunkLength(w));
        var j := SequenceRuns(isa, scratch, Next(at), ws[1..], lit, o.core, next, m.core);
        FallGoesOn(isa, scratch, at, ws, c, tr, Run(isa, m, j));
        RunAdds(isa, Running(tr, false, d), n, j);
        n := n + j;
      } else {
        JumpEnds(isa, scratch, at, ws, c, tr, m);
      }
    }
  }

  lemma EmptyRuns(isa: Isa, scratch: bv32 -> bool, at: bv32, lit: bv32 -> bv32, c: Core, tr: bv32, d: Core)
    requires at & 3 == 0 && Same(scratch, c, d) && Holds(d.mem, scratch, tr, Trampoline(at, [], lit))
    ensures Arrives(Original(isa, at, [], c), tr, [], Run(isa, Running(tr, false, d), 1), scratch)
  {
    hide Exec, Next;
    HeldWords(d.mem, scratch, tr, [0xE51FF004, at]);
    JumpLiteral(isa, tr, d);
    assert Run(isa, Running(tr, false, d), 1) == Step(isa, Running(tr, false, d));
  }

  // ----- The theorem, from every boundary -----

  lemma {:induction false} ChunkAddressAligned(tr: bv32, ws: seq<bv32>, k: nat)
    requires tr & 3 == 0 && k <= |ws|
    ensures ChunkAddress(tr, ws, k) & 3 == 0
    decreases k
  {
    hide Advance, ChunkLength;
    if k > 0 {
      AdvanceAligned(tr, ChunkLength(ws[0]));
      ChunkAddressAligned(Advance(tr, ChunkLength(ws[0])), ws[1..], k - 1);
    }
  }

  /** Addresses of chunks compose, so a link taken in the suffix is a boundary of the whole trampoline. */
  lemma {:induction false} ChunkAddressAdds(tr: bv32, ws: seq<bv32>, k: nat, j: nat)
    requires k + j <= |ws|
    ensures ChunkAddress(ChunkAddress(tr, ws, k), ws[k..], j) == ChunkAddress(tr, ws, k + j)
    decreases k
  {
    hide Advance, ChunkLength;
    if k == 0 {
      assert ws[0..] == ws;
    } else {
      assert ws[1..][k - 1..] == ws[k..];
      ChunkAddressAdds(Advance(tr, ChunkLength(ws[0])), ws[1..], k - 1, j);
    }
  }

  /** Relocated code means what the original meant, from whichever word both start: the trampoline, entered at the chunk
      of word `k`, comes to where the original words from `k` on lead, with the same registers, flags and memory (stale
      scratch apart), and with every link pointing at the relocated successor. */
  lemma ArmRelocationKeepsMeaning(isa: Isa, scratch: bv32 -> bool, target: bv32, ws: seq<bv32>, lit: bv32 -> bv32,
                                  tr: bv32, k: nat, c: Core, d: Core)
    requires k <= |ws| && Local(isa, scratch) && Relocatable(target, ws, tr) && Same(scratch, c, d)
    requires Safe(isa, scratch, Advance(target, k), ws[k..], lit, ChunkAddress(tr, ws, k), c)
    ensures
      var start := ChunkAddress(tr, ws, k);
      exists n: nat ::
        Arrives(Original(isa, Advance(target, k), ws[k..], c), start, ws[k..], Run(isa, Running(start, false, d), n),
            scratch)
  {
    hide Safe, Local, Same, Original, Run, Arrives, ChunkAddress, Advance, Keeps;
    AdvanceAligned(target, k);
    ChunkAddressAligned(tr, ws, k);
    var n := SequenceRuns(isa, scratch, Advance(target, k), ws[k..], lit, c, ChunkAddress(tr, ws, k), d);
  }
}
