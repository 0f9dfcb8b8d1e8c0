/** Literals that a registration finds changed. */
module HookLiterals {
  import opened Options
  import ArmChunks
  import ArmPage
  import ThumbPage
  import opened HookTable
  import opened HookMigration
  import opened HookMeaning

  /** Whether a registration finds the first words at these addresses. */
  ghost predicate FindsFirst(lits: set<bv32>, mem: seq<bv8>, elsewhere: bv32 -> bv32, start: seq<bv8>) {
    forall a :: a in lits ==> LitOf(mem, elsewhere)(a) == FirstWords(start)(a)
  }

  /** Where the bytes at a target load literals from. */
  function LiteralsOf(target: nat, saved: seq<bv8>): set<bv32>
    requires |saved| == Length(target)
  {
    if target % 2 == 1 then ThumbPage.Literals(Address(Base(target)), HalfwordsOf(saved))
    else ArmPage.Literals(Address(target), WordsOf(saved))
  }

  /** A registration makes the code that the first words give exactly if it finds them where the target loads its
      literals. */
  lemma CodeIsFirstIff(t: Table, q: Request, elsewhere: bv32 -> bv32, start: seq<bv8>, saved: seq<bv8>)
    requires t.size < |t.slots| && InMemory(t, q.target) && saved == BytesAt(t.mem, q.target)
    ensures Registration(t, q, elsewhere).code == CodeFor(q.target, saved, FirstWords(start)) <==>
      FindsFirst(LiteralsOf(q.target, saved), t.mem, elsewhere, start)
  {
    hide OrigFor, TrampFor, CodeFor, Address, LitOf, FirstWords, WordsOf, HalfwordsOf;
    CodeIsTrampoline(q.target, saved, LitOf(t.mem, elsewhere));
    CodeIsTrampoline(q.target, saved, FirstWords(start));
    if q.target % 2 == 0 {
      ArmPage.OnlyLiteralsMatter(Address(q.target), WordsOf(saved), LitOf(t.mem, elsewhere), FirstWords(start));
    } else {
      ThumbPage.OnlyLiteralsMatter(Address(Base(q.target)), HalfwordsOf(saved), LitOf(t.mem, elsewhere),
                                   FirstWords(start));
    }
  }

  /** The first word loads the one two words on, which is the first of the second target. */
  function LoadsFromNextTarget(): (r: seq<bv8>)
    ensures |r| == 16
  {
    [0x00, 0x00, 0x9F, 0xE5, 0x00, 0x00, 0xA0, 0xE1, 0x78, 0x56, 0x34, 0x12, 0x00, 0x00, 0xA0, 0xE1]
  }

  /** Memory with the patch of a request in it. */
  function Patched(mem: seq<bv8>, p: Request): (r: seq<bv8>)
    requires Base(p.target) + Length(p.target) <= |mem|
    ensures |r| == |mem|
  {
    Overwrite(mem, Base(p.target), Patch(p.target, p.newAddr))
  }

  /** A target that is registered while another is hooked gets its code from patched memory. */
  lemma RegisterHookRegister(t: Table, targets: set<nat>, p: Request, q: Request, elsewhere: bv32 -> bv32)
    returns (r: Table)
    requires AllFit(t) && t.size + 1 < |t.slots| && InMemory(t, p.target) && InMemory(t, q.target)
    requires Find(t, p.target, 0).None? && Find(t, q.target, 0).None?
    requires p.target in targets && q.target in targets && p.target != q.target
    ensures
      exists ops: seq<Op> :: Runs(t, targets, ops, r)
    ensures r.size == t.size + 2 <= |r.slots| == |t.slots|
    ensures
      var it, mem := r.slots[t.size + 1], Patched(t.mem, p);
      it.target == q.target && it.code == CodeFor(q.target, BytesAt(mem, q.target), LitOf(mem, elsewhere))
  {
    hide CodeFor, OrigFor, TrampFor, Patch, AllFit, Runs, LitOf;
    var a, b, c := RegisterOp(p, true, elsewhere), HookOp(p.target), RegisterOp(q, true, elsewhere);
    RegisterFits(t, p, true, elsewhere);
    var u := Apply(t, a);
    FindIs(u, p.target, t.size);
    HookFits(u, t.size);
    var v := Apply(u, b);
    assert v == DoHook(u, t.size) && v.mem == Patched(t.mem, p);
    assert Find(v, q.target, 0).None?;
    r := Apply(v, c);
    RunsNowhere(r, targets);
    RunsFrom(v, targets, c, [], r);
    RunsFrom(u, targets, b, [c] + [], r);
    RunsFrom(t, targets, a, [b] + ([c] + []), r);
  }

  lemma LoadedFromThePatch(p: Request, elsewhere: bv32 -> bv32)
    requires p.target == 8
    ensures
      var mem := Patched(LoadsFromNextTarget(), p);
      && LitOf(mem, elsewhere)(8) == 0xE51FF004
      && WordsOf(BytesAt(mem, 0))[0] == 0xE59F0000 && FirstWords(LoadsFromNextTarget())(8) == 0x12345678
  {
    var start := LoadsFromNextTarget();
    var mem := Patched(start, p);
    assert Word(0x78, 0x56, 0x34, 0x12) == 0x12345678 && Word(0x04, 0xF0, 0x1F, 0xE5) == 0xE51FF004
        && Word(0x00, 0x00, 0x9F, 0xE5) == 0xE59F0000;
    assert Bytes4(0xE51FF004) == [0x04, 0xF0, 0x1F, 0xE5];
    hide Word, Bytes4;
    assert mem[0] == start[0] && mem[1] == start[1] && mem[2] == start[2] && mem[3] == start[3];
  }

  lemma FirstChunkLoads(w: seq<bv32>, lit: bv32 -> bv32)
    requires w != [] && w[0] == 0xE59F0000
    ensures var words := ArmChunks.Trampoline(0, w, lit); |words| > 2 && words[2] == lit(8)
  {
    hide ArmChunks.BranchLiteral, ArmChunks.AddChunkWords;
    assert ArmChunks.KindOf(0xE59F0000) == ArmChunks.LdrArm;
  }

  /** Such a run: the target at 8 is hooked before the one at 0 is registered, whose trampoline then loads the first
      word of the patch, for good. */
  lemma LiteralUnderAPatch(empty: Item, elsewhere: bv32 -> bv32) returns (r: Table)
    requires empty.origBoundaries == [] && empty.trampBoundaries == []
    ensures Reached(r, {0, 8}, LoadsFromNextTarget()) && r.size == 2 == |r.slots| && r.slots[1].target == 0
    ensures r.slots[1].code.ArmCode? && |r.slots[1].code.words| > 2 && r.slots[1].code.words[2] == 0xE51FF004
    ensures FirstWords(LoadsFromNextTarget())(8) == 0x12345678
  {
    hide Runs, CodeFor, LitOf, FirstWords, WordsOf, LoadsFromNextTarget, ArmChunks.Trampoline, Patched;
    var start := LoadsFromNextTarget();
    var p, q := Request(8, 0x2000, None, 0x1000), Request(0, 0x3000, None, 0x4000);
    var slots := [empty, empty];
    var t := Table(slots, 0, start, map[]);
    r := RegisterHookRegister(t, {0, 8}, p, q, elsewhere);
    assert NothingCounted(slots);
    LoadedFromThePatch(p, elsewhere);
    var mem := Patched(start, p);
    CodeIsTrampoline(0, BytesAt(mem, 0), LitOf(mem, elsewhere));
    FirstChunkLoads(WordsOf(BytesAt(mem, 0)), LitOf(mem, elsewhere));
  }
}
