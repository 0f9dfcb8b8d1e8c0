/** What the patch over a target does when it is run: it jumps to the replacement. */
module PatchMeaning {
  import A = ArmMachine
  import ArmSimulation
  import T = ThumbMachine
  import opened HookTable
  import Words

  /** Words, halfwords and addresses are in memory with the least significant byte first. */
  lemma LittleEndian(b0: bv8, b1: bv8, b2: bv8, b3: bv8, v: bv32)
    ensures
      var w := Word(b0, b1, b2, b3);
      && w & 0xFF == b0 as bv32 && (w >> 8) & 0xFF == b1 as bv32 && (w >> 16) & 0xFF == b2 as bv32
      && w >> 24 == b3 as bv32
    ensures Halfword(b0, b1) & 0xFF == b0 as bv16 && Halfword(b0, b1) >> 8 == b1 as bv16
    ensures var b := Bytes4(v); Word(b[0], b[1], b[2], b[3]) == v
  {
  }

  // ----- Addresses -----

  /** Bytes as the digits of a number, the lowest first. */
  function Number(b: seq<bv8>): nat
    requires |b| == 4
  {
    b[0] as nat + 0x100 * b[1] as nat + 0x1_0000 * b[2] as nat + 0x100_0000 * b[3] as nat
  }

  function Up(b: bv8): bv8 { b + 1 }

  lemma UpIs(b: bv8)
    ensures Up(b) as nat == if b == 0xFF then 0 else b as nat + 1
    ensures b as nat == 0xFF <==> b == 0xFF
  {
  }

  /** Whether four digits are counted up by one. */
  predicate CountedUp(b: seq<bv8>, c: seq<bv8>)
    requires |b| == |c| == 4
  {
    && c[0] == Up(b[0]) && c[1] == (if b[0] == 0xFF then Up(b[1]) else b[1])
    && c[2] == (if b[0] == 0xFF && b[1] == 0xFF then Up(b[2]) else b[2])
    && c[3] == (if b[0] == 0xFF && b[1] == 0xFF && b[2] == 0xFF then Up(b[3]) else b[3])
  }

  lemma NextCounts(a: bv32)
    ensures CountedUp(Bytes4(a), Bytes4(NextByte(a)))
  {
  }

  lemma CountedIsNext(b: seq<bv8>, c: seq<bv8>)
    requires |b| == |c| == 4 && CountedUp(b, c)
    ensures Number(c) == if Number(b) == 0xFFFF_FFFF then 0 else Number(b) + 1
  {
    hide Up;
    UpIs(b[0]);
    UpIs(b[1]);
    UpIs(b[2]);
    UpIs(b[3]);
  }

  lemma ZeroIs()
    ensures Number(Bytes4(0)) == 0
  {
  }

  /** The address of a byte is its number modulo 2 ^ 32. */
  lemma {:induction false} AddressIs(x: nat)
    ensures Number(Bytes4(Address(x))) == x % 0x1_0000_0000
  {
    hide NextByte, Bytes4, Number, CountedUp;
    if x == 0 {
      ZeroIs();
    } else {
      AddressIs(x - 1);
      NextCounts(Address(x - 1));
      CountedIsNext(Bytes4(Address(x - 1)), Bytes4(Address(x)));
    }
  }

  // ----- The bytes as code -----

  lemma BytesOfWord(v: bv32)
    ensures
      var b := Bytes4(v);
      && Word(b[0], b[1], b[2], b[3]) == v
      && Halfword(b[0], b[1]) == T.Low(v) && Halfword(b[2], b[3]) == T.High(v)
  {
  }

  /** In ARM code the patch is a load of PC and the address it loads. */
  lemma ArmPatch(target: nat, newAddr: bv32)
    requires target % 2 == 0
    ensures WordsOf(Patch(target, newAddr)) == [0xE51FF004, newAddr]
  {
    hide Word;
    BytesOfWord(newAddr);
    BytesOfWord(0xE51FF004);
    var p, b, c := Patch(target, newAddr), Bytes4(0xE51FF004), Bytes4(newAddr);
    assert p[0] == b[0] && p[1] == b[1] && p[2] == b[2] && p[3] == b[3];
    assert p[4] == c[0] && p[5] == c[1] && p[6] == c[2] && p[7] == c[3];
  }

  /** In Thumb code it is that too, after a NOP if the target is not a multiple of four. */
  lemma ThumbPatch(target: nat, newAddr: bv32)
    requires target % 2 == 1
    ensures HalfwordsOf(Patch(target, newAddr))
         == (if Base(target) % 4 != 0 then [0xBF00] else []) + [0xF8DF, 0xF000, T.Low(newAddr), T.High(newAddr)]
  {
    hide T.Low, T.High;
    BytesOfWord(newAddr);
    var p, c, k := Patch(target, newAddr), Bytes4(newAddr), if Base(target) % 4 != 0 then 2 else 0;
    assert p[k] == 0xDF && p[k + 1] == 0xF8 && p[k + 2] == 0x00 && p[k + 3] == 0xF0;
    assert p[k + 4] == c[0] && p[k + 5] == c[1] && p[k + 6] == c[2] && p[k + 7] == c[3];
    assert Halfword(0xDF, 0xF8) == 0xF8DF && Halfword(0x00, 0xF0) == 0xF000 && Halfword(0x00, 0xBF) == 0xBF00;
  }

  // ----- Running it -----

  /** Where a jump through a loaded address goes: bit 0 picks the instruction set. */
  predicate Reaches(newAddr: bv32) { newAddr & 3 != 2 }

  /** One step from an ARM target leads to the replacement, with nothing else changed. */
  lemma ArmPatchJumps(isa: A.Isa, at: bv32, newAddr: bv32, c: A.Core)
    requires c.mem(at) == 0xE51FF004 && c.mem(A.Next(at)) == newAddr && Reaches(newAddr)
    ensures A.Step(isa, A.Running(at, false, c)) == A.Running(newAddr & 0xFFFFFFFE, newAddr & 1 == 1, c)
  {
    hide A.Exec;
    ArmSimulation.JumpLiteral(isa, at, c);
    hide A.Next;
  }

  lemma PatchIsLoadLiteral(isa: T.Isa, at: bv32, c: T.Core)
    ensures T.Is32(0xF8DF)
    ensures T.Exec32(isa, at, 0xF8DF, 0xF000, c) == T.WritePC(T.Load(c, Words.Plus(T.Align(T.PcValue(at)), 0)), c)
  {
    hide T.WritePC, T.Load, T.Align, T.PcValue, Words.Plus;
    assert T.Imm12(0xF000) == 0 && T.RtT2(0xF000) == Words.PC;
  }

  lemma LoadsTheAddress(at: bv32, newAddr: bv32, c: T.Core)
    requires at & 3 == 0
    requires c.mem(T.Next(T.Next(at))) == T.Low(newAddr) && c.mem(T.Next(T.Next(T.Next(at)))) == T.High(newAddr)
    ensures T.Load(c, Words.Plus(T.Align(T.PcValue(at)), 0)) == newAddr
  {
    assert Words.Plus(T.Align(T.PcValue(at)), 0) == T.Next(T.Next(at));
    assert T.Join(T.Low(newAddr), T.High(newAddr)) == newAddr;
  }

  /** So does one step from a Thumb target that is a multiple of four. */
  lemma ThumbPatchJumps(isa: T.Isa, at: bv32, newAddr: bv32, c: T.Core)
    requires at & 3 == 0 && Reaches(newAddr)
    requires c.mem(at) == 0xF8DF && c.mem(T.Next(at)) == 0xF000
    requires c.mem(T.Next(T.Next(at))) == T.Low(newAddr) && c.mem(T.Next(T.Next(T.Next(at)))) == T.High(newAddr)
    ensures T.Step(isa, T.Running(at, true, c)) == T.Running(newAddr & 0xFFFFFFFE, newAddr & 1 == 1, c)
  {
    hide T.Load, T.Align, T.PcValue, Words.Plus, T.Exec32, T.Next, T.Is32, T.Low, T.High, T.WritePC;
    PatchIsLoadLiteral(isa, at, c);
    LoadsTheAddress(at, newAddr, c);
    Jumps(newAddr, c);
  }

  lemma Jumps(newAddr: bv32, c: T.Core)
    requires Reaches(newAddr)
    ensures T.WritePC(newAddr, c) == T.Goto(newAddr & 0xFFFFFFFE, newAddr & 1 == 1, c)
  {
  }

  /** From any other, the NOP comes first. */
  lemma ThumbPatchJumpsAfterNop(isa: T.Isa, at: bv32, newAddr: bv32, c: T.Core)
    requires at & 3 == 2 && Reaches(newAddr)
    requires c.mem(at) == 0xBF00 && c.mem(T.Next(at)) == 0xF8DF && c.mem(T.Next(T.Next(at))) == 0xF000
    requires c.mem(T.Next(T.Next(T.Next(at)))) == T.Low(newAddr)
    requires c.mem(T.Next(T.Next(T.Next(T.Next(at))))) == T.High(newAddr)
    ensures T.Run(isa, T.Running(at, true, c), 2) == T.Running(newAddr & 0xFFFFFFFE, newAddr & 1 == 1, c)
  {
    assert T.Step(isa, T.Running(at, true, c)) == T.Running(T.Next(at), true, c);
    ThumbPatchJumps(isa, T.Next(at), newAddr, c);
  }

  // ----- The two together -----

  /** Running a hooked ARM target leads to the replacement, with nothing else changed. */
  lemma HookedArmTargetJumps(isa: A.Isa, target: nat, at: bv32, newAddr: bv32, c: A.Core)
    requires target % 2 == 0 && Reaches(newAddr)
    requires forall k :: 0 <= k < 2 ==> c.mem(A.Advance(at, k)) == WordsOf(Patch(target, newAddr))[k]
    ensures A.Step(isa, A.Running(at, false, c)) == A.Running(newAddr & 0xFFFFFFFE, newAddr & 1 == 1, c)
  {
    hide A.Step, A.Next, Patch;
    ArmPatch(target, newAddr);
    var w := WordsOf(Patch(target, newAddr));
    assert A.Advance(at, 0) == at && A.Advance(at, 1) == A.Advance(A.Next(at), 0) == A.Next(at);
    assert c.mem(A.Advance(at, 0)) == w[0] && c.mem(A.Advance(at, 1)) == w[1];
    ArmPatchJumps(isa, at, newAddr, c);
  }

  /** So does running a hooked Thumb target; one that is no multiple of four takes a step more. */
  lemma HookedThumbTargetJumps(isa: T.Isa, target: nat, at: bv32, newAddr: bv32, c: T.Core)
    requires target % 2 == 1 && Reaches(newAddr)
    requires if Base(target) % 4 == 0 then at & 3 == 0 else at & 3 == 2
    requires forall k :: 0 <= k < |Patch(target, newAddr)| / 2 ==>
      c.mem(T.Advance(at, k)) == HalfwordsOf(Patch(target, newAddr))[k]
    ensures T.Run(isa, T.Running(at, true, c), if Base(target) % 4 == 0 then 1 else 2)
         == T.Running(newAddr & 0xFFFFFFFE, newAddr & 1 == 1, c)
  {
    hide T.Step, T.Next, T.Low, T.High, Patch;
    ThumbPatch(target, newAddr);
    var h := HalfwordsOf(Patch(target, newAddr));
    FirstAddresses(at);
    assert c.mem(T.Advance(at, 0)) == h[0] && c.mem(T.Advance(at, 1)) == h[1] && c.mem(T.Advance(at, 2)) == h[2]
        && c.mem(T.Advance(at, 3)) == h[3];
    if Base(target) % 4 == 0 {
      assert h == [0xF8DF, 0xF000, T.Low(newAddr), T.High(newAddr)];
      ThumbPatchJumps(isa, at, newAddr, c);
    } else {
      assert h == [0xBF00, 0xF8DF, 0xF000, T.Low(newAddr), T.High(newAddr)];
      assert c.mem(T.Advance(at, 4)) == h[4];
      ThumbPatchJumpsAfterNop(isa, at, newAddr, c);
    }
  }

  lemma FirstAddresses(at: bv32)
    ensures T.Advance(at, 0) == at && T.Advance(at, 1) == T.Next(at) && T.Advance(at, 2) == T.Next(T.Next(at))
    ensures T.Advance(at, 3) == T.Next(T.Next(T.Next(at))) && T.Advance(at, 4) == T.Next(T.Next(T.Next(T.Next(at))))
  {
    hide T.Next;
    var a, b := T.Next(at), T.Next(T.Next(at));
    assert T.Advance(a, 1) == T.Advance(b, 0);
    assert T.Advance(b, 2) == T.Advance(T.Next(b), 1) == T.Next(T.Next(b));
  }
}
