/** What the table, the code, the boundaries and the patches come to together. */
module HookMeaning {
  import opened Options
  import A = ArmMachine
  import ArmChunks
  import ArmDomain
  import ArmMeaning
  import ArmPage
  import ArmRelocator
  import T = ThumbMachine
  import ThumbChunks
  import ThumbMeaning
  import ThumbPage
  import ThumbRelocator
  import opened HookItems
  import opened HookTable
  import opened HookMigration
  import opened HookView
  import opened PatchMeaning

  // ----- Addresses -----

  lemma {:induction false} ArmAddress(x: nat, n: nat)
    ensures Address(x + 4 * n) == A.Advance(Address(x), n)
    decreases n
  {
    if n > 0 {
      FourOn(x);
      ArmAddress(x + 4, n - 1);
    }
  }

  lemma FourOn(x: nat)
    ensures Address(x + 4) == A.Next(Address(x))
  {
    hide NextByte, A.Next;
    Count(Address(x));
    Unfolds(x);
    Unfolds(x + 2);
  }

  lemma Unfolds(x: nat)
    ensures Address(x + 2) == NextByte(NextByte(Address(x)))
  {
    hide NextByte;
    assert Address(x + 1) == NextByte(Address(x));
  }

  lemma Count(a: bv32)
    ensures NextByte(NextByte(a)) == T.Next(a)
    ensures NextByte(NextByte(NextByte(NextByte(a)))) == A.Next(a)
  {
  }

  lemma {:induction false} ThumbAddress(x: nat, n: nat)
    ensures Address(x + 2 * n) == T.Advance(Address(x), n)
    decreases n
  {
    if n > 0 {
      TwoOn(x);
      ThumbAddress(x + 2, n - 1);
    }
  }

  lemma TwoOn(x: nat)
    ensures Address(x + 2) == T.Next(Address(x))
  {
    hide NextByte, T.Next;
    Count(Address(x));
    Unfolds(x);
  }

  lemma AddressAligned(x: nat)
    ensures x % 4 == 0 ==> Address(x) & 3 == 0
    ensures x % 2 == 0 ==> Address(x) & 1 == 0
  {
    if x % 4 == 0 {
      ArmAddress(0, x / 4);
      ArmMeaning.AdvanceAligned(0, x / 4);
    }
    if x % 2 == 0 {
      ThumbAddress(0, x / 2);
      ThumbMeaning.AdvanceAligned(0, x / 2);
    }
  }

  /** The page, the bytes of the target, and what comes after those, all have 32-bit addresses. */
  predicate Mapped(it: Item) {
    it.page % 4 == 0 && it.page + 0x1000 <= 0x1_0000_0000 && Base(it.target) + Length(it.target) < 0x1_0000_0000
  }

  lemma NoWrap(x: nat)
    requires x < 0x1_0000_0000
    ensures Wrap(x) == x
  {
  }

  lemma NoneWraps(it: Item, k: nat, start: nat)
    requires Mapped(it) && k <= Length(it.target) && start <= 96
    ensures Wrap(Base(it.target) + k) == Base(it.target) + k && Wrap(it.page + start) == it.page + start
  {
    hide Wrap, Base, Length;
    NoWrap(Base(it.target) + k);
    NoWrap(it.page + start);
  }

  /** A thread at a boundary that leads right is moved to the trampoline boundary of the same entry. */
  lemma MovedToItsChunk(it: Item, e: nat)
    requires Mapped(it) && Paired(it) && LeadsRight(it, e)
    requires it.origBoundaries[e] <= Length(it.target) && it.trampBoundaries[e] <= 96
    ensures Migrate(it, Base(it.target) + it.origBoundaries[e], Enable) == (it.page + it.trampBoundaries[e], true)
  {
    hide *;
    EntryIsThere(it, e);
    MovedRightIff(it, e);
    NoneWraps(it, it.origBoundaries[e], it.trampBoundaries[e]);
  }

  lemma EntryIsThere(it: Item, e: nat)
    requires LeadsRight(it, e)
    ensures e < |it.origBoundaries| == |it.trampBoundaries|
  {
  }

  // ----- An item by itself -----

  /** The words of memory as it was at the start. */
  function FirstWords(start: seq<bv8>): bv32 -> bv32 { LitOf(start, (a: bv32) => 0) }

  /** Whether the word at `a` is in memory and has no byte under a target other than `own`. */
  predicate ClearWord(a: bv32, targets: set<nat>, own: nat, start: seq<bv8>) {
    a as nat + 4 <= |start| && forall b :: a as nat <= b < a as nat + 4 ==> Clear(targets, own, b)
  }

  /** What is asked of a run from word `k` of an ARM target on. The page holds the code of the item all along, the
      target loads no literal from under another target, and the literals it does load are still as at the start. */
  ghost predicate ArmSafe(it: Item, ws: seq<bv32>, k: nat, targets: set<nat>, start: seq<bv8>, isa: A.Isa,
                          scratch: bv32 -> bool, c: A.Core, d: A.Core) {
    && k <= |ws| && it.target % 4 == 0 && A.Local(isa, scratch) && A.Same(scratch, c, d)
    && (forall j :: 0 <= j < |ws| ==> ArmDomain.Keeps(ws[j]))
    && (forall a :: a in ArmPage.Literals(Address(it.target), ws) ==> ClearWord(a, targets, it.target, start))
    && it.code.ArmCode?
    && ArmPage.Careful(isa, scratch, Address(it.target + 4 * k), ws[k..], FirstWords(start), Address(it.page),
                       it.code.words, c)
  }

  /** The machine `m`, run on, comes to where the original words from `k` on lead from `c`. */
  ghost predicate RunsArm(it: Item, ws: seq<bv32>, k: nat, isa: A.Isa, scratch: bv32 -> bool, c: A.Core, m: A.Machine)
    requires k <= |ws|
  {
    exists n: nat ::
      ArmMeaning.Arrives(ArmMeaning.Original(isa, Address(it.target + 4 * k), ws[k..], c),
                         ArmChunks.ChunkAddress(Address(it.page), ws, k), ws[k..], A.Run(isa, m, n), scratch)
  }

  lemma ArmChunkRuns(it: Item, ws: seq<bv32>, k: nat, targets: set<nat>, start: seq<bv8>, isa: A.Isa,
                     scratch: bv32 -> bool, c: A.Core, d: A.Core)
    requires Mapped(it) && ArmSafe(it, ws, k, targets, start, isa, scratch, c, d)
    requires it.code == ArmCode(ArmChunks.Trampoline(Address(it.target), ws, FirstWords(start)))
    ensures
      RunsArm(it, ws, k, isa, scratch, c, A.Running(ArmChunks.ChunkAddress(Address(it.page), ws, k), false, d))
  {
    hide A.Local, A.Same, ArmDomain.Keeps, ArmPage.Careful, ArmMeaning.Arrives, ArmMeaning.Original, A.Run, A.Advance,
      ArmChunks.ChunkAddress, ArmChunks.Trampoline, Address, Base, Length, FirstWords, ClearWord, ArmPage.Literals;
    AddressAligned(it.target);
    AddressAligned(it.page);
    ArmAddress(it.target, k);
    ArmPage.PageRuns(isa, scratch, Address(it.target), ws, FirstWords(start), Address(it.page), k, c, d);
  }

  lemma ArmStarts(target: nat, saved: seq<bv8>, k: nat)
    requires target % 2 == 0 && |saved| == 8 && k < 2
    ensures |OrigFor(target, saved)| == |TrampFor(target, saved)| == 2
    ensures OrigFor(target, saved)[k] == 4 * k
      && TrampFor(target, saved)[k] == 4 * ArmRelocator.ChunkStart(WordsOf(saved), k)
  {
    hide ArmRelocator.ChunkStart;
  }

  /** What is asked of a run from halfword `k` of a Thumb target on. */
  ghost predicate ThumbSafe(it: Item, hs: seq<bv16>, k: nat, targets: set<nat>, start: seq<bv8>, isa: T.Isa,
                            scratch: bv32 -> bool, c: T.Core, d: T.Core) {
    && ThumbMeaning.Boundary(hs, k) && k <= |hs| && it.target % 2 == 1 && T.Local(isa, scratch) && T.Same(scratch, c, d)
    && ThumbMeaning.KeepsAll(Address(Base(it.target)), hs)
    && (forall a :: a in ThumbPage.Literals(Address(Base(it.target)), hs) ==>
          ClearWord(a, targets, it.target, start))
    && it.code.ThumbCode?
    && ThumbPage.Careful(isa, scratch, Address(Base(it.target) + 2 * k), hs[k..], FirstWords(start), Address(it.page),
                         it.code.halfwords, c)
  }

  /** The machine `m`, run on, comes to where the original halfwords from `k` on lead from `c`. */
  ghost predicate RunsThumb(it: Item, hs: seq<bv16>, k: nat, isa: T.Isa, scratch: bv32 -> bool, c: T.Core, m: T.Machine)
    requires k <= |hs| && ThumbMeaning.Boundary(hs, k)
  {
    exists n: nat ::
      ThumbMeaning.Arrives(ThumbMeaning.Original(isa, Address(Base(it.target) + 2 * k), hs[k..], c),
                           ThumbMeaning.ChunkAddress(Address(it.page), hs, k), hs[k..], T.Run(isa, m, n), scratch)
  }

  lemma ThumbChunkRuns(it: Item, hs: seq<bv16>, k: nat, targets: set<nat>, start: seq<bv8>, isa: T.Isa,
                       scratch: bv32 -> bool, c: T.Core, d: T.Core)
    requires Mapped(it) && ThumbSafe(it, hs, k, targets, start, isa, scratch, c, d)
    requires it.code == ThumbCode(ThumbChunks.Trampoline(Address(Base(it.target)), hs, FirstWords(start)))
    ensures RunsThumb(it, hs, k, isa, scratch, c,
                      T.Running(ThumbMeaning.ChunkAddress(Address(it.page), hs, k), true, d))
  {
    hide T.Local, T.Same, ThumbMeaning.KeepsAll, ThumbPage.Careful, ThumbMeaning.Arrives, ThumbMeaning.Original, T.Run,
      T.Advance, ThumbMeaning.ChunkAddress, ThumbMeaning.Boundary, ThumbChunks.Trampoline, Address, Base, Length,
      FirstWords, ClearWord, ThumbPage.Literals;
    BaseIsEven(it.target);
    AddressAligned(Base(it.target));
    AddressAligned(it.page);
    ThumbAddress(Base(it.target), k);
    ThumbPage.PageRuns(isa, scratch, Address(Base(it.target)), hs, FirstWords(start), Address(it.page), k, c, d);
  }

  /** The entries for boundary `j` of a Thumb target: where its instruction is, and where its chunk is. */
  lemma ThumbStarts(tr: bv32, hs: seq<bv16>, j: nat)
    requires |hs| == 6 && j < |ThumbRelocator.OrigStarts(hs, 0)|
    ensures |ThumbRelocator.OrigStarts(hs, 0)| == |ThumbRelocator.TrampStarts(hs, 0)|
    ensures
      var k, p := ThumbRelocator.OrigStarts(hs, 0)[j], ThumbRelocator.TrampStarts(hs, 0)[j];
      && k <= 6 && p <= 48 && ThumbMeaning.Boundary(hs, k)
      && ThumbMeaning.ChunkAddress(tr, hs, k) == T.Advance(tr, p)
  {
    hide ThumbRelocator.OrigStarts, ThumbRelocator.TrampStarts, ThumbMeaning.Boundary, ThumbMeaning.ChunkAddress,
      T.Advance;
    ThumbRelocator.StartsMatch(hs, 0, 0);
    ThumbRelocator.StartsBounded(hs, 0, 0);
    ThumbRelocator.StartsAreBoundaries(tr, hs, 0, 0, j);
  }

  // ----- After any run: a hooked target runs the replacement, and its trampoline, entered at the start or by a thread
  // that was moved, runs the original -----

  /** The words that are first at an ARM target. */
  function OriginalWords(start: seq<bv8>, target: nat): (ws: seq<bv32>)
    requires target % 2 == 0 && target + 8 <= |start|
    ensures |ws| == 2
  {
    WordsOf(BytesAt(start, target))
  }

  /** The halfwords that are first at a Thumb target. */
  function OriginalHalfwords(start: seq<bv8>, target: nat): (hs: seq<bv16>)
    requires target % 2 == 1 && Base(target) + 12 <= |start|
    ensures |hs| == 6
  {
    HalfwordsOf(BytesAt(start, target))
  }

  lemma OriginalCode(start: seq<bv8>, target: nat, saved: seq<bv8>)
    requires Base(target) + Length(target) <= |start| && saved == BytesAt(start, target)
    ensures target % 2 == 0 ==> target + 8 <= |start| && |saved| == 8 && WordsOf(saved) == OriginalWords(start, target)
    ensures target % 2 == 1 ==>
      Base(target) + 12 <= |start| && |saved| == 12 && HalfwordsOf(saved) == OriginalHalfwords(start, target)
  {
    hide WordsOf, HalfwordsOf;
  }

  predicate NothingCounted(slots: seq<Item>) {
    forall k :: 0 <= k < |slots| ==> slots[k].origBoundaries == [] && slots[k].trampBoundaries == []
  }

  /** Whether some run on these targets, from memory `start` and an empty table whose slots count nothing, leads to
      `r`. */
  ghost predicate Reached(r: Table, targets: set<nat>, start: seq<bv8>) {
    && PairwiseDisjoint(targets)
    && exists slots: seq<Item>, protos: map<nat, nat>, ops: seq<Op> ::
         NothingCounted(slots) && Runs(Table(slots, 0, start, protos), targets, ops, r)
  }

  lemma ReachedItem(r: Table, targets: set<nat>, start: seq<bv8>, i: nat)
    requires Reached(r, targets, start) && i < r.size
    ensures r.size <= |r.slots| && |r.mem| == |start|
    ensures
      var it := r.slots[i];
      && Paired(it) && Base(it.target) + Length(it.target) <= |start| && it.saved == BytesAt(start, it.target)
      && Relocated(it, targets, start)
  {
    hide Paired, Runs, Relocated;
    var slots: seq<Item>, protos: map<nat, nat>, ops: seq<Op> :|
      NothingCounted(slots) && Runs(Table(slots, 0, start, protos), targets, ops, r);
    EveryRun(slots, protos, targets, start, ops, r, i);
    EveryItemIsRelocated(slots, protos, targets, start, ops, r, i);
  }

  lemma ItemTables(it: Item, targets: set<nat>, start: seq<bv8>)
    requires Relocated(it, targets, start)
    ensures it.target < 0x1_0000_0000 && |it.saved| == Length(it.target)
    ensures EndsWith(it.origBoundaries, OrigFor(it.target, it.saved))
    ensures EndsWith(it.trampBoundaries, TrampFor(it.target, it.saved))
  {
  }

  lemma ClearBytesAreFirst(i: nat, targets: set<nat>, own: nat, start: seq<bv8>, mem: seq<bv8>)
    requires i + 4 <= |start| && FirstApart(mem, start, targets, own)
    requires forall b :: i <= b < i + 4 ==> Clear(targets, own, b)
    ensures |mem| == |start| && forall b :: i <= b < i + 4 ==> mem[b] == start[b]
  {
    hide Clear;
  }

  /** A word that is clear of other targets was, at the registration, as at the start. */
  lemma ClearWordIsFirst(a: bv32, targets: set<nat>, own: nat, start: seq<bv8>, mem: seq<bv8>, elsewhere: bv32 -> bv32)
    requires ClearWord(a, targets, own, start) && FirstApart(mem, start, targets, own)
    ensures LitOf(mem, elsewhere)(a) == FirstWords(start)(a)
  {
    hide Clear, Word, FirstApart;
    ClearBytesAreFirst(a as nat, targets, own, start, mem);
  }

  /** The code of a live ARM item that loads no literal from under another target is the trampoline of the words that
      were first there, with the literals that were first there. */
  lemma ReachedArmCode(r: Table, targets: set<nat>, start: seq<bv8>, i: nat)
    requires Reached(r, targets, start) && i < r.size <= |r.slots| && r.slots[i].target % 2 == 0
    requires r.slots[i].target + 8 <= |start|
    requires forall a :: a in ArmPage.Literals(Address(r.slots[i].target), OriginalWords(start, r.slots[i].target)) ==>
      ClearWord(a, targets, r.slots[i].target, start)
    ensures
      var it := r.slots[i];
      it.code
      == ArmCode(ArmChunks.Trampoline(Address(it.target), OriginalWords(start, it.target), FirstWords(start)))
  {
    hide *;
    var it := r.slots[i];
    ReachedItem(r, targets, start, i);
    ItemTables(it, targets, start);
    OriginalCode(start, it.target, it.saved);
    var mem, elsewhere := MadeWith(it, targets, start);
    forall a | a in ArmPage.Literals(Address(it.target), OriginalWords(start, it.target))
      ensures LitOf(mem, elsewhere)(a) == FirstWords(start)(a)
    {
      ClearWordIsFirst(a, targets, it.target, start, mem, elsewhere);
    }
    ArmPage.OnlyLiteralsMatter(Address(it.target), OriginalWords(start, it.target), LitOf(mem, elsewhere),
                               FirstWords(start));
    CodeIsTrampoline(it.target, it.saved, LitOf(mem, elsewhere));
  }

  lemma MadeWith(it: Item, targets: set<nat>, start: seq<bv8>) returns (mem: seq<bv8>, elsewhere: bv32 -> bv32)
    requires Relocated(it, targets, start)
    ensures it.target < 0x1_0000_0000 && |it.saved| == Length(it.target) && FirstApart(mem, start, targets, it.target)
    ensures it.code == CodeFor(it.target, it.saved, LitOf(mem, elsewhere))
  {
    hide FirstApart, CodeFor, LitOf, EndsWith, OrigFor, TrampFor;
    mem, elsewhere :|
      FirstApart(mem, start, targets, it.target) && it.code == CodeFor(it.target, it.saved, LitOf(mem, elsewhere));
  }

  lemma CodeIsTrampoline(target: nat, saved: seq<bv8>, lit: bv32 -> bv32)
    requires target < 0x1_0000_0000 && |saved| == Length(target)
    ensures target % 2 == 0 ==>
      |saved| == 8 && CodeFor(target, saved, lit) == ArmCode(ArmChunks.Trampoline(Address(target), WordsOf(saved), lit))
    ensures target % 2 == 1 ==>
      && |saved| == 12
      && CodeFor(target, saved, lit)
         == ThumbCode(ThumbChunks.Trampoline(Address(Base(target)), HalfwordsOf(saved), lit))
  {
    hide Address, WordsOf, HalfwordsOf;
  }

  /** The same for a live Thumb item. */
  lemma ReachedThumbCode(r: Table, targets: set<nat>, start: seq<bv8>, i: nat)
    requires Reached(r, targets, start) && i < r.size <= |r.slots| && r.slots[i].target % 2 == 1
    requires Base(r.slots[i].target) + 12 <= |start|
    requires
      var target := r.slots[i].target;
      forall a :: a in ThumbPage.Literals(Address(Base(target)), OriginalHalfwords(start, target)) ==>
        ClearWord(a, targets, target, start)
    ensures
      var it := r.slots[i];
      it.code
      == ThumbCode(ThumbChunks.Trampoline(Address(Base(it.target)), OriginalHalfwords(start, it.target),
                                          FirstWords(start)))
  {
    hide *;
    var it := r.slots[i];
    ReachedItem(r, targets, start, i);
    ItemTables(it, targets, start);
    OriginalCode(start, it.target, it.saved);
    var mem, elsewhere := MadeWith(it, targets, start);
    forall a | a in ThumbPage.Literals(Address(Base(it.target)), OriginalHalfwords(start, it.target))
      ensures LitOf(mem, elsewhere)(a) == FirstWords(start)(a)
    {
      ClearWordIsFirst(a, targets, it.target, start, mem, elsewhere);
    }
    ThumbPage.OnlyLiteralsMatter(Address(Base(it.target)), OriginalHalfwords(start, it.target), LitOf(mem, elsewhere),
                                 FirstWords(start));
    CodeIsTrampoline(it.target, it.saved, LitOf(mem, elsewhere));
  }

  lemma SliceBegins(s: seq<bv8>, b: nat, n: nat, t: seq<bv8>, p: seq<bv8>)
    requires b + n <= |s| && s[b..b + n] == t && p <= t
    ensures b + |p| <= |s| && s[b..b + |p|] == p
  {
    assert s[b..b + |p|] == t[..|p|];
  }

  lemma LastEntries(s: seq<nat>, own: seq<nat>, k: nat)
    requires EndsWith(s, own) && k < |own|
    ensures |own| <= |s| && s[|s| - |own| + k] == own[k]
  {
    assert s[|s| - |own|..][k] == s[|s| - |own| + k];
  }

  /** The last two entries of a live ARM item are for its words and for their chunks. */
  lemma ReachedArmEntry(r: Table, targets: set<nat>, start: seq<bv8>, i: nat, k: nat)
    requires Reached(r, targets, start) && i < r.size <= |r.slots| && r.slots[i].target % 2 == 0 && k < 2
    ensures
      var it := r.slots[i];
      var e := |it.origBoundaries| - 2 + k;
      && Paired(it) && 0 <= e && |it.origBoundaries| == |it.trampBoundaries| && it.target + 8 <= |start|
      && it.origBoundaries[e] == 4 * k
      && it.trampBoundaries[e] == 4 * ArmRelocator.ChunkStart(OriginalWords(start, it.target), k) <= 48
  {
    hide *;
    ReachedItem(r, targets, start, i);
    var it := r.slots[i];
    ItemTables(it, targets, start);
    OriginalCode(start, it.target, it.saved);
    PairedSizes(it);
    ArmStarts(it.target, it.saved, k);
    LastEntries(it.origBoundaries, OrigFor(it.target, it.saved), k);
    LastEntries(it.trampBoundaries, TrampFor(it.target, it.saved), k);
    ArmRelocator.ChunkStartBounds(WordsOf(it.saved), k);
  }

  /** The last entries of a live Thumb item are for its instructions and for their chunks. */
  lemma ReachedThumbEntry(r: Table, targets: set<nat>, start: seq<bv8>, i: nat, j: nat)
    requires Reached(r, targets, start) && i < r.size <= |r.slots| && r.slots[i].target % 2 == 1
    requires Base(r.slots[i].target) + 12 <= |start|
    requires j < |ThumbRelocator.OrigStarts(OriginalHalfwords(start, r.slots[i].target), 0)|
    ensures
      var it := r.slots[i];
      var hs := OriginalHalfwords(start, it.target);
      var origs, tramps := ThumbRelocator.OrigStarts(hs, 0), ThumbRelocator.TrampStarts(hs, 0);
      var e := |it.origBoundaries| - |origs| + j;
      && Paired(it) && 0 <= e && |it.origBoundaries| == |it.trampBoundaries| && |origs| == |tramps|
      && it.origBoundaries[e] == 2 * origs[j] && it.trampBoundaries[e] == 2 * tramps[j]
  {
    hide *;
    ReachedItem(r, targets, start, i);
    var it := r.slots[i];
    var hs := OriginalHalfwords(start, it.target);
    ItemTables(it, targets, start);
    OriginalCode(start, it.target, it.saved);
    PairedSizes(it);
    ThumbStarts(0, hs, j);
    ThumbTablesAre(it.target, it.saved);
    LastEntries(it.origBoundaries, OrigFor(it.target, it.saved), j);
    LastEntries(it.trampBoundaries, TrampFor(it.target, it.saved), j);
  }

  lemma ThumbTablesAre(target: nat, saved: seq<bv8>)
    requires target % 2 == 1 && |saved| == 12
    ensures
      var hs := HalfwordsOf(saved);
      && OrigFor(target, saved) == ThumbRelocator.Bytes(ThumbRelocator.OrigStarts(hs, 0))
      && TrampFor(target, saved) == ThumbRelocator.Bytes(ThumbRelocator.TrampStarts(hs, 0))
  {
  }

  /** A hooked item has its patch in memory. */
  lemma ReachedPatch(r: Table, targets: set<nat>, start: seq<bv8>, i: nat)
    requires Reached(r, targets, start) && i < r.size <= |r.slots| && r.slots[i].status == Hooked
    ensures
      var it := r.slots[i];
      var b, p := Base(it.target), Patch(it.target, it.newAddr);
      b + |p| <= |r.mem| && r.mem[b..b + |p|] == p
  {
    hide Patch, Runs;
    var slots: seq<Item>, protos: map<nat, nat>, ops: seq<Op> :|
      NothingCounted(slots) && Runs(Table(slots, 0, start, protos), targets, ops, r);
    EveryRun(slots, protos, targets, start, ops, r, i);
    var it := r.slots[i];
    var p := Patch(it.target, it.newAddr);
    hide Base, Length;
    SliceBegins(r.mem, Base(it.target), Length(it.target), p + it.saved[|p|..], p);
  }

  /** Whether some such run leads to `r` that leaves the claims `m` standing. */
  ghost predicate ReachedBy(r: Table, targets: set<nat>, start: seq<bv8>, m: Claims) {
    && PairwiseDisjoint(targets)
    && exists slots: seq<Item>, protos: map<nat, nat>, ops: seq<Op> ::
         NothingCounted(slots) && Runs(Table(slots, 0, start, protos), targets, ops, r) && m == ToldAll(map[], ops)
  }

  lemma ReachedByRun(r: Table, targets: set<nat>, start: seq<bv8>, m: Claims)
    requires ReachedBy(r, targets, start, m)
    ensures Reached(r, targets, start) && Shows(r, m)
  {
    hide Runs, NothingCounted, ToldAll, Shows;
    var slots: seq<Item>, protos: map<nat, nat>, ops: seq<Op> :|
      NothingCounted(slots) && Runs(Table(slots, 0, start, protos), targets, ops, r) && m == ToldAll(map[], ops);
    EveryRunShows(slots, protos, targets, start, ops, r);
  }

  lemma ClaimShown(r: Table, m: Claims, i: nat)
    requires Shows(r, m) && i < r.size
    ensures r.size <= |r.slots| && r.slots[i].target in m && m[r.slots[i].target] == ClaimOf(r.slots[i])
  {
  }

  lemma ClaimIs(it: Item)
    ensures ClaimOf(it).newAddr == it.newAddr && ClaimOf(it).page == it.page && ClaimOf(it).proto == it.proto
    ensures ClaimOf(it).hooked <==> it.status == Hooked
  {
  }

  /** After any run, calling an ARM target that stands hooked leads to the replacement that was asked for. */
  lemma HookedArmTargetRunsReplacement(r: Table, targets: set<nat>, start: seq<bv8>, m: Claims, i: nat, isa: A.Isa,
                                       c: A.Core)
    requires ReachedBy(r, targets, start, m) && i < r.size <= |r.slots| && r.slots[i].target in m
    requires
      var x := r.slots[i].target;
      m[x].hooked && x % 2 == 0 && Reaches(m[x].newAddr) && x + 8 <= |r.mem|
    requires forall k :: 0 <= k < 2 ==>
      c.mem(Address(r.slots[i].target + 4 * k)) == WordsOf(r.mem[r.slots[i].target..r.slots[i].target + 8])[k]
    ensures
      var x, newAddr := r.slots[i].target, m[r.slots[i].target].newAddr;
      A.Step(isa, A.Running(Address(x), false, c)) == A.Running(newAddr & 0xFFFFFFFE, newAddr & 1 == 1, c)
  {
    hide *;
    ReachedByRun(r, targets, start, m);
    ClaimShown(r, m, i);
    ClaimIs(r.slots[i]);
    ReachedPatch(r, targets, start, i);
    var it := r.slots[i];
    ArmSizes(it.target);
    forall k | 0 <= k < 2
      ensures c.mem(A.Advance(Address(it.target), k)) == WordsOf(Patch(it.target, it.newAddr))[k]
    {
      ArmAddress(it.target, k);
    }
    HookedArmTargetJumps(isa, it.target, Address(it.target), it.newAddr, c);
  }

  /** So does calling a Thumb target that stands hooked. */
  lemma HookedThumbTargetRunsReplacement(r: Table, targets: set<nat>, start: seq<bv8>, m: Claims, i: nat, isa: T.Isa,
                                         c: T.Core)
    requires ReachedBy(r, targets, start, m) && i < r.size <= |r.slots| && r.slots[i].target in m
    requires
      var x := r.slots[i].target;
      m[x].hooked && x % 2 == 1 && Reaches(m[x].newAddr) && Base(x) + 12 <= |r.mem|
    requires forall k :: 0 <= k < 6 ==>
      c.mem(Address(Base(r.slots[i].target) + 2 * k))
      == HalfwordsOf(r.mem[Base(r.slots[i].target)..Base(r.slots[i].target) + 12])[k]
    ensures
      var x, newAddr := r.slots[i].target, m[r.slots[i].target].newAddr;
      T.Run(isa, T.Running(Address(Base(x)), true, c), if Base(x) % 4 == 0 then 1 else 2)
      == T.Running(newAddr & 0xFFFFFFFE, newAddr & 1 == 1, c)
  {
    hide *;
    ReachedByRun(r, targets, start, m);
    ClaimShown(r, m, i);
    ClaimIs(r.slots[i]);
    ReachedPatch(r, targets, start, i);
    var it := r.slots[i];
    var b, p := Base(it.target), Patch(it.target, it.newAddr);
    BaseIsEven(it.target);
    SameHalfwords(r.mem, b, p);
    forall k | 0 <= k < |p| / 2
      ensures c.mem(T.Advance(Address(b), k)) == HalfwordsOf(p)[k]
    {
      ThumbAddress(b, k);
    }
    AddressInFours(b);
    HookedThumbTargetJumps(isa, it.target, Address(b), it.newAddr, c);
  }

  lemma BaseIsEven(target: nat)
    ensures Base(target) % 2 == 0
  {
  }

  lemma SameHalfwords(mem: seq<bv8>, b: nat, p: seq<bv8>)
    requires b + 12 <= |mem| && |p| <= 12 && |p| % 2 == 0 && mem[b..b + |p|] == p
    ensures forall k :: 0 <= k < |p| / 2 ==> HalfwordsOf(mem[b..b + 12])[k] == HalfwordsOf(p)[k]
  {
    hide Halfword;
    forall k | 0 <= k < |p| / 2
      ensures HalfwordsOf(mem[b..b + 12])[k] == HalfwordsOf(p)[k]
    {
      assert mem[b..b + 12][2 * k] == mem[b..b + |p|][2 * k];
      assert mem[b..b + 12][2 * k + 1] == mem[b..b + |p|][2 * k + 1];
    }
  }

  lemma AddressInFours(x: nat)
    requires x % 2 == 0
    ensures Address(x) & 3 == if x % 4 == 0 then 0 else 2
  {
    if x % 4 == 0 {
      AddressAligned(x);
    } else {
      AddressAligned(x - 2);
      TwoOn(x - 2);
      TwoAboveFour(Address(x - 2));
    }
  }

  lemma TwoAboveFour(a: bv32)
    requires a & 3 == 0
    ensures T.Next(a) & 3 == 2
  {
  }

  lemma ArmSizes(target: nat)
    requires target % 2 == 0
    ensures Base(target) == target && Length(target) == 8
  {
  }

  /** What asking for a safe run asks of the literals. */
  lemma ArmSafeLiterals(it: Item, ws: seq<bv32>, k: nat, targets: set<nat>, start: seq<bv8>, isa: A.Isa,
                        scratch: bv32 -> bool, c: A.Core, d: A.Core)
    requires ArmSafe(it, ws, k, targets, start, isa, scratch, c, d)
    ensures forall a :: a in ArmPage.Literals(Address(it.target), ws) ==> ClearWord(a, targets, it.target, start)
  {
  }

  /** After any run, the trampoline of a live ARM item, entered at its start, runs what was at the target at first. */
  lemma ArmTrampolineRunsOriginal(r: Table, targets: set<nat>, start: seq<bv8>, i: nat, isa: A.Isa,
                                  scratch: bv32 -> bool, c: A.Core, d: A.Core)
    requires Reached(r, targets, start) && i < r.size <= |r.slots|
    requires var it := r.slots[i];
      && Mapped(it) && it.target % 2 == 0 && it.target + 8 <= |start|
      && ArmSafe(it, OriginalWords(start, it.target), 0, targets, start, isa, scratch, c, d)
    ensures
      var it := r.slots[i];
      RunsArm(it, OriginalWords(start, it.target), 0, isa, scratch, c, A.Running(Address(it.page), false, d))
  {
    hide *;
    var it := r.slots[i];
    var ws := OriginalWords(start, it.target);
    ArmSafeLiterals(it, ws, 0, targets, start, isa, scratch, c, d);
    ReachedArmCode(r, targets, start, i);
    FirstChunkAddress(Address(it.page), ws);
    ArmChunkRuns(it, ws, 0, targets, start, isa, scratch, c, d);
  }

  /** Whether an ARM thread at word `k`, with `d` for the core, is moved and comes to where the original leads from
      `c`. */
  ghost predicate MovedArmRuns(it: Item, ws: seq<bv32>, k: nat, isa: A.Isa, scratch: bv32 -> bool, c: A.Core,
                               d: A.Core) {
    && k <= |ws| && |it.origBoundaries| == |it.trampBoundaries|
    && var moved := Migrate(it, it.target + 4 * k, Enable);
       moved.1 && RunsArm(it, ws, k, isa, scratch, c, A.Running(Address(moved.0), false, d))
  }

  /** And a thread that was stopped at either word and moved, by an entry that leads right, goes on as if nothing had
      happened. */
  lemma ArmThreadGoesOn(r: Table, targets: set<nat>, start: seq<bv8>, i: nat, k: nat, isa: A.Isa, scratch: bv32 -> bool,
                        c: A.Core, d: A.Core)
    requires Reached(r, targets, start) && i < r.size <= |r.slots| && k < 2
    requires Mapped(r.slots[i]) && r.slots[i].target % 2 == 0 && r.slots[i].target + 8 <= |start|
    requires var n := |r.slots[i].origBoundaries|; n >= 2 && LeadsRight(r.slots[i], n - 2 + k)
    requires ArmSafe(r.slots[i], OriginalWords(start, r.slots[i].target), k, targets, start, isa, scratch, c, d)
    ensures MovedArmRuns(r.slots[i], OriginalWords(start, r.slots[i].target), k, isa, scratch, c, d)
  {
    hide *;
    var it := r.slots[i];
    var ws := OriginalWords(start, it.target);
    ReachedArmEntry(r, targets, start, i, k);
    ArmSafeLiterals(it, ws, k, targets, start, isa, scratch, c, d);
    ReachedArmCode(r, targets, start, i);
    MovedArmItemRuns(it, |it.origBoundaries| - 2 + k, ws, k, targets, start, isa, scratch, c, d);
  }

  /** The same for an item by itself, by the entry for word `k`. */
  lemma MovedArmItemRuns(it: Item, e: nat, ws: seq<bv32>, k: nat, targets: set<nat>, start: seq<bv8>, isa: A.Isa,
                         scratch: bv32 -> bool, c: A.Core, d: A.Core)
    requires Mapped(it) && Paired(it) && LeadsRight(it, e) && k < |ws| == 2 && it.target % 2 == 0
    requires it.origBoundaries[e] == 4 * k && it.trampBoundaries[e] == 4 * ArmRelocator.ChunkStart(ws, k) <= 48
    requires ArmSafe(it, ws, k, targets, start, isa, scratch, c, d)
    requires it.code == ArmCode(ArmChunks.Trampoline(Address(it.target), ws, FirstWords(start)))
    ensures MovedArmRuns(it, ws, k, isa, scratch, c, d)
  {
    hide Mapped, Paired, LeadsRight, ArmSafe, RunsArm, Migrate, Address, ArmRelocator.ChunkStart,
      ArmChunks.ChunkAddress, ArmChunks.Trampoline, FirstWords;
    MovedArmPc(it, e, ws, k);
    ArmChunkRuns(it, ws, k, targets, start, isa, scratch, c, d);
  }

  lemma MovedArmPc(it: Item, e: nat, ws: seq<bv32>, k: nat)
    requires Mapped(it) && Paired(it) && LeadsRight(it, e) && k < |ws| == 2 && it.target % 2 == 0
    requires it.origBoundaries[e] == 4 * k && it.trampBoundaries[e] == 4 * ArmRelocator.ChunkStart(ws, k) <= 48
    ensures |it.origBoundaries| == |it.trampBoundaries|
    ensures
      var moved := Migrate(it, it.target + 4 * k, Enable);
      moved.1 && Address(moved.0) == ArmChunks.ChunkAddress(Address(it.page), ws, k)
  {
    hide *;
    PairedSizes(it);
    ArmSizes(it.target);
    MovedToItsChunk(it, e);
    ArmAddress(it.page, ArmRelocator.ChunkStart(ws, k));
    ArmRelocator.ChunkStartAddress(Address(it.page), ws, k);
  }

  lemma FirstChunkAddress(tr: bv32, ws: seq<bv32>)
    ensures ArmChunks.ChunkAddress(tr, ws, 0) == tr
  {
  }

  lemma PairedSizes(it: Item)
    requires Paired(it)
    ensures |it.origBoundaries| == |it.trampBoundaries|
  {
  }

  lemma ThumbSafeLiterals(it: Item, hs: seq<bv16>, k: nat, targets: set<nat>, start: seq<bv8>, isa: T.Isa,
                          scratch: bv32 -> bool, c: T.Core, d: T.Core)
    requires ThumbSafe(it, hs, k, targets, start, isa, scratch, c, d)
    ensures forall a :: a in ThumbPage.Literals(Address(Base(it.target)), hs) ==>
      ClearWord(a, targets, it.target, start)
  {
  }

  /** The same for Thumb items: from the start of the trampoline, */
  lemma ThumbTrampolineRunsOriginal(r: Table, targets: set<nat>, start: seq<bv8>, i: nat, isa: T.Isa,
                                    scratch: bv32 -> bool, c: T.Core, d: T.Core)
    requires Reached(r, targets, start) && i < r.size <= |r.slots|
    requires var it := r.slots[i];
      && Mapped(it) && it.target % 2 == 1 && Base(it.target) + 12 <= |start|
      && ThumbSafe(it, OriginalHalfwords(start, it.target), 0, targets, start, isa, scratch, c, d)
    ensures
      var it := r.slots[i];
      RunsThumb(it, OriginalHalfwords(start, it.target), 0, isa, scratch, c, T.Running(Address(it.page), true, d))
  {
    hide *;
    var it := r.slots[i];
    var hs := OriginalHalfwords(start, it.target);
    ThumbSafeLiterals(it, hs, 0, targets, start, isa, scratch, c, d);
    ReachedThumbCode(r, targets, start, i);
    ThumbMeaning.NoChunksBefore(Address(it.page), hs);
    ThumbChunkRuns(it, hs, 0, targets, start, isa, scratch, c, d);
  }

  lemma ThumbSizes(target: nat)
    requires target % 2 == 1
    ensures Length(target) == 12
  {
  }

  ghost predicate MovedThumbRuns(it: Item, hs: seq<bv16>, k: nat, isa: T.Isa, scratch: bv32 -> bool, c: T.Core,
                                 d: T.Core) {
    && k <= |hs| && ThumbMeaning.Boundary(hs, k) && |it.origBoundaries| == |it.trampBoundaries|
    && var moved := Migrate(it, Base(it.target) + 2 * k, Enable);
       moved.1 && RunsThumb(it, hs, k, isa, scratch, c, T.Running(Address(moved.0), true, d))
  }

  /** and from wherever a thread was stopped that is moved. */
  lemma ThumbThreadGoesOn(r: Table, targets: set<nat>, start: seq<bv8>, i: nat, hs: seq<bv16>, j: nat, isa: T.Isa,
                          scratch: bv32 -> bool, c: T.Core, d: T.Core)
    requires Reached(r, targets, start) && i < r.size <= |r.slots|
    requires Mapped(r.slots[i]) && r.slots[i].target % 2 == 1 && Base(r.slots[i].target) + 12 <= |start|
    requires hs == OriginalHalfwords(start, r.slots[i].target) && j < |ThumbRelocator.OrigStarts(hs, 0)|
    requires
      var n, own := |r.slots[i].origBoundaries|, |ThumbRelocator.OrigStarts(hs, 0)|;
      own <= n && LeadsRight(r.slots[i], n - own + j)
    requires ThumbSafe(r.slots[i], hs, ThumbRelocator.OrigStarts(hs, 0)[j], targets, start, isa, scratch, c, d)
    ensures MovedThumbRuns(r.slots[i], hs, ThumbRelocator.OrigStarts(hs, 0)[j], isa, scratch, c, d)
  {
    hide *;
    var it := r.slots[i];
    var origs, tramps := ThumbRelocator.OrigStarts(hs, 0), ThumbRelocator.TrampStarts(hs, 0);
    ReachedThumbEntry(r, targets, start, i, j);
    ThumbStarts(Address(it.page), hs, j);
    ThumbSafeLiterals(it, hs, origs[j], targets, start, isa, scratch, c, d);
    ReachedThumbCode(r, targets, start, i);
    MovedThumbItemRuns(it, |it.origBoundaries| - |origs| + j, hs, origs[j], tramps[j], targets, start, isa, scratch,
                       c, d);
  }

  /** The same for an item by itself, by the entry for halfword `k`, whose chunk is at halfword `p`. */
  lemma MovedThumbItemRuns(it: Item, e: nat, hs: seq<bv16>, k: nat, p: nat, targets: set<nat>, start: seq<bv8>,
                           isa: T.Isa, scratch: bv32 -> bool, c: T.Core, d: T.Core)
    requires Mapped(it) && Paired(it) && LeadsRight(it, e) && k <= |hs| == 6 && p <= 48 && it.target % 2 == 1
    requires it.origBoundaries[e] == 2 * k && it.trampBoundaries[e] == 2 * p && ThumbMeaning.Boundary(hs, k)
    requires ThumbMeaning.ChunkAddress(Address(it.page), hs, k) == T.Advance(Address(it.page), p)
    requires ThumbSafe(it, hs, k, targets, start, isa, scratch, c, d)
    requires it.code == ThumbCode(ThumbChunks.Trampoline(Address(Base(it.target)), hs, FirstWords(start)))
    ensures MovedThumbRuns(it, hs, k, isa, scratch, c, d)
  {
    hide Mapped, Paired, LeadsRight, ThumbSafe, RunsThumb, Migrate, Address, Base, T.Advance, ThumbMeaning.Boundary,
      ThumbMeaning.ChunkAddress, ThumbChunks.Trampoline, FirstWords;
    MovedThumbPc(it, e, k, p);
    ThumbChunkRuns(it, hs, k, targets, start, isa, scratch, c, d);
  }

  lemma MovedThumbPc(it: Item, e: nat, k: nat, p: nat)
    requires Mapped(it) && Paired(it) && LeadsRight(it, e) && k <= 6 && p <= 48 && it.target % 2 == 1
    requires it.origBoundaries[e] == 2 * k && it.trampBoundaries[e] == 2 * p
    ensures |it.origBoundaries| == |it.trampBoundaries|
    ensures
      var moved := Migrate(it, Base(it.target) + 2 * k, Enable);
      moved.1 && Address(moved.0) == T.Advance(Address(it.page), p)
  {
    hide *;
    PairedSizes(it);
    ThumbSizes(it.target);
    MovedToItsChunk(it, e);
    ThumbAddress(it.page, p);
  }

  // ----- What a caller gets -----

  /** Whether such a run leads to `r` whose registrations use the pointer cells as `cells` says: no two targets one
      cell. */
  ghost predicate ReachedByCells(r: Table, targets: set<nat>, start: seq<bv8>, m: Claims, cells: map<nat, nat>) {
    && PairwiseDisjoint(targets)
    && exists slots: seq<Item>, protos: map<nat, nat>, ops: seq<Op> ::
         && NothingCounted(slots) && Runs(Table(slots, 0, start, protos), targets, ops, r) && UseOwnCells(ops, cells)
         && m == ToldAll(map[], ops)
  }

  /** Then the cell that was asked for a target that stands hooked holds where its trampoline is entered. */
  lemma ReachedCell(r: Table, targets: set<nat>, start: seq<bv8>, m: Claims, cells: map<nat, nat>, i: nat, cell: nat)
    requires ReachedByCells(r, targets, start, m, cells) && i < r.size <= |r.slots| && r.slots[i].target in m
    requires m[r.slots[i].target].hooked && m[r.slots[i].target].proto == Some(cell)
    ensures Reached(r, targets, start)
    ensures cell in r.protos && r.protos[cell] == Entrance(r.slots[i])
  {
    hide Runs, NothingCounted, UseOwnCells, ToldAll, Shows, ClaimOf;
    var slots: seq<Item>, protos: map<nat, nat>, ops: seq<Op> :|
      && NothingCounted(slots) && Runs(Table(slots, 0, start, protos), targets, ops, r) && UseOwnCells(ops, cells)
      && m == ToldAll(map[], ops);
    EveryRunShows(slots, protos, targets, start, ops, r);
    ClaimShown(r, m, i);
    ClaimIs(r.slots[i]);
    EveryCallerHasItsPointer(slots, protos, targets, start, cells, ops, r, r.slots[i].target, cell);
  }

  lemma EvenStaysArm(a: bv32, d: A.Core)
    requires a & 3 == 0
    ensures A.WritePC(a, d) == A.Goto(a, false, d)
  {
  }

  lemma OddGoesThumb(a: bv32, d: T.Core)
    requires a & 3 == 0
    ensures T.WritePC(NextByte(a), d) == T.Goto(a, true, d)
  {
  }

  lemma EntranceAddress(it: Item)
    requires Mapped(it)
    ensures Address(it.page) & 3 == 0
    ensures it.target % 2 == 0 ==> Address(Entrance(it)) == Address(it.page)
    ensures it.target % 2 == 1 ==> Address(Entrance(it)) == NextByte(Address(it.page))
  {
    hide NextByte;
    AddressAligned(it.page);
  }

  /** Where a branch to the pointer in the cell leads, as an ARM machine. */
  function ArmCall(pointer: nat, d: A.Core): A.Machine {
    match A.WritePC(Address(pointer), d)
    case Goto(a, thumb, c) => A.Running(a, thumb, c)
    case _ => A.Halted
  }

  function ThumbCall(pointer: nat, d: T.Core): T.Machine {
    match T.WritePC(Address(pointer), d)
    case Goto(a, thumb, c) => T.Running(a, thumb, c)
    case _ => T.Halted
  }

  lemma ArmCallEnters(it: Item, d: A.Core)
    requires Mapped(it) && it.target % 2 == 0
    ensures ArmCall(Entrance(it), d) == A.Running(Address(it.page), false, d)
  {
    hide Mapped, Address, Entrance, A.WritePC;
    EntranceAddress(it);
    EvenStaysArm(Address(it.page), d);
  }

  lemma ThumbCallEnters(it: Item, d: T.Core)
    requires Mapped(it) && it.target % 2 == 1
    ensures ThumbCall(Entrance(it), d) == T.Running(Address(it.page), true, d)
  {
    hide Mapped, Address, Entrance, T.WritePC;
    EntranceAddress(it);
    OddGoesThumb(Address(it.page), d);
  }

  /** So a call through the pointer in the cell that was asked for runs what was at an ARM target at first, */
  lemma ArmCallerRunsOriginal(r: Table, targets: set<nat>, start: seq<bv8>, m: Claims, cells: map<nat, nat>, i: nat,
                              cell: nat, isa: A.Isa, scratch: bv32 -> bool, c: A.Core, d: A.Core)
    requires ReachedByCells(r, targets, start, m, cells) && i < r.size <= |r.slots| && r.slots[i].target in m
    requires m[r.slots[i].target].hooked && m[r.slots[i].target].proto == Some(cell)
    requires Mapped(r.slots[i]) && r.slots[i].target % 2 == 0 && r.slots[i].target + 8 <= |start|
    requires ArmSafe(r.slots[i], OriginalWords(start, r.slots[i].target), 0, targets, start, isa, scratch, c, d)
    ensures cell in r.protos
    ensures
      var it := r.slots[i];
      RunsArm(it, OriginalWords(start, it.target), 0, isa, scratch, c, ArmCall(r.protos[cell], d))
  {
    hide *;
    ReachedCell(r, targets, start, m, cells, i, cell);
    ArmCallEnters(r.slots[i], d);
    ArmTrampolineRunsOriginal(r, targets, start, i, isa, scratch, c, d);
  }

  /** and likewise at a Thumb target. */
  lemma ThumbCallerRunsOriginal(r: Table, targets: set<nat>, start: seq<bv8>, m: Claims, cells: map<nat, nat>, i: nat,
                                cell: nat, isa: T.Isa, scratch: bv32 -> bool, c: T.Core, d: T.Core)
    requires ReachedByCells(r, targets, start, m, cells) && i < r.size <= |r.slots| && r.slots[i].target in m
    requires m[r.slots[i].target].hooked && m[r.slots[i].target].proto == Some(cell)
    requires Mapped(r.slots[i]) && r.slots[i].target % 2 == 1 && Base(r.slots[i].target) + 12 <= |start|
    requires ThumbSafe(r.slots[i], OriginalHalfwords(start, r.slots[i].target), 0, targets, start, isa, scratch, c, d)
    ensures cell in r.protos
    ensures
      var it := r.slots[i];
      RunsThumb(it, OriginalHalfwords(start, it.target), 0, isa, scratch, c, ThumbCall(r.protos[cell], d))
  {
    hide *;
    ReachedCell(r, targets, start, m, cells, i, cell);
    ThumbCallEnters(r.slots[i], d);
    ThumbTrampolineRunsOriginal(r, targets, start, i, isa, scratch, c, d);
  }
}
