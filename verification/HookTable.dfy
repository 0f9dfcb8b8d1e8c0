/** The hook table and the code memory it patches, as values. */
module HookTable {
  import opened Options
  import ArmMachine
  import ArmChunks
  import ArmRelocator
  import ThumbChunks
  import ThumbRelocator
  import ThumbMeaning

  datatype Status = Registered | Hooked

  datatype Reply = Ok | NotExecutable | NotRegistered | NotHooked | AlreadyRegistered | AlreadyHooked

  datatype Code = ArmCode(words: seq<bv32>) | ThumbCode(halfwords: seq<bv16>)

  /** One entry. The boundary tables keep `count` entries; the storage behind them is not bounded here. */
  datatype Item = Item(
    target: nat, newAddr: bv32, proto: Option<nat>, saved: seq<bv8>, page: nat, code: Code,
    origBoundaries: seq<nat>, trampBoundaries: seq<nat>, status: Status)

  /** All slots, used or stale; the first `size` are live. `protos` are the caller's pointer cells. */
  datatype Table = Table(slots: seq<Item>, size: nat, mem: seq<bv8>, protos: map<nat, nat>)

  // ----- Targets -----

  function Base(target: nat): nat { target - target % 2 }

  /** How many bytes are saved: bit 0 of the target says Thumb. */
  function Length(target: nat): nat { if target % 2 == 1 then 12 else 8 }

  /** The 32-bit address of a byte: its number as a word, by counting. */
  function Address(x: nat): bv32 { if x == 0 then 0 else NextByte(Address(x - 1)) }

  function NextByte(a: bv32): bv32 { a + 1 }

  function Bytes4(v: bv32): (r: seq<bv8>)
    ensures |r| == 4
  {
    [(v & 0xFF) as bv8, ((v >> 8) & 0xFF) as bv8, ((v >> 16) & 0xFF) as bv8, (v >> 24) as bv8]
  }

  /** The bytes a hook writes over its target. */
  function Patch(target: nat, newAddr: bv32): (r: seq<bv8>)
    ensures |r| == if target % 2 == 1 && Base(target) % 4 != 0 then 10 else 8
    ensures |r| <= Length(target)
  {
    if target % 2 == 1 then
      (if Base(target) % 4 != 0 then [0x00, 0xBF] else []) + [0xDF, 0xF8, 0x00, 0xF0] + Bytes4(newAddr)
    else Bytes4(0xE51FF004) + Bytes4(newAddr)
  }

  predicate Disjoint(a: nat, b: nat) {
    Base(a) + Length(a) <= Base(b) || Base(b) + Length(b) <= Base(a)
  }

  function Overwrite(mem: seq<bv8>, at: nat, bytes: seq<bv8>): (r: seq<bv8>)
    requires at + |bytes| <= |mem|
    ensures |r| == |mem|
    ensures forall a :: 0 <= a < |mem| ==> r[a] == if at <= a < at + |bytes| then bytes[a - at] else mem[a]
  {
    mem[..at] + bytes + mem[at + |bytes|..]
  }

  // ----- Relocation of the saved bytes -----

  /** Little-endian. */
  function Halfword(b0: bv8, b1: bv8): bv16 { (b1 as bv16 << 8) | b0 as bv16 }

  function Word(b0: bv8, b1: bv8, b2: bv8, b3: bv8): bv32 {
    (b3 as bv32 << 24) | (b2 as bv32 << 16) | (b1 as bv32 << 8) | b0 as bv32
  }

  function HalfwordsOf(bytes: seq<bv8>): (r: seq<bv16>)
    requires |bytes| % 2 == 0
    ensures |r| == |bytes| / 2
  {
    seq(|bytes| / 2, i requires 0 <= i < |bytes| / 2 => Halfword(bytes[2 * i], bytes[2 * i + 1]))
  }

  function WordsOf(bytes: seq<bv8>): (r: seq<bv32>)
    requires |bytes| % 4 == 0
    ensures |r| == |bytes| / 4
  {
    seq(|bytes| / 4, i requires 0 <= i < |bytes| / 4 =>
      Word(bytes[4 * i], bytes[4 * i + 1], bytes[4 * i + 2], bytes[4 * i + 3]))
  }

  /** The trampoline made of the saved bytes. */
  function CodeFor(target: nat, saved: seq<bv8>, lit: bv32 -> bv32): Code
    requires target < 0x1_0000_0000 && |saved| == Length(target)
  {
    if target % 2 == 1 then ThumbCode(ThumbChunks.Trampoline(Address(Base(target)), HalfwordsOf(saved), lit))
    else ArmCode(ArmChunks.Trampoline(Address(target), WordsOf(saved), lit))
  }

  /** The boundary entries the relocation makes, in the original and in the trampoline. */
  function OrigFor(target: nat, saved: seq<bv8>): seq<nat>
    requires |saved| == Length(target)
  {
    if target % 2 == 1 then ThumbRelocator.Bytes(ThumbRelocator.OrigStarts(HalfwordsOf(saved), 0))
    else ArmRelocator.OrigStarts(2)
  }

  function TrampFor(target: nat, saved: seq<bv8>): seq<nat>
    requires |saved| == Length(target)
  {
    if target % 2 == 1 then ThumbRelocator.Bytes(ThumbRelocator.TrampStarts(HalfwordsOf(saved), 0))
    else ArmRelocator.TrampStarts(WordsOf(saved), 2)
  }

  // ----- Operations -----

  /** The first live slot of `target`, from `i` on. */
  function Find(t: Table, target: nat, i: nat): (r: Option<nat>)
    requires i <= t.size <= |t.slots|
    ensures r.Some? ==> i <= r.value < t.size && t.slots[r.value].target == target
                        && forall k :: i <= k < r.value ==> t.slots[k].target != target
    ensures r.None? ==> forall k :: i <= k < t.size ==> t.slots[k].target != target
    decreases t.size - i
  {
    if i == t.size then None
    else if t.slots[i].target == target then Some(i)
    else Find(t, target, i + 1)
  }

  /** The first live slot that hooks `target`, from `i` on. */
  function FindHooked(t: Table, target: nat, i: nat): (r: Option<nat>)
    requires i <= t.size <= |t.slots|
    ensures r.Some? ==> i <= r.value < t.size && t.slots[r.value].target == target && t.slots[r.value].status == Hooked
                        && forall k :: i <= k < r.value ==> t.slots[k].target != target || t.slots[k].status != Hooked
    ensures r.None? ==> forall k :: i <= k < t.size ==> t.slots[k].target != target || t.slots[k].status != Hooked
    decreases t.size - i
  {
    if i == t.size then None
    else if t.slots[i].target == target && t.slots[i].status == Hooked then Some(i)
    else FindHooked(t, target, i + 1)
  }

  /** Room for the bytes of a target, which is an address of the machine. */
  predicate InMemory(t: Table, target: nat) {
    target < 0x1_0000_0000 && Base(target) + Length(target) <= |t.mem|
  }

  datatype Request = Request(target: nat, newAddr: bv32, proto: Option<nat>, page: nat)

  /** The words that literal loads find during a relocation: in code memory as it is then, or elsewhere. */
  function LitOf(mem: seq<bv8>, elsewhere: bv32 -> bv32): bv32 -> bv32 { (a: bv32) => WordAt(mem, elsewhere, a) }

  function WordAt(mem: seq<bv8>, elsewhere: bv32 -> bv32, a: bv32): bv32 {
    var i := a as nat;
    if i + 4 <= |mem| then Word(mem[i], mem[i + 1], mem[i + 2], mem[i + 3]) else elsewhere(a)
  }

  /** The slot after a registration. The boundary entries go after those a stale slot still counts. */
  function Registration(t: Table, q: Request, elsewhere: bv32 -> bv32): Item
    requires t.size < |t.slots| && InMemory(t, q.target)
  {
    var saved := t.mem[Base(q.target)..Base(q.target) + Length(q.target)];
    var stale := t.slots[t.size];
    Item(q.target, q.newAddr, q.proto, saved, q.page, CodeFor(q.target, saved, LitOf(t.mem, elsewhere)),
         stale.origBoundaries + OrigFor(q.target, saved), stale.trampBoundaries + TrampFor(q.target, saved), Registered)
  }

  /** registerInlineHook; whether the two addresses are executable is the caller's world. */
  function Register(t: Table, q: Request, executable: bool, elsewhere: bv32 -> bv32): (Table, Reply)
    requires t.size < |t.slots| && InMemory(t, q.target)
  {
    if !executable then (t, NotExecutable)
    else
      match Find(t, q.target, 0)
      case Some(i) => (t, if t.slots[i].status == Registered then AlreadyRegistered else AlreadyHooked)
      case None => (t.(slots := t.slots[t.size := Registration(t, q, elsewhere)], size := t.size + 1), Ok)
  }

  predicate Fits(t: Table, i: nat) {
    && i < t.size <= |t.slots|
    && var it := t.slots[i]; Base(it.target) + Length(it.target) <= |t.mem| && |it.saved| == Length(it.target)
  }

  /** doInlineHook. */
  function DoHook(t: Table, i: nat): (r: Table)
    requires Fits(t, i)
    ensures r.size == t.size && |r.slots| == |t.slots| && |r.mem| == |t.mem|
  {
    var it := t.slots[i];
    t.(mem := Overwrite(t.mem, Base(it.target), Patch(it.target, it.newAddr)),
       protos := if it.proto.Some? then t.protos[it.proto.value := it.page + it.target % 2] else t.protos,
       slots := t.slots[i := it.(status := Hooked)])
  }

  /** doInlineUnHook: the last item takes the freed place. */
  function DoUnhook(t: Table, i: nat): (r: Table)
    requires Fits(t, i)
    ensures r.size == t.size - 1 && |r.slots| == |t.slots| && |r.mem| == |t.mem|
  {
    var it := t.slots[i];
    t.(mem := Overwrite(t.mem, Base(it.target), it.saved),
       slots := t.slots[i := t.slots[t.size - 1]], size := t.size - 1)
  }

  /** Every live item fits. */
  predicate AllFit(t: Table) {
    t.size <= |t.slots| && forall i :: 0 <= i < t.size ==> Fits(t, i)
  }

  function Hook(t: Table, target: nat): (Table, Reply)
    requires AllFit(t)
  {
    match Find(t, target, 0)
    case None => (t, NotRegistered)
    case Some(i) => if t.slots[i].status == Registered then (DoHook(t, i), Ok) else (t, AlreadyHooked)
  }

  function Unhook(t: Table, target: nat): (Table, Reply)
    requires AllFit(t)
  {
    match FindHooked(t, target, 0)
    case None => (t, NotHooked)
    case Some(i) => (DoUnhook(t, i), Ok)
  }

  lemma HookFits(t: Table, i: nat)
    requires AllFit(t) && i < t.size
    ensures AllFit(DoHook(t, i)) && AllFit(DoUnhook(t, i))
  {
    var h, u := DoHook(t, i), DoUnhook(t, i);
    forall k | 0 <= k < t.size ensures Fits(h, k) {
      assert Fits(t, k);
    }
    forall k | 0 <= k < u.size ensures Fits(u, k) {
      assert Fits(t, k) && Fits(t, t.size - 1);
    }
  }

  lemma RegisterFits(t: Table, q: Request, executable: bool, elsewhere: bv32 -> bv32)
    requires AllFit(t) && t.size < |t.slots| && InMemory(t, q.target)
    ensures AllFit(Register(t, q, executable, elsewhere).0)
  {
    hide CodeFor, OrigFor, TrampFor;
    var r := Register(t, q, executable, elsewhere).0;
    forall k | 0 <= k < r.size ensures Fits(r, k) {
      assert k < t.size ==> Fits(t, k);
    }
  }

  /** inlineUnHookAll from slot `i` on: a freed place is looked at again, for the item moved there. */
  function UnhookFrom(t: Table, i: nat): Table
    requires AllFit(t) && i <= t.size
    decreases t.size - i
  {
    if i == t.size then t
    else if t.slots[i].status == Hooked then
      HookFits(t, i);
      UnhookFrom(DoUnhook(t, i), i)
    else UnhookFrom(t, i + 1)
  }

  function HookFrom(t: Table, i: nat): Table
    requires AllFit(t) && i <= t.size
    decreases t.size - i
  {
    if i == t.size then t
    else if t.slots[i].status == Registered then
      HookFits(t, i);
      HookFrom(DoHook(t, i), i + 1)
    else HookFrom(t, i + 1)
  }

  // ----- What holds of every reachable table -----

  /** Address `a` is under the patch of live item `i`. */
  predicate Under(t: Table, i: nat, a: nat)
    requires i < t.size <= |t.slots|
  {
    var it := t.slots[i];
    it.status == Hooked && Base(it.target) <= a < Base(it.target) + |Patch(it.target, it.newAddr)|
  }

  /** Item `i` is a target of the run, saved as it was at the start. */
  predicate Genuine(t: Table, targets: set<nat>, start: seq<bv8>, i: nat)
    requires i < t.size <= |t.slots|
  {
    var it := t.slots[i];
    var b := Base(it.target);
    it.target in targets && b + Length(it.target) <= |start| && it.saved == start[b..b + Length(it.target)]
  }

  /** A hooked item's patch is in memory. */
  predicate Laid(t: Table, i: nat)
    requires i < t.size <= |t.slots|
  {
    var it := t.slots[i];
    var p := Patch(it.target, it.newAddr);
    it.status == Hooked ==>
      Base(it.target) + |p| <= |t.mem| && t.mem[Base(it.target)..Base(it.target) + |p|] == p
  }

  /** `start` is the memory before the run; `targets` are all it will ever hook. */
  ghost predicate Inv(t: Table, targets: set<nat>, start: seq<bv8>) {
    && t.size <= |t.slots| && |t.mem| == |start|
    && (forall i :: 0 <= i < t.size ==> Genuine(t, targets, start, i))
    && (forall i, j :: 0 <= i < j < t.size ==> t.slots[i].target != t.slots[j].target)
    && (forall i :: 0 <= i < t.size ==> Laid(t, i))
    && (forall a :: 0 <= a < |start| && (forall i :: 0 <= i < t.size ==> !Under(t, i, a)) ==> t.mem[a] == start[a])
  }

  predicate PairwiseDisjoint(targets: set<nat>) {
    forall x, y :: x in targets && y in targets && x != y ==> Disjoint(x, y)
  }

  lemma InvFits(t: Table, targets: set<nat>, start: seq<bv8>)
    requires Inv(t, targets, start)
    ensures AllFit(t)
  {
    forall i | 0 <= i < t.size ensures Fits(t, i) {
      assert Genuine(t, targets, start, i);
    }
  }

  /** A byte of a target is under no patch but the target's own. */
  lemma OnlyOwnPatch(t: Table, targets: set<nat>, start: seq<bv8>, target: nat, a: nat, k: nat)
    requires Inv(t, targets, start) && PairwiseDisjoint(targets) && target in targets
    requires Base(target) <= a < Base(target) + Length(target)
    requires k < t.size && t.slots[k].target != target
    ensures !Under(t, k, a)
  {
    assert Genuine(t, targets, start, k);
    assert Disjoint(target, t.slots[k].target);
  }

  /** A target that is not hooked has, in memory, the bytes it had at the start. */
  lemma UnhookedIsClean(t: Table, targets: set<nat>, start: seq<bv8>, target: nat)
    requires Inv(t, targets, start) && PairwiseDisjoint(targets) && target in targets
    requires Base(target) + Length(target) <= |start|
    requires forall k :: 0 <= k < t.size && t.slots[k].target == target ==> t.slots[k].status == Registered
    ensures t.mem[Base(target)..Base(target) + Length(target)] == start[Base(target)..Base(target) + Length(target)]
  {
    forall a | Base(target) <= a < Base(target) + Length(target) ensures t.mem[a] == start[a] {
      forall i | 0 <= i < t.size ensures !Under(t, i, a) {
        if t.slots[i].target != target {
          OnlyOwnPatch(t, targets, start, target, a, i);
        }
      }
    }
  }

  lemma RegisterKeeps(t: Table, targets: set<nat>, start: seq<bv8>, q: Request, executable: bool,
                      elsewhere: bv32 -> bv32)
    requires Inv(t, targets, start) && PairwiseDisjoint(targets) && q.target in targets
    requires t.size < |t.slots| && InMemory(t, q.target)
    ensures Inv(Register(t, q, executable, elsewhere).0, targets, start)
  {
    hide CodeFor, OrigFor, TrampFor, Patch;
    var r := Register(t, q, executable, elsewhere).0;
    if executable && Find(t, q.target, 0).None? {
      UnhookedIsClean(t, targets, start, q.target);
      forall i | 0 <= i < r.size ensures Genuine(r, targets, start, i) && Laid(r, i) {
        if i < t.size {
          assert Genuine(t, targets, start, i) && Laid(t, i);
        }
      }
      forall a | 0 <= a < |start| && (forall i :: 0 <= i < r.size ==> !Under(r, i, a)) ensures r.mem[a] == start[a] {
        forall i | 0 <= i < t.size ensures !Under(t, i, a) {
          assert !Under(r, i, a);
        }
      }
    }
  }

  lemma DoHookKeeps(t: Table, targets: set<nat>, start: seq<bv8>, i: nat)
    requires Inv(t, targets, start) && PairwiseDisjoint(targets)
    requires i < t.size && t.slots[i].status == Registered
    ensures AllFit(t) && Inv(DoHook(t, i), targets, start)
  {
    hide Patch;
    InvFits(t, targets, start);
    var r := DoHook(t, i);
    var it := t.slots[i];
    forall k | 0 <= k < r.size ensures Genuine(r, targets, start, k) && Laid(r, k) {
      assert Genuine(t, targets, start, k) && Laid(t, k) && Genuine(t, targets, start, i);
      if k != i {
        assert Disjoint(it.target, t.slots[k].target);
      }
    }
    forall a | 0 <= a < |start| && (forall k :: 0 <= k < r.size ==> !Under(r, k, a)) ensures r.mem[a] == start[a] {
      assert !Under(r, i, a);
      forall k | 0 <= k < t.size ensures !Under(t, k, a) {
        assert !Under(r, k, a);
      }
    }
  }

  lemma DoUnhookKeepsItems(t: Table, targets: set<nat>, start: seq<bv8>, i: nat, k: nat)
    requires Inv(t, targets, start) && PairwiseDisjoint(targets) && AllFit(t)
    requires i < t.size && t.slots[i].status == Hooked && k < t.size - 1
    ensures var r := DoUnhook(t, i); Genuine(r, targets, start, k) && Laid(r, k)
  {
    hide Patch;
    var j := if k == i then t.size - 1 else k;
    assert Genuine(t, targets, start, i) && Genuine(t, targets, start, j) && Laid(t, j);
    assert Disjoint(t.slots[i].target, t.slots[j].target);
  }

  lemma DoUnhookKeeps(t: Table, targets: set<nat>, start: seq<bv8>, i: nat)
    requires Inv(t, targets, start) && PairwiseDisjoint(targets)
    requires i < t.size && t.slots[i].status == Hooked
    ensures AllFit(t) && Inv(DoUnhook(t, i), targets, start)
  {
    hide Patch;
    InvFits(t, targets, start);
    var r := DoUnhook(t, i);
    var it := t.slots[i];
    forall k | 0 <= k < r.size ensures Genuine(r, targets, start, k) && Laid(r, k) {
      DoUnhookKeepsItems(t, targets, start, i, k);
    }
    forall a | 0 <= a < |start| && (forall k :: 0 <= k < r.size ==> !Under(r, k, a)) ensures r.mem[a] == start[a] {
      assert Genuine(t, targets, start, i);
      if !(Base(it.target) <= a < Base(it.target) + Length(it.target)) {
        forall k | 0 <= k < t.size ensures !Under(t, k, a) {
          if k == t.size - 1 {
            assert i < r.size ==> !Under(r, i, a);
          } else if k != i {
            assert !Under(r, k, a);
          }
        }
      }
    }
  }

  // ----- What the invariant says of memory -----

  /** What a target has behind its patch is as it was at the start. */
  lemma BehindThePatch(t: Table, targets: set<nat>, start: seq<bv8>, i: nat, a: nat)
    requires Inv(t, targets, start) && PairwiseDisjoint(targets) && i < t.size
    requires
      var it := t.slots[i];
      Base(it.target) + |Patch(it.target, it.newAddr)| <= a < Base(it.target) + Length(it.target)
    ensures a < |start| && t.mem[a] == start[a]
  {
    hide Patch;
    assert Genuine(t, targets, start, i);
    forall j | 0 <= j < t.size
      ensures !Under(t, j, a)
    {
      if t.slots[j].target != t.slots[i].target {
        OnlyOwnPatch(t, targets, start, t.slots[i].target, a, j);
      }
    }
  }

  lemma PatchedBytes(mem: seq<bv8>, saved: seq<bv8>, p: seq<bv8>, b: nat)
    requires b + |saved| <= |mem| && |p| <= |saved| && mem[b..b + |p|] == p
    requires forall a :: b + |p| <= a < b + |saved| ==> mem[a] == saved[a - b]
    ensures mem[b..b + |saved|] == p + saved[|p|..]
  {
    forall k | 0 <= k < |p|
      ensures mem[b + k] == p[k]
    {
      assert mem[b..b + |p|][k] == p[k];
    }
  }

  /** A registered target still has its saved original; a hooked one has the patch laid over it. */
  lemma TargetBytes(t: Table, targets: set<nat>, start: seq<bv8>, i: nat)
    requires Inv(t, targets, start) && PairwiseDisjoint(targets) && i < t.size
    ensures
      var it := t.slots[i];
      var p := Patch(it.target, it.newAddr);
      var b := Base(it.target);
      && b + Length(it.target) <= |t.mem| && |p| <= |it.saved| == Length(it.target)
      && t.mem[b..b + Length(it.target)] == if it.status == Registered then it.saved else p + it.saved[|p|..]
  {
    hide Patch, Base, Length;
    var it := t.slots[i];
    var p := Patch(it.target, it.newAddr);
    var b := Base(it.target);
    assert Genuine(t, targets, start, i) && Laid(t, i);
    if it.status == Registered {
      UnhookedIsClean(t, targets, start, it.target);
    } else {
      forall a | b + |p| <= a < b + |it.saved|
        ensures t.mem[a] == it.saved[a - b]
      {
        BehindThePatch(t, targets, start, i, a);
      }
      PatchedBytes(t.mem, it.saved, p, b);
    }
  }

  /** With nothing hooked, memory is as it was at the start. */
  lemma NothingHookedIsClean(t: Table, targets: set<nat>, start: seq<bv8>)
    requires Inv(t, targets, start) && forall i :: 0 <= i < t.size ==> t.slots[i].status == Registered
    ensures t.mem == start
  {
    forall a | 0 <= a < |start| ensures t.mem[a] == start[a] {
      forall i | 0 <= i < t.size ensures !Under(t, i, a) {
        assert t.slots[i].status == Registered;
      }
    }
  }

  // ----- Unhooking and hooking everything -----

  function RegisteredItems(t: Table): set<Item>
    requires t.size <= |t.slots|
  {
    set i | 0 <= i < t.size && t.slots[i].status == Registered :: t.slots[i]
  }

  /** Unhooking item `i` loses no registered item, although the last one moves. */
  lemma UnhookKeepsRegistered(t: Table, i: nat)
    requires AllFit(t) && i < t.size && t.slots[i].status == Hooked
    ensures RegisteredItems(DoUnhook(t, i)) == RegisteredItems(t)
  {
    var r := DoUnhook(t, i);
    forall x | x in RegisteredItems(t) ensures x in RegisteredItems(r) {
      var k :| 0 <= k < t.size && t.slots[k].status == Registered && t.slots[k] == x;
      var j := if k == t.size - 1 then i else k;
      assert j < r.size && r.slots[j] == x;
    }
    forall x | x in RegisteredItems(r) ensures x in RegisteredItems(t) {
      var k :| 0 <= k < r.size && r.slots[k].status == Registered && r.slots[k] == x;
      var j := if k == i then t.size - 1 else k;
      assert j < t.size && t.slots[j] == x;
    }
  }

  /** inlineUnHookAll leaves no hooked item, keeps every registered one, and restores all of memory. */
  lemma {:induction false} UnhookAllRestores(t: Table, targets: set<nat>, start: seq<bv8>, i: nat)
    requires Inv(t, targets, start) && PairwiseDisjoint(targets) && AllFit(t) && i <= t.size
    requires forall k :: 0 <= k < i ==> t.slots[k].status == Registered
    ensures
      var r := UnhookFrom(t, i);
      && Inv(r, targets, start) && r.mem == start && RegisteredItems(r) == RegisteredItems(t)
      && forall k :: 0 <= k < r.size ==> r.slots[k].status == Registered
    decreases t.size - i
  {
    hide Patch, Inv;
    if i == t.size {
      NothingHookedIsClean(t, targets, start);
    } else if t.slots[i].status == Hooked {
      DoUnhookKeeps(t, targets, start, i);
      UnhookKeepsRegistered(t, i);
      HookFits(t, i);
      UnhookAllRestores(DoUnhook(t, i), targets, start, i);
    } else {
      UnhookAllRestores(t, targets, start, i + 1);
    }
  }

  /** inlineHookAll leaves every item hooked, with nothing else about it changed. */
  lemma {:induction false} HookAllHooks(t: Table, targets: set<nat>, start: seq<bv8>, i: nat)
    requires Inv(t, targets, start) && PairwiseDisjoint(targets) && AllFit(t) && i <= t.size
    requires forall k :: 0 <= k < i ==> t.slots[k].status == Hooked
    ensures
      var r := HookFrom(t, i);
      && Inv(r, targets, start) && r.size == t.size && |r.slots| == |t.slots|
      && forall k :: 0 <= k < t.size ==> r.slots[k] == t.slots[k].(status := Hooked)
    decreases t.size - i
  {
    hide Patch, Inv;
    if i < t.size {
      if t.slots[i].status == Registered {
        DoHookKeeps(t, targets, start, i);
        HookFits(t, i);
        HookAllHooks(DoHook(t, i), targets, start, i + 1);
      } else {
        HookAllHooks(t, targets, start, i + 1);
      }
    }
  }

  // ----- Whole runs -----

  datatype Op =
    | RegisterOp(q: Request, executable: bool, elsewhere: bv32 -> bv32)
    | HookOp(target: nat)
    | UnhookOp(target: nat)
    | UnhookAllOp
    | HookAllOp

  /** A registration needs a free slot and a target that is in memory and among those of the run. */
  predicate Allowed(t: Table, targets: set<nat>, op: Op) {
    op.RegisterOp? ==> t.size < |t.slots| && InMemory(t, op.q.target) && op.q.target in targets
  }

  function Apply(t: Table, op: Op): Table
    requires AllFit(t) && (op.RegisterOp? ==> t.size < |t.slots| && InMemory(t, op.q.target))
  {
    match op
    case RegisterOp(q, executable, elsewhere) => Register(t, q, executable, elsewhere).0
    case HookOp(target) => Hook(t, target).0
    case UnhookOp(target) => Unhook(t, target).0
    case UnhookAllOp => UnhookFrom(t, 0)
    case HookAllOp => HookFrom(t, 0)
  }

  /** `r` is reached from `t` by `ops`, every one of them allowed when its turn comes. */
  ghost predicate Runs(t: Table, targets: set<nat>, ops: seq<Op>, r: Table)
    decreases |ops|
  {
    if ops == [] then r == t
    else Allowed(t, targets, ops[0]) && (AllFit(t) ==> Runs(Apply(t, ops[0]), targets, ops[1..], r))
  }

  lemma RunsFrom(t: Table, targets: set<nat>, op: Op, ops: seq<Op>, r: Table)
    requires AllFit(t) && Allowed(t, targets, op) && Runs(Apply(t, op), targets, ops, r)
    ensures Runs(t, targets, [op] + ops, r)
  {
    hide Apply, AllFit;
    assert ([op] + ops)[1..] == ops;
  }

  lemma RunsNowhere(t: Table, targets: set<nat>)
    ensures Runs(t, targets, [], t)
  {
  }

  lemma ApplyKeeps(t: Table, targets: set<nat>, start: seq<bv8>, op: Op)
    requires Inv(t, targets, start) && PairwiseDisjoint(targets) && AllFit(t) && Allowed(t, targets, op)
    ensures Inv(Apply(t, op), targets, start)
  {
    hide Patch, Inv;
    match op
    case RegisterOp(q, executable, elsewhere) => RegisterKeeps(t, targets, start, q, executable, elsewhere);
    case HookOp(target) =>
      match Find(t, target, 0) {
        case None =>
        case Some(i) => if t.slots[i].status == Registered { DoHookKeeps(t, targets, start, i); }
      }
    case UnhookOp(target) =>
      match FindHooked(t, target, 0) {
        case None =>
        case Some(i) => DoUnhookKeeps(t, targets, start, i);
      }
    case UnhookAllOp => UnhookAllRestores(t, targets, start, 0);
    case HookAllOp => HookAllHooks(t, targets, start, 0);
  }

  /** Over every run on pairwise disjoint targets the invariant holds; TargetBytes says what it means for memory. */
  lemma {:induction false} RunKeeps(t: Table, targets: set<nat>, start: seq<bv8>, ops: seq<Op>, r: Table)
    requires Inv(t, targets, start) && PairwiseDisjoint(targets) && Runs(t, targets, ops, r)
    ensures Inv(r, targets, start)
    decreases |ops|
  {
    hide Patch, Inv;
    if ops != [] {
      InvFits(t, targets, start);
      ApplyKeeps(t, targets, start, ops[0]);
      RunKeeps(Apply(t, ops[0]), targets, start, ops[1..], r);
    }
  }

  /** A run from the empty table: registered targets are untouched, hooked ones patched. */
  lemma EveryRun(slots: seq<Item>, protos: map<nat, nat>, targets: set<nat>, start: seq<bv8>, ops: seq<Op>, r: Table,
                 i: nat)
    requires PairwiseDisjoint(targets) && Runs(Table(slots, 0, start, protos), targets, ops, r)
    requires i < r.size
    ensures r.size <= |r.slots|
    ensures
      var it := r.slots[i];
      var p := Patch(it.target, it.newAddr);
      var b := Base(it.target);
      && b + Length(it.target) <= |r.mem| == |start| && |p| <= |it.saved| == Length(it.target)
      && it.saved == start[b..b + Length(it.target)]
      && r.mem[b..b + Length(it.target)] == if it.status == Registered then it.saved else p + it.saved[|p|..]
  {
    hide Patch;
    RunKeeps(Table(slots, 0, start, protos), targets, start, ops, r);
    TargetBytes(r, targets, start, i);
    assert Genuine(r, targets, start, i);
  }

  /** The rest of memory, and all of it if no item is hooked or none is left, is as at the start. */
  lemma EveryRunLeavesTheRest(slots: seq<Item>, protos: map<nat, nat>, targets: set<nat>, start: seq<bv8>, ops: seq<Op>,
                              r: Table)
    requires PairwiseDisjoint(targets) && Runs(Table(slots, 0, start, protos), targets, ops, r)
    ensures r.size <= |r.slots| && |r.mem| == |start|
    ensures forall a :: 0 <= a < |start| && (forall k :: 0 <= k < r.size ==> !Under(r, k, a)) ==> r.mem[a] == start[a]
    ensures (forall k :: 0 <= k < r.size ==> r.slots[k].status == Registered) ==> r.mem == start
  {
    hide Patch;
    RunKeeps(Table(slots, 0, start, protos), targets, start, ops, r);
    if forall k :: 0 <= k < r.size ==> r.slots[k].status == Registered {
      NothingHookedIsClean(r, targets, start);
    }
  }

  // ----- The boundaries of every item -----

  /** As many boundaries on either side, each of them an int. */
  predicate Paired(it: Item) {
    && |it.origBoundaries| == |it.trampBoundaries|
    && (forall i :: 0 <= i < |it.origBoundaries| ==> it.origBoundaries[i] < 0x8000_0000)
    && (forall i :: 0 <= i < |it.trampBoundaries| ==> it.trampBoundaries[i] < 0x8000_0000)
  }

  lemma ThumbTables(hs: seq<bv16>)
    requires |hs| == 6
    ensures
      var o, p := ThumbRelocator.Bytes(ThumbRelocator.OrigStarts(hs, 0)),
          ThumbRelocator.Bytes(ThumbRelocator.TrampStarts(hs, 0));
      && |o| == |p| && ThumbRelocator.Increasing(o, 0) && ThumbRelocator.Increasing(p, 0)
      && (forall i :: 0 <= i < |o| ==> o[i] < 0x8000_0000) && (forall i :: 0 <= i < |p| ==> p[i] < 0x8000_0000)
  {
    ThumbRelocator.StartsMatch(hs, 0, 0);
    ThumbRelocator.OrigStartsIncrease(hs, 0);
    ThumbRelocator.TrampStartsIncrease(hs, 0);
    ThumbRelocator.StartsBounded(hs, 0, 0);
    hide ThumbRelocator.OrigStarts, ThumbRelocator.TrampStarts;
  }

  lemma ArmTables(ws: seq<bv32>)
    requires |ws| == 2
    ensures
      var o, p := ArmRelocator.OrigStarts(2), ArmRelocator.TrampStarts(ws, 2);
      && ThumbRelocator.Increasing(o, 0) && ThumbRelocator.Increasing(p, 0)
      && (forall i :: 0 <= i < |o| ==> o[i] < 0x8000_0000) && (forall i :: 0 <= i < |p| ==> p[i] < 0x8000_0000)
  {
    hide ArmChunks.KindOf;
    ArmRelocator.ChunkStartBounds(ws, 0);
    ArmRelocator.ChunkStartBounds(ws, 1);
  }
}
