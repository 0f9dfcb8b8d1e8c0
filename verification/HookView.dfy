/** What the hook table is for its callers: a map from targets to what was asked for them. */
module HookView {
  import opened Options
  import opened HookTable
  import opened HookItems

  datatype Claim = Claim(newAddr: bv32, proto: Option<nat>, page: nat, hooked: bool)

  type Claims = map<nat, Claim>

  // ----- The operations on the map -----

  function AllOn(m: Claims): Claims { map x | x in m :: m[x].(hooked := true) }

  function OnlyOff(m: Claims): Claims { map x | x in m && !m[x].hooked :: m[x] }

  /** What an operation makes of it. */
  function Told(m: Claims, op: Op): Claims {
    match op
    case RegisterOp(q, executable, _) =>
      if executable && q.target !in m then m[q.target := Claim(q.newAddr, q.proto, q.page, false)] else m
    case HookOp(x) => if x in m then m[x := m[x].(hooked := true)] else m
    case UnhookOp(x) => if x in m && m[x].hooked then m - {x} else m
    case UnhookAllOp => OnlyOff(m)
    case HookAllOp => AllOn(m)
  }

  function ToldAll(m: Claims, ops: seq<Op>): Claims
    decreases |ops|
  {
    if ops == [] then m else ToldAll(Told(m, ops[0]), ops[1..])
  }

  /** What a registration answers, given what is registered, */
  function RegisterReply(m: Claims, target: nat, executable: bool): Reply {
    if !executable then NotExecutable
    else if target !in m then Ok
    else if m[target].hooked then AlreadyHooked else AlreadyRegistered
  }

  /** and hooking and unhooking. */
  function HookReply(m: Claims, target: nat): Reply {
    if target !in m then NotRegistered else if m[target].hooked then AlreadyHooked else Ok
  }

  function UnhookReply(m: Claims, target: nat): Reply { if target in m && m[target].hooked then Ok else NotHooked }

  // ----- The table keeps to them -----

  function ClaimOf(it: Item): Claim { Claim(it.newAddr, it.proto, it.page, it.status == Hooked) }

  /** Whether the live items of a table are the entries of a map, one for each. */
  ghost predicate Shows(t: Table, m: Claims) {
    && t.size <= |t.slots|
    && (forall i, j :: 0 <= i < j < t.size ==> t.slots[i].target != t.slots[j].target)
    && (forall i :: 0 <= i < t.size ==> t.slots[i].target in m && m[t.slots[i].target] == ClaimOf(t.slots[i]))
    && (forall x :: x in m ==> HasSlot(t, x))
  }

  ghost predicate HasSlot(t: Table, x: nat)
    requires t.size <= |t.slots|
  {
    exists i :: 0 <= i < t.size && t.slots[i].target == x
  }

  lemma RegisterShows(t: Table, m: Claims, q: Request, executable: bool, elsewhere: bv32 -> bv32)
    requires Shows(t, m) && t.size < |t.slots| && InMemory(t, q.target)
    ensures
      var r := Register(t, q, executable, elsewhere);
      Shows(r.0, Told(m, RegisterOp(q, executable, elsewhere))) && r.1 == RegisterReply(m, q.target, executable)
  {
    hide CodeFor, OrigFor, TrampFor, LitOf;
    FindShows(t, m, q.target);
    var it := Registration(t, q, elsewhere);
    if executable && q.target !in m {
      assert it.target == q.target && ClaimOf(it) == Claim(q.newAddr, q.proto, q.page, false);
      hide Registration, Find;
      AddedShows(t, m, it);
    } else if executable {
      hide Registration;
      var i := Find(t, q.target, 0).value;
      assert ClaimOf(t.slots[i]) == m[q.target];
    }
  }

  lemma AddedShows(t: Table, m: Claims, it: Item)
    requires Shows(t, m) && t.size < |t.slots| && it.target !in m
    ensures Shows(t.(slots := t.slots[t.size := it], size := t.size + 1), m[it.target := ClaimOf(it)])
  {
    var r, n := t.(slots := t.slots[t.size := it], size := t.size + 1), m[it.target := ClaimOf(it)];
    forall x | x in n
      ensures HasSlot(r, x)
    {
      if x == it.target {
        assert r.slots[t.size].target == x;
      } else {
        var i :| 0 <= i < t.size && t.slots[i].target == x;
        assert r.slots[i].target == x;
      }
    }
  }

  lemma SlotOf(t: Table, m: Claims, i: nat, j: nat)
    requires Shows(t, m) && i < t.size && j < t.size
    ensures t.slots[i].target == t.slots[j].target <==> i == j
  {
    assert i < j ==> t.slots[i].target != t.slots[j].target;
    assert j < i ==> t.slots[j].target != t.slots[i].target;
  }

  lemma DoHookShows(t: Table, m: Claims, i: nat)
    requires Shows(t, m) && Fits(t, i)
    ensures Shows(DoHook(t, i), m[t.slots[i].target := m[t.slots[i].target].(hooked := true)])
  {
    hide Patch;
    var x := t.slots[i].target;
    var r, n := DoHook(t, i), m[x := m[x].(hooked := true)];
    forall k | 0 <= k < r.size
      ensures r.slots[k].target in n && n[r.slots[k].target] == ClaimOf(r.slots[k])
    {
      SlotOf(t, m, i, k);
    }
    forall y | y in n
      ensures HasSlot(r, y)
    {
      var k :| 0 <= k < t.size && t.slots[k].target == y;
      assert r.slots[k].target == y;
    }
  }

  lemma DoUnhookShows(t: Table, m: Claims, i: nat)
    requires Shows(t, m) && Fits(t, i)
    ensures Shows(DoUnhook(t, i), m - {t.slots[i].target})
  {
    var x, last := t.slots[i].target, t.size - 1;
    var r, n := DoUnhook(t, i), m - {x};
    forall k | 0 <= k < r.size
      ensures r.slots[k].target in n && n[r.slots[k].target] == ClaimOf(r.slots[k])
    {
      SlotOf(t, m, i, if k == i then last else k);
    }
    forall y | y in n
      ensures HasSlot(r, y)
    {
      var j :| 0 <= j < t.size && t.slots[j].target == y;
      assert r.slots[if j == last then i else j].target == y;
    }
  }

  lemma FindShows(t: Table, m: Claims, x: nat)
    requires Shows(t, m)
    ensures Find(t, x, 0).None? <==> x !in m
    ensures FindHooked(t, x, 0).None? <==> x !in m || !m[x].hooked
  {
    var f, h := Find(t, x, 0), FindHooked(t, x, 0);
    if x in m {
      var i :| 0 <= i < t.size && t.slots[i].target == x;
      assert f.Some?;
      if m[x].hooked {
        assert h.Some?;
      } else if h.Some? {
        SlotOf(t, m, i, h.value);
      }
    }
  }

  lemma HookShows(t: Table, m: Claims, x: nat)
    requires Shows(t, m) && AllFit(t)
    ensures Shows(Hook(t, x).0, Told(m, HookOp(x))) && Hook(t, x).1 == HookReply(m, x)
  {
    hide DoHook;
    FindShows(t, m, x);
    match Find(t, x, 0) {
      case None =>
      case Some(i) =>
        if t.slots[i].status == Registered {
          DoHookShows(t, m, i);
        } else {
          assert m[x := m[x].(hooked := true)] == m;
        }
    }
  }

  lemma UnhookShows(t: Table, m: Claims, x: nat)
    requires Shows(t, m) && AllFit(t)
    ensures Shows(Unhook(t, x).0, Told(m, UnhookOp(x))) && Unhook(t, x).1 == UnhookReply(m, x)
  {
    hide DoUnhook;
    FindShows(t, m, x);
    match FindHooked(t, x, 0) {
      case None =>
      case Some(i) => DoUnhookShows(t, m, i);
    }
  }

  lemma ShownStatus(t: Table, m: Claims)
    requires Shows(t, m)
    ensures t.size <= |t.slots|
    ensures forall i :: 0 <= i < t.size ==>
      t.slots[i].target in m && (m[t.slots[i].target].hooked <==> t.slots[i].status == Hooked)
  {
  }

  lemma OffWithout(m: Claims, x: nat)
    requires x in m && m[x].hooked
    ensures OnlyOff(m - {x}) == OnlyOff(m)
  {
  }

  lemma OnAlready(m: Claims, x: nat)
    requires x in m
    ensures AllOn(m[x := m[x].(hooked := true)]) == AllOn(m)
  {
  }

  lemma {:induction false} UnhookFromShows(t: Table, m: Claims, i: nat)
    requires Shows(t, m) && AllFit(t) && i <= t.size
    requires forall k :: 0 <= k < i ==> t.slots[k].status == Registered
    ensures Shows(UnhookFrom(t, i), OnlyOff(m))
    decreases t.size - i
  {
    hide DoUnhook, Shows, OnlyOff;
    ShownStatus(t, m);
    if i == t.size {
      NothingOn(t, m);
    } else if t.slots[i].status == Hooked {
      DoUnhookShows(t, m, i);
      HookFits(t, i);
      OthersStay(t, i);
      UnhookFromShows(DoUnhook(t, i), m - {t.slots[i].target}, i);
      OffWithout(m, t.slots[i].target);
    } else {
      UnhookFromShows(t, m, i + 1);
    }
  }

  lemma OthersStay(t: Table, i: nat)
    requires Fits(t, i)
    ensures forall k :: 0 <= k < i ==> DoUnhook(t, i).slots[k] == t.slots[k] && DoHook(t, i).slots[k] == t.slots[k]
    ensures DoHook(t, i).slots[i].status == Hooked
  {
  }

  lemma NothingOn(t: Table, m: Claims)
    requires Shows(t, m) && forall k :: 0 <= k < t.size ==> t.slots[k].status == Registered
    ensures OnlyOff(m) == m
  {
    forall x | x in m
      ensures !m[x].hooked
    {
      var i :| 0 <= i < t.size && t.slots[i].target == x;
    }
  }

  lemma EverythingOn(t: Table, m: Claims)
    requires Shows(t, m) && forall k :: 0 <= k < t.size ==> t.slots[k].status == Hooked
    ensures AllOn(m) == m
  {
    forall x | x in m
      ensures m[x].hooked
    {
      var i :| 0 <= i < t.size && t.slots[i].target == x;
    }
  }

  lemma {:induction false} HookFromShows(t: Table, m: Claims, i: nat)
    requires Shows(t, m) && AllFit(t) && i <= t.size
    requires forall k :: 0 <= k < i ==> t.slots[k].status == Hooked
    ensures Shows(HookFrom(t, i), AllOn(m))
    decreases t.size - i
  {
    hide Shows, AllOn, DoHook;
    ShownStatus(t, m);
    if i == t.size {
      EverythingOn(t, m);
    } else if t.slots[i].status == Registered {
      var x := t.slots[i].target;
      DoHookShows(t, m, i);
      HookFits(t, i);
      OthersStay(t, i);
      HookFromShows(DoHook(t, i), m[x := m[x].(hooked := true)], i + 1);
      OnAlready(m, x);
    } else {
      HookFromShows(t, m, i + 1);
    }
  }

  /** Every operation does to the table what it does to the map. */
  lemma ApplyShows(t: Table, m: Claims, targets: set<nat>, op: Op)
    requires Shows(t, m) && AllFit(t) && Allowed(t, targets, op)
    ensures Shows(Apply(t, op), Told(m, op))
  {
    hide Shows, Register, Hook, Unhook, UnhookFrom, HookFrom, AllOn, OnlyOff;
    match op
    case RegisterOp(q, executable, elsewhere) => RegisterShows(t, m, q, executable, elsewhere);
    case HookOp(x) => HookShows(t, m, x);
    case UnhookOp(x) => UnhookShows(t, m, x);
    case UnhookAllOp => UnhookFromShows(t, m, 0);
    case HookAllOp => HookFromShows(t, m, 0);
  }

  lemma {:induction false} RunShows(t: Table, m: Claims, targets: set<nat>, start: seq<bv8>, ops: seq<Op>, r: Table)
    requires Inv(t, targets, start) && PairwiseDisjoint(targets) && Runs(t, targets, ops, r) && Shows(t, m)
    ensures Shows(r, ToldAll(m, ops))
    decreases |ops|
  {
    hide Inv, Shows, Told;
    if ops != [] {
      InvFits(t, targets, start);
      ApplyKeeps(t, targets, start, ops[0]);
      ApplyShows(t, m, targets, ops[0]);
      RunShows(Apply(t, ops[0]), Told(m, ops[0]), targets, start, ops[1..], r);
    }
  }

  /** So after every run the live items are exactly what the operations asked for: for each target the replacement, the
      pointer cell and the page of the registration that counts, and whether it is hooked. */
  lemma EveryRunShows(slots: seq<Item>, protos: map<nat, nat>, targets: set<nat>, start: seq<bv8>, ops: seq<Op>,
                      r: Table)
    requires PairwiseDisjoint(targets) && Runs(Table(slots, 0, start, protos), targets, ops, r)
    ensures Shows(r, ToldAll(map[], ops))
  {
    RunShows(Table(slots, 0, start, protos), map[], targets, start, ops, r);
  }

  // ----- The callers' cells -----

  /** Whether nobody asked for the cell `c`. */
  predicate Unasked(t: Table, c: nat) {
    t.size <= |t.slots| && forall i :: 0 <= i < t.size ==> t.slots[i].proto != Some(c)
  }

  predicate SameCell(p: map<nat, nat>, q: map<nat, nat>, c: nat) {
    (c in p <==> c in q) && (c in p ==> p[c] == q[c])
  }

  lemma HookLeavesCell(t: Table, c: nat, i: nat)
    requires Unasked(t, c) && AllFit(t) && i < t.size
    ensures Unasked(DoHook(t, i), c) && SameCell(DoHook(t, i).protos, t.protos, c)
    ensures Unasked(DoUnhook(t, i), c) && DoUnhook(t, i).protos == t.protos
  {
    hide Patch;
  }

  lemma {:induction false} HookFromLeavesCell(t: Table, c: nat, i: nat)
    requires Unasked(t, c) && AllFit(t) && i <= t.size
    ensures Unasked(HookFrom(t, i), c) && SameCell(HookFrom(t, i).protos, t.protos, c)
    decreases t.size - i
  {
    hide DoHook, Unasked;
    if i < t.size {
      HookLeavesCell(t, c, i);
      HookFits(t, i);
      HookFromLeavesCell(if t.slots[i].status == Registered then DoHook(t, i) else t, c, i + 1);
    }
  }

  lemma {:induction false} UnhookFromLeavesCell(t: Table, c: nat, i: nat)
    requires Unasked(t, c) && AllFit(t) && i <= t.size
    ensures Unasked(UnhookFrom(t, i), c) && UnhookFrom(t, i).protos == t.protos
    decreases t.size - i
  {
    hide DoUnhook, Unasked;
    if i < t.size {
      if t.slots[i].status == Hooked {
        HookLeavesCell(t, c, i);
        HookFits(t, i);
        UnhookFromLeavesCell(DoUnhook(t, i), c, i);
      } else {
        UnhookFromLeavesCell(t, c, i + 1);
      }
    }
  }

  predicate AsksFor(op: Op, c: nat) { op.RegisterOp? && op.q.proto == Some(c) }

  lemma ApplyLeavesCell(t: Table, targets: set<nat>, op: Op, c: nat)
    requires Unasked(t, c) && AllFit(t) && Allowed(t, targets, op) && !AsksFor(op, c)
    ensures Unasked(Apply(t, op), c) && SameCell(Apply(t, op).protos, t.protos, c)
  {
    hide CodeFor, OrigFor, TrampFor, DoHook, DoUnhook, LitOf;
    match op
    case RegisterOp(q, executable, elsewhere) =>
    case HookOp(x) =>
      match Find(t, x, 0) {
        case None =>
        case Some(i) => HookLeavesCell(t, c, i);
      }
    case UnhookOp(x) =>
      match FindHooked(t, x, 0) {
        case None =>
        case Some(i) => HookLeavesCell(t, c, i);
      }
    case UnhookAllOp => UnhookFromLeavesCell(t, c, 0);
    case HookAllOp => HookFromLeavesCell(t, c, 0);
  }

  lemma {:induction false} RunLeavesCell(t: Table, targets: set<nat>, start: seq<bv8>, ops: seq<Op>, r: Table, c: nat)
    requires Inv(t, targets, start) && PairwiseDisjoint(targets) && Runs(t, targets, ops, r) && Unasked(t, c)
    requires forall k :: 0 <= k < |ops| ==> !AsksFor(ops[k], c)
    ensures SameCell(r.protos, t.protos, c)
    decreases |ops|
  {
    hide Inv, Unasked, AsksFor;
    if ops != [] {
      InvFits(t, targets, start);
      ApplyKeeps(t, targets, start, ops[0]);
      ApplyLeavesCell(t, targets, ops[0], c);
      RunLeavesCell(Apply(t, ops[0]), targets, start, ops[1..], r, c);
    }
  }

  /** A cell that no registration names is as it was, after every run. */
  lemma EveryRunLeavesOtherCells(slots: seq<Item>, protos: map<nat, nat>, targets: set<nat>, start: seq<bv8>,
                                 ops: seq<Op>, r: Table, c: nat)
    requires PairwiseDisjoint(targets) && Runs(Table(slots, 0, start, protos), targets, ops, r)
    requires forall k :: 0 <= k < |ops| ==> !AsksFor(ops[k], c)
    ensures SameCell(r.protos, protos, c)
  {
    hide AsksFor;
    RunLeavesCell(Table(slots, 0, start, protos), targets, start, ops, r, c);
  }

  /** And the cell that was asked for a target that is hooked now holds where its trampoline is entered: the page that
      was given for it, with bit 0 for Thumb. */
  lemma EveryCallerHasItsPointer(slots: seq<Item>, protos: map<nat, nat>, targets: set<nat>, start: seq<bv8>,
                                 cells: map<nat, nat>, ops: seq<Op>, r: Table, x: nat, c: nat)
    requires PairwiseDisjoint(targets) && Runs(Table(slots, 0, start, protos), targets, ops, r)
    requires UseOwnCells(ops, cells)
    requires var m := ToldAll(map[], ops); x in m && m[x].hooked && m[x].proto == Some(c)
    ensures c in r.protos && r.protos[c] == ToldAll(map[], ops)[x].page + x % 2
  {
    hide Runs, UseOwnCells, ToldAll;
    EveryRunShows(slots, protos, targets, start, ops, r);
    var i :| 0 <= i < r.size && r.slots[i].target == x;
    EveryHookedItemHasItsCell(slots, protos, targets, start, cells, ops, r, i);
  }
}
