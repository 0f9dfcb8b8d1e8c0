/** Reference counting, one operation at a time: LightRefBase and the strong pointers to it. */
module RefBase {

  class LightRefBase {
    var count: int
    /** Whether a reference has ever been taken, and whether the object has been deleted. */
    ghost var referenced: bool
    var deleted: bool

    constructor ()
      ensures count == 0 && !referenced && !deleted
    {
      count := 0;
      referenced, deleted := false, false;
    }

    method IncStrong()
      requires !deleted
      modifies this
      ensures count == old(count) + 1 && referenced && !deleted
    {
      count := count + 1;
      referenced := true;
    }

    method DecStrong()
      requires !deleted
      modifies this
      ensures count == old(count) - 1 && referenced == old(referenced) && (deleted <==> old(count) == 1)
    {
      var was := count;
      count := count - 1;
      if was == 1 {
        deleted := true;
      }
    }
  }

  // ----- Counting pointers -----

  ghost function One(b: bool): nat { if b then 1 else 0 }

  /** How many of these pointers point at an object. */
  ghost function CountOf(s: seq<LightRefBase?>, o: LightRefBase): nat {
    if s == [] then 0 else One(s[0] == o) + CountOf(s[1..], o)
  }

  lemma {:induction false} CountAppends(s: seq<LightRefBase?>, p: LightRefBase?, o: LightRefBase)
    ensures CountOf(s + [p], o) == CountOf(s, o) + One(p == o)
  {
    if s == [] {
      assert ([p] + [])[1..] == [];
    } else {
      CountAppends(s[1..], p, o);
      assert (s + [p])[1..] == s[1..] + [p];
    }
  }

  lemma {:induction false} CountUpdates(s: seq<LightRefBase?>, i: nat, p: LightRefBase?, o: LightRefBase)
    requires i < |s|
    ensures CountOf(s[i := p], o) + One(s[i] == o) == CountOf(s, o) + One(p == o)
  {
    if i == 0 {
      assert s[0 := p][1..] == s[1..];
    } else {
      CountUpdates(s[1..], i - 1, p, o);
      assert s[i := p][1..] == s[1..][i - 1 := p];
    }
  }

  lemma {:induction false} CountRemoves(s: seq<LightRefBase?>, i: nat, o: LightRefBase)
    requires i < |s|
    ensures CountOf(s[..i] + s[i + 1..], o) + One(s[i] == o) == CountOf(s, o)
  {
    if i == 0 {
      assert s[..0] + s[1..] == s[1..];
    } else {
      CountRemoves(s[1..], i - 1, o);
      var t := s[..i] + s[i + 1..];
      assert t[0] == s[0] && t[1..] == s[1..][..i - 1] + s[1..][i..];
    }
  }

  /** What the pointers point at. */
  ghost function Targets(live: seq<Sp>): (t: seq<LightRefBase?>)
    reads live
    ensures |t| == |live|
  {
    seq(|live|, i requires 0 <= i < |live| reads live => live[i].ptr)
  }

  /** No pointer twice. */
  ghost predicate Distinct(live: seq<Sp>) { forall i, j :: 0 <= i < j < |live| ==> live[i] != live[j] }

  /** Whether each object's count is that of the pointers at it, and whether those objects are deleted, and only those,
      that were pointed at and no longer are. */
  ghost predicate Counted(targets: seq<LightRefBase?>, objects: set<LightRefBase>)
    reads objects
  {
    && (forall i :: 0 <= i < |targets| && targets[i] != null ==> targets[i] in objects)
    && (forall o :: o in objects ==> o.count == CountOf(targets, o))
    && (forall o :: o in objects ==> (o.count > 0 ==> o.referenced) && (o.deleted <==> o.referenced && o.count == 0))
  }

  /** The pointers there are, and the objects, in balance. */
  ghost predicate Balanced(live: seq<Sp>, objects: set<LightRefBase>)
    reads live, objects
  {
    Distinct(live) && Counted(Targets(live), objects)
  }

  /** What a pointer points at has not been deleted. */
  lemma PointedAtIsAlive(live: seq<Sp>, objects: set<LightRefBase>, i: nat)
    requires Balanced(live, objects) && i < |live| && live[i].ptr != null
    ensures live[i].ptr in objects && !live[i].ptr.deleted
  {
    CountUpdates(Targets(live), i, null, live[i].ptr);
  }

  class Sp {
    var ptr: LightRefBase?

    /** A pointer to nothing. */
    constructor (ghost live: seq<Sp>, ghost objects: set<LightRefBase>)
      requires Balanced(live, objects)
      ensures Balanced(live + [this], objects) && ptr == null
    {
      ptr := null;
      new;
      Appended(live, this, objects);
    }

    /** A pointer to an object, new or pointed at by others. */
    constructor ToObject(other: LightRefBase?, ghost live: seq<Sp>, ghost objects: set<LightRefBase>)
      requires Balanced(live, objects) && (other != null ==> other in objects && !other.deleted)
      modifies if other == null then {} else {other}
      ensures Balanced(live + [this], objects) && ptr == other
    {
      ptr := other;
      new;
      ghost var t := Targets(live);
      if other != null {
        other.IncStrong();
      }
      assert Targets(live + [this]) == t + [ptr];
      forall o | o in objects
        ensures CountOf(t + [ptr], o) == CountOf(t, o) + One(ptr == o)
      {
        CountAppends(t, ptr, o);
      }
    }

    constructor Copy(other: Sp, ghost live: seq<Sp>, ghost objects: set<LightRefBase>, ghost i: nat)
      requires Balanced(live, objects) && i < |live| && live[i] == other
      modifies objects
      ensures Balanced(live + [this], objects) && ptr == old(other.ptr)
    {
      ptr := other.ptr;
      new;
      ghost var t := Targets(live);
      if ptr != null {
        PointedAtIsAlive(live, objects, i);
        ptr.IncStrong();
      }
      assert Targets(live + [this]) == t + [ptr];
      forall o | o in objects
        ensures CountOf(t + [ptr], o) == CountOf(t, o) + One(ptr == o)
      {
        CountAppends(t, ptr, o);
      }
    }

    /** Assignment: the new object is counted before the old one is let go. */
    method AssignPointer(other: LightRefBase?, ghost live: seq<Sp>, ghost objects: set<LightRefBase>, ghost i: nat)
      requires Balanced(live, objects) && i < |live| && live[i] == this
      requires other != null ==> other in objects && !other.deleted
      modifies this, objects
      ensures Balanced(live, objects) && ptr == other
      ensures forall j :: 0 <= j < |live| && j != i ==> live[j].ptr == old(live[j].ptr)
      ensures forall o :: o in objects ==>
        (o.deleted <==> old(o.deleted) || (o == old(ptr) && o != other && old(o.count) == 1))
    {
      hide CountOf;
      ghost var t := Targets(live);
      if ptr != null {
        PointedAtIsAlive(live, objects, i);
        CountUpdates(t, i, null, ptr);
      }
      TakeAndDrop(other, objects);
      ptr := other;
      assert Targets(live) == t[i := other];
      forall o | o in objects
        ensures CountOf(t[i := other], o) + One(t[i] == o) == CountOf(t, o) + One(other == o)
      {
        CountUpdates(t, i, other, o);
      }
    }

    /** The two changes of counts in an assignment. */
    method TakeAndDrop(other: LightRefBase?, ghost objects: set<LightRefBase>)
      requires other != null ==> other in objects && !other.deleted
      requires ptr != null ==> ptr in objects && !ptr.deleted && ptr.count > 0
      modifies objects
      ensures forall o :: o in objects ==> o.count + One(ptr == o) == old(o.count) + One(other == o)
      ensures forall o :: o in objects ==> (o.referenced <==> old(o.referenced) || o == other)
      ensures forall o :: o in objects ==>
        (o.deleted <==> old(o.deleted) || (o == ptr && o != other && old(o.count) == 1))
    {
      if other != null {
        other.IncStrong();
      }
      if ptr != null {
        ptr.DecStrong();
      }
    }

    method Assign(other: Sp, ghost live: seq<Sp>, ghost objects: set<LightRefBase>, ghost i: nat, ghost j: nat)
      requires Balanced(live, objects) && i < |live| && live[i] == this && j < |live| && live[j] == other
      modifies this, objects
      ensures Balanced(live, objects) && ptr == other.ptr == old(other.ptr)
      ensures forall k :: 0 <= k < |live| && k != i ==> live[k].ptr == old(live[k].ptr)
      ensures forall o :: o in objects ==>
        (o.deleted <==> old(o.deleted) || (o == old(ptr) && o != ptr && old(o.count) == 1))
    {
      var otherPtr := other.ptr;
      if otherPtr != null {
        PointedAtIsAlive(live, objects, j);
      }
      AssignPointer(otherPtr, live, objects, i);
    }

    method Clear(ghost live: seq<Sp>, ghost objects: set<LightRefBase>, ghost i: nat)
      requires Balanced(live, objects) && i < |live| && live[i] == this
      modifies this, objects
      ensures Balanced(live, objects) && ptr == null
      ensures forall j :: 0 <= j < |live| && j != i ==> live[j].ptr == old(live[j].ptr)
      ensures forall o :: o in objects ==> (o.deleted <==> old(o.deleted) || (o == old(ptr) && old(o.count) == 1))
    {
      ghost var t := Targets(live);
      if ptr != null {
        PointedAtIsAlive(live, objects, i);
        CountUpdates(t, i, null, ptr);
        ptr.DecStrong();
        ptr := null;
      }
      assert Targets(live) == t[i := null];
      forall o | o in objects
        ensures CountOf(t[i := null], o) + One(t[i] == o) == CountOf(t, o)
      {
        CountUpdates(t, i, null, o);
      }
    }

    /** The destructor: from here on the pointer is none of those there are. */
    method Destroy(ghost live: seq<Sp>, ghost objects: set<LightRefBase>, ghost i: nat)
      requires Balanced(live, objects) && i < |live| && live[i] == this
      modifies objects
      ensures Balanced(live[..i] + live[i + 1..], objects)
      ensures forall o :: o in objects ==> (o.deleted <==> old(o.deleted) || (o == ptr && old(o.count) == 1))
    {
      ghost var t := Targets(live);
      if ptr != null {
        PointedAtIsAlive(live, objects, i);
        CountUpdates(t, i, null, ptr);
        ptr.DecStrong();
      }
      assert Targets(live[..i] + live[i + 1..]) == t[..i] + t[i + 1..];
      forall o | o in objects
        ensures CountOf(t[..i] + t[i + 1..], o) + One(t[i] == o) == CountOf(t, o)
      {
        CountRemoves(t, i, o);
      }
    }
  }

  lemma Appended(live: seq<Sp>, x: Sp, objects: set<LightRefBase>)
    requires Balanced(live, objects) && x !in live && x.ptr == null
    ensures Balanced(live + [x], objects)
  {
    var t := Targets(live);
    assert Targets(live + [x]) == t + [null];
    forall o | o in objects
      ensures CountOf(t + [null], o) == CountOf(t, o)
    {
      CountAppends(t, null, o);
    }
  }
}
