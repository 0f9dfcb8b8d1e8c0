/** The doubly-linked list: a circle of nodes through a middle node that no element sits in. */
module RingList {

  class Node<T(0)> {
    var value: T
    var prev: Node<T>
    var next: Node<T>
    /** Whether the node has been given back. Nothing may be done with it from then on. */
    ghost var freed: bool

    /** A node that is a circle by itself until it is linked. */
    constructor (val: T)
      ensures value == val && prev == this && next == this && !freed
    {
      value := val;
      prev, next := this, this;
      freed := false;
    }

    /** The middle node, whose value is never looked at. */
    constructor Middle()
      ensures prev == this && next == this && !freed
    {
      prev, next := this, this;
      freed := false;
    }

    function GetRef(): T
      requires !freed
      reads this
    {
      value
    }

    function GetPrev(): Node<T>
      requires !freed
      reads this
    {
      prev
    }

    function GetNext(): Node<T>
      requires !freed
      reads this
    {
      next
    }

    method SetVal(val: T)
      requires !freed
      modifies this`value
      ensures value == val
    {
      value := val;
    }

    method SetPrev(ptr: Node<T>)
      requires !freed
      modifies this`prev
      ensures prev == ptr
    {
      prev := ptr;
    }

    method SetNext(ptr: Node<T>)
      requires !freed
      modifies this`next
      ensures next == ptr
    {
      next := ptr;
    }

    ghost method Delete()
      requires !freed
      modifies this`freed
      ensures freed
    {
      freed := true;
    }
  }

  /** No node twice. */
  ghost predicate Distinct<T(0)>(s: seq<Node<T>>) { forall i, j :: 0 <= i < j < |s| ==> s[i] != s[j] }

  ghost predicate Live<T(0)>(s: seq<Node<T>>)
    reads s
  {
    forall i :: 0 <= i < |s| ==> !s[i].freed
  }

  /** Each node is linked with the next, both ways. */
  ghost predicate Linked<T(0)>(s: seq<Node<T>>)
    reads s
  {
    forall i, j :: 0 <= i < j < |s| && j == i + 1 ==> s[i].next == s[j] && s[j].prev == s[i]
  }

  /** Whether these are all nodes of one circle, in the order in which it goes round. */
  ghost predicate IsRing<T(0)>(s: seq<Node<T>>)
    reads s
  {
    && |s| > 0 && Distinct(s) && Live(s) && Linked(s)
    && s[|s| - 1].next == s[0] && s[0].prev == s[|s| - 1]
  }

  // ----- Walking round a circle -----

  /** Where `n` steps lead from a node; a step out of the circle would be the last. */
  ghost function Steps<T(0)>(s: seq<Node<T>>, x: Node<T>, n: nat): Node<T>
    reads s
  {
    if n == 0 || x !in s then x else Steps(s, x.next, n - 1)
  }

  /** Whoever goes on from a node of a circle meets the others in order, and then the first again. */
  lemma {:induction false} StepsGoRound<T(0)>(s: seq<Node<T>>, i: nat, n: nat)
    requires IsRing(s) && i < |s| && i + n <= |s|
    ensures Steps(s, s[i], n) == At(s, i + n)
    decreases n
  {
    RingIs(s, i);
    if n > 0 && i + 1 < |s| {
      StepsGoRound(s, i + 1, n - 1);
    }
  }

  /** In a circle, going on and going back undo each other. */
  lemma NextAndPrevAreInverse<T(0)>(s: seq<Node<T>>, x: Node<T>)
    requires IsRing(s) && x in s
    ensures x.next in s && x.next.prev == x
    ensures x.prev in s && x.prev.next == x
  {
    var i :| 0 <= i < |s| && s[i] == x;
    RingIs(s, i);
    RingIs(s, if i == 0 then |s| - 1 else i - 1);
    RingIs(s, if i == |s| - 1 then 0 else i + 1);
  }

  /** Only a whole circle leads back to the middle node, so that a walk until then counts the nodes. */
  lemma OnlyAWholeRoundReturns<T(0)>(s: seq<Node<T>>, n: nat)
    requires IsRing(s) && n <= |s|
    ensures Steps(s, s[0], n) == s[0] <==> n == 0 || n == |s|
  {
    StepsGoRound(s, 0, n);
  }

  /** The values of a sequence of nodes. */
  ghost function Values<T(0)>(s: seq<Node<T>>): (v: seq<T>)
    reads s
    ensures |v| == |s|
  {
    seq(|s|, i requires 0 <= i < |s| reads s => s[i].value)
  }

  ghost function Nexts<T(0)>(s: seq<Node<T>>): (v: seq<Node<T>>)
    reads s
    ensures |v| == |s|
  {
    seq(|s|, i requires 0 <= i < |s| reads s => s[i].next)
  }

  ghost function Prevs<T(0)>(s: seq<Node<T>>): (v: seq<Node<T>>)
    reads s
    ensures |v| == |s|
  {
    seq(|s|, i requires 0 <= i < |s| reads s => s[i].prev)
  }

  ghost predicate Owned<T(0)>(s: seq<Node<T>>, nodes: set<Node<T>>) { forall i :: 0 <= i < |s| ==> s[i] in nodes }

  /** Where, among `n` nodes, one goes that is inserted before node `i`; before the middle node is at the end. */
  function Place(n: nat, i: nat): (k: nat)
    requires i < n
    ensures 1 <= k <= n
  {
    if i == 0 then n else i
  }

  /** Where node `i` is after `c` nodes have been inserted before it. */
  function Moved(i: nat, c: nat): nat { if i == 0 then 0 else i + c }

  // ----- Inserting a range of a list into the list itself -----

  /** Before which position a range goes, at which one it has got to, and where it ends. */
  datatype Walk = Walk(place: nat, cursor: nat, last: nat)

  /** Where the node at a position is when one has been inserted at `place`. */
  function Shifted(i: nat, place: nat): nat { if i < place then i else i + 1 }

  /** One round of the loop: a node goes in, and the cursor goes on. */
  function Round(w: Walk): Walk { Walk(w.place + 1, Shifted(w.cursor, w.place) + 1, Shifted(w.last, w.place)) }

  function Rounds(w: Walk, n: nat): Walk
    decreases n
  {
    if n == 0 then w else Rounds(Round(w), n - 1)
  }

  /** The positions after `n` rounds. */
  function After(w: Walk, n: nat): Walk {
    Walk(w.place + n, if w.cursor < w.place then w.cursor + n else w.cursor + 2 * n,
         if w.last < w.place then w.last else w.last + n)
  }

  lemma {:induction false} RoundsAre(w: Walk, n: nat)
    ensures Rounds(w, n) == After(w, n)
    decreases n
  {
    if n > 0 {
      RoundsAre(Round(w), n - 1);
    }
  }

  lemma OneMoreRound(w: Walk, n: nat)
    requires w.cursor + n < w.last && !(w.cursor < w.place <= w.last)
    ensures After(w, n + 1) == Round(After(w, n)) && After(w, n).cursor < After(w, n).last
    ensures After(w, n).place == w.place + n
    ensures if w.cursor < w.place then After(w, n).cursor == w.cursor + n < w.place
      else w.place + 2 * n <= After(w, n).cursor
  {
  }

  /** The loop stops exactly if the range does not go behind its first element and, at the furthest, right behind its
      last: there, each round moves the end as far on as the cursor. */
  lemma OwnRangeStopsIff(w: Walk)
    requires w.cursor <= w.last
    ensures (exists n: nat :: Rounds(w, n).cursor == Rounds(w, n).last) <==> !(w.cursor < w.place <= w.last)
  {
    if w.cursor < w.place <= w.last {
      forall n: nat
        ensures Rounds(w, n).cursor != Rounds(w, n).last
      {
        RoundsAre(w, n);
      }
    } else {
      RoundsAre(w, w.last - w.cursor);
    }
  }

  class List<T(0)> {
    var middle: Node<T>
    /** The nodes of the circle, from the middle node on. */
    ghost var spine: seq<Node<T>>
    /** All nodes that this list may change. */
    ghost var nodes: set<Node<T>>

    ghost predicate Valid()
      reads this, nodes
    {
      Owned(spine, nodes) && IsRing(spine) && spine[0] == middle
    }

    ghost function Contents(): (v: seq<T>)
      requires Valid()
      reads this, nodes
      ensures |v| == |spine| - 1
    {
      Values(spine[1..])
    }

    constructor ()
      ensures Valid() && fresh(nodes) && Contents() == []
    {
      middle := new Node<T>.Middle();
      new;
      spine := [middle];
      nodes := {middle};
    }

    /** A list of its own with the elements of another. */
    constructor Copy(src: List<T>)
      requires src.Valid()
      ensures Valid() && fresh(nodes) && Contents() == src.Contents() && Apart(this, src)
    {
      hide IsRing, Values, Inserted, Owned;
      middle := new Node<T>.Middle();
      new;
      spine, nodes := [middle], {middle};
      AloneIsARing(middle);
      InsertedAtEnds([], src.Contents());
      assert src.Contents()[0..|src.spine| - 1] == src.Contents();
      var posn := Begin();
      var first := src.Begin();
      var last := src.End();
      InsertRange(posn, src, first, last, 0, 1, |src.spine|);
    }

    /** Inserts before the node that `posn` is at. */
    method Insert(posn: Node<T>, val: T, ghost i: nat) returns (newNode: Node<T>)
      requires Valid() && i < |spine| && spine[i] == posn
      modifies this`spine, this`nodes, nodes
      ensures Valid() && middle == old(middle) && fresh(newNode) && newNode.value == val
      ensures spine == With(old(spine), newNode, Place(old(|spine|), i)) && fresh(nodes - old(nodes))
      ensures Contents() == Inserted(old(Contents()), Place(old(|spine|), i) - 1, [val])
    {
      hide IsRing, With, Values, Nexts, Prevs, Inserted, Owned;
      ghost var s, k := spine, Place(|spine|, i);
      RingIs(s, i);
      OwnedAt(s, i, nodes);
      OwnedAt(s, k - 1, nodes);
      ValuesOfTail(s);
      newNode := new Node<T>(val);
      Link(newNode, posn, s, i);
      spine, nodes := With(s, newNode, k), nodes + {newNode};
      ValuesOfTail(s);
      ValuesWith(s, newNode, k);
      OwnedWith(s, newNode, k, old(nodes));
    }

    /** Removes the node that `posn` is at and gives the node back. */
    method Erase(posn: Node<T>, ghost i: nat) returns (pNext: Node<T>)
      requires Valid() && 0 < i < |spine| && spine[i] == posn
      modifies this`spine, this`nodes, nodes
      ensures Valid() && middle == old(middle) && posn.freed
      ensures spine == Without(old(spine), i) && pNext == At(spine, i)
      ensures Contents() == Removed(old(Contents()), i - 1, 1)
      ensures nodes == old(nodes)
    {
      hide IsRing, Without, Values, Nexts, Prevs;
      ghost var s := spine;
      RingIs(s, i);
      ValuesOfTail(s);
      pNext := posn.GetNext();
      Unlink(posn, s, i);
      spine := Without(s, i);
      ValuesOfTail(s);
      ValuesWithout(s, i);
    }

    // ----- Walking -----

    method Empty() returns (r: bool)
      requires Valid()
      ensures r <==> Contents() == []
    {
      RingIs(spine, 0);
      r := middle.GetNext() == middle;
    }

    method Begin() returns (p: Node<T>)
      requires Valid()
      ensures p == At(spine, 1)
    {
      RingIs(spine, 0);
      p := middle.GetNext();
    }

    method End() returns (p: Node<T>)
      requires Valid()
      ensures p == At(spine, |spine|)
    {
      p := middle;
    }

    /** How many steps it is from one position to a later one. */
    method Distance(first: Node<T>, last: Node<T>, ghost i: nat, ghost j: nat) returns (count: nat)
      requires Valid() && 1 <= i <= j <= |spine| && first == At(spine, i) && last == At(spine, j)
      ensures count == j - i
    {
      var p := first;
      count := 0;
      while p != last
        invariant i + count <= j && p == At(spine, i + count)
        decreases j - (i + count)
      {
        RingIs(spine, i + count);
        p := p.GetNext();
        count := count + 1;
      }
      OnlyPosition(spine, i + count, j);
    }

    method Size() returns (n: nat)
      requires Valid()
      ensures n == |Contents()|
    {
      var first := Begin();
      var last := End();
      n := Distance(first, last, 1, |spine|);
    }

    // ----- Changes -----

    method PushFront(val: T)
      requires Valid()
      modifies this`spine, this`nodes, nodes
      ensures Valid() && middle == old(middle) && Contents() == [val] + old(Contents())
      ensures fresh(nodes - old(nodes))
    {
      hide IsRing, With, Values, Inserted, Owned;
      InsertedAtEnds(Contents(), [val]);
      var first := Begin();
      var newNode := Insert(first, val, if |spine| == 1 then 0 else 1);
    }

    method PushBack(val: T)
      requires Valid()
      modifies this`spine, this`nodes, nodes
      ensures Valid() && middle == old(middle) && Contents() == old(Contents()) + [val]
      ensures fresh(nodes - old(nodes))
    {
      hide IsRing, With, Values, Inserted, Owned;
      InsertedAtEnds(Contents(), [val]);
      var last := End();
      var newNode := Insert(last, val, 0);
    }

    /** Inserts, before `posn`, the element that another list holds at a position. */
    method InsertCopy(posn: Node<T>, src: List<T>, q: Node<T>, ghost p: nat, ghost i: nat)
      requires Valid() && p < |spine| && spine[p] == posn
      requires src.Valid() && 1 <= i < |src.spine| && q == src.spine[i] && Apart(this, src)
      modifies this`spine, this`nodes, nodes
      ensures Valid() && middle == old(middle) && fresh(nodes - old(nodes))
      ensures Apart(this, src) && src.Valid() && src.spine == old(src.spine) && src.Contents() == old(src.Contents())
      ensures |spine| == old(|spine|) + 1 && spine[Moved(p, 1)] == posn
      ensures Contents() == Inserted(old(Contents()), Place(old(|spine|), p) - 1, [src.Contents()[i - 1]])
    {
      hide IsRing, Inserted, Owned;
      RingIs(src.spine, i);
      var newNode := Insert(posn, q.GetRef(), p);
    }

    /** Inserts, before `posn`, what another list holds from one position to a later one. */
    method InsertRange(posn: Node<T>, src: List<T>, first: Node<T>, last: Node<T>, ghost p: nat, ghost i: nat,
                       ghost j: nat)
      requires Valid() && p < |spine| && spine[p] == posn
      requires src.Valid() && 1 <= i <= j <= |src.spine| && first == At(src.spine, i) && last == At(src.spine, j)
      requires Apart(this, src)
      modifies this`spine, this`nodes, nodes
      ensures Valid() && middle == old(middle) && fresh(nodes - old(nodes))
      ensures Apart(this, src) && src.Valid() && src.spine == old(src.spine) && src.Contents() == old(src.Contents())
      ensures Contents() == Inserted(old(Contents()), Place(old(|spine|), p) - 1, old(src.Contents()[i - 1..j - 1]))
    {
      hide IsRing, Values, Inserted, IsSlice, Owned, List.Contents;
      ghost var before, c := Place(|spine|, p), 0;
      ghost var was, from := Contents(), src.Contents();
      ghost var added: seq<T> := [];
      InsertedNothing(was, before - 1);
      SliceBegins(from, i - 1);
      var q := first;
      while q != last
        invariant Valid() && middle == old(middle) && fresh(nodes - old(nodes))
        invariant Apart(this, src) && src.Valid() && src.spine == old(src.spine) && src.Contents() == from
        invariant i + c <= j && q == At(src.spine, i + c)
        invariant |spine| == |old(spine)| + c && spine[Moved(p, c)] == posn
        invariant |added| == c && IsSlice(added, from, i - 1) && Contents() == Inserted(was, before - 1, added)
        decreases j - (i + c)
      {
        ghost var at, x := Moved(p, c), from[i + c - 1];
        InsertCopy(posn, src, q, at, i + c);
        assert Contents() == Inserted(Inserted(was, before - 1, added), before - 1 + |added|, [x]);
        InsertedMore(was, before - 1, added, x);
        SliceGrows(added, from, i - 1);
        added := added + [x];
        RingIs(src.spine, i + c);
        q := q.GetNext();
        c := c + 1;
      }
      OnlyPosition(src.spine, i + c, j);
      SliceIs(added, from, i - 1);
    }

    /** One round of inserting a range of this list into it: inserts a copy of the element that `q` is at, and goes
        on. */
    method InsertOwn(posn: Node<T>, q: Node<T>, last: Node<T>, ghost w: Walk) returns (next: Node<T>)
      requires Valid() && AtWalk(posn, q, last, w) && w.cursor < |spine|
      modifies this`spine, this`nodes, nodes
      ensures Valid() && middle == old(middle) && fresh(nodes - old(nodes))
      ensures |spine| == |old(spine)| + 1 && AtWalk(posn, next, last, Round(w))
      ensures Contents() == Inserted(old(Contents()), w.place - 1, [old(Contents())[w.cursor - 1]])
    {
      hide IsRing, Inserted, Owned, With;
      ghost var s, p := spine, if w.place == |spine| then 0 else w.place;
      RingIs(spine, w.cursor);
      var newNode := Insert(posn, q.GetRef(), p);
      RingIs(spine, Shifted(w.cursor, w.place));
      next := q.GetNext();
    }

    /** Where the three nodes of an insertion of a range are; before the middle node is behind all others. */
    ghost predicate AtWalk(posn: Node<T>, q: Node<T>, last: Node<T>, w: Walk)
      reads this
    {
      && 1 <= w.place <= |spine| && 1 <= w.cursor <= |spine| && 1 <= w.last <= |spine|
      && posn == At(spine, w.place) && q == At(spine, w.cursor) && last == At(spine, w.last)
    }

    /** Round `c` of it, after `added` has been inserted. */
    method InsertOwnNext(posn: Node<T>, q: Node<T>, last: Node<T>, ghost w: Walk, ghost c: nat, ghost was: seq<T>,
                         ghost added: seq<T>)
      returns (next: Node<T>)
      requires Valid() && w.cursor + c < w.last && !(w.cursor < w.place <= w.last) && AtWalk(posn, q, last, After(w, c))
      requires 1 <= w.place <= |was| + 1 && 1 <= w.cursor && |added| == c && IsSlice(added, was, w.cursor - 1)
      requires Contents() == Inserted(was, w.place - 1, added)
      modifies this`spine, this`nodes, nodes
      ensures Valid() && middle == old(middle) && fresh(nodes - old(nodes))
      ensures |spine| == |old(spine)| + 1 && AtWalk(posn, next, last, After(w, c + 1))
      ensures w.cursor + c <= |was| && IsSlice(added + [was[w.cursor + c - 1]], was, w.cursor - 1)
      ensures Contents() == Inserted(was, w.place - 1, added + [was[w.cursor + c - 1]])
    {
      hide IsRing, Values, Inserted, IsSlice, Owned, List.Contents, Distinct, Live, Linked, At, Round;
      ghost var now := After(w, c);
      OneMoreRound(w, c);
      InsertedAt(was, w.place - 1, added, now.cursor - 1);
      hide After;
      next := InsertOwn(posn, q, last, now);
      InsertedMore(was, w.place - 1, added, was[w.cursor + c - 1]);
      SliceGrows(added, was, w.cursor - 1);
    }

    /** Inserts, before `posn`, what this list itself holds from one position to a later one, unless `posn` is behind
        the first of them and not behind the last; then the loop would not stop. */
    method InsertOwnRange(posn: Node<T>, first: Node<T>, last: Node<T>, ghost w: Walk)
      requires Valid() && AtWalk(posn, first, last, w) && w.cursor <= w.last && !(w.cursor < w.place <= w.last)
      modifies this`spine, this`nodes, nodes
      ensures Valid() && middle == old(middle) && fresh(nodes - old(nodes))
      ensures Contents() == Inserted(old(Contents()), w.place - 1, old(Contents()[w.cursor - 1..w.last - 1]))
    {
      hide IsRing, Values, Inserted, IsSlice, Owned, List.Contents, Distinct, Live, Linked, At, Round;
      ghost var was, c := Contents(), 0;
      ghost var added: seq<T> := [];
      InsertedNothing(was, w.place - 1);
      SliceBegins(was, w.cursor - 1);
      var q := first;
      while q != last
        invariant Valid() && middle == old(middle) && fresh(nodes - old(nodes))
        invariant w.cursor + c <= w.last && |spine| == |old(spine)| + c && AtWalk(posn, q, last, After(w, c))
        invariant |added| == c && IsSlice(added, was, w.cursor - 1) && Contents() == Inserted(was, w.place - 1, added)
        decreases w.last - (w.cursor + c)
      {
        q := InsertOwnNext(posn, q, last, w, c, was, added);
        added := added + [was[w.cursor + c - 1]];
        c := c + 1;
      }
      OnlyPosition(spine, After(w, c).cursor, After(w, c).last);
      SliceIs(added, was, w.cursor - 1);
    }

    /** Removes what is from one position to a later one, and gives the later one back. */
    method EraseRange(first: Node<T>, last: Node<T>, ghost i: nat, ghost j: nat)
      returns (next: Node<T>)
      requires Valid() && 1 <= i <= j <= |spine| && first == At(spine, i) && last == At(spine, j)
      modifies this`spine, this`nodes, nodes
      ensures Valid() && middle == old(middle) && nodes == old(nodes)
      ensures next == last && i <= |spine| && last == At(spine, i)
      ensures Contents() == Removed(old(Contents()), i - 1, j - i)
    {
      hide IsRing, Values, Removed, Owned, List.Contents;
      ghost var was, c := Contents(), 0;
      RemovedNothing(was, i - 1);
      var p := first;
      while p != last
        invariant Valid() && middle == old(middle) && nodes == old(nodes)
        invariant i + c <= j && |spine| == |old(spine)| - c && p == At(spine, i) && last == At(spine, j - c)
        invariant Contents() == Removed(was, i - 1, c)
        decreases j - (i + c)
      {
        RingIs(spine, i);
        var after := p.GetNext();
        var pNext := Erase(p, i);
        RemovedMore(was, i - 1, c);
        p := after;
        c := c + 1;
      }
      OnlyPosition(spine, i, j - c);
      next := last;
    }

    method Clear()
      requires Valid()
      modifies this`spine, nodes
      ensures Valid() && middle == old(middle) && Contents() == []
      ensures forall i :: 0 < i < |old(spine)| ==> old(spine)[i].freed
    {
      hide Values;
      ghost var s, i := spine, 1;
      RingIs(s, 0);
      var pCurrent := middle.GetNext();
      while pCurrent != middle
        invariant 1 <= i <= |s| && pCurrent == At(s, i)
        invariant Owned(s, nodes) && Distinct(s) && Linked(s) && s[|s| - 1].next == s[0] && s[0] == middle
        invariant !s[0].freed && (forall k :: i <= k < |s| ==> !s[k].freed) && (forall k :: 0 < k < i ==> s[k].freed)
        decreases |s| - i
      {
        var pNext := pCurrent.GetNext();
        pCurrent.Delete();
        pCurrent := pNext;
        i := i + 1;
      }
      middle.SetPrev(middle);
      middle.SetNext(middle);
      spine := [middle];
    }

    /** Assignment to an element. */
    method SetAt(p: Node<T>, val: T, ghost i: nat)
      requires Valid() && 0 < i < |spine| && p == spine[i]
      modifies p`value
      ensures Valid() && Contents() == old(Contents())[i - 1 := val]
    {
      p.SetVal(val);
    }

    /** The body of the loop of the assignment: copies one element and moves on in both lists. */
    method CopyOne(right: List<T>, firstDst: Node<T>, firstSrc: Node<T>, ghost c: nat)
      returns (dst: Node<T>, src: Node<T>)
      requires Valid() && right.Valid() && Apart(this, right)
      requires c < |spine| - 1 && c < |right.spine| - 1
      requires firstDst == At(spine, c + 1) && firstSrc == At(right.spine, c + 1)
      modifies firstDst`value
      ensures Valid() && right.Valid() && dst == At(spine, c + 2) && src == At(right.spine, c + 2)
      ensures right.Contents() == old(right.Contents())
      ensures Contents() == old(Contents())[c := right.Contents()[c]]
    {
      hide IsRing;
      RingIs(spine, c + 1);
      RingIs(right.spine, c + 1);
      dst, src := firstDst.GetNext(), firstSrc.GetNext();
      SetAt(firstDst, firstSrc.GetRef(), c + 1);
    }

    /** The loop of the assignment: copies until either list ends. */
    method CopyCommon(right: List<T>, firstDst: Node<T>, lastDst: Node<T>, firstSrc: Node<T>, lastSrc: Node<T>)
      returns (dst: Node<T>, src: Node<T>, ghost c: nat)
      requires Valid() && right.Valid() && Apart(this, right)
      requires firstDst == At(spine, 1) && lastDst == At(spine, |spine|)
      requires firstSrc == At(right.spine, 1) && lastSrc == At(right.spine, |right.spine|)
      modifies nodes
      ensures Valid() && right.Valid() && right.Contents() == old(right.Contents())
      ensures c < |spine| && c < |right.spine| && dst == At(spine, c + 1) && src == At(right.spine, c + 1)
      ensures c == |spine| - 1 || c == |right.spine| - 1
      ensures Contents() == Overlaid(old(Contents()), right.Contents(), c)
    {
      hide IsRing, Values, Overlaid, List.Contents;
      ghost var was, from := Contents(), right.Contents();
      OverlaidNothing(was, from);
      dst, src, c := firstDst, firstSrc, 0;
      while src != lastSrc && dst != lastDst
        invariant Valid() && right.Valid() && right.Contents() == from
        invariant c < |spine| && c < |right.spine| && dst == At(spine, c + 1) && src == At(right.spine, c + 1)
        invariant Contents() == Overlaid(was, from, c)
        decreases |spine| - c
      {
        OverlaidMore(was, from, c);
        dst, src := CopyOne(right, dst, src, c);
        c := c + 1;
      }
      if src == lastSrc {
        OnlyPosition(right.spine, c + 1, |right.spine|);
      } else {
        OnlyPosition(spine, c + 1, |spine|);
      }
    }

    /** What the assignment does when either list has ended. */
    method Finish(right: List<T>, dst: Node<T>, lastDst: Node<T>, src: Node<T>, lastSrc: Node<T>, ghost c: nat,
                  ghost was: seq<T>)
      requires Valid() && right.Valid() && Apart(this, right)
      requires c < |spine| && c < |right.spine| && (c == |spine| - 1 || c == |right.spine| - 1)
      requires dst == At(spine, c + 1) && lastDst == At(spine, |spine|)
      requires src == At(right.spine, c + 1) && lastSrc == At(right.spine, |right.spine|)
      requires |was| == |spine| - 1 && Contents() == Overlaid(was, right.Contents(), c)
      modifies this`spine, this`nodes, nodes
      ensures Valid() && middle == old(middle) && fresh(nodes - old(nodes))
      ensures Contents() == old(right.Contents()) && right.Valid() && right.Contents() == old(right.Contents())
      ensures Apart(this, right)
    {
      hide IsRing, Values, Removed, Inserted, Overlaid, Owned, List.Contents;
      ghost var from, n, m := right.Contents(), |spine|, |right.spine|;
      if src == lastSrc {
        OnlyPosition(right.spine, c + 1, m);
        OverlaidShort(was, from);
        var end := EraseRange(dst, lastDst, c + 1, n);
      } else {
        assert c == n - 1;
        OverlaidLong(was, from);
        assert from[c..m - 1] == from[c..];
        InsertRange(lastDst, right, src, lastSrc, 0, c + 1, m);
      }
    }

    /** Makes this list hold what another one does, reusing the nodes that are there. */
    method Assign(right: List<T>)
      requires Valid() && right.Valid() && (this == right || Apart(this, right))
      modifies this`spine, this`nodes, nodes
      ensures Valid() && middle == old(middle) && fresh(nodes - old(nodes))
      ensures Contents() == old(right.Contents()) && right.Valid() && right.Contents() == old(right.Contents())
      ensures this == right || Apart(this, right)
    {
      hide IsRing, Values, Overlaid, Owned, List.Contents;
      if this != right {
        ghost var was := Contents();
        var firstDst := Begin();
        var lastDst := End();
        var firstSrc := right.Begin();
        var lastSrc := right.End();
        var dst, src, c := CopyCommon(right, firstDst, lastDst, firstSrc, lastSrc);
        Finish(right, dst, lastDst, src, lastSrc, c, was);
      }
    }
  }

  ghost function Removed<T>(v: seq<T>, k: nat, n: nat): (r: seq<T>)
    requires k + n <= |v|
    ensures |r| == |v| - n
  {
    v[..k] + v[k + n..]
  }

  /** The first `c` elements of one sequence over those of another. */
  ghost function Overlaid<T>(v: seq<T>, w: seq<T>, c: nat): (r: seq<T>)
    requires c <= |v| && c <= |w|
    ensures |r| == |v|
  {
    w[..c] + v[c..]
  }

  lemma OverlaidNothing<T>(v: seq<T>, w: seq<T>)
    ensures Overlaid(v, w, 0) == v
  {
  }

  lemma OverlaidMore<T>(v: seq<T>, w: seq<T>, c: nat)
    requires c < |v| && c < |w|
    ensures Overlaid(v, w, c)[c := w[c]] == Overlaid(v, w, c + 1)
  {
  }

  lemma OverlaidShort<T>(v: seq<T>, w: seq<T>)
    requires |w| <= |v|
    ensures Removed(Overlaid(v, w, |w|), |w|, |v| - |w|) == w
  {
  }

  lemma OverlaidLong<T>(v: seq<T>, w: seq<T>)
    requires |v| <= |w|
    ensures Inserted(Overlaid(v, w, |v|), |v|, w[|v|..]) == w
  {
  }

  lemma RemovedMore<T>(v: seq<T>, k: nat, n: nat)
    requires k + n < |v|
    ensures Removed(Removed(v, k, n), k, 1) == Removed(v, k, n + 1)
  {
  }

  lemma RemovedNothing<T>(v: seq<T>, k: nat)
    requires k <= |v|
    ensures Removed(v, k, 0) == v
    ensures Removed(v, k, |v| - k) == v[..k]
  {
  }

  ghost function Inserted<T>(v: seq<T>, k: nat, w: seq<T>): (r: seq<T>)
    requires k <= |v|
    ensures |r| == |v| + |w|
  {
    v[..k] + w + v[k..]
  }

  lemma InsertedAtEnds<T>(v: seq<T>, w: seq<T>)
    ensures Inserted(v, 0, w) == w + v && Inserted(v, |v|, w) == v + w
  {
  }

  /** Whether `w` is what `v` holds from `i` on. */
  ghost predicate IsSlice<T>(w: seq<T>, v: seq<T>, i: nat) { i + |w| <= |v| && w == v[i..i + |w|] }

  lemma SliceBegins<T>(v: seq<T>, i: nat)
    requires i <= |v|
    ensures IsSlice([], v, i)
  {
  }

  lemma SliceIs<T>(w: seq<T>, v: seq<T>, i: nat)
    requires IsSlice(w, v, i)
    ensures w == v[i..i + |w|]
  {
  }

  lemma SliceGrows<T>(w: seq<T>, v: seq<T>, i: nat)
    requires IsSlice(w, v, i) && i + |w| < |v|
    ensures IsSlice(w + [v[i + |w|]], v, i)
  {
  }

  lemma InsertedNothing<T>(v: seq<T>, k: nat)
    requires k <= |v|
    ensures Inserted(v, k, []) == v
  {
  }

  lemma InsertedAt<T>(v: seq<T>, k: nat, w: seq<T>, i: nat)
    requires k <= |v| && i < |v| + |w|
    ensures i < k ==> Inserted(v, k, w)[i] == v[i]
    ensures k + |w| <= i ==> Inserted(v, k, w)[i] == v[i - |w|]
  {
  }

  lemma InsertedMore<T>(v: seq<T>, k: nat, w: seq<T>, x: T)
    requires k <= |v|
    ensures Inserted(Inserted(v, k, w), k + |w|, [x]) == Inserted(v, k, w + [x])
  {
    var r := Inserted(v, k, w);
    assert r[..k + |w|] == v[..k] + w;
    assert r[k + |w|..] == v[k..];
  }

  /** Whether two lists have no node in common. */
  ghost predicate Apart<T(0)>(a: List<T>, b: List<T>)
    reads a, b
  {
    a != b && a.nodes !! b.nodes
  }

  lemma OnlyPosition<T(0)>(s: seq<Node<T>>, i: nat, j: nat)
    requires IsRing(s) && 1 <= i <= |s| && 1 <= j <= |s| && At(s, i) == At(s, j)
    ensures i == j
  {
  }

  /** The four assignments that link a new node. */
  method Link<T(0)>(newNode: Node<T>, posn: Node<T>, ghost s: seq<Node<T>>, ghost i: nat)
    requires IsRing(s) && i < |s| && s[i] == posn && newNode !in s && !newNode.freed
    modifies newNode`next, newNode`prev, posn`prev, posn.prev`next
    ensures IsRing(With(s, newNode, if i == 0 then |s| else i)) && Values(s) == old(Values(s))
  {
    hide Distinct, Live, Linked, With, Values, Nexts, Prevs, WasRing;
    ghost var k := if i == 0 then |s| else i;
    ghost var nexts, prevs := Nexts(s), Prevs(s);
    RingWas(s);
    RingIs(s, i);
    RingIs(s, k - 1);
    newNode.SetNext(posn);
    newNode.SetPrev(posn.GetPrev());
    SetNextAt(posn.GetPrev(), newNode, s, k - 1);
    SetPrevAt(posn, newNode, s, i);
    StillDistinct(s, newNode, k);
    StillLive(s, newNode, k);
    LinkedIn(s, newNode, k, nexts, prevs);
  }

  /** The assignments that take a node out of the circle, and its end. */
  method Unlink<T(0)>(posn: Node<T>, ghost s: seq<Node<T>>, ghost i: nat)
    requires IsRing(s) && 0 < i < |s| && s[i] == posn
    modifies posn`freed, posn.prev`next, posn.next`prev
    ensures IsRing(Without(s, i)) && posn.freed && Values(s) == old(Values(s))
  {
    hide Distinct, Live, Linked, Without, Values, Nexts, Prevs, WasRing;
    ghost var nexts, prevs := Nexts(s), Prevs(s);
    ghost var n := if i == |s| - 1 then 0 else i + 1;
    RingWas(s);
    RingIs(s, i);
    RingIs(s, i - 1);
    RingIs(s, n);
    var pNext := posn.GetNext();
    var pPrev := posn.GetPrev();
    SetNextAt(pPrev, pNext, s, i - 1);
    SetPrevAt(pNext, pPrev, s, n);
    LinkedOut(s, i, nexts, prevs);
    DeleteAt(posn, s, i);
    DistinctWithout(s, i);
  }

  /** The end of a node, as seen from the nodes around. */
  method DeleteAt<T(0)>(x: Node<T>, ghost s: seq<Node<T>>, ghost j: nat)
    requires Live(s) && j < |s| && s[j] == x && Distinct(s)
    modifies x`freed
    ensures x.freed && Nexts(s) == old(Nexts(s)) && Prevs(s) == old(Prevs(s)) && Values(s) == old(Values(s))
    ensures Live(Without(s, j))
    ensures Nexts(Without(s, j)) == old(Nexts(Without(s, j))) && Prevs(Without(s, j)) == old(Prevs(Without(s, j)))
  {
    hide Without;
    x.Delete();
    assert forall i :: 0 <= i < |s| && i != j ==> s[i] != x;
  }

  /** What the fields of a circle are, as sequences. */
  lemma RingWas<T(0)>(s: seq<Node<T>>)
    requires IsRing(s)
    ensures WasRing(s, Nexts(s), Prevs(s))
  {
  }

  lemma AloneIsARing<T(0)>(x: Node<T>)
    requires x.next == x && x.prev == x && !x.freed
    ensures IsRing([x]) && Owned([x], {x}) && Values([x][1..]) == []
  {
  }

  /** A node of a circle and its neighbours. */
  lemma RingIs<T(0)>(s: seq<Node<T>>, i: nat)
    requires IsRing(s) && i < |s|
    ensures s[i].prev == s[if i == 0 then |s| - 1 else i - 1]
    ensures s[i].next == s[if i == |s| - 1 then 0 else i + 1]
    ensures !s[i].freed
  {
  }

  /** SetNext, as seen from the nodes around. */
  method SetNextAt<T(0)>(x: Node<T>, n: Node<T>, ghost s: seq<Node<T>>, ghost j: nat)
    requires !x.freed && j < |s| && s[j] == x && Distinct(s)
    modifies x`next
    ensures x.next == n && Nexts(s) == old(Nexts(s))[j := n] && Prevs(s) == old(Prevs(s))
    ensures Values(s) == old(Values(s)) && Live(s) == old(Live(s))
  {
    x.SetNext(n);
    assert forall i :: 0 <= i < |s| && i != j ==> s[i] != x;
  }

  method SetPrevAt<T(0)>(x: Node<T>, n: Node<T>, ghost s: seq<Node<T>>, ghost j: nat)
    requires !x.freed && j < |s| && s[j] == x && Distinct(s)
    modifies x`prev
    ensures x.prev == n && Prevs(s) == old(Prevs(s))[j := n] && Nexts(s) == old(Nexts(s))
    ensures Values(s) == old(Values(s)) && Live(s) == old(Live(s))
  {
    x.SetPrev(n);
    assert forall i :: 0 <= i < |s| && i != j ==> s[i] != x;
  }

  /** Whether links that were noted down, node by node, made a circle. */
  ghost predicate WasRing<T(0)>(s: seq<Node<T>>, nexts: seq<Node<T>>, prevs: seq<Node<T>>) {
    && |s| == |nexts| == |prevs| > 0 && Distinct(s)
    && (forall i, j :: 0 <= i < j < |s| && j == i + 1 ==> nexts[i] == s[j] && prevs[j] == s[i])
    && nexts[|s| - 1] == s[0] && prevs[0] == s[|s| - 1]
  }

  /** A sequence of nodes with one put in at `k`. */
  ghost function With<T(0)>(s: seq<Node<T>>, n: Node<T>, k: nat): (t: seq<Node<T>>)
    requires k <= |s|
    ensures |t| == |s| + 1 && t[k] == n
    ensures forall j :: 0 <= j < k ==> t[j] == s[j]
    ensures forall j :: k < j < |t| ==> t[j] == s[j - 1]
  {
    s[..k] + [n] + s[k..]
  }

  lemma StillDistinct<T(0)>(s: seq<Node<T>>, n: Node<T>, k: nat)
    requires Distinct(s) && k <= |s| && n !in s
    ensures Distinct(With(s, n, k))
  {
    hide With;
  }

  lemma StillLive<T(0)>(s: seq<Node<T>>, n: Node<T>, k: nat)
    requires Live(s) && k <= |s| && !n.freed
    ensures Live(With(s, n, k))
  {
    hide With;
  }

  /** Linking a node in between two neighbours keeps the circle. */
  lemma LinkedIn<T(0)>(s: seq<Node<T>>, n: Node<T>, k: nat, nexts: seq<Node<T>>, prevs: seq<Node<T>>)
    requires WasRing(s, nexts, prevs) && 1 <= k <= |s|
    requires n.prev == s[k - 1] && n.next == s[if k < |s| then k else 0]
    requires Nexts(s) == nexts[k - 1 := n] && Prevs(s) == prevs[if k < |s| then k else 0 := n]
    ensures Linked(With(s, n, k))
    ensures var t := With(s, n, k); t[|s|].next == t[0] && t[0].prev == t[|s|]
  {
    hide With, Distinct;
    var t := With(s, n, k);
    assert forall j :: 0 <= j < |s| ==> s[j].next == Nexts(s)[j] && s[j].prev == Prevs(s)[j];
    forall j | 0 < j < |t|
      ensures t[j - 1].next == t[j] && t[j].prev == t[j - 1]
    {
      if j < k {
        assert nexts[j - 1] == s[j];
      } else if j == k {
      } else if j == k + 1 {
      } else {
        assert t[j] == s[j - 1] && t[j - 1] == s[j - 2];
        assert nexts[j - 2] == s[j - 1];
      }
    }
  }

  lemma ValuesOfTail<T(0)>(s: seq<Node<T>>)
    requires |s| > 0
    ensures Values(s[1..]) == Values(s)[1..]
  {
  }

  lemma OwnedAt<T(0)>(s: seq<Node<T>>, i: nat, nodes: set<Node<T>>)
    requires i < |s| && Owned(s, nodes)
    ensures s[i] in nodes
  {
  }

  lemma OwnedWith<T(0)>(s: seq<Node<T>>, n: Node<T>, k: nat, nodes: set<Node<T>>)
    requires k <= |s| && Owned(s, nodes)
    ensures Owned(With(s, n, k), nodes + {n})
  {
    hide With;
  }

  lemma ValuesWith<T(0)>(s: seq<Node<T>>, n: Node<T>, k: nat)
    requires 1 <= k <= |s|
    ensures Values(With(s, n, k)[1..]) == Inserted(Values(s[1..]), k - 1, [n.value])
  {
    hide With;
  }

  /** The node at a position, where the position behind the last is that of the middle node. */
  ghost function At<T(0)>(s: seq<Node<T>>, i: nat): Node<T>
    requires i <= |s| && |s| > 0
  {
    if i == |s| then s[0] else s[i]
  }

  /** A sequence of nodes with the one at `i` left out. */
  ghost function Without<T(0)>(s: seq<Node<T>>, i: nat): (t: seq<Node<T>>)
    requires i < |s|
    ensures |t| == |s| - 1
    ensures forall j :: 0 <= j < i ==> t[j] == s[j]
    ensures forall j :: i <= j < |t| ==> t[j] == s[j + 1]
  {
    s[..i] + s[i + 1..]
  }

  lemma ValuesWithout<T(0)>(s: seq<Node<T>>, i: nat)
    requires 0 < i < |s|
    ensures Values(Without(s, i)[1..]) == Values(s[1..])[..i - 1] + Values(s[1..])[i..]
  {
    hide Without;
  }

  lemma DistinctWithout<T(0)>(s: seq<Node<T>>, i: nat)
    requires Distinct(s) && i < |s|
    ensures Distinct(Without(s, i)) && s[i] !in Without(s, i)
  {
    hide Without;
  }

  /** Linking the neighbours of a node with each other keeps the circle, without it. */
  lemma LinkedOut<T(0)>(s: seq<Node<T>>, i: nat, nexts: seq<Node<T>>, prevs: seq<Node<T>>)
    requires WasRing(s, nexts, prevs) && 0 < i < |s|
    requires
      var n := if i == |s| - 1 then 0 else i + 1;
      Nexts(s) == nexts[i - 1 := s[n]] && Prevs(s) == prevs[n := s[i - 1]]
    ensures Linked(Without(s, i))
    ensures var t := Without(s, i); t[|t| - 1].next == t[0] && t[0].prev == t[|t| - 1]
  {
    hide Without, Distinct;
    var t := Without(s, i);
    assert forall j :: 0 <= j < |s| ==> s[j].next == Nexts(s)[j] && s[j].prev == Prevs(s)[j];
    forall j | 0 < j < |t|
      ensures t[j - 1].next == t[j] && t[j].prev == t[j - 1]
    {
      if j < i {
        assert nexts[j - 1] == s[j];
      } else if j > i {
        assert t[j] == s[j + 1] && t[j - 1] == s[j];
        assert nexts[j] == s[j + 1];
      }
    }
  }
}
