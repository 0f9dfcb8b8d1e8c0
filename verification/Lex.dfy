/** Lexicographic comparison of vectors of ranks, the order that the tests of a configuration are measured by. */
module Lex {
  import opened Config

  function By(x: real, y: real): Verdict { if x > y then Better else if x < y then Worse else Tie }

  function Compare(r: seq<real>, s: seq<real>): Verdict
    requires |r| == |s|
  {
    if r == [] then Tie else Then(By(r[0], s[0]), Compare(r[1..], s[1..]))
  }

  lemma CompareOne(x: real, y: real)
    ensures Compare([x], [y]) == By(x, y)
  {
    assert Compare([x][1..], [y][1..]) == Tie;
  }

  lemma {:induction false} CompareAppends(r: seq<real>, s: seq<real>, r': seq<real>, s': seq<real>)
    requires |r| == |s| && |r'| == |s'|
    ensures Compare(r + r', s + s') == Then(Compare(r, s), Compare(r', s'))
  {
    if r == [] {
      assert r + r' == r' && s + s' == s';
    } else {
      CompareAppends(r[1..], s[1..], r', s');
      assert (r + r')[1..] == r[1..] + r' && (s + s')[1..] == s[1..] + s';
    }
  }

  lemma {:induction false} CompareFlips(r: seq<real>, s: seq<real>)
    requires |r| == |s|
    ensures Compare(s, r) == Flip(Compare(r, s))
  {
    if r != [] {
      CompareFlips(r[1..], s[1..]);
    }
  }

  /** How the verdicts of a triple go together: equals can be replaced, and what is better than better is better. */
  predicate Composes(rs: Verdict, st: Verdict, rt: Verdict) {
    && (rs == Tie ==> rt == st)
    && (st == Tie ==> rt == rs)
    && (rs == st ==> rt == rs)
  }

  lemma {:induction false} CompareComposes(r: seq<real>, s: seq<real>, t: seq<real>)
    requires |r| == |s| == |t|
    ensures Composes(Compare(r, s), Compare(s, t), Compare(r, t))
  {
    if r != [] {
      CompareComposes(r[1..], s[1..], t[1..]);
    }
  }

  /** A vector that is nowhere below another does not lose to it. */
  lemma {:induction false} NowhereBelow(r: seq<real>, s: seq<real>)
    requires |r| == |s| && forall k :: 0 <= k < |r| ==> r[k] <= s[k]
    ensures Compare(r, s) != Better
  {
    if r != [] {
      NowhereBelow(r[1..], s[1..]);
    }
  }
}
