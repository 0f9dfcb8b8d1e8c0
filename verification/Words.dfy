/** What both instruction sets share: flags, conditions, register names and 32-bit sums. */
module Words {

  datatype Flags = Flags(n: bool, z: bool, c: bool, v: bool)

  const SP: bv4 := 13
  const LR: bv4 := 14
  const PC: bv4 := 15

  function Plus(x: bv32, y: bv32): bv32 { x + y }

  function Minus(x: bv32, y: bv32): bv32 { x - y }

  /** Section A8.3 of ARM DDI 0406C. */
  function ConditionHolds(cond: bv4, f: Flags): bool {
    var base :=
      if cond >> 1 == 0 then f.z
      else if cond >> 1 == 1 then f.c
      else if cond >> 1 == 2 then f.n
      else if cond >> 1 == 3 then f.v
      else if cond >> 1 == 4 then f.c && !f.z
      else if cond >> 1 == 5 then f.n == f.v
      else if cond >> 1 == 6 then f.n == f.v && !f.z
      else true;
    if cond & 1 == 1 && cond != 15 then !base else base
  }

  lemma SamePartsIff<T>(x: seq<T>, y: seq<T>, u: seq<T>, v: seq<T>)
    requires |x| == |u|
    ensures x + y == u + v <==> x == u && y == v
  {
    assert (x + y)[..|x|] == x && (x + y)[|x|..] == y && (u + v)[..|u|] == u && (u + v)[|u|..] == v;
  }
}
