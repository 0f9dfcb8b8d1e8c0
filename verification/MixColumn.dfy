/** One column of the state: mixing it by doublings of neighbouring sums is its product with the matrix of section 5.1.3
    of FIPS 197, unmixing it is its product with the inverse matrix of section 5.3.3, and the two undo each other. */
module MixColumn {
  import opened Gf256

  function Plus4(w: bv8, x: bv8, y: bv8, z: bv8): bv8 { Plus(Plus(w, x), Plus(y, z)) }

  /** A row of the matrix product of section 5.1.3 of FIPS 197: of a byte and of the three below it, going round. */
  function MixedByte(w: bv8, x: bv8, y: bv8, z: bv8): bv8 { Plus4(Product(w, 2), Product(x, 3), y, z) }

  /** A row of the matrix product of section 5.3.3. */
  function UnmixedByte(w: bv8, x: bv8, y: bv8, z: bv8): bv8 {
    Plus4(Product(w, 0x0e), Product(x, 0x0b), Product(y, 0x0d), Product(z, 0x09))
  }

  // ----- Sums -----

  lemma PlusAssociates(x: bv8, y: bv8, z: bv8)
    ensures Plus(Plus(x, y), z) == Plus(x, Plus(y, z))
  {
  }

  lemma PlusCommutes(x: bv8, y: bv8)
    ensures Plus(x, y) == Plus(y, x)
  {
  }

  lemma PlusTwice(x: bv8, y: bv8)
    ensures Plus(Plus(x, y), y) == x
  {
  }

  lemma PlusZero(x: bv8)
    ensures Plus(x, 0) == x
    ensures Plus(0, x) == x
    ensures Plus(x, x) == 0
  {
  }

  lemma PlusInterchanges(w: bv8, x: bv8, y: bv8, z: bv8)
    ensures Plus4(w, x, y, z) == Plus4(w, y, x, z)
  {
    hide Plus;
    PlusAssociates(w, x, Plus(y, z));
    PlusAssociates(x, y, z);
    PlusCommutes(x, y);
    PlusAssociates(y, x, z);
    PlusAssociates(w, y, Plus(x, z));
  }

  /** What is in both sums cancels. */
  lemma PlusCancels(x: bv8, y: bv8, z: bv8)
    ensures Plus(Plus(x, z), Plus(y, z)) == Plus(x, y)
  {
    hide Plus;
    PlusInterchanges(x, z, y, z);
    PlusZero(z);
    PlusZero(Plus(x, y));
  }

  lemma RowsAdd(w: bv8, x: bv8, y: bv8, z: bv8, w': bv8, x': bv8, y': bv8, z': bv8)
    ensures Plus4(Plus(w, w'), Plus(x, x'), Plus(y, y'), Plus(z, z')) == Plus(Plus4(w, x, y, z), Plus4(w', x', y', z'))
  {
    hide Plus;
    PlusInterchanges(w, w', x, x');
    PlusInterchanges(y, y', z, z');
    PlusInterchanges(Plus(w, x), Plus(w', x'), Plus(y, z), Plus(y', z'));
  }

  /** Adding up the rows and adding up the columns gives the same. */
  lemma RowsAreColumns(a0: bv8, a1: bv8, a2: bv8, a3: bv8, b0: bv8, b1: bv8, b2: bv8, b3: bv8, c0: bv8, c1: bv8,
                       c2: bv8, c3: bv8, d0: bv8, d1: bv8, d2: bv8, d3: bv8)
    ensures Plus4(Plus4(a0, a1, a2, a3), Plus4(b0, b1, b2, b3), Plus4(c0, c1, c2, c3), Plus4(d0, d1, d2, d3))
         == Plus4(Plus4(a0, b0, c0, d0), Plus4(a1, b1, c1, d1), Plus4(a2, b2, c2, d2), Plus4(a3, b3, c3, d3))
  {
    hide Plus;
    RowsAdd(a0, a1, a2, a3, b0, b1, b2, b3);
    RowsAdd(c0, c1, c2, c3, d0, d1, d2, d3);
    RowsAdd(Plus(a0, b0), Plus(a1, b1), Plus(a2, b2), Plus(a3, b3), Plus(c0, d0), Plus(c1, d1), Plus(c2, d2),
        Plus(c3, d3));
  }

  // ----- The matrix rows in terms of xtime -----

  /** The multiplier's bits say which of the doublings of a byte its product adds up. */
  lemma ProductParts(x: bv8, c: bv8)
    requires c < 16
    ensures Product(x, c) == Plus4(Part(c & 8 != 0, XTime(XTime(XTime(x)))), Part(c & 4 != 0, XTime(XTime(x))),
                                   Part(c & 2 != 0, XTime(x)), Part(c & 1 != 0, x))
  {
    hide XTime, Product, Multiply, Plus, Part;
    MultiplyIsProduct(x, c);
    MultiplyParts(x, c);
    var p0, p1, p2, p3 := Part(c & 1 != 0, x), Part(c & 2 != 0, XTime(x)), Part(c & 4 != 0, XTime(XTime(x))),
                          Part(c & 8 != 0, XTime(XTime(XTime(x))));
    assert Part(c & 16 != 0, XTime(XTime(XTime(XTime(x))))) == 0 by { NoPart(c, XTime(XTime(XTime(XTime(x))))); }
    PlusZero(Plus(Plus(Plus(p0, p1), p2), p3));
    PlusAssociates(Plus(p0, p1), p2, p3);
    PlusCommutes(Plus(p0, p1), Plus(p2, p3));
    PlusCommutes(p0, p1);
    PlusCommutes(p2, p3);
  }

  lemma NoPart(c: bv8, x: bv8)
    requires c < 16
    ensures Part(c & 16 != 0, x) == 0
  {
  }

  lemma ProductBy2(x: bv8)
    ensures Product(x, 2) == XTime(x)
  {
    hide XTime, Product, Plus;
    ProductParts(x, 2);
    PlusZero(0);
    PlusZero(XTime(x));
  }

  lemma ProductBy3(x: bv8)
    ensures Product(x, 3) == Plus(XTime(x), x)
  {
    hide XTime, Product, Plus;
    ProductParts(x, 3);
    PlusZero(0);
    PlusZero(Plus(XTime(x), x));
  }

  lemma InverseProducts(w: bv8, x: bv8, y: bv8, z: bv8)
    ensures Product(w, 0x0e) == Plus4(XTime(XTime(XTime(w))), XTime(XTime(w)), XTime(w), 0)
    ensures Product(x, 0x0b) == Plus4(XTime(XTime(XTime(x))), 0, XTime(x), x)
    ensures Product(y, 0x0d) == Plus4(XTime(XTime(XTime(y))), XTime(XTime(y)), 0, y)
    ensures Product(z, 0x09) == Plus4(XTime(XTime(XTime(z))), 0, 0, z)
  {
    hide XTime, Product, Plus;
    ProductParts(w, 0x0e);
    ProductParts(x, 0x0b);
    ProductParts(y, 0x0d);
    ProductParts(z, 0x09);
  }

  lemma XTimeOfPlus4(w: bv8, x: bv8, y: bv8, z: bv8)
    ensures XTime(Plus4(w, x, y, z)) == Plus4(XTime(w), XTime(x), XTime(y), XTime(z))
  {
    hide XTime, Plus;
    XTimeIsLinear(Plus(w, x), Plus(y, z));
    XTimeIsLinear(w, x);
    XTimeIsLinear(y, z);
  }

  /** The form the cipher computes. */
  function MixedByXTime(w: bv8, x: bv8, y: bv8, z: bv8): bv8 { Plus(w, Plus(XTime(Plus(w, x)), Plus4(w, x, y, z))) }

  lemma MixedIsByXTime(w: bv8, x: bv8, y: bv8, z: bv8)
    ensures MixedByte(w, x, y, z) == MixedByXTime(w, x, y, z)
  {
    hide XTime, Product, Plus;
    var t, rest := XTime(Plus(w, x)), Plus(x, Plus(y, z));
    assert MixedByte(w, x, y, z) == Plus(t, rest) by {
      ProductBy2(w);
      ProductBy3(x);
      XTimeIsLinear(w, x);
      PlusAssociates(XTime(w), XTime(x), rest);
      PlusAssociates(XTime(x), x, Plus(y, z));
      PlusAssociates(XTime(w), Plus(XTime(x), x), Plus(y, z));
    }
    assert MixedByXTime(w, x, y, z) == Plus(t, rest) by {
      PlusAssociates(w, x, Plus(y, z));
      PlusAssociates(t, w, rest);
      PlusCommutes(t, w);
      PlusAssociates(w, t, rest);
      PlusCommutes(w, Plus(w, Plus(t, rest)));
      PlusCommutes(w, Plus(t, rest));
      PlusTwice(Plus(t, rest), w);
    }
  }

  /** The same for the inverse. Each doubling applies to a smaller part of the column. */
  function UnmixedByXTime(w: bv8, x: bv8, y: bv8, z: bv8): bv8 {
    Plus4(XTime(XTime(XTime(Plus4(w, x, y, z)))), XTime(XTime(Plus(w, y))), XTime(Plus(w, x)), Plus(x, Plus(y, z)))
  }

  lemma UnmixedIsByXTime(w: bv8, x: bv8, y: bv8, z: bv8)
    ensures UnmixedByte(w, x, y, z) == UnmixedByXTime(w, x, y, z)
  {
    hide XTime, Product, Plus;
    var w1, x1, y1, z1 := XTime(w), XTime(x), XTime(y), XTime(z);
    var w2, y2 := XTime(w1), XTime(y1);
    var w3, x3, y3, z3 := XTime(w2), XTime(XTime(x1)), XTime(y2), XTime(XTime(z1));
    assert UnmixedByte(w, x, y, z) == Plus4(Plus4(w3, x3, y3, z3), Plus4(w2, 0, y2, 0), Plus4(w1, x1, 0, 0),
        Plus4(0, x, y, z)) by {
      InverseProducts(w, x, y, z);
      RowsAreColumns(w3, w2, w1, 0, x3, 0, x1, x, y3, y2, 0, y, z3, 0, 0, z);
    }
    assert XTime(XTime(XTime(Plus4(w, x, y, z)))) == Plus4(w3, x3, y3, z3) by {
      XTimeOfPlus4(w, x, y, z);
      XTimeOfPlus4(w1, x1, y1, z1);
      XTimeOfPlus4(w2, XTime(x1), y2, XTime(z1));
    }
    assert XTime(XTime(Plus(w, y))) == Plus4(w2, 0, y2, 0) by {
      XTimeIsLinear(w, y);
      XTimeIsLinear(w1, y1);
      PlusZero(w2);
      PlusZero(y2);
    }
    assert XTime(Plus(w, x)) == Plus4(w1, x1, 0, 0) by {
      XTimeIsLinear(w, x);
      PlusZero(0);
      PlusZero(Plus(w1, x1));
    }
    assert Plus(x, Plus(y, z)) == Plus4(0, x, y, z) by { PlusZero(x); }
  }

  // ----- Each undoes the other -----

  /** The sum of a column does not depend on where it starts. */
  lemma SumGoesRound(w: bv8, x: bv8, y: bv8, z: bv8)
    ensures Plus4(x, y, z, w) == Plus4(w, x, y, z)
    ensures Plus4(w, x, y, z) == Plus(w, Plus(x, Plus(y, z)))
  {
    hide Plus;
    PlusAssociates(w, x, Plus(y, z));
    PlusCommutes(w, Plus(x, Plus(y, z)));
    PlusAssociates(x, Plus(y, z), w);
    PlusAssociates(y, z, w);
    PlusAssociates(x, y, Plus(z, w));
  }

  /** A mixed byte and the one below it. */
  lemma MixedAndNext(w: bv8, x: bv8, y: bv8, z: bv8)
    ensures Plus(MixedByXTime(w, x, y, z), MixedByXTime(x, y, z, w)) == Plus(Plus(w, x), XTime(Plus(w, y)))
  {
    hide XTime, Plus;
    var s, n, n' := Plus4(w, x, y, z), XTime(Plus(w, x)), XTime(Plus(x, y));
    SumGoesRound(w, x, y, z);
    PlusInterchanges(w, Plus(n, s), x, Plus(n', s));
    PlusCancels(n, n', s);
    assert Plus(n, n') == XTime(Plus(w, y)) by {
      XTimeIsLinear(Plus(w, x), Plus(x, y));
      PlusCommutes(x, y);
      PlusCancels(w, y, x);
    }
  }

  /** A mixed byte and the one two below it. */
  lemma MixedAndOpposite(w: bv8, x: bv8, y: bv8, z: bv8)
    ensures Plus(MixedByXTime(w, x, y, z), MixedByXTime(y, z, w, x)) == Plus(Plus(w, y), XTime(Plus4(w, x, y, z)))
  {
    hide XTime, Plus;
    var s, n, n' := Plus4(w, x, y, z), XTime(Plus(w, x)), XTime(Plus(y, z));
    SumGoesRound(w, x, y, z);
    SumGoesRound(x, y, z, w);
    PlusInterchanges(w, Plus(n, s), y, Plus(n', s));
    PlusCancels(n, n', s);
    XTimeIsLinear(Plus(w, x), Plus(y, z));
  }

  /** Mixing keeps the sum of a column. */
  lemma MixingKeepsSum(w: bv8, x: bv8, y: bv8, z: bv8)
    ensures Plus4(MixedByXTime(w, x, y, z), MixedByXTime(x, y, z, w), MixedByXTime(y, z, w, x),
        MixedByXTime(z, w, x, y))
         == Plus4(w, x, y, z)
  {
    hide XTime, Plus, MixedByXTime;
    MixedAndNext(w, x, y, z);
    MixedAndNext(y, z, w, x);
    PlusCommutes(w, y);
    PlusCancels(Plus(w, x), Plus(y, z), XTime(Plus(w, y)));
  }

  lemma UnmixedMixed(w: bv8, x: bv8, y: bv8, z: bv8)
    ensures UnmixedByXTime(MixedByXTime(w, x, y, z), MixedByXTime(x, y, z, w), MixedByXTime(y, z, w, x),
        MixedByXTime(z, w, x, y))
         == w
  {
    hide XTime, Plus, MixedByXTime;
    var m0, m1, m2, m3 := MixedByXTime(w, x, y, z), MixedByXTime(x, y, z, w), MixedByXTime(y, z, w, x),
        MixedByXTime(z, w, x, y);
    var s, n := Plus4(w, x, y, z), XTime(Plus(w, x));
    var a, b := XTime(XTime(Plus(w, y))), XTime(XTime(XTime(s)));
    assert XTime(XTime(XTime(Plus4(m0, m1, m2, m3)))) == b by { MixingKeepsSum(w, x, y, z); }
    assert XTime(XTime(Plus(m0, m2))) == Plus(a, b) by {
      MixedAndOpposite(w, x, y, z);
      XTimeIsLinear(Plus(w, y), XTime(s));
      XTimeIsLinear(XTime(Plus(w, y)), XTime(XTime(s)));
    }
    assert XTime(Plus(m0, m1)) == Plus(n, a) by {
      MixedAndNext(w, x, y, z);
      XTimeIsLinear(Plus(w, x), XTime(Plus(w, y)));
    }
    assert Plus(m1, Plus(m2, m3)) == Plus(w, n) by { AllButOneMixed(w, x, y, z); }
    assert Plus4(b, Plus(a, b), Plus(n, a), Plus(w, n)) == w by {
      PlusCommutes(b, Plus(a, b));
      PlusTwice(a, b);
      PlusCommutes(n, a);
      PlusCancels(a, w, n);
      PlusCommutes(a, Plus(a, w));
      PlusCommutes(a, w);
      PlusTwice(w, a);
    }
  }

  lemma AllButOneMixed(w: bv8, x: bv8, y: bv8, z: bv8)
    ensures Plus(MixedByXTime(x, y, z, w), Plus(MixedByXTime(y, z, w, x), MixedByXTime(z, w, x, y)))
        == Plus(w, XTime(Plus(w, x)))
  {
    hide XTime, Plus;
    var m0, m1, m2, m3 := MixedByXTime(w, x, y, z), MixedByXTime(x, y, z, w), MixedByXTime(y, z, w, x),
        MixedByXTime(z, w, x, y);
    var s, n, rest := Plus4(w, x, y, z), XTime(Plus(w, x)), Plus(m1, Plus(m2, m3));
    assert s == Plus(m0, rest) by {
      MixingKeepsSum(w, x, y, z);
      SumGoesRound(m0, m1, m2, m3);
    }
    assert m0 == Plus(Plus(w, n), s) by { PlusAssociates(w, n, s); }
    PlusCommutes(m0, rest);
    PlusTwice(rest, m0);
    PlusCommutes(s, m0);
    PlusTwice(Plus(w, n), s);
  }

  /** Unmixing a mixed column gives its bytes back. */
  lemma UnmixUndoesMix(w: bv8, x: bv8, y: bv8, z: bv8)
    ensures UnmixedByte(MixedByte(w, x, y, z), MixedByte(x, y, z, w), MixedByte(y, z, w, x), MixedByte(z, w, x, y)) == w
  {
    hide MixedByte, UnmixedByte, MixedByXTime, UnmixedByXTime;
    MixedIsByXTime(w, x, y, z);
    MixedIsByXTime(x, y, z, w);
    MixedIsByXTime(y, z, w, x);
    MixedIsByXTime(z, w, x, y);
    UnmixedIsByXTime(MixedByte(w, x, y, z), MixedByte(x, y, z, w), MixedByte(y, z, w, x), MixedByte(z, w, x, y));
    UnmixedMixed(w, x, y, z);
  }

  /** An unmixed byte and the one below it. */
  lemma UnmixedAndNext(w: bv8, x: bv8, y: bv8, z: bv8)
    ensures Plus(UnmixedByXTime(w, x, y, z), UnmixedByXTime(x, y, z, w))
         == Plus4(0, XTime(XTime(Plus4(w, x, y, z))), XTime(Plus(w, y)), Plus(w, x))
  {
    hide XTime, Plus;
    var s := Plus4(w, x, y, z);
    var b, a, a', n, n' := XTime(XTime(XTime(s))), XTime(XTime(Plus(w, y))), XTime(XTime(Plus(x, z))),
                           XTime(Plus(w, x)), XTime(Plus(x, y));
    var r, r' := Plus(x, Plus(y, z)), Plus(y, Plus(z, w));
    SumGoesRound(w, x, y, z);
    RowsAdd(b, a, n, r, b, a', n', r');
    PlusZero(b);
    assert Plus(a, a') == XTime(XTime(s)) by {
      PlusInterchanges(w, y, x, z);
      XTimeIsLinear(Plus(w, y), Plus(x, z));
      XTimeIsLinear(XTime(Plus(w, y)), XTime(Plus(x, z)));
    }
    assert Plus(n, n') == XTime(Plus(w, y)) by {
      XTimeIsLinear(Plus(w, x), Plus(x, y));
      PlusCommutes(x, y);
      PlusCancels(w, y, x);
    }
    assert Plus(r, r') == Plus(w, x) by {
      PlusAssociates(y, z, w);
      PlusCommutes(Plus(y, z), w);
      PlusCancels(x, w, Plus(y, z));
      PlusCommutes(x, w);
    }
  }

  lemma UnmixingKeepsSum(w: bv8, x: bv8, y: bv8, z: bv8)
    ensures Plus4(UnmixedByXTime(w, x, y, z), UnmixedByXTime(x, y, z, w), UnmixedByXTime(y, z, w, x),
        UnmixedByXTime(z, w, x, y))
         == Plus4(w, x, y, z)
  {
    hide XTime, Plus, UnmixedByXTime;
    var t, n := XTime(XTime(Plus4(w, x, y, z))), XTime(Plus(w, y));
    UnmixedAndNext(w, x, y, z);
    UnmixedAndNext(y, z, w, x);
    SumGoesRound(w, x, y, z);
    SumGoesRound(x, y, z, w);
    PlusCommutes(w, y);
    RowsAdd(0, t, n, Plus(w, x), 0, t, n, Plus(y, z));
    PlusZero(0);
    PlusZero(t);
    PlusZero(n);
    PlusZero(Plus4(w, x, y, z));
  }

  lemma MixedUnmixed(w: bv8, x: bv8, y: bv8, z: bv8)
    ensures MixedByXTime(UnmixedByXTime(w, x, y, z), UnmixedByXTime(x, y, z, w), UnmixedByXTime(y, z, w, x),
        UnmixedByXTime(z, w, x, y))
         == w
  {
    hide XTime, Plus;
    var s, n := Plus4(w, x, y, z), XTime(Plus(w, x));
    var a, b := XTime(XTime(Plus(w, y))), XTime(XTime(XTime(s)));
    var u0, r := UnmixedByXTime(w, x, y, z), Plus(x, Plus(y, z));
    UnmixingKeepsSum(w, x, y, z);
    var d := Plus4(0, b, a, n);
    assert XTime(Plus(u0, UnmixedByXTime(x, y, z, w))) == d by {
      UnmixedAndNext(w, x, y, z);
      XTimeOfPlus4(0, XTime(XTime(s)), XTime(Plus(w, y)), Plus(w, x));
      XTimeOfZero();
    }
    assert u0 == Plus(d, r) by {
      SumGoesRound(0, b, a, n);
      PlusZero(Plus(b, Plus(a, n)));
      PlusAssociates(b, a, Plus(n, r));
      PlusAssociates(a, n, r);
      PlusAssociates(b, Plus(a, n), r);
    }
    assert Plus(u0, Plus(d, s)) == Plus(r, s) by {
      PlusCommutes(d, r);
      PlusCommutes(d, s);
      PlusCancels(r, s, d);
    }
    assert Plus(r, s) == w by {
      SumGoesRound(w, x, y, z);
      PlusCommutes(r, Plus(w, r));
      PlusTwice(w, r);
    }
  }

  lemma XTimeOfZero()
    ensures XTime(0) == 0
  {
  }

  /** Mixing an unmixed column gives its bytes back. */
  lemma MixUndoesUnmix(w: bv8, x: bv8, y: bv8, z: bv8)
    ensures MixedByte(UnmixedByte(w, x, y, z), UnmixedByte(x, y, z, w), UnmixedByte(y, z, w, x),
        UnmixedByte(z, w, x, y)) == w
  {
    hide MixedByte, UnmixedByte, MixedByXTime, UnmixedByXTime;
    UnmixedIsByXTime(w, x, y, z);
    UnmixedIsByXTime(x, y, z, w);
    UnmixedIsByXTime(y, z, w, x);
    UnmixedIsByXTime(z, w, x, y);
    MixedIsByXTime(UnmixedByte(w, x, y, z), UnmixedByte(x, y, z, w), UnmixedByte(y, z, w, x), UnmixedByte(z, w, x, y));
    MixedUnmixed(w, x, y, z);
  }
}
