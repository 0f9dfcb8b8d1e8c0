/** The field GF(2^8) of section 4.2 of FIPS 197, and the shortcuts the cipher takes in it. */
module Gf256 {

  // ----- The field -----

  /** What the coefficient of degree `k` of `y` contributes to the product of two polynomials over GF(2). */
  function Term0(x: bv8, y: bv8): bv16 { Times(x as bv16, y & 1 != 0) }

  function Term1(x: bv8, y: bv8): bv16 { Times(x as bv16 << 1, y & 2 != 0) }

  function Term2(x: bv8, y: bv8): bv16 { Times(x as bv16 << 2, y & 4 != 0) }

  function Term3(x: bv8, y: bv8): bv16 { Times(x as bv16 << 3, y & 8 != 0) }

  function Term4(x: bv8, y: bv8): bv16 { Times(x as bv16 << 4, y & 16 != 0) }

  function Term5(x: bv8, y: bv8): bv16 { Times(x as bv16 << 5, y & 32 != 0) }

  function Term6(x: bv8, y: bv8): bv16 { Times(x as bv16 << 6, y & 64 != 0) }

  function Term7(x: bv8, y: bv8): bv16 { Times(x as bv16 << 7, y & 128 != 0) }

  /** The product, not reduced. */
  function PolyProduct(x: bv8, y: bv8): bv16 {
    Sum(Sum(Sum(Sum(Sum(Sum(Sum(Term0(x, y), Term1(x, y)), Term2(x, y)), Term3(x, y)), Term4(x, y)), Term5(x, y)),
      Term6(x, y)), Term7(x, y))
  }

  function Sum(p: bv16, q: bv16): bv16 { p ^ q }

  function Times(p: bv16, bit: bool): bv16 { if bit then p else 0 }

  /** The remainder modulo x^8 + x^4 + x^3 + x + 1, of a polynomial of degree 14 at most. */
  function Reduce(p: bv16): bv8 {
    Low(Reduced8(Reduced9(Reduced10(Reduced11(Reduced12(Reduced13(Reduced14(p))))))))
  }

  function Low(p: bv16): bv8 { (p & 0xFF) as bv8 }

  /** One step of the division: `multiple`, a multiple of the modulus, takes the leading coefficient away if it is
      there. */
  function Step(p: bv16, leading: bool, multiple: bv16): bv16 { if leading then Sum(p, multiple) else p }

  function Reduced14(p: bv16): bv16 { Step(p, p & 0x4000 != 0, 0x46C0) }

  function Reduced13(p: bv16): bv16 { Step(p, p & 0x2000 != 0, 0x2360) }

  function Reduced12(p: bv16): bv16 { Step(p, p & 0x1000 != 0, 0x11B0) }

  function Reduced11(p: bv16): bv16 { Step(p, p & 0x0800 != 0, 0x08D8) }

  function Reduced10(p: bv16): bv16 { Step(p, p & 0x0400 != 0, 0x046C) }

  function Reduced9(p: bv16): bv16 { Step(p, p & 0x0200 != 0, 0x0236) }

  function Reduced8(p: bv16): bv16 { Step(p, p & 0x0100 != 0, 0x011B) }

  function Product(x: bv8, y: bv8): bv8 { Reduce(PolyProduct(x, y)) }

  // ----- The shortcuts -----

  function XTime(x: bv8): bv8 { (x << 1) ^ (((x >> 7) & 1) * 0x1B) }

  /** Exclusive or, the sum of the field. */
  function Plus(x: bv8, y: bv8): bv8 { x ^ y }

  function Multiply(x: bv8, y: bv8): bv8 {
    Plus(Plus(Plus(Plus(
      (y & 1) * x,
      ((y >> 1) & 1) * XTime(x)),
      ((y >> 2) & 1) * XTime(XTime(x))),
      ((y >> 3) & 1) * XTime(XTime(XTime(x)))),
      ((y >> 4) & 1) * XTime(XTime(XTime(XTime(x)))))
  }

  lemma XTimeIsLinear(x: bv8, y: bv8)
    ensures XTime(Plus(x, y)) == Plus(XTime(x), XTime(y))
  {
  }

  /** xtime is multiplication by x. */
  lemma XTimeIsTimesX(x: bv8)
    ensures XTime(x) == Reduce(x as bv16 << 1)
    ensures XTime(x) == Product(x, 2)
  {
  }

  lemma XTimeTwice(x: bv8)
    ensures XTime(XTime(x)) == Reduce(x as bv16 << 2)
  {
  }

  lemma XTimeThrice(x: bv8)
    ensures XTime(XTime(XTime(x))) == Reduce(x as bv16 << 3)
  {
  }

  lemma XTimeFour(x: bv8)
    ensures XTime(XTime(XTime(XTime(x)))) == Reduce(x as bv16 << 4)
  {
  }

  lemma SumSwaps(p: bv16, q: bv16, r: bv16)
    ensures Sum(Sum(p, q), r) == Sum(Sum(p, r), q)
  {
    assert (p ^ q) ^ r == (p ^ r) ^ q;
  }

  lemma SumCancels(p: bv16, q: bv16, r: bv16)
    ensures Sum(Sum(p, r), Sum(q, r)) == Sum(p, q)
  {
    assert (p ^ r) ^ (q ^ r) == p ^ q;
  }

  lemma SumAssociates(p: bv16, q: bv16, r: bv16)
    ensures Sum(p, Sum(q, r)) == Sum(Sum(p, q), r)
  {
  }

  lemma StepIsLinear(p: bv16, q: bv16, b: bool, c: bool, multiple: bv16)
    ensures Step(Sum(p, q), b != c, multiple) == Sum(Step(p, b, multiple), Step(q, c, multiple))
  {
    hide Sum;
    if b && c {
      SumCancels(p, q, multiple);
    } else if b {
      SumSwaps(p, q, multiple);
    } else if c {
      SumAssociates(p, q, multiple);
    }
  }

  lemma Parity14(p: bv16, q: bv16)
    ensures (Sum(p, q) & 0x4000 != 0) == ((p & 0x4000 != 0) != (q & 0x4000 != 0))
  {
  }

  lemma Parity13(p: bv16, q: bv16)
    ensures (Sum(p, q) & 0x2000 != 0) == ((p & 0x2000 != 0) != (q & 0x2000 != 0))
  {
  }

  lemma Parity12(p: bv16, q: bv16)
    ensures (Sum(p, q) & 0x1000 != 0) == ((p & 0x1000 != 0) != (q & 0x1000 != 0))
  {
  }

  lemma Parity11(p: bv16, q: bv16)
    ensures (Sum(p, q) & 0x0800 != 0) == ((p & 0x0800 != 0) != (q & 0x0800 != 0))
  {
  }

  lemma Parity10(p: bv16, q: bv16)
    ensures (Sum(p, q) & 0x0400 != 0) == ((p & 0x0400 != 0) != (q & 0x0400 != 0))
  {
  }

  lemma Parity9(p: bv16, q: bv16)
    ensures (Sum(p, q) & 0x0200 != 0) == ((p & 0x0200 != 0) != (q & 0x0200 != 0))
  {
  }

  lemma Parity8(p: bv16, q: bv16)
    ensures (Sum(p, q) & 0x0100 != 0) == ((p & 0x0100 != 0) != (q & 0x0100 != 0))
  {
  }

  lemma Linear14(p: bv16, q: bv16)
    ensures Reduced14(Sum(p, q)) == Sum(Reduced14(p), Reduced14(q))
  {
    hide Sum, Step;
    Parity14(p, q);
    StepIsLinear(p, q, p & 0x4000 != 0, q & 0x4000 != 0, 0x46C0);
  }

  lemma Linear13(p: bv16, q: bv16)
    ensures Reduced13(Sum(p, q)) == Sum(Reduced13(p), Reduced13(q))
  {
    hide Sum, Step;
    Parity13(p, q);
    StepIsLinear(p, q, p & 0x2000 != 0, q & 0x2000 != 0, 0x2360);
  }

  lemma Linear12(p: bv16, q: bv16)
    ensures Reduced12(Sum(p, q)) == Sum(Reduced12(p), Reduced12(q))
  {
    hide Sum, Step;
    Parity12(p, q);
    StepIsLinear(p, q, p & 0x1000 != 0, q & 0x1000 != 0, 0x11B0);
  }

  lemma Linear11(p: bv16, q: bv16)
    ensures Reduced11(Sum(p, q)) == Sum(Reduced11(p), Reduced11(q))
  {
    hide Sum, Step;
    Parity11(p, q);
    StepIsLinear(p, q, p & 0x0800 != 0, q & 0x0800 != 0, 0x08D8);
  }

  lemma Linear10(p: bv16, q: bv16)
    ensures Reduced10(Sum(p, q)) == Sum(Reduced10(p), Reduced10(q))
  {
    hide Sum, Step;
    Parity10(p, q);
    StepIsLinear(p, q, p & 0x0400 != 0, q & 0x0400 != 0, 0x046C);
  }

  lemma Linear9(p: bv16, q: bv16)
    ensures Reduced9(Sum(p, q)) == Sum(Reduced9(p), Reduced9(q))
  {
    hide Sum, Step;
    Parity9(p, q);
    StepIsLinear(p, q, p & 0x0200 != 0, q & 0x0200 != 0, 0x0236);
  }

  lemma Linear8(p: bv16, q: bv16)
    ensures Reduced8(Sum(p, q)) == Sum(Reduced8(p), Reduced8(q))
  {
    hide Sum, Step;
    Parity8(p, q);
    StepIsLinear(p, q, p & 0x0100 != 0, q & 0x0100 != 0, 0x011B);
  }

  lemma LowIsLinear(p: bv16, q: bv16)
    ensures Low(Sum(p, q)) == Plus(Low(p), Low(q))
  {
  }

  lemma ReduceIsLinear(p: bv16, q: bv16)
    ensures Reduce(Sum(p, q)) == Plus(Reduce(p), Reduce(q))
  {
    hide Low, Sum, Reduced14, Reduced13, Reduced12, Reduced11, Reduced10, Reduced9, Reduced8, Plus;
    Linear14(p, q);
    var p14, q14 := Reduced14(p), Reduced14(q);
    Linear13(p14, q14);
    var p13, q13 := Reduced13(p14), Reduced13(q14);
    Linear12(p13, q13);
    var p12, q12 := Reduced12(p13), Reduced12(q13);
    Linear11(p12, q12);
    var p11, q11 := Reduced11(p12), Reduced11(q12);
    Linear10(p11, q11);
    var p10, q10 := Reduced10(p11), Reduced10(q11);
    Linear9(p10, q10);
    var p9, q9 := Reduced9(p10), Reduced9(q10);
    Linear8(p9, q9);
    var p8, q8 := Reduced8(p9), Reduced8(q9);
    LowIsLinear(p8, q8);
  }

  lemma BitProduct(b: bv8, x: bv8)
    requires b <= 1
    ensures b * x == if b == 0 then 0 else x
  {
  }

  /** The part of a product that one bit of the multiplier contributes. */
  function Part(bit: bool, x: bv8): bv8 { if bit then x else 0 }

  /** Multiply adds up what the low five bits contribute. */
  lemma MultiplyParts(x: bv8, y: bv8)
    ensures Multiply(x, y)
         == Plus(Plus(Plus(Plus(Part(y & 1 != 0, x), Part(y & 2 != 0, XTime(x))), Part(y & 4 != 0, XTime(XTime(x)))),
                 Part(y & 8 != 0, XTime(XTime(XTime(x))))), Part(y & 16 != 0, XTime(XTime(XTime(XTime(x))))))
  {
    hide XTime, Plus;
    BitProduct(y & 1, x);
    BitProduct((y >> 1) & 1, XTime(x));
    BitProduct((y >> 2) & 1, XTime(XTime(x)));
    BitProduct((y >> 3) & 1, XTime(XTime(XTime(x))));
    BitProduct((y >> 4) & 1, XTime(XTime(XTime(XTime(x)))));
  }

  lemma ReduceTimes(p: bv16, bit: bool)
    ensures Reduce(Times(p, bit)) == Part(bit, Reduce(p))
  {
    assert Reduce(0) == 0;
  }

  /** So it is the product of the field, for the multipliers it is used with. */
  lemma MultiplyIsProduct(x: bv8, y: bv8)
    requires y < 32
    ensures Multiply(x, y) == Product(x, y)
  {
    hide XTime, Reduce, Multiply, Part, Sum, Plus, PolyProduct, Term0, Term1, Term2, Term3, Term4;
    ShortPolyProduct(x, y);
    FiveAreLinear(Term0(x, y), Term1(x, y), Term2(x, y), Term3(x, y), Term4(x, y));
    Part0(x, y);
    Part1(x, y);
    Part2(x, y);
    Part3(x, y);
    Part4(x, y);
    MultiplyParts(x, y);
  }

  lemma FiveAreLinear(t0: bv16, t1: bv16, t2: bv16, t3: bv16, t4: bv16)
    ensures Reduce(Sum(Sum(Sum(Sum(t0, t1), t2), t3), t4))
        == Plus(Plus(Plus(Plus(Reduce(t0), Reduce(t1)), Reduce(t2)), Reduce(t3)), Reduce(t4))
  {
    hide Reduce, Sum, Plus;
    ReduceIsLinear(Sum(Sum(Sum(t0, t1), t2), t3), t4);
    ReduceIsLinear(Sum(Sum(t0, t1), t2), t3);
    ReduceIsLinear(Sum(t0, t1), t2);
    ReduceIsLinear(t0, t1);
  }

  lemma Part0(x: bv8, y: bv8)
    ensures Reduce(Term0(x, y)) == Part(y & 1 != 0, x)
  {
    hide XTime, Reduce, Times, Part;
    ReduceTimes(x as bv16, y & 1 != 0);
    ReduceByte(x);
  }

  lemma Part1(x: bv8, y: bv8)
    ensures Reduce(Term1(x, y)) == Part(y & 2 != 0, XTime(x))
  {
    hide XTime, Reduce, Times, Part;
    ReduceTimes(x as bv16 << 1, y & 2 != 0);
    XTimeIsTimesX(x);
  }

  lemma Part2(x: bv8, y: bv8)
    ensures Reduce(Term2(x, y)) == Part(y & 4 != 0, XTime(XTime(x)))
  {
    hide XTime, Reduce, Times, Part;
    ReduceTimes(x as bv16 << 2, y & 4 != 0);
    XTimeTwice(x);
  }

  lemma Part3(x: bv8, y: bv8)
    ensures Reduce(Term3(x, y)) == Part(y & 8 != 0, XTime(XTime(XTime(x))))
  {
    hide XTime, Reduce, Times, Part;
    ReduceTimes(x as bv16 << 3, y & 8 != 0);
    XTimeThrice(x);
  }

  lemma Part4(x: bv8, y: bv8)
    ensures Reduce(Term4(x, y)) == Part(y & 16 != 0, XTime(XTime(XTime(XTime(x)))))
  {
    hide XTime, Reduce, Times, Part;
    ReduceTimes(x as bv16 << 4, y & 16 != 0);
    XTimeFour(x);
  }

  lemma ReduceByte(x: bv8)
    ensures Reduce(x as bv16) == x
  {
  }

  lemma ShortPolyProduct(x: bv8, y: bv8)
    requires y < 32
    ensures PolyProduct(x, y) == Sum(Sum(Sum(Sum(Term0(x, y), Term1(x, y)), Term2(x, y)), Term3(x, y)), Term4(x, y))
  {
    hide Sum, Term0, Term1, Term2, Term3, Term4;
    assert Term5(x, y) == 0 && Term6(x, y) == 0 && Term7(x, y) == 0 by {
      assert y & 32 == 0 && y & 64 == 0 && y & 128 == 0;
    }
    var p := Sum(Sum(Sum(Sum(Term0(x, y), Term1(x, y)), Term2(x, y)), Term3(x, y)), Term4(x, y));
    SumZero(p);
  }

  lemma SumZero(p: bv16)
    ensures Sum(p, 0) == p
  {
  }

  // ----- Products distribute -----

  lemma SumInterchanges(p: bv16, q: bv16, r: bv16, s: bv16)
    ensures Sum(Sum(p, q), Sum(r, s)) == Sum(Sum(p, r), Sum(q, s))
  {
    hide Sum;
    SumAssociates(Sum(p, q), r, s);
    SumSwaps(p, q, r);
    SumAssociates(Sum(p, r), q, s);
  }

  lemma Term0IsLinear(x: bv8, y: bv8, c: bv8)
    ensures Term0(Plus(x, y), c) == Sum(Term0(x, c), Term0(y, c))
  {
  }

  lemma Term1IsLinear(x: bv8, y: bv8, c: bv8)
    ensures Term1(Plus(x, y), c) == Sum(Term1(x, c), Term1(y, c))
  {
  }

  lemma Term2IsLinear(x: bv8, y: bv8, c: bv8)
    ensures Term2(Plus(x, y), c) == Sum(Term2(x, c), Term2(y, c))
  {
  }

  lemma Term3IsLinear(x: bv8, y: bv8, c: bv8)
    ensures Term3(Plus(x, y), c) == Sum(Term3(x, c), Term3(y, c))
  {
  }

  lemma Term4IsLinear(x: bv8, y: bv8, c: bv8)
    ensures Term4(Plus(x, y), c) == Sum(Term4(x, c), Term4(y, c))
  {
  }

  lemma Term5IsLinear(x: bv8, y: bv8, c: bv8)
    ensures Term5(Plus(x, y), c) == Sum(Term5(x, c), Term5(y, c))
  {
  }

  lemma Term6IsLinear(x: bv8, y: bv8, c: bv8)
    ensures Term6(Plus(x, y), c) == Sum(Term6(x, c), Term6(y, c))
  {
  }

  lemma Term7IsLinear(x: bv8, y: bv8, c: bv8)
    ensures Term7(Plus(x, y), c) == Sum(Term7(x, c), Term7(y, c))
  {
  }

  lemma PolyProductIsLinear(x: bv8, y: bv8, c: bv8)
    ensures PolyProduct(Plus(x, y), c) == Sum(PolyProduct(x, c), PolyProduct(y, c))
  {
    hide Plus, Sum, Term0, Term1, Term2, Term3, Term4, Term5, Term6, Term7;
    Term0IsLinear(x, y, c);
    var p0, q0 := Term0(x, c), Term0(y, c);
    Term1IsLinear(x, y, c);
    SumInterchanges(p0, q0, Term1(x, c), Term1(y, c));
    var p1, q1 := Sum(p0, Term1(x, c)), Sum(q0, Term1(y, c));
    Term2IsLinear(x, y, c);
    SumInterchanges(p1, q1, Term2(x, c), Term2(y, c));
    var p2, q2 := Sum(p1, Term2(x, c)), Sum(q1, Term2(y, c));
    Term3IsLinear(x, y, c);
    SumInterchanges(p2, q2, Term3(x, c), Term3(y, c));
    var p3, q3 := Sum(p2, Term3(x, c)), Sum(q2, Term3(y, c));
    Term4IsLinear(x, y, c);
    SumInterchanges(p3, q3, Term4(x, c), Term4(y, c));
    var p4, q4 := Sum(p3, Term4(x, c)), Sum(q3, Term4(y, c));
    Term5IsLinear(x, y, c);
    SumInterchanges(p4, q4, Term5(x, c), Term5(y, c));
    var p5, q5 := Sum(p4, Term5(x, c)), Sum(q4, Term5(y, c));
    Term6IsLinear(x, y, c);
    SumInterchanges(p5, q5, Term6(x, c), Term6(y, c));
    var p6, q6 := Sum(p5, Term6(x, c)), Sum(q5, Term6(y, c));
    Term7IsLinear(x, y, c);
    SumInterchanges(p6, q6, Term7(x, c), Term7(y, c));
    var p7, q7 := Sum(p6, Term7(x, c)), Sum(q6, Term7(y, c));
  }

  /** Products distribute over sums. */
  lemma ProductIsLinear(x: bv8, y: bv8, c: bv8)
    ensures Product(Plus(x, y), c) == Plus(Product(x, c), Product(y, c))
  {
    hide PolyProduct, Reduce, Plus, Sum;
    PolyProductIsLinear(x, y, c);
    ReduceIsLinear(PolyProduct(x, c), PolyProduct(y, c));
  }
}
