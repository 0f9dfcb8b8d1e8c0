/** What the S-box is: the inverse in the field, and then an affine map. */
module AesSBox {
  import opened AesTables
  import opened Gf256

  // ----- The product, from the leading coefficient down -----

  /** A polynomial times x. */
  function Doubled(x: bv8): bv8 { if x & 0x80 != 0 then (x << 1) ^ 0x1B else x << 1 }

  function Horner(r: bv8, x: bv8, bit: bool): bv8 { Plus(Doubled(r), Part(bit, x)) }

  /** What the upper four coefficients come to, and all eight. */
  function Upper(x: bv8, y: bv8): bv8 {
    Horner(Horner(Horner(Part(y & 128 != 0, x), x, y & 64 != 0), x, y & 32 != 0), x, y & 16 != 0)
  }

  function ByHorner(x: bv8, y: bv8): bv8 {
    Horner(Horner(Horner(Horner(Upper(x, y), x, y & 8 != 0), x, y & 4 != 0), x, y & 2 != 0), x, y & 1 != 0)
  }

  lemma DoubledIsXTime(x: bv8)
    ensures Doubled(x) == XTime(x)
  {
  }

  function Power(x: bv8, k: nat): bv8 { if k == 0 then x else Doubled(Power(x, k - 1)) }

  /** `x` times a power of x, reduced, is `x` doubled as often. */
  lemma PowerIsReduced(x: bv8)
    ensures Reduce(x as bv16) == Power(x, 0) && Reduce(x as bv16 << 1) == Power(x, 1)
    ensures Reduce(x as bv16 << 2) == Power(x, 2) && Reduce(x as bv16 << 3) == Power(x, 3)
    ensures Reduce(x as bv16 << 4) == Power(x, 4)
  {
    hide Reduce, XTime, Doubled;
    ReduceByte(x);
    XTimeIsTimesX(x);
    XTimeTwice(x);
    XTimeThrice(x);
    XTimeFour(x);
    DoubledIsXTime(x);
    DoubledIsXTime(XTime(x));
    DoubledIsXTime(XTime(XTime(x)));
    DoubledIsXTime(XTime(XTime(XTime(x))));
  }

  lemma Power5(x: bv8)
    ensures Reduce(x as bv16 << 5) == Doubled(Doubled(Doubled(Doubled(Doubled(x)))))
  {
  }

  lemma Power6(x: bv8)
    ensures Reduce(x as bv16 << 6) == Doubled(Doubled(Doubled(Doubled(Doubled(Doubled(x))))))
  {
  }

  lemma Power7(x: bv8)
    ensures Reduce(x as bv16 << 7) == Doubled(Doubled(Doubled(Doubled(Doubled(Doubled(Doubled(x)))))))
  {
  }

  lemma HighPowers(x: bv8)
    ensures Power(x, 5) == Reduce(x as bv16 << 5) && Power(x, 6) == Reduce(x as bv16 << 6)
    ensures Power(x, 7) == Reduce(x as bv16 << 7)
  {
    hide Reduce, Doubled;
    Power5(x);
    Power6(x);
    Power7(x);
    assert Power(x, 1) == Doubled(Power(x, 0)) && Power(x, 2) == Doubled(Power(x, 1));
    assert Power(x, 3) == Doubled(Power(x, 2)) && Power(x, 4) == Doubled(Power(x, 3));
    assert Power(x, 5) == Doubled(Power(x, 4)) && Power(x, 6) == Doubled(Power(x, 5));
  }

  // ----- The two products are one -----

  function Coefficient(y: bv8, k: nat): bool
    requires k < 8
  {
    y & [1, 2, 4, 8, 16, 32, 64, 128][k] != 0
  }

  /** What coefficient `k` of `y` contributes. */
  function Share(x: bv8, y: bv8, k: nat): bv8
    requires k < 8
  {
    Part(Coefficient(y, k), Power(x, k))
  }

  lemma LowShares(x: bv8, y: bv8)
    ensures Reduce(Term0(x, y)) == Share(x, y, 0) && Reduce(Term1(x, y)) == Share(x, y, 1)
    ensures Reduce(Term2(x, y)) == Share(x, y, 2) && Reduce(Term3(x, y)) == Share(x, y, 3)
  {
    hide Reduce, Power, Times, Part;
    PowerIsReduced(x);
    ReduceTimes(x as bv16, y & 1 != 0);
    ReduceTimes(x as bv16 << 1, y & 2 != 0);
    ReduceTimes(x as bv16 << 2, y & 4 != 0);
    ReduceTimes(x as bv16 << 3, y & 8 != 0);
  }

  lemma HighShares(x: bv8, y: bv8)
    ensures Reduce(Term4(x, y)) == Share(x, y, 4) && Reduce(Term5(x, y)) == Share(x, y, 5)
    ensures Reduce(Term6(x, y)) == Share(x, y, 6) && Reduce(Term7(x, y)) == Share(x, y, 7)
  {
    hide Reduce, Power, Times, Part;
    PowerIsReduced(x);
    HighPowers(x);
    ReduceTimes(x as bv16 << 4, y & 16 != 0);
    ReduceTimes(x as bv16 << 5, y & 32 != 0);
    ReduceTimes(x as bv16 << 6, y & 64 != 0);
    ReduceTimes(x as bv16 << 7, y & 128 != 0);
  }

  /** The shares up to `k`. */
  function Shares(x: bv8, y: bv8, k: nat): bv8
    requires k < 8
  {
    if k == 0 then Share(x, y, 0) else Plus(Shares(x, y, k - 1), Share(x, y, k))
  }

  lemma ProductIsShares(x: bv8, y: bv8)
    ensures Product(x, y) == Shares(x, y, 7)
  {
    hide Reduce, Sum, Plus, Share, Term0, Term1, Term2, Term3, Term4, Term5, Term6, Term7;
    LowShares(x, y);
    HighShares(x, y);
    var s1 := Sum(Term0(x, y), Term1(x, y));
    var s2 := Sum(s1, Term2(x, y));
    var s3 := Sum(s2, Term3(x, y));
    var s4 := Sum(s3, Term4(x, y));
    var s5 := Sum(s4, Term5(x, y));
    var s6 := Sum(s5, Term6(x, y));
    ReduceIsLinear(Term0(x, y), Term1(x, y));
    ReduceIsLinear(s1, Term2(x, y));
    ReduceIsLinear(s2, Term3(x, y));
    ReduceIsLinear(s3, Term4(x, y));
    ReduceIsLinear(s4, Term5(x, y));
    ReduceIsLinear(s5, Term6(x, y));
    ReduceIsLinear(s6, Term7(x, y));
    assert Shares(x, y, 1) == Plus(Shares(x, y, 0), Share(x, y, 1));
    assert Shares(x, y, 2) == Plus(Shares(x, y, 1), Share(x, y, 2));
    assert Shares(x, y, 3) == Plus(Shares(x, y, 2), Share(x, y, 3));
    assert Shares(x, y, 4) == Plus(Shares(x, y, 3), Share(x, y, 4));
    assert Shares(x, y, 5) == Plus(Shares(x, y, 4), Share(x, y, 5));
    assert Shares(x, y, 6) == Plus(Shares(x, y, 5), Share(x, y, 6));
  }

  lemma DoubledIsLinear(x: bv8, y: bv8)
    ensures Doubled(Plus(x, y)) == Plus(Doubled(x), Doubled(y))
  {
    hide XTime, Plus, Doubled;
    DoubledIsXTime(x);
    DoubledIsXTime(y);
    DoubledIsXTime(Plus(x, y));
    XTimeIsLinear(x, y);
  }

  lemma {:induction false} PowerIsLinear(x: bv8, y: bv8, k: nat)
    ensures Power(Plus(x, y), k) == Plus(Power(x, k), Power(y, k))
  {
    hide Plus, Doubled;
    if k > 0 {
      PowerIsLinear(x, y, k - 1);
      DoubledIsLinear(Power(x, k - 1), Power(y, k - 1));
    }
  }

  lemma {:induction false} PowerOfPart(bit: bool, x: bv8, k: nat)
    ensures Power(Part(bit, x), k) == Part(bit, Power(x, k))
  {
    if k > 0 {
      PowerOfPart(bit, x, k - 1);
      assert Doubled(0) == 0;
    }
  }

  lemma {:induction false} PowerOfDoubled(x: bv8, k: nat)
    ensures Power(Doubled(x), k) == Power(x, k + 1)
  {
    hide Doubled;
    if k > 0 {
      PowerOfDoubled(x, k - 1);
    }
  }

  /** What the coefficients from `k` on come to. */
  function Head(x: bv8, y: bv8, k: nat): bv8
    requires k < 8
    decreases 8 - k
  {
    if k == 7 then Part(Coefficient(y, 7), x) else Horner(Head(x, y, k + 1), x, Coefficient(y, k))
  }

  lemma PlusRotates(p: bv8, q: bv8, r: bv8)
    ensures Plus(p, Plus(q, r)) == Plus(Plus(p, r), q)
  {
    assert p ^ (q ^ r) == (p ^ r) ^ q;
  }

  lemma {:induction false} HeadIsShares(x: bv8, y: bv8, k: nat)
    requires 0 < k < 8
    ensures Plus(Shares(x, y, k - 1), Power(Head(x, y, k), k)) == Shares(x, y, 7)
    decreases 8 - k
  {
    hide Plus, Doubled, Part, Coefficient;
    if k == 7 {
      PowerOfPart(Coefficient(y, 7), x, 7);
    } else {
      HeadIsShares(x, y, k + 1);
      SplitHead(x, y, k);
      PlusRotates(Shares(x, y, k - 1), Power(Head(x, y, k + 1), k + 1), Share(x, y, k));
    }
  }

  lemma SplitHead(x: bv8, y: bv8, k: nat)
    requires k < 7
    ensures Power(Head(x, y, k), k) == Plus(Power(Head(x, y, k + 1), k + 1), Share(x, y, k))
  {
    hide Plus, Doubled, Part, Coefficient, Power;
    var h := Head(x, y, k + 1);
    PowerIsLinear(Doubled(h), Part(Coefficient(y, k), x), k);
    PowerOfDoubled(h, k);
    PowerOfPart(Coefficient(y, k), x, k);
  }

  lemma CoefficientsAre(y: bv8)
    ensures Coefficient(y, 0) == (y & 1 != 0) && Coefficient(y, 1) == (y & 2 != 0)
    ensures Coefficient(y, 2) == (y & 4 != 0) && Coefficient(y, 3) == (y & 8 != 0)
    ensures Coefficient(y, 4) == (y & 16 != 0) && Coefficient(y, 5) == (y & 32 != 0)
    ensures Coefficient(y, 6) == (y & 64 != 0) && Coefficient(y, 7) == (y & 128 != 0)
  {
  }

  lemma HornerIsHead(x: bv8, y: bv8)
    ensures ByHorner(x, y) == Head(x, y, 0)
  {
    hide Horner, Part, Coefficient;
    CoefficientsAre(y);
    assert Head(x, y, 4) == Upper(x, y) by {
      assert Head(x, y, 6) == Horner(Head(x, y, 7), x, y & 64 != 0);
      assert Head(x, y, 5) == Horner(Head(x, y, 6), x, y & 32 != 0);
    }
    assert Head(x, y, 2) == Horner(Head(x, y, 3), x, y & 4 != 0);
    assert Head(x, y, 1) == Horner(Head(x, y, 2), x, y & 2 != 0);
  }

  /** The product of the field, by Horner's rule. */
  lemma ProductIsByHorner(x: bv8, y: bv8)
    ensures Product(x, y) == ByHorner(x, y)
  {
    hide *;
    ProductIsShares(x, y);
    HornerIsHead(x, y);
    HeadIsShares(x, y, 1);
    FirstShare(x, y);
  }

  lemma FirstShare(x: bv8, y: bv8)
    ensures Head(x, y, 0) == Plus(Shares(x, y, 0), Power(Head(x, y, 1), 1))
  {
    hide Doubled, Part, Coefficient;
    assert Power(Head(x, y, 1), 1) == Doubled(Power(Head(x, y, 1), 0));
    PlusSwaps(Doubled(Head(x, y, 1)), Part(Coefficient(y, 0), x));
    hide Plus;
  }

  lemma PlusSwaps(p: bv8, q: bv8)
    ensures Plus(p, q) == Plus(q, p)
  {
  }

  // ----- The inverse -----

  function Turn1(y: bv8): bv8 { (y << 1) | (y >> 7) }
  function Turn2(y: bv8): bv8 { (y << 2) | (y >> 6) }
  function Turn3(y: bv8): bv8 { (y << 3) | (y >> 5) }
  function Turn4(y: bv8): bv8 { (y << 4) | (y >> 4) }
  function Turn6(y: bv8): bv8 { (y << 6) | (y >> 2) }

  /** The affine map of section 5.1.1 of FIPS 197, as a sum of rotations, */
  function Affine(y: bv8): bv8 { Plus(Plus(Plus(Plus(Plus(y, Turn1(y)), Turn2(y)), Turn3(y)), Turn4(y)), 0x63) }

  /** and the map that undoes it. */
  function Straight(s: bv8): bv8 { Plus(Plus(Plus(Turn1(s), Turn3(s)), Turn6(s)), 0x05) }

  lemma AffineUndone(y: bv8)
    ensures Affine(Straight(y)) == y
  {
  }

  /** What the S-box maps, before the affine map. */
  function Inverse(x: bv8): bv8 { Straight(SBox(x)) }

  lemma Inverse0(x: bv8)
    requires x >> 5 == 0 && x != 0
    ensures ByHorner(Inverse(x), x) == 1
  {
  }

  lemma Inverse1(x: bv8)
    requires x >> 5 == 1 && x != 0
    ensures ByHorner(Inverse(x), x) == 1
  {
  }

  lemma Inverse2(x: bv8)
    requires x >> 5 == 2 && x != 0
    ensures ByHorner(Inverse(x), x) == 1
  {
  }

  lemma Inverse3(x: bv8)
    requires x >> 5 == 3 && x != 0
    ensures ByHorner(Inverse(x), x) == 1
  {
  }

  lemma Inverse4(x: bv8)
    requires x >> 5 == 4 && x != 0
    ensures ByHorner(Inverse(x), x) == 1
  {
  }

  lemma Inverse5(x: bv8)
    requires x >> 5 == 5 && x != 0
    ensures ByHorner(Inverse(x), x) == 1
  {
  }

  lemma Inverse6(x: bv8)
    requires x >> 5 == 6 && x != 0
    ensures ByHorner(Inverse(x), x) == 1
  {
  }

  lemma Inverse7(x: bv8)
    requires x >> 5 == 7 && x != 0
    ensures ByHorner(Inverse(x), x) == 1
  {
  }

  lemma InverseIs(x: bv8)
    requires x != 0
    ensures ByHorner(Inverse(x), x) == 1
  {
    hide Inverse, ByHorner;
    match x >> 5
    case 0 => Inverse0(x);
    case 1 => Inverse1(x);
    case 2 => Inverse2(x);
    case 3 => Inverse3(x);
    case 4 => Inverse4(x);
    case 5 => Inverse5(x);
    case 6 => Inverse6(x);
    case _ => Inverse7(x);
  }

  lemma Divisor0(y: bv8, x: bv8)
    requires x >> 5 == 0 && x != 0 && ByHorner(y, x) == 0
    ensures y == 0
  {
  }

  lemma Divisor1(y: bv8, x: bv8)
    requires x >> 5 == 1 && x != 0 && ByHorner(y, x) == 0
    ensures y == 0
  {
  }

  lemma Divisor2(y: bv8, x: bv8)
    requires x >> 5 == 2 && x != 0 && ByHorner(y, x) == 0
    ensures y == 0
  {
  }

  lemma Divisor3(y: bv8, x: bv8)
    requires x >> 5 == 3 && x != 0 && ByHorner(y, x) == 0
    ensures y == 0
  {
  }

  lemma Divisor4(y: bv8, x: bv8)
    requires x >> 5 == 4 && x != 0 && ByHorner(y, x) == 0
    ensures y == 0
  {
  }

  lemma Divisor5(y: bv8, x: bv8)
    requires x >> 5 == 5 && x != 0 && ByHorner(y, x) == 0
    ensures y == 0
  {
  }

  lemma Divisor6(y: bv8, x: bv8)
    requires x >> 5 == 6 && x != 0 && ByHorner(y, x) == 0
    ensures y == 0
  {
  }

  lemma Divisor7(y: bv8, x: bv8)
    requires x >> 5 == 7 && x != 0 && ByHorner(y, x) == 0
    ensures y == 0
  {
  }

  /** There are no divisors of zero. */
  lemma NoDivisors(y: bv8, x: bv8)
    requires x != 0 && ByHorner(y, x) == 0
    ensures y == 0
  {
    hide ByHorner;
    match x >> 5
    case 0 => Divisor0(y, x);
    case 1 => Divisor1(y, x);
    case 2 => Divisor2(y, x);
    case 3 => Divisor3(y, x);
    case 4 => Divisor4(y, x);
    case 5 => Divisor5(y, x);
    case 6 => Divisor6(y, x);
    case _ => Divisor7(y, x);
  }

  /** The S-box is the affine map of the inverse: for every byte other than 0 there is exactly one whose product with it
      is 1, and that is what is mapped; 0 is mapped as it is. */
  lemma SBoxIsAffineInverse(x: bv8, y: bv8)
    ensures x != 0 ==> Product(Inverse(x), x) == 1
    ensures Product(y, x) == 1 ==> SBox(x) == Affine(y)
    ensures SBox(0) == Affine(0) == 0x63
  {
    hide SBox, Affine, ByHorner, Product, Plus, Straight;
    ZeroIsMapped();
    HornerOfZero(y);
    ProductIsByHorner(y, x);
    ProductIsByHorner(Inverse(x), x);
    if x != 0 {
      InverseIs(x);
      if Product(y, x) == 1 {
        OnlyInverse(y, x);
        AffineUndone(SBox(x));
      }
    }
  }

  lemma ZeroIsMapped()
    ensures SBox(0) == Affine(0) == 0x63
  {
  }

  lemma HornerOfZero(y: bv8)
    ensures ByHorner(y, 0) == 0
  {
    assert Part(false, y) == 0 && Doubled(0) == 0;
    hide Part, Doubled;
    assert Horner(0, y, false) == 0;
  }

  lemma OnlyInverse(y: bv8, x: bv8)
    requires x != 0 && Product(y, x) == 1 && Product(Inverse(x), x) == 1
    ensures y == Inverse(x)
  {
    hide Product, Inverse, ByHorner;
    ProductIsLinear(y, Inverse(x), x);
    ProductIsByHorner(Plus(y, Inverse(x)), x);
    NoDivisors(Plus(y, Inverse(x)), x);
  }

  /** The round constants are the powers of x. */
  lemma RconIsPower(i: nat)
    requires 1 <= i <= 10
    ensures Rcon(1) == 1 && (i < 10 ==> Rcon(i + 1) == XTime(Rcon(i)))
  {
  }
}
