/** The rule that chooses between two densities: its order, and what its 32-bit products are good for. */
module DensityOrder {
  import opened Config

  /** A density of 16 bits; 0 is none, and 0xffff the one the struct reserves. */
  predicate Density(d: nat) { 0 < d <= 0xFFFF }

  lemma ProductGrows(x: int, y: int, z: int)
    requires x <= y && 0 <= z
    ensures x * z <= y * z && z * x <= z * y
  {
  }

  /** The density below the one requested that a greater one, scaled down, is as good as. */
  function Worth(d: nat, r: nat): real
    requires d > 0 && r > 0
  {
    if d <= r then d as real else (r as real + (r * r) as real / d as real) / 2.0
  }

  /** Of two as good the greater one wins. */
  predicate WorthWins(m: nat, o: nat, r: nat)
    requires m > 0 && o > 0 && r > 0
  {
    Worth(m, r) > Worth(o, r) || (Worth(m, r) == Worth(o, r) && m > o)
  }

  /** How often a product is taken round the 32 bits. */
  function Carry(x: int): int { (x + 0x8000_0000) / 0x1_0000_0000 }

  /** Whether the wrapped products of the rule compare as the products do: they are taken round as often as each other,
      or the second oftener and far enough. The rule computes them only if one density is on either side of the
      request. */
  predicate Sound(m: nat, o: nat, r: nat) {
    var h, l := if m > o then m else o, if m > o then o else m;
    l < r < h ==> ComparesRight((2 * l - r) * h, r * r)
  }

  predicate ComparesRight(p: int, q: int) {
    Carry(p) == Carry(q) || (Carry(p) < Carry(q) && p + (Carry(q) - Carry(p)) * 0x1_0000_0000 <= q)
  }

  lemma WrappedCompares(p: int, q: int)
    requires -0x1_0000_0000 < p < 0x1_0000_0000 && 0 < q < 0x1_0000_0000
    ensures (p - Carry(p) * 0x1_0000_0000 > q - Carry(q) * 0x1_0000_0000 <==> p > q) <==> ComparesRight(p, q)
  {
  }

  lemma ProductsOfDensities(l: nat, h: nat, r: nat)
    requires 0 < l < r < h <= 0xFFFF
    ensures -0x1_0000_0000 < (2 * l - r) * h < 0x1_0000_0000 && 0 < r * r < 0x1_0000_0000
  {
    ProductWithin(2 * l - r, h, 0xFFFF, 0xFFFF);
    ProductWithin(r, r, 0xFFFF, 0xFFFF);
    ProductGrows(1, r, r);
  }

  lemma ProductWithin(x: int, y: int, m: int, n: int)
    requires 0 <= m && -m <= x <= m && 0 <= y <= n
    ensures -(m * n) <= x * y <= m * n
  {
    ProductGrows(x, m, y);
    ProductGrows(-m, x, y);
    ProductGrows(y, n, m);
  }

  /** For any two densities and request, DENSITY_NONE included: the rule is the comparison of what the densities are
      worth exactly when its two products compare right after they wrap. */
  lemma RuleIsByWorthIff(m: nat, o: nat, r: nat)
    requires Density(m) && Density(o) && Density(r) && m != o
    ensures (DensityWins(m, o, r) <==> WorthWins(m, o, r)) <==> Sound(m, o, r)
  {
    hide Carry, ComparesRight;
    var h, l := if m > o then m else o, if m > o then o else m;
    if r >= h {
    } else if l >= r {
      WorthFalls(l, h, r);
    } else {
      var p, q := (2 * l - r) * h, r * r;
      ProductsOfDensities(l, h, r);
      WrappedTimes(2 * l - r, h);
      WrappedTimes(r, r);
      WrappedCompares(p, q);
      hide Times32;
      WorthAcross(l, h, r);
    }
  }

  lemma WrappedTimes(x: int, y: int)
    ensures Times32(x, y) == x * y - Carry(x * y) * 0x1_0000_0000
  {
  }

  lemma RuleIsByWorth(m: nat, o: nat, r: nat)
    requires Density(m) && Density(o) && Density(r) && m != o && Sound(m, o, r)
    ensures DensityWins(m, o, r) <==> WorthWins(m, o, r)
  {
    RuleIsByWorthIff(m, o, r);
  }

  /** Above what is requested, more is worth less. */
  lemma WorthFalls(l: nat, h: nat, r: nat)
    requires 0 < r <= l < h
    ensures Worth(h, r) < Worth(l, r)
  {
    var s := (r * r) as real;
    assert s > 0.0 by { ProductGrows(1, r, r); }
    QuotientFalls(s, l as real, h as real);
    if l == r {
      QuotientIs(s, r as real, r as real);
    }
  }

  lemma QuotientIs(s: real, x: real, y: real)
    requires y != 0.0 && s == x * y
    ensures s / y == x
  {
  }

  lemma QuotientFalls(s: real, x: real, y: real)
    requires 0.0 < s && 0.0 < x < y
    ensures s / y < s / x
  {
    var p, q := s / y, s / x;
    assert p * y == s && q * x == s && q > 0.0;
    assert q * x < q * y;
    FactorIsLess(p, q, y);
  }

  lemma FactorIsLess(p: real, q: real, y: real)
    requires y > 0.0
    ensures p * y < q * y ==> p < q
  {
  }

  /** Across what is requested, the rule's product is the comparison of what they are worth. */
  lemma WorthAcross(l: nat, h: nat, r: nat)
    requires 0 < l < r < h
    ensures (2 * l - r) * h > r * r <==> Worth(l, r) > Worth(h, r)
    ensures Worth(h, r) < r as real
  {
    var q := (r * r) as real / h as real;
    var d := (2 * l - r) as real;
    assert q * h as real == (r * r) as real;
    assert d * h as real == ((2 * l - r) * h) as real;
    if d > q {
      assert d * h as real > q * h as real;
    } else {
      assert d * h as real <= q * h as real;
    }
    assert q < r as real by {
      ProductGrows(r, h, r);
      WorthFalls(r, h, r);
    }
  }

  // ----- For which requests the rule is an order -----

  /** The rule is asymmetric whatever wraps, and where no pair is taken round it is transitive. */
  lemma RuleIsATotalOrder(x: nat, y: nat, z: nat, r: nat)
    requires Density(x) && Density(y) && Density(z) && Density(r)
    requires x != y && y != z && x != z
    ensures DensityWins(x, y, r) <==> !DensityWins(y, x, r)
    ensures Sound(x, y, r) && Sound(y, z, r) && Sound(x, z, r) && DensityWins(x, y, r) && DensityWins(y, z, r)
      ==> DensityWins(x, z, r)
  {
    if Sound(x, y, r) && Sound(y, z, r) && Sound(x, z, r) {
      RuleIsByWorth(x, y, r);
      RuleIsByWorth(y, z, r);
      RuleIsByWorth(x, z, r);
      hide DensityWins, Worth;
    }
  }

  /** The requests for which no product of the rule overflows, whatever the densities; for 0xffff none is computed. */
  predicate SafeRequest(r: nat) { r <= 32770 || r == 0xFFFF }

  lemma SafeIsSound(m: nat, o: nat, r: nat)
    requires Density(m) && Density(o) && Density(r) && SafeRequest(r)
    ensures Sound(m, o, r)
  {
    var h, l := if m > o then m else o, if m > o then o else m;
    if l < r < h {
      ProductWithin(2 * l - r, h, 32768, 0xFFFF);
      ProductWithin(r, r, 32770, 32770);
    }
  }

  /** Neither does one overflow among densities and requests that are all up to 46340. */
  lemma SmallIsSound(m: nat, o: nat, r: nat)
    requires Density(m) && Density(o) && Density(r) && m <= 46340 && o <= 46340 && r <= 46340
    ensures Sound(m, o, r)
  {
    var h, l := if m > o then m else o, if m > o then o else m;
    if l < r < h {
      ProductWithin(2 * l - r, h, 46340, 46340);
      ProductWithin(r, r, 46340, 46340);
    }
  }

  /** Three densities that beat one another in a ring. */
  predicate Ring(x: nat, y: nat, z: nat, r: nat) {
    && Density(x) && Density(y) && Density(z) && x != y && y != z && x != z
    && DensityWins(x, y, r) && DensityWins(y, z, r) && DensityWins(z, x, r)
  }

  lemma AcrossWins(l: nat, h: nat, r: nat, d: int, p: int, q: int)
    requires 0 < l < r < h && d == 2 * l - r && p == d * h && q == r * r
    ensures DensityWins(l, h, r) <==> p - Carry(p) * 0x1_0000_0000 > q - Carry(q) * 0x1_0000_0000
    ensures DensityWins(h, l, r) <==> !(p - Carry(p) * 0x1_0000_0000 > q - Carry(q) * 0x1_0000_0000)
  {
    WrappedTimes(d, h);
    WrappedTimes(r, r);
    hide Times32, Carry;
  }

  lemma BelowGreaterWins(x: nat, y: nat, r: nat)
    requires y < x <= r
    ensures DensityWins(x, y, r)
  {
  }

  /** The product for the greatest density is taken round and the square of the request is not. */
  lemma RingBelow46341(r: nat, y: nat, a: nat)
    requires 32770 < r <= a + 13572 && 32767 <= a <= 32768 && 2 * y == r + a
    ensures Ring(r - 1, y, 0xFFFF, r)
  {
    var q := r * r;
    assert 0 < q < a * 0xFFFF by { ProductWithin(r, r, 13572 + a, 13572 + a); }
    BelowGreaterWins(r - 1, y, r);
    hide DensityWins, Times32;
    assert Carry(q) == Carry(a * 0xFFFF) == 0 && Carry((r - 2) * 0xFFFF) == 1;
    hide Carry;
    AcrossWins(y, 0xFFFF, r, a, a * 0xFFFF, q);
    AcrossWins(r - 1, 0xFFFF, r, r - 2, (r - 2) * 0xFFFF, q);
  }

  /** The square of the request is taken round, and the product for a density just above it is too. */
  lemma RingAbove46340(r: nat, y: nat, d: nat)
    requires 46340 < r < 0xFFFE && d <= 1 && 2 * y == r + d
    ensures Ring(r - 1, y, r + 2, r)
  {
    var p, q := if d == 0 then 0 else r + 2, r * r;
    SquareBounds(r);
    BelowGreaterWins(r - 1, y, r);
    hide DensityWins, Times32;
    assert Carry(p) == 0 && Carry(q) == Carry(q - 4) == 1;
    hide Carry;
    AcrossWins(y, r + 2, r, d, p, q);
    AcrossWins(r - 1, r + 2, r, r - 2, q - 4, q);
  }

  lemma SquareBounds(r: nat)
    requires 46340 < r < 0xFFFE
    ensures 0x8000_0004 <= r * r < 0x1_0000_0000 && (r - 2) * (r + 2) == r * r - 4
  {
    ProductWithin(r, r, 0xFFFD, 0xFFFD);
    ProductGrows(46341, r, 46341);
    ProductGrows(46341, r, r);
  }

  lemma RingAt65534()
    ensures Ring(49152, 32767, 0xFFFF, 0xFFFE)
  {
  }

  /** For every request that is not safe there are such three. */
  lemma UnsafeHasARing(r: nat) returns (x: nat, y: nat, z: nat)
    requires Density(r) && !SafeRequest(r)
    ensures Ring(x, y, z, r)
  {
    hide Ring;
    if r <= 46340 {
      var a := if r % 2 == 0 then 32768 else 32767;
      x, y, z := r - 1, (r + a) / 2, 0xFFFF;
      RingBelow46341(r, y, a);
    } else if r < 0xFFFE {
      x, y, z := r - 1, (r + 1) / 2, r + 2;
      RingAbove46340(r, y, r % 2);
    } else {
      x, y, z := 49152, 32767, 0xFFFF;
      RingAt65534();
    }
  }

  /** The rule, of which exactly one of two densities wins, has no ring, and so is a strict total order of all
      densities, exactly if the request is safe. */
  lemma RuleIsAnOrderIff(r: nat)
    requires Density(r)
    ensures SafeRequest(r) <==> forall x: nat, y: nat, z: nat :: !Ring(x, y, z, r)
  {
    if SafeRequest(r) {
      forall x: nat, y: nat, z: nat
        ensures !Ring(x, y, z, r)
      {
        if Ring(x, y, z, r) {
          SafeIsSound(x, y, r);
          SafeIsSound(y, z, r);
          SafeIsSound(x, z, r);
          RuleIsATotalOrder(x, y, z, r);
          RuleIsATotalOrder(x, z, y, r);
        }
      }
    } else {
      var x, y, z := UnsafeHasARing(r);
    }
  }

  /** With greater densities a product can wrap round, and the worse one wins. */
  lemma RuleCanWrap()
    ensures DensityWins(65535, 45000, 46000) && !WorthWins(65535, 45000, 46000)
  {
    WorthAcross(45000, 65535, 46000);
  }
}
