/** What the symbols of an encoding are: its bits, six at a time, as section 4 of RFC 4648 has them. */
module Base64Bits {
  import opened Base64

  /** Bit `j` of a byte, and of a six-bit value, the most significant first. */
  function ByteBit(b: bv8, j: nat): bool
    requires j < 8
  {
    b & [0x80, 0x40, 0x20, 0x10, 0x08, 0x04, 0x02, 0x01][j] != 0
  }

  function SextetBit(v: bv8, j: nat): bool
    requires j < 6
  {
    v & [0x20, 0x10, 0x08, 0x04, 0x02, 0x01][j] != 0
  }

  /** Bit `n` of a string of bytes; past its end there are zeros. */
  function Bit(s: seq<bv8>, n: nat): bool { n < 8 * |s| && ByteBit(s[n / 8], n % 8) }

  /** Bit `n` of a string of symbols. */
  function SymbolBit(t: seq<bv8>, n: nat): bool
    requires n < 6 * |t| && IsSymbol(t[n / 6])
  {
    SextetBit(ValueOf(t[n / 6]), n % 6)
  }

  /** Table 1 of RFC 4648. */
  function Letter(i: bv8): bv8
    requires i < 64
  {
    if i < 26 then 'A' as bv8 + i
    else if i < 52 then 'a' as bv8 + (i - 26)
    else if i < 62 then '0' as bv8 + (i - 52)
    else if i == 62 then '+' as bv8
    else '/' as bv8
  }

  /** The symbol of a value is its letter, and a letter has just this value. */
  lemma AlphabetIs(i: bv8, c: bv8)
    requires i < 64
    ensures Symbol(i) == Letter(i)
    ensures c == Letter(i) <==> IsSymbol(c) && ValueOf(c) == i
    ensures PAD == '=' as bv8
  {
    SymbolsAreDistinct(i, Letter(i));
    SymbolsAreDistinct(i, c);
  }

  // ----- Encoding -----

  lemma SextetBits(a: bv8, b: bv8, c: bv8, j: nat)
    requires j < 6
    ensures SextetBit(Sextet0(a), j) == ByteBit(a, j)
    ensures SextetBit(Sextet1(a, b), j) == if j < 2 then ByteBit(a, 6 + j) else ByteBit(b, j - 2)
    ensures SextetBit(Sextet2(b, c), j) == if j < 4 then ByteBit(b, 4 + j) else ByteBit(c, j - 4)
    ensures SextetBit(Sextet3(c), j) == ByteBit(c, 2 + j)
  {
  }

  lemma Octet0Bits(a: bv8, b: bv8, j: nat)
    requires j < 8 && a < 64 && b < 64
    ensures ByteBit(Octet0(a, b), j) == if j < 6 then SextetBit(a, j) else SextetBit(b, j - 6)
  {
    assert Octet0(a, b) == (a << 2) | (b >> 4);
    hide Octet0;
  }

  lemma Octet1Bits(b: bv8, c: bv8, j: nat)
    requires j < 8 && b < 64 && c < 64
    ensures ByteBit(Octet1(b, c), j) == if j < 4 then SextetBit(b, 2 + j) else SextetBit(c, j - 4)
  {
    assert Octet1(b, c) == (b << 4) | (c >> 2);
    hide Octet1;
  }

  lemma Octet2Bits(c: bv8, d: bv8, j: nat)
    requires j < 8 && c < 64 && d < 64
    ensures ByteBit(Octet2(c, d), j) == if j < 2 then SextetBit(c, 4 + j) else SextetBit(d, j - 2)
  {
    assert Octet2(c, d) == (c << 6) | d;
    hide Octet2;
  }

  lemma OctetBits(a: bv8, b: bv8, c: bv8, d: bv8, j: nat)
    requires j < 8 && a < 64 && b < 64 && c < 64 && d < 64
    ensures ByteBit(Octet0(a, b), j) == if j < 6 then SextetBit(a, j) else SextetBit(b, j - 6)
    ensures ByteBit(Octet1(b, c), j) == if j < 4 then SextetBit(b, 2 + j) else SextetBit(c, j - 4)
    ensures ByteBit(Octet2(c, d), j) == if j < 2 then SextetBit(c, 4 + j) else SextetBit(d, j - 2)
  {
    hide *;
    Octet0Bits(a, b, j);
    Octet1Bits(b, c, j);
    Octet2Bits(c, d, j);
  }

  // ----- Encoding -----

  lemma QuadValues(a: bv8, b: bv8, c: bv8)
    ensures
      var q := Quad(a, b, c);
      && IsSymbol(q[0]) && ValueOf(q[0]) == Sextet0(a) && IsSymbol(q[1]) && ValueOf(q[1]) == Sextet1(a, b)
      && IsSymbol(q[2]) && ValueOf(q[2]) == Sextet2(b, c) && IsSymbol(q[3]) && ValueOf(q[3]) == Sextet3(c)
  {
    hide Symbol, IsSymbol, ValueOf, Sextet0, Sextet1, Sextet2, Sextet3;
    SymbolsAreDistinct(Sextet0(a), Symbol(Sextet0(a)));
    SymbolsAreDistinct(Sextet1(a, b), Symbol(Sextet1(a, b)));
    SymbolsAreDistinct(Sextet2(b, c), Symbol(Sextet2(b, c)));
    SymbolsAreDistinct(Sextet3(c), Symbol(Sextet3(c)));
  }

  lemma BitOfThree(a: bv8, b: bv8, c: bv8, n: nat)
    requires n < 24
    ensures Bit([a, b, c], n)
         == if n < 8 then ByteBit(a, n) else if n < 16 then ByteBit(b, n - 8) else ByteBit(c, n - 16)
  {
    hide ByteBit;
    assert n < 8 ==> n / 8 == 0 && n % 8 == n;
    assert 8 <= n < 16 ==> n / 8 == 1 && n % 8 == n - 8;
    assert 16 <= n ==> n / 8 == 2 && n % 8 == n - 16;
  }

  lemma BitOfFour(q: seq<bv8>, n: nat)
    requires |q| == 4 && n < 24 && IsSymbol(q[0]) && IsSymbol(q[1]) && IsSymbol(q[2]) && IsSymbol(q[3])
    ensures IsSymbol(q[n / 6])
    ensures SymbolBit(q, n)
         == if n < 6 then SextetBit(ValueOf(q[0]), n) else if n < 12 then SextetBit(ValueOf(q[1]), n - 6)
            else if n < 18 then SextetBit(ValueOf(q[2]), n - 12) else SextetBit(ValueOf(q[3]), n - 18)
  {
    hide IsSymbol, ValueOf, SextetBit;
    assert n < 6 ==> n / 6 == 0 && n % 6 == n;
    assert 6 <= n < 12 ==> n / 6 == 1 && n % 6 == n - 6;
    assert 12 <= n < 18 ==> n / 6 == 2 && n % 6 == n - 12;
    assert 18 <= n ==> n / 6 == 3 && n % 6 == n - 18;
  }

  /** The symbols of three bytes have their bits, in order. */
  lemma QuadBits(a: bv8, b: bv8, c: bv8, n: nat)
    requires n < 24
    ensures
      var q := Quad(a, b, c);
      IsSymbol(q[n / 6]) && SymbolBit(q, n) == Bit([a, b, c], n)
  {
    hide Quad, IsSymbol, ValueOf, Sextet0, Sextet1, Sextet2, Sextet3, ByteBit, SextetBit, Bit, SymbolBit;
    QuadValues(a, b, c);
    BitOfThree(a, b, c, n);
    BitOfFour(Quad(a, b, c), n);
    SextetBits(a, b, c, if n < 6 then n else if n < 12 then n - 6 else if n < 18 then n - 12 else n - 18);
  }

  lemma BitOfRest(s: seq<bv8>, n: nat)
    requires |s| >= 3 && n >= 24
    ensures Bit(s, n) == Bit(s[3..], n - 24)
  {
    hide ByteBit;
    assert n / 8 == 3 + (n - 24) / 8 && n % 8 == (n - 24) % 8;
  }

  lemma BitOfFirst(s: seq<bv8>, t: seq<bv8>, n: nat)
    requires n < 8 * |t| && |t| <= |s| && s[..|t|] == t
    ensures Bit(s, n) == Bit(t, n)
  {
    hide ByteBit;
    assert s[..|t|][n / 8] == s[n / 8];
  }

  lemma ZeroBits(s: seq<bv8>, t: seq<bv8>, n: nat)
    requires |s| <= |t| && t[..|s|] == s && forall k :: |s| <= k < |t| ==> t[k] == 0
    ensures Bit(t, n) == Bit(s, n)
  {
    if n < 8 * |s| {
      BitOfFirst(t, s, n);
    } else if n < 8 * |t| {
      NoBitOfZero(n % 8);
      hide ByteBit;
    }
  }

  lemma NoBitOfZero(j: nat)
    requires j < 8
    ensures !ByteBit(0, j)
  {
  }

  /** The symbols of an encoding, before the padding, have the bits of what was encoded, six each and the first ones
      first, and then zeros. */
  lemma {:induction false} EncodingIsBits(s: seq<bv8>, n: nat)
    requires n < 6 * EncodedSymbols(|s|)
    ensures n < 6 * |Encode(s)| && IsSymbol(Encode(s)[n / 6]) && SymbolBit(Encode(s), n) == Bit(s, n)
    decreases |s|
  {
    hide IsSymbol, Quad, SymbolBit, Bit;
    if |s| < 3 {
      ShortEncodingIsBits(s, n);
    } else if n < 24 {
      QuadBits(s[0], s[1], s[2], n);
      var q := Quad(s[0], s[1], s[2]);
      FirstSymbols(q, Encode(s[3..]), n);
      BitOfFirst(s, [s[0], s[1], s[2]], n);
    } else {
      EncodingIsBits(s[3..], n - 24);
      LaterSymbols(Quad(s[0], s[1], s[2]), Encode(s[3..]), n);
      BitOfRest(s, n);
    }
  }

  lemma FirstSymbols(q: seq<bv8>, t: seq<bv8>, n: nat)
    requires n < 6 * |q| && IsSymbol(q[n / 6])
    ensures IsSymbol((q + t)[n / 6]) && SymbolBit(q + t, n) == SymbolBit(q, n)
  {
    hide IsSymbol, SextetBit, ValueOf;
    assert (q + t)[n / 6] == q[n / 6];
  }

  lemma LaterSymbols(q: seq<bv8>, t: seq<bv8>, n: nat)
    requires |q| == 4 && 24 <= n && n - 24 < 6 * |t| && IsSymbol(t[(n - 24) / 6])
    ensures n < 6 * |q + t| && IsSymbol((q + t)[n / 6]) && SymbolBit(q + t, n) == SymbolBit(t, n - 24)
  {
    hide IsSymbol, SextetBit, ValueOf;
    assert n / 6 == 4 + (n - 24) / 6 && n % 6 == (n - 24) % 6;
    assert (q + t)[n / 6] == t[n / 6 - 4];
  }

  lemma ShortEncodingIsBits(s: seq<bv8>, n: nat)
    requires |s| < 3 && n < 6 * EncodedSymbols(|s|)
    ensures n < 6 * |Encode(s)| && IsSymbol(Encode(s)[n / 6]) && SymbolBit(Encode(s), n) == Bit(s, n)
  {
    hide IsSymbol, Quad, SymbolBit, Bit;
    var b := if |s| == 1 then 0 else s[1];
    QuadBits(s[0], b, 0, n);
    ZeroBits(s, [s[0], b, 0], n);
    var q := Quad(s[0], b, 0);
    FirstSymbols(q[..|s| + 1], if |s| == 1 then [PAD, PAD] else [PAD], n);
    FirstSymbols(q[..|s| + 1], q[|s| + 1..], n);
    assert q[..|s| + 1] + q[|s| + 1..] == q;
  }

  // ----- Decoding -----

  /** Every bit of what symbols decode to is theirs, in order. */
  lemma {:induction false} DecodingIsBits(t: seq<bv8>, n: nat)
    requires (forall k :: 0 <= k < |t| ==> IsSymbol(t[k])) && n < 8 * |DecodeSymbols(t)|
    ensures n < 6 * |t| && Bit(DecodeSymbols(t), n) == SymbolBit(t, n)
    decreases |t|
  {
    hide IsSymbol, Triple, SymbolBit, Bit;
    DecodedLength(t);
    if |t| < 4 {
      ShortDecodingIsBits(t, n);
    } else if n < 24 {
      TripleBits(t[0], t[1], t[2], t[3], n);
      var u := Triple(t[0], t[1], t[2], t[3]);
      BitOfFirst(DecodeSymbols(t), u, n);
      assert t == [t[0], t[1], t[2], t[3]] + t[4..];
      FirstSymbols([t[0], t[1], t[2], t[3]], t[4..], n);
    } else {
      DecodingIsBits(t[4..], n - 24);
      assert DecodeSymbols(t)[3..] == DecodeSymbols(t[4..]);
      BitOfRest(DecodeSymbols(t), n);
      assert t == t[..4] + t[4..];
      LaterSymbols(t[..4], t[4..], n);
    }
  }

  /** The bits of three bytes are those of their four symbols. */
  lemma TripleBits(a: bv8, b: bv8, c: bv8, d: bv8, n: nat)
    requires n < 24 && IsSymbol(a) && IsSymbol(b) && IsSymbol(c) && IsSymbol(d)
    ensures Bit(Triple(a, b, c, d), n) == SymbolBit([a, b, c, d], n)
  {
    hide IsSymbol, ValueOf, Octet0, Octet1, Octet2, ByteBit, SextetBit, Bit, SymbolBit;
    BitOfFour([a, b, c, d], n);
    var u := Triple(a, b, c, d);
    BitOfThree(u[0], u[1], u[2], n);
    assert u == [u[0], u[1], u[2]];
    OctetBits(ValueOf(a), ValueOf(b), ValueOf(c), ValueOf(d), if n < 8 then n else if n < 16 then n - 8 else n - 16);
  }

  lemma ShortDecodingIsBits(t: seq<bv8>, n: nat)
    requires |t| < 4 && (forall k :: 0 <= k < |t| ==> IsSymbol(t[k])) && n < 8 * |DecodeSymbols(t)|
    ensures n < 6 * |t| && Bit(DecodeSymbols(t), n) == SymbolBit(t, n)
  {
    hide IsSymbol, ValueOf, Octet0, Octet1, Octet2, ByteBit, SextetBit;
    if |t| == 2 {
      OctetBits(ValueOf(t[0]), ValueOf(t[1]), 0, 0, n % 8);
    } else {
      OctetBits(ValueOf(t[0]), ValueOf(t[1]), ValueOf(t[2]), 0, n % 8);
    }
  }
}
