/** The base64 of section 4 of RFC 4648, as b64_encode and b64_decode_ex compute it. */
module Base64 {
  import opened AesTables

  // ----- The alphabet -----

  /** The character that stands for a six-bit value: A to P, Q to f, g to v, w to the slash. */
  function Symbol(i: bv8): bv8
    requires i < 64
  {
    PickRow(i >> 4,
      Pick(i, 0x41, 0x42, 0x43, 0x44, 0x45, 0x46, 0x47, 0x48, 0x49, 0x4a, 0x4b, 0x4c, 0x4d, 0x4e, 0x4f, 0x50),
      Pick(i, 0x51, 0x52, 0x53, 0x54, 0x55, 0x56, 0x57, 0x58, 0x59, 0x5a, 0x61, 0x62, 0x63, 0x64, 0x65, 0x66),
      Pick(i, 0x67, 0x68, 0x69, 0x6a, 0x6b, 0x6c, 0x6d, 0x6e, 0x6f, 0x70, 0x71, 0x72, 0x73, 0x74, 0x75, 0x76),
      Pick(i, 0x77, 0x78, 0x79, 0x7a, 0x30, 0x31, 0x32, 0x33, 0x34, 0x35, 0x36, 0x37, 0x38, 0x39, 0x2b, 0x2f))
  }

  function PickRow(i: bv8, r0: bv8, r1: bv8, r2: bv8, r3: bv8): bv8 {
    if i & 2 == 0 then (if i & 1 == 0 then r0 else r1) else (if i & 1 == 0 then r2 else r3)
  }

  predicate IsUpper(c: bv8) { 0x41 <= c <= 0x5a }

  predicate IsLower(c: bv8) { 0x61 <= c <= 0x7a }

  predicate IsDigit(c: bv8) { 0x30 <= c <= 0x39 }

  const PLUS: bv8 := 0x2b
  const SLASH: bv8 := 0x2f
  const PAD: bv8 := 0x3d

  /** What the decoder goes on reading at: a letter, a digit, a plus or a slash. */
  predicate IsSymbol(c: bv8) { IsUpper(c) || IsLower(c) || IsDigit(c) || c == PLUS || c == SLASH }

  /** The value that a symbol stands for. */
  function ValueOf(c: bv8): (v: bv8)
    requires IsSymbol(c)
    ensures v < 64
  {
    if IsUpper(c) then c - 0x41
    else if IsLower(c) then c - 0x61 + 26
    else if IsDigit(c) then c - 0x30 + 52
    else if c == PLUS then 62
    else 63
  }

  lemma SymbolsAreDistinct(i: bv8, c: bv8)
    requires i < 64
    ensures Symbol(i) == c <==> IsSymbol(c) && ValueOf(c) == i
  {
  }

  // ----- Encoding -----

  function Sextet0(a: bv8): (v: bv8)
    ensures v < 64
  {
    (a & 0xfc) >> 2
  }

  function Sextet1(a: bv8, b: bv8): (v: bv8)
    ensures v < 64
  {
    ((a & 0x03) << 4) + ((b & 0xf0) >> 4)
  }

  function Sextet2(b: bv8, c: bv8): (v: bv8)
    ensures v < 64
  {
    ((b & 0x0f) << 2) + ((c & 0xc0) >> 6)
  }

  function Sextet3(c: bv8): (v: bv8)
    ensures v < 64
  {
    c & 0x3f
  }

  /** The four symbols of three bytes. */
  function Quad(a: bv8, b: bv8, c: bv8): (q: seq<bv8>)
    ensures |q| == 4
  {
    [Symbol(Sextet0(a)), Symbol(Sextet1(a, b)), Symbol(Sextet2(b, c)), Symbol(Sextet3(c))]
  }

  function Encode(s: seq<bv8>): seq<bv8> {
    if |s| == 0 then []
    else if |s| == 1 then Quad(s[0], 0, 0)[..2] + [PAD, PAD]
    else if |s| == 2 then Quad(s[0], s[1], 0)[..3] + [PAD]
    else Quad(s[0], s[1], s[2]) + Encode(s[3..])
  }

  // ----- Decoding -----

  function Octet0(a: bv8, b: bv8): bv8 { (a << 2) + ((b & 0x30) >> 4) }

  function Octet1(b: bv8, c: bv8): bv8 { ((b & 0xf) << 4) + ((c & 0x3c) >> 2) }

  function Octet2(c: bv8, d: bv8): bv8 { ((c & 0x3) << 6) + d }

  /** What the table search makes of a character; it leaves one that it does not find as it is. */
  function Translated(c: bv8): bv8 { if IsSymbol(c) then ValueOf(c) else c }

  /** The three bytes of four characters. */
  function Triple(a: bv8, b: bv8, c: bv8, d: bv8): (octets: seq<bv8>)
    ensures |octets| == 3
  {
    [Octet0(Translated(a), Translated(b)), Octet1(Translated(b), Translated(c)), Octet2(Translated(c), Translated(d))]
  }

  /** The decoding of characters that are all symbols. */
  function DecodeSymbols(t: seq<bv8>): seq<bv8> {
    if |t| == 0 then []
    else if |t| == 1 then []
    else if |t| == 2 then Triple(t[0], t[1], 0, 0)[..1]
    else if |t| == 3 then Triple(t[0], t[1], t[2], 0)[..2]
    else Triple(t[0], t[1], t[2], t[3]) + DecodeSymbols(t[4..])
  }

  /** How long the longest prefix of symbols is. */
  function SymbolCount(t: seq<bv8>): (m: nat)
    ensures m <= |t|
    ensures forall k :: 0 <= k < m ==> IsSymbol(t[k])
    ensures m < |t| ==> !IsSymbol(t[m])
  {
    if |t| == 0 || !IsSymbol(t[0]) then 0 else 1 + SymbolCount(t[1..])
  }

  function Decode(t: seq<bv8>): seq<bv8> { DecodeSymbols(t[..SymbolCount(t)]) }

  // ----- The round trip -----

  lemma BytesComeBack(a: bv8, b: bv8, c: bv8)
    ensures Octet0(Sextet0(a), Sextet1(a, b)) == a
    ensures Octet1(Sextet1(a, b), Sextet2(b, c)) == b
    ensures Octet2(Sextet2(b, c), Sextet3(c)) == c
  {
  }

  lemma TranslatedSymbol(i: bv8)
    requires i < 64
    ensures IsSymbol(Symbol(i)) && Translated(Symbol(i)) == i
  {
    SymbolsAreDistinct(i, Symbol(i));
  }

  lemma QuadComesBack(a: bv8, b: bv8, c: bv8)
    ensures
      var q := Quad(a, b, c);
      && IsSymbol(q[0]) && IsSymbol(q[1]) && IsSymbol(q[2]) && IsSymbol(q[3])
      && Triple(q[0], q[1], q[2], q[3]) == [a, b, c]
      && Triple(q[0], q[1], q[2], 0)[..2] == [a, b]
      && Triple(q[0], q[1], 0, 0)[..1] == [a]
  {
    hide Symbol, IsSymbol, Octet0, Octet1, Octet2, Sextet0, Sextet1, Sextet2, Sextet3, Translated;
    TranslatedSymbol(Sextet0(a));
    TranslatedSymbol(Sextet1(a, b));
    TranslatedSymbol(Sextet2(b, c));
    TranslatedSymbol(Sextet3(c));
    BytesComeBack(a, b, c);
    var q := Quad(a, b, c);
    assert Triple(q[0], q[1], q[2], 0)[..2] == [a, b];
    assert Triple(q[0], q[1], 0, 0)[..1] == [a];
  }

  /** The symbols that an encoding begins with. */
  function EncodedSymbols(n: nat): nat { n / 3 * 4 + (if n % 3 == 0 then 0 else n % 3 + 1) }

  /** Whether `t` is symbols that decode to `s`, and then padding. */
  ghost predicate DecodesTo(t: seq<bv8>, s: seq<bv8>) {
    var m := EncodedSymbols(|s|);
    && |t| == (|s| + 2) / 3 * 4 && m <= |t|
    && (forall k :: 0 <= k < m ==> IsSymbol(t[k]))
    && (forall k :: m <= k < |t| ==> t[k] == PAD)
    && DecodeSymbols(t[..m]) == s
  }

  lemma OneByteComesBack(a: bv8)
    ensures DecodesTo(Encode([a]), [a])
  {
    hide IsSymbol, Quad, Triple;
    QuadComesBack(a, 0, 0);
    var q := Quad(a, 0, 0);
    var t := Encode([a]);
    assert t == [q[0], q[1], PAD, PAD];
    assert t[..2] == [q[0], q[1]];
  }

  lemma TwoBytesComeBack(a: bv8, b: bv8)
    ensures DecodesTo(Encode([a, b]), [a, b])
  {
    hide IsSymbol, Quad, Triple;
    QuadComesBack(a, b, 0);
    var q := Quad(a, b, 0);
    var t := Encode([a, b]);
    assert t == [q[0], q[1], q[2], PAD];
    assert t[..3] == [q[0], q[1], q[2]];
  }

  lemma NoBytesComeBack()
    ensures DecodesTo(Encode([]), [])
  {
  }

  lemma ShortEncodingComesBack(s: seq<bv8>)
    requires |s| < 3
    ensures DecodesTo(Encode(s), s)
  {
    hide DecodesTo, Encode;
    if |s| == 0 {
      NoBytesComeBack();
    } else if |s| == 1 {
      assert s == [s[0]];
      OneByteComesBack(s[0]);
    } else if |s| == 2 {
      assert s == [s[0], s[1]];
      TwoBytesComeBack(s[0], s[1]);
    }
  }

  lemma LongerComesBack(q: seq<bv8>, t: seq<bv8>, s: seq<bv8>)
    requires |s| >= 3 && |q| == 4 && forall k :: 0 <= k < 4 ==> IsSymbol(q[k])
    requires Triple(q[0], q[1], q[2], q[3]) == s[..3]
    requires DecodesTo(t, s[3..])
    ensures DecodesTo(q + t, s)
  {
    hide IsSymbol, Triple;
    var m := EncodedSymbols(|s|);
    assert m == 4 + EncodedSymbols(|s| - 3);
    var u := (q + t)[..m];
    assert u[4..] == t[..m - 4];
    assert DecodeSymbols(u) == s[..3] + s[3..];
  }

  lemma {:induction false} EncodingComesBack(s: seq<bv8>)
    ensures DecodesTo(Encode(s), s)
  {
    hide IsSymbol, Quad, Triple, DecodesTo;
    if |s| < 3 {
      ShortEncodingComesBack(s);
    } else {
      EncodingComesBack(s[3..]);
      QuadComesBack(s[0], s[1], s[2]);
      assert s[..3] == [s[0], s[1], s[2]];
      LongerComesBack(Quad(s[0], s[1], s[2]), Encode(s[3..]), s);
    }
  }

  /** The count of leading symbols is the only number of symbols that something else follows. */
  lemma SymbolCountIs(t: seq<bv8>, m: nat)
    requires m <= |t| && (forall k :: 0 <= k < m ==> IsSymbol(t[k])) && (m < |t| ==> !IsSymbol(t[m]))
    ensures SymbolCount(t) == m
  {
    hide IsSymbol;
    assert !(SymbolCount(t) < m) && !(m < SymbolCount(t));
  }

  /** Decoding an encoding returns what was encoded. */
  lemma RoundTrip(s: seq<bv8>)
    ensures Decode(Encode(s)) == s
  {
    hide IsSymbol;
    EncodingComesBack(s);
    PadIsNoSymbol();
    SymbolCountIs(Encode(s), EncodedSymbols(|s|));
  }

  lemma PadIsNoSymbol()
    ensures !IsSymbol(PAD)
  {
  }

  /** Whatever the input, the longest prefix of symbols says how many bytes come out. */
  lemma {:induction false} DecodedLength(t: seq<bv8>)
    ensures |DecodeSymbols(t)| == 3 * |t| / 4
  {
    if |t| >= 4 {
      DecodedLength(t[4..]);
    }
  }

  lemma DecodedSize(t: seq<bv8>)
    ensures |Decode(t)| == 3 * SymbolCount(t) / 4
  {
    DecodedLength(t[..SymbolCount(t)]);
  }

  /** An encoding holds no zero byte, so that it is a C string of four characters for every three bytes begun. */
  lemma {:induction false} EncodingIsText(s: seq<bv8>)
    ensures |Encode(s)| == (|s| + 2) / 3 * 4
    ensures forall c :: c in Encode(s) ==> c != 0
  {
    EncodingComesBack(s);
    var t, m := Encode(s), EncodedSymbols(|s|);
    forall k | 0 <= k < |t|
      ensures t[k] != 0
    {
      if k < m {
        assert IsSymbol(t[k]);
      } else {
        assert t[k] == PAD;
      }
    }
  }

  // ----- Piece by piece -----

  lemma {:induction false} EncodeAppends(s: seq<bv8>, t: seq<bv8>)
    requires |s| % 3 == 0
    ensures Encode(s + t) == Encode(s) + Encode(t)
  {
    hide Quad;
    if s == [] {
      assert s + t == t;
    } else {
      EncodeAppends(s[3..], t);
      EncodeAppendsStep(s, t);
      var a, b, c := Quad(s[0], s[1], s[2]), Encode(s[3..]), Encode(t);
      assert a + (b + c) == (a + b) + c;
    }
  }

  lemma EncodeAppendsStep(s: seq<bv8>, t: seq<bv8>)
    requires |s| >= 3
    ensures Encode(s) == Quad(s[0], s[1], s[2]) + Encode(s[3..])
    ensures Encode(s + t) == Quad(s[0], s[1], s[2]) + Encode(s[3..] + t)
  {
    hide Quad;
    var u := s + t;
    assert u[3..] == s[3..] + t;
  }

  lemma {:induction false} DecodeAppends(s: seq<bv8>, t: seq<bv8>)
    requires |s| % 4 == 0
    ensures DecodeSymbols(s + t) == DecodeSymbols(s) + DecodeSymbols(t)
  {
    hide Triple;
    if s == [] {
      assert s + t == t;
    } else {
      DecodeAppends(s[4..], t);
      DecodeAppendsStep(s, t);
      var a, b, c := Triple(s[0], s[1], s[2], s[3]), DecodeSymbols(s[4..]), DecodeSymbols(t);
      assert a + (b + c) == (a + b) + c;
    }
  }

  lemma DecodeAppendsStep(s: seq<bv8>, t: seq<bv8>)
    requires |s| >= 4
    ensures DecodeSymbols(s) == Triple(s[0], s[1], s[2], s[3]) + DecodeSymbols(s[4..])
    ensures DecodeSymbols(s + t) == Triple(s[0], s[1], s[2], s[3]) + DecodeSymbols(s[4..] + t)
  {
    hide Triple;
    var u := s + t;
    assert u[4..] == s[4..] + t;
  }
}
