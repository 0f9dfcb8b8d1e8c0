/** The loops of base64.c: three bytes at a time into four, and back. */
module Base64Code {
  import opened Base64

  lemma OneMore(s: seq<bv8>, n: nat, whole: seq<bv8>, left: seq<bv8>)
    requires n < |s| && s[..n] == whole + left
    ensures s[..n + 1] == whole + (left + [s[n]])
  {
  }

  /** Fills `buf` from `tmp`. */
  method Encode3(tmp: array<bv8>, buf: array<bv8>)
    requires tmp.Length == 3 && buf.Length == 4 && tmp != buf
    modifies buf
    ensures buf[0] < 64 && buf[1] < 64 && buf[2] < 64 && buf[3] < 64
    ensures [Symbol(buf[0]), Symbol(buf[1]), Symbol(buf[2]), Symbol(buf[3])] == Quad(tmp[0], tmp[1], tmp[2])
  {
    hide Symbol;
    buf[0] := Sextet0(tmp[0]);
    buf[1] := Sextet1(tmp[0], tmp[1]);
    buf[2] := Sextet2(tmp[1], tmp[2]);
    buf[3] := Sextet3(tmp[2]);
  }

  /** The loop that looks up and writes the first `n` characters of a group. */
  method Write(enc: seq<bv8>, buf: array<bv8>, n: nat, ghost quad: seq<bv8>) returns (longer: seq<bv8>)
    requires buf.Length == 4 && n <= 4 && buf[0] < 64 && buf[1] < 64 && buf[2] < 64 && buf[3] < 64
    requires quad == [Symbol(buf[0]), Symbol(buf[1]), Symbol(buf[2]), Symbol(buf[3])]
    ensures longer == enc + quad[..n]
  {
    hide Symbol;
    longer := enc;
    for i := 0 to n
      invariant longer == enc + quad[..i]
    {
      longer := longer + [Symbol(buf[i])];
    }
  }

  method EncodeBuffer(src: array<bv8>, len: nat) returns (enc: seq<bv8>)
    requires len <= src.Length
    ensures enc == Encode(src[..len])
  {
    hide Encode, Quad, Symbol;
    ghost var s := src[..len];
    var i := 0;
    enc := [];
    EncodeNothing();
    var buf, tmp := new bv8[4], new bv8[3];
    var at := 0;
    ghost var whole: seq<bv8>, left: seq<bv8> := [], [];
    while at < len
      invariant i < 3 && at <= len && |whole| % 3 == 0
      invariant s[..at] == whole + left && left == tmp[..i]
      invariant enc == Encode(whole)
    {
      OneMore(s, at, whole, left);
      left := left + [s[at]];
      tmp[i], i, at := src[at], i + 1, at + 1;
      if i == 3 {
        assert left == tmp[..];
        enc := EncodeWhole(enc, tmp, buf, whole);
        whole, left := s[..at], [];
        i := 0;
      }
    }
    assert s[..len] == s;
    if i > 0 {
      enc := EncodeRemainder(enc, tmp, buf, i, whole);
    } else {
      assert s == whole;
    }
  }

  /** What the loop does with three bytes. */
  method EncodeWhole(start: seq<bv8>, tmp: array<bv8>, buf: array<bv8>, ghost whole: seq<bv8>) returns (enc: seq<bv8>)
    requires tmp.Length == 3 && buf.Length == 4 && tmp != buf
    requires |whole| % 3 == 0 && start == Encode(whole)
    modifies buf
    ensures enc == Encode(whole + tmp[..])
  {
    hide Encode, Quad, Symbol;
    Encode3(tmp, buf);
    enc := Write(start, buf, 4, Quad(tmp[0], tmp[1], tmp[2]));
    EncodeTriple(whole, tmp[..]);
  }

  /** What follows the loop, for the one or two bytes that are left. */
  method EncodeRemainder(start: seq<bv8>, tmp: array<bv8>, buf: array<bv8>, left: nat, ghost whole: seq<bv8>)
    returns (enc: seq<bv8>)
    requires tmp.Length == 3 && buf.Length == 4 && tmp != buf && 1 <= left <= 2
    requires |whole| % 3 == 0 && start == Encode(whole)
    modifies tmp, buf
    ensures enc == Encode(whole + old(tmp[..left]))
  {
    hide Encode, Quad, Symbol;
    var i := left;
    for j := i to 3
      invariant tmp[..i] == old(tmp[..i])
      invariant forall k :: i <= k < j ==> tmp[k] == 0
    {
      tmp[j] := 0;
    }
    Encode3(tmp, buf);
    ghost var quad := Quad(tmp[0], tmp[1], tmp[2]);
    enc := Write(start, buf, i + 1, quad);
    while i < 3
      invariant left <= i <= 3
      invariant enc == start + quad[..left + 1] + [PAD, PAD, PAD][..i - left]
    {
      enc := enc + [PAD];
      i := i + 1;
    }
    EncodeRest(whole, tmp[..left], tmp[0], tmp[1], tmp[2]);
  }

  // ----- Decoding -----

  /** The search of the table for the character at `i`. */
  method Translate(tmp: array<bv8>, i: nat)
    requires i < tmp.Length
    modifies tmp
    ensures tmp[..] == old(tmp[..])[i := Translated(old(tmp[i]))]
  {
    hide Symbol, IsSymbol, ValueOf;
    ghost var c := tmp[i];
    var l: bv8 := 0;
    while l < 64
      invariant l <= 64 && tmp[..] == old(tmp[..])
      invariant forall k: bv8 :: k < l ==> Symbol(k) != c
      decreases 64 - l
    {
      if tmp[i] == Symbol(l) {
        SymbolsAreDistinct(l, c);
        tmp[i] := l;
        return;
      }
      l := l + 1;
    }
    NotFound(c);
  }

  lemma NotFound(c: bv8)
    requires forall k: bv8 :: k < 64 ==> Symbol(k) != c
    ensures !IsSymbol(c)
  {
    hide Symbol, IsSymbol, ValueOf;
    if IsSymbol(c) {
      SymbolsAreDistinct(ValueOf(c), c);
      assert false;
    }
  }

  /** The search for all four characters of a group. */
  method TranslateAll(tmp: array<bv8>)
    requires tmp.Length == 4
    modifies tmp
    ensures forall k :: 0 <= k < 4 ==> tmp[k] == Translated(old(tmp[k]))
  {
    hide Translated;
    for i := 0 to 4
      invariant forall k :: 0 <= k < i ==> tmp[k] == Translated(old(tmp[k]))
      invariant forall k :: i <= k < 4 ==> tmp[k] == old(tmp[k])
    {
      ghost var was := tmp[..];
      Translate(tmp, i);
      assert forall k :: 0 <= k < 4 ==> tmp[k] == tmp[..][k];
    }
  }

  /** Fills `buf` from `tmp`. */
  method Decode4(tmp: array<bv8>, buf: array<bv8>, ghost triple: seq<bv8>)
    requires tmp.Length == 4 && buf.Length == 3 && tmp != buf
    requires triple == Triple(tmp[0], tmp[1], tmp[2], tmp[3])
    modifies tmp, buf
    ensures buf[..] == triple
  {
    hide Translated, Octet0, Octet1, Octet2;
    TranslateAll(tmp);
    buf[0] := Octet0(tmp[0], tmp[1]);
    buf[1] := Octet1(tmp[1], tmp[2]);
    buf[2] := Octet2(tmp[2], tmp[3]);
  }

  /** The loop that writes the first `n` bytes of a group. */
  method Copy(dec: seq<bv8>, buf: array<bv8>, n: nat) returns (longer: seq<bv8>)
    requires n <= buf.Length
    ensures longer == dec + buf[..n]
    ensures n == buf.Length ==> longer == dec + buf[..]
  {
    longer := dec;
    for i := 0 to n
      invariant longer == dec + buf[..i]
    {
      longer := longer + [buf[i]];
    }
    assert buf[..buf.Length] == buf[..];
  }

  method DecodeBuffer(src: array<bv8>, len: nat) returns (dec: seq<bv8>, decsize: nat)
    requires len <= src.Length
    ensures dec == Decode(src[..len])
    ensures decsize == |dec| == 3 * SymbolCount(src[..len]) / 4
  {
    hide DecodeSymbols, Triple, IsSymbol, Decode;
    ghost var s := src[..len];
    var i := 0;
    dec := [];
    DecodeNothing();
    var buf, tmp := new bv8[3], new bv8[4];
    var j := 0;
    ghost var whole: seq<bv8>, left: seq<bv8> := [], [];
    while j < len
      invariant i < 4 && j <= len && |whole| % 4 == 0
      invariant s[..j] == whole + left && left == tmp[..i]
      invariant forall k :: 0 <= k < j ==> IsSymbol(s[k])
      invariant dec == DecodeSymbols(whole)
    {
      if src[j] == PAD {
        PadIsNoSymbol();
        break;
      }
      if !IsSymbol(src[j]) {
        break;
      }
      OneMore(s, j, whole, left);
      left := left + [s[j]];
      tmp[i], i, j := src[j], i + 1, j + 1;
      if i == 4 {
        assert left == tmp[..];
        dec := DecodeWhole(dec, tmp, buf, whole);
        whole, left := s[..j], [];
        i := 0;
      }
    }
    if i > 0 {
      dec := DecodeRemainder(dec, tmp, buf, i, whole);
    } else {
      assert s[..j] == whole;
    }
    decsize := |dec|;
    DecodedUpTo(s, j);
  }

  /** Reading stops at the end or at the first character that is no symbol. */
  lemma DecodedUpTo(s: seq<bv8>, j: nat)
    requires j <= |s| && (forall k :: 0 <= k < j ==> IsSymbol(s[k])) && (j < |s| ==> !IsSymbol(s[j]))
    ensures Decode(s) == DecodeSymbols(s[..j])
    ensures |Decode(s)| == 3 * SymbolCount(s) / 4
  {
    hide IsSymbol, DecodeSymbols;
    SymbolCountIs(s, j);
    DecodedSize(s);
  }

  /** What the loop does with four characters. */
  method DecodeWhole(start: seq<bv8>, tmp: array<bv8>, buf: array<bv8>, ghost whole: seq<bv8>) returns (dec: seq<bv8>)
    requires tmp.Length == 4 && buf.Length == 3 && tmp != buf
    requires |whole| % 4 == 0 && start == DecodeSymbols(whole)
    modifies tmp, buf
    ensures dec == DecodeSymbols(whole + old(tmp[..]))
  {
    hide DecodeSymbols, Triple;
    ghost var four := tmp[..];
    Decode4(tmp, buf, Triple(four[0], four[1], four[2], four[3]));
    dec := Copy(start, buf, 3);
    DecodeGroup(whole, four);
  }

  /** What follows the loop, for the one to three characters that are left. */
  method DecodeRemainder(start: seq<bv8>, tmp: array<bv8>, buf: array<bv8>, i: nat, ghost whole: seq<bv8>)
    returns (dec: seq<bv8>)
    requires tmp.Length == 4 && buf.Length == 3 && tmp != buf && 1 <= i <= 3
    requires |whole| % 4 == 0 && start == DecodeSymbols(whole)
    modifies tmp, buf
    ensures dec == DecodeSymbols(whole + old(tmp[..i]))
  {
    hide DecodeSymbols, Triple;
    for j := i to 4
      invariant tmp[..i] == old(tmp[..i])
      invariant forall k :: i <= k < j ==> tmp[k] == 0
    {
      tmp[j] := 0;
    }
    ghost var four := tmp[..];
    Decode4(tmp, buf, Triple(four[0], four[1], four[2], four[3]));
    dec := Copy(start, buf, i - 1);
    DecodeRest(whole, four, i);
    assert four[..i] == old(tmp[..i]);
  }

  // ----- What a group adds -----

  lemma DecodeNothing()
    ensures DecodeSymbols([]) == []
  {
  }

  lemma DecodeGroup(s: seq<bv8>, t: seq<bv8>)
    requires |s| % 4 == 0 && |t| == 4
    ensures DecodeSymbols(s + t) == DecodeSymbols(s) + Triple(t[0], t[1], t[2], t[3])
  {
    hide Triple;
    DecodeAppends(s, t);
    assert DecodeSymbols(t[4..]) == [];
  }

  lemma DecodeRest(s: seq<bv8>, t: seq<bv8>, i: nat)
    requires |s| % 4 == 0 && |t| == 4 && 1 <= i <= 3
    requires forall k :: i <= k < 4 ==> t[k] == 0
    ensures DecodeSymbols(s + t[..i]) == DecodeSymbols(s) + Triple(t[0], t[1], t[2], t[3])[..i - 1]
  {
    hide Triple;
    DecodeAppends(s, t[..i]);
    hide DecodeSymbols;
    DecodeFew(t, i);
  }

  lemma DecodeFew(t: seq<bv8>, i: nat)
    requires |t| == 4 && 1 <= i <= 3 && forall k :: i <= k < 4 ==> t[k] == 0
    ensures DecodeSymbols(t[..i]) == Triple(t[0], t[1], t[2], t[3])[..i - 1]
  {
    hide Triple;
    var u := t[..i];
    assert |u| == i && u[0] == t[0] && (i > 1 ==> u[1] == t[1]) && (i > 2 ==> u[2] == t[2]);
  }

  lemma EncodeNothing()
    ensures Encode([]) == []
  {
  }

  lemma EncodeTriple(s: seq<bv8>, t: seq<bv8>)
    requires |s| % 3 == 0 && |t| == 3
    ensures Encode(s + t) == Encode(s) + Quad(t[0], t[1], t[2])
  {
    hide Quad;
    EncodeAppends(s, t);
    assert Encode(t[3..]) == [];
  }

  lemma EncodeRest(s: seq<bv8>, rest: seq<bv8>, a: bv8, b: bv8, c: bv8)
    requires |s| % 3 == 0 && 1 <= |rest| <= 2
    requires a == rest[0] && b == (if |rest| == 2 then rest[1] else 0) && c == 0
    ensures Encode(s + rest) == Encode(s) + Quad(a, b, c)[..|rest| + 1] + [PAD, PAD, PAD][..3 - |rest|]
  {
    hide Quad;
    EncodeAppends(s, rest);
    assert [PAD, PAD, PAD][..2] == [PAD, PAD];
    assert [PAD, PAD, PAD][..1] == [PAD];
  }
}
