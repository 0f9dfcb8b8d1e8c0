/** The text pipeline on top of the cipher: padding, blocks, base64, and what decryption takes for padding. */
module AesText {
  import opened Options
  import opened Aes
  import opened Base64

  /** What pads and what the decryption takes for padding; sixteen comes first. */
  const HEX: seq<bv8> :=
    [0x10, 0x01, 0x02, 0x03, 0x04, 0x05, 0x06, 0x07, 0x08, 0x09, 0x0a, 0x0b, 0x0c, 0x0d, 0x0e, 0x0f]

  function Hex(k: nat): bv8
    requires k < 16
  {
    HEX[k]
  }

  // ----- C strings -----

  predicate NoZero(s: seq<bv8>) { forall k :: 0 <= k < |s| ==> s[k] != 0 }

  /** Whether a buffer holds a string of `n` characters. */
  predicate IsString(buffer: seq<bv8>, n: nat) { n < |buffer| && NoZero(buffer[..n]) && buffer[n] == 0 }

  /** The length of the string in a buffer; none if nothing ends it. */
  function StrLen(buffer: seq<bv8>): (r: Option<nat>)
    ensures r.Some? ==> IsString(buffer, r.value)
    ensures r.None? ==> NoZero(buffer)
  {
    if buffer == [] then None
    else if buffer[0] == 0 then Some(0)
    else
      match StrLen(buffer[1..])
      case None => None
      case Some(n) => assert buffer[..n + 1] == [buffer[0]] + buffer[1..][..n]; Some(n + 1)
  }

  lemma StringHasOneLength(buffer: seq<bv8>, n: nat)
    requires IsString(buffer, n)
    ensures StrLen(buffer) == Some(n)
  {
    assert !(StrLen(buffer) == None);
    assert !(StrLen(buffer).value < n) && !(n < StrLen(buffer).value);
  }

  // ----- Padding, as in section 6.3 of RFC 5652 -----

  /** How many bytes pad `n` bytes: always at least one. */
  function PadCount(n: nat): (p: nat)
    ensures 1 <= p <= 16 && (n + p) % 16 == 0
  {
    16 - n % 16
  }

  function Padded(s: seq<bv8>): (t: seq<bv8>)
    ensures |t| % 16 == 0 && |t| == 16 * (|s| / 16 + 1)
  {
    s + seq(PadCount(|s|), _ => Hex(PadCount(|s|) % 16))
  }

  // ----- Blocks -----

  function EncryptBlocks(s: seq<bv8>, key: Block): (t: seq<bv8>)
    requires |s| % 16 == 0
    ensures |t| == |s|
  {
    if s == [] then [] else Cipher(s[..16], key) + EncryptBlocks(s[16..], key)
  }

  function DecryptBlocks(s: seq<bv8>, key: Block): (t: seq<bv8>)
    requires |s| % 16 == 0
    ensures |t| == |s|
  {
    if s == [] then [] else InvCipher(s[..16], key) + DecryptBlocks(s[16..], key)
  }

  // ----- The two functions -----

  function EncryptText(s: seq<bv8>, key: Block): seq<bv8> { Encode(EncryptBlocks(Padded(s), key)) }

  /** How many blocks decryption makes of a text of `length` characters. */
  function BlockCount(length: nat): nat {
    var count := length / 4 * 3 / 16;
    if count <= 0 then 1 else count
  }

  /** What decryption reads blocks from: the decoded bytes and the zero that ends them. */
  function Decoded(t: seq<bv8>): (d: seq<bv8>)
    ensures |d| == |Decode(t)| + 1
  {
    Decode(t) + [0]
  }

  /** Whether decryption keeps to its buffers: it has whole blocks to read, and room to write them. */
  predicate Decryptable(t: seq<bv8>) {
    && 16 * BlockCount(|t|) <= |t| / 4 * 3
    && 16 * BlockCount(|t|) <= |Decoded(t)|
  }

  /** The output buffer before the padding is looked for. */
  function DecryptedBuffer(t: seq<bv8>, key: Block): (out: seq<bv8>)
    requires Decryptable(t)
    ensures |out| == |t| / 4 * 3
  {
    var n := 16 * BlockCount(|t|);
    DecryptBlocks(Decoded(t)[..n], key) + seq(|t| / 4 * 3 - n, _ => 0)
  }

  predicate IsPad(c: bv8) { 1 <= c <= 0x10 }

  /** The first byte that could be padding. */
  function PaddingIndex(s: seq<bv8>): (i: nat)
    ensures i <= |s|
    ensures forall k :: 0 <= k < i ==> !IsPad(s[k])
    ensures i < |s| ==> IsPad(s[i])
  {
    if s == [] || IsPad(s[0]) then 0 else 1 + PaddingIndex(s[1..])
  }

  /** What is left of a string; one that starts with padding is left alone. */
  function Stripped(s: seq<bv8>): seq<bv8> {
    var i := PaddingIndex(s);
    if i == 0 then s else s[..i]
  }

  /** How decryption ends: with a string, or in a search for the end of one that leaves the buffer, or because a block
      is not all in the buffers. */
  datatype Outcome<T> = Done(value: T) | NoEnd | OutOfBounds

  function DecryptText(t: seq<bv8>, key: Block): Outcome<seq<bv8>> {
    if !Decryptable(t) then OutOfBounds
    else
      var out := DecryptedBuffer(t, key);
      match StrLen(out)
      case None => NoEnd
      case Some(n) => Done(Stripped(out[..n]))
  }

  // ----- Properties -----

  lemma PadByte(p: nat)
    requires 1 <= p <= 16
    ensures Hex(p % 16) as int == p
    ensures IsPad(Hex(p % 16))
  {
  }

  /** The padded input is the input and then `p` times the byte `p`. */
  lemma PaddedIs(s: seq<bv8>)
    ensures Padded(s)[..|s|] == s
    ensures forall k :: |s| <= k < |Padded(s)| ==> Padded(s)[k] as int == 16 - |s| % 16 && IsPad(Padded(s)[k])
  {
    PadByte(PadCount(|s|));
  }

  lemma {:induction false} BlocksComeBack(s: seq<bv8>, key: Block)
    requires |s| % 16 == 0
    ensures DecryptBlocks(EncryptBlocks(s, key), key) == s
  {
    hide Cipher, InvCipher;
    if s == [] {
    } else {
      BlocksComeBack(s[16..], key);
      DecryptUndoesEncrypt(s[..16], key);
      var t := EncryptBlocks(s, key);
      assert t[..16] == Cipher(s[..16], key);
      assert t[16..] == EncryptBlocks(s[16..], key);
    }
  }

  /** Block `k` is encrypted by itself, and by itself decrypted. */
  lemma {:induction false} BlocksAreSeparate(s: seq<bv8>, key: Block, k: nat)
    requires |s| % 16 == 0 && 16 * k < |s|
    ensures EncryptBlocks(s, key)[16 * k..16 * k + 16] == Cipher(s[16 * k..16 * k + 16], key)
    ensures DecryptBlocks(s, key)[16 * k..16 * k + 16] == InvCipher(s[16 * k..16 * k + 16], key)
    decreases k
  {
    hide Cipher, InvCipher;
    if k > 0 {
      BlocksAreSeparate(s[16..], key, k - 1);
      assert s[16..][16 * (k - 1)..16 * (k - 1) + 16] == s[16 * k..16 * k + 16];
      LaterBlock(Cipher(s[..16], key), EncryptBlocks(s[16..], key), k);
      LaterBlock(InvCipher(s[..16], key), DecryptBlocks(s[16..], key), k);
    } else {
      assert s[16 * 0..16 * 0 + 16] == s[..16];
    }
  }

  lemma LaterBlock(b: seq<bv8>, t: seq<bv8>, k: nat)
    requires |b| == 16 && k > 0 && 16 * k <= |t|
    ensures (b + t)[16 * k..16 * k + 16] == t[16 * (k - 1)..16 * (k - 1) + 16]
  {
  }

  /** What an encrypted text decodes to. */
  lemma EncryptedTextIs(s: seq<bv8>, key: Block)
    ensures Decode(EncryptText(s, key)) == EncryptBlocks(Padded(s), key)
  {
    hide Padded, EncryptBlocks, Encode, Decode;
    RoundTrip(EncryptBlocks(Padded(s), key));
  }

  /** The length of the base64 text gives the number of blocks back. */
  lemma BlocksAreCounted(b: nat)
    requires b > 0
    ensures BlockCount((16 * b + 2) / 3 * 4) == b
    ensures (16 * b + 2) / 3 * 4 / 4 * 3 == 16 * b + (3 - b % 3) % 3
  {
    var q := (16 * b + 2) / 3;
    assert q * 4 / 4 == q;
  }

  /** Encrypted text can be decrypted, and the buffer is the padded input followed by none, one or two zeros. */
  lemma BufferComesBack(s: seq<bv8>, key: Block)
    ensures
      var t, b := EncryptText(s, key), |s| / 16 + 1;
      && Decryptable(t)
      && DecryptedBuffer(t, key) == Padded(s) + seq((3 - b % 3) % 3, _ => 0)
  {
    hide Padded, EncryptBlocks, DecryptBlocks, BlockCount, Encode, Decode;
    var x, t, b := EncryptBlocks(Padded(s), key), EncryptText(s, key), |s| / 16 + 1;
    assert |t| == (16 * b + 2) / 3 * 4 by { EncodingIsText(x); }
    assert Decode(t) == x by { RoundTrip(x); }
    assert BlockCount(|t|) == b && |t| / 4 * 3 == 16 * b + (3 - b % 3) % 3 by { BlocksAreCounted(b); }
    assert DecryptBlocks(x, key) == Padded(s) by { BlocksComeBack(Padded(s), key); }
    assert Decoded(t)[..16 * b] == x;
  }

  /** Decryption keeps to its buffers exactly if the text has at least 24 characters and, before the first that is no
      symbol, enough of them for all blocks but one byte. */
  lemma DecryptableIff(t: seq<bv8>)
    ensures Decryptable(t) <==> |t| >= 24 && 16 * BlockCount(|t|) <= 3 * SymbolCount(t) / 4 + 1
  {
    hide Decode, SymbolCount;
    DecodedSize(t);
  }

  /** What encrypting and decrypting a string makes of it: the buffer has no end if the number of blocks is a multiple
      of three, and a byte up to sixteen is taken for the beginning of the padding. */
  lemma DecryptionOfEncryption(s: seq<bv8>, key: Block)
    requires |s| >= 1 && NoZero(s)
    ensures DecryptText(EncryptText(s, key), key)
         == if (|s| / 16 + 1) % 3 == 0 then NoEnd else Done(if IsPad(s[0]) then Padded(s) else s[..PaddingIndex(s)])
  {
    hide EncryptText, DecryptedBuffer, Decryptable, StrLen, NoZero, Padded, PaddingIndex, IsPad;
    BufferComesBack(s, key);
    PaddedHasNoZero(s);
    var p, out := Padded(s), DecryptedBuffer(EncryptText(s, key), key);
    if (|s| / 16 + 1) % 3 == 0 {
      assert out == p;
      UnterminatedHasNoLength(out);
    } else {
      assert out[..|p|] == p;
      assert StrLen(out) == Some(|p|) by { hide NoZero; StringHasOneLength(out, |p|); }
      PaddingBegins(s);
      PaddingIndexIsZero(s);
    }
  }

  /** Byte `i` of what decryption reads: that of the decoding, and zero behind it. */
  function ByteRead(t: seq<bv8>, i: nat): bv8 { if i < |Decode(t)| then Decode(t)[i] else 0 }

  function BlockRead(t: seq<bv8>, k: nat): Block { seq(16, j requires 0 <= j < 16 => ByteRead(t, 16 * k + j)) }

  /** Whether block `k` of a buffer is the decryption of block `k` of those bytes. */
  predicate BlockIs(out: seq<bv8>, t: seq<bv8>, key: Block, k: nat) {
    16 * k + 16 <= |out| && out[16 * k..16 * k + 16] == InvCipher(BlockRead(t, k), key)
  }

  /** Each whole block is decrypted by itself, and nothing else is in the buffer. */
  lemma BufferIs(t: seq<bv8>, key: Block, k: nat)
    requires Decryptable(t)
    ensures k < BlockCount(|t|) ==> BlockIs(DecryptedBuffer(t, key), t, key, k)
    ensures 16 * BlockCount(|t|) <= k < |t| / 4 * 3 ==> DecryptedBuffer(t, key)[k] == 0
  {
    hide BlockCount, InvCipher, Decode, DecryptBlocks;
    var n := 16 * BlockCount(|t|);
    if k < BlockCount(|t|) {
      var d := Decoded(t)[..n];
      BlocksAreSeparate(d, key, k);
      BlockReadIs(t, k, n);
      EarlierPart(DecryptBlocks(d, key), seq(|t| / 4 * 3 - n, _ => 0), 16 * k);
    }
  }

  lemma BlockReadIs(t: seq<bv8>, k: nat, n: nat)
    requires 16 * k + 16 <= n <= |Decoded(t)|
    ensures Decoded(t)[..n][16 * k..16 * k + 16] == BlockRead(t, k)
  {
    hide Decode;
    var b := Decoded(t)[..n][16 * k..16 * k + 16];
    assert forall j :: 0 <= j < 16 ==> b[j] == Decoded(t)[16 * k + j] == ByteRead(t, 16 * k + j);
    assert b == BlockRead(t, k);
  }

  lemma EarlierPart(s: seq<bv8>, t: seq<bv8>, a: nat)
    requires a + 16 <= |s|
    ensures (s + t)[a..a + 16] == s[a..a + 16]
  {
  }

  /** Whether `r` is what is left of the string `s`: all before the first byte from one to sixteen, but all of it if
      that is the first byte of all. */
  predicate LeftOf(s: seq<bv8>, r: seq<bv8>) {
    if s != [] && 1 <= s[0] <= 16 then r == s
    else r <= s && (forall k :: 0 <= k < |r| ==> !(1 <= r[k] <= 16)) && (|r| < |s| ==> 1 <= s[|r|] <= 16)
  }

  /** What comes of any text: no string exactly if its buffer has no zero, and otherwise what is left of the bytes
      before the first zero. */
  lemma DecryptedTextIs(t: seq<bv8>, key: Block, n: nat, r: seq<bv8>)
    ensures DecryptText(t, key) == OutOfBounds <==> !Decryptable(t)
    ensures DecryptText(t, key) == NoEnd <==> Decryptable(t) && NoZero(DecryptedBuffer(t, key))
    ensures Decryptable(t) && IsString(DecryptedBuffer(t, key), n)
      ==> (DecryptText(t, key) == Done(r) <==> LeftOf(DecryptedBuffer(t, key)[..n], r))
  {
    hide DecryptedBuffer, Decryptable, NoZero;
    if Decryptable(t) {
      var out := DecryptedBuffer(t, key);
      if IsString(out, n) {
        assert StrLen(out) == Some(n) by { hide NoZero; StringHasOneLength(out, n); }
        StrippedIs(out[..n], r);
      }
      if NoZero(out) { UnterminatedHasNoLength(out); }
    }
  }

  lemma StrippedIs(s: seq<bv8>, r: seq<bv8>)
    ensures Stripped(s) == r <==> LeftOf(s, r)
  {
    if s != [] { PaddingIndexIsZero(s); }
    if LeftOf(s, r) && !(s != [] && IsPad(s[0])) {
      assert forall k :: 0 <= k < |r| ==> r[k] == s[k];
      PaddingIndexIs(s, |r|);
      assert s[..|r|] == r;
    }
  }

  lemma PaddingIndexIsZero(s: seq<bv8>)
    requires |s| >= 1
    ensures PaddingIndex(s) == 0 <==> IsPad(s[0])
  {
  }

  lemma UnterminatedHasNoLength(buffer: seq<bv8>)
    requires NoZero(buffer)
    ensures StrLen(buffer) == None
  {
    assert !StrLen(buffer).Some?;
  }

  lemma PaddedHasNoZero(s: seq<bv8>)
    requires NoZero(s)
    ensures NoZero(Padded(s))
  {
    PaddedIs(s);
    var p := Padded(s);
    forall k | 0 <= k < |p|
      ensures p[k] != 0
    {
      if k < |s| {
        assert p[..|s|][k] == s[k];
      } else {
        assert IsPad(p[k]);
      }
    }
  }

  /** The first byte taken for padding is in the string, or is where the padding begins. */
  lemma PaddingBegins(s: seq<bv8>)
    ensures PaddingIndex(Padded(s)) == PaddingIndex(s)
    ensures Padded(s)[..PaddingIndex(s)] == s[..PaddingIndex(s)]
  {
    PaddedIs(s);
    var p, i := Padded(s), PaddingIndex(s);
    assert IsPad(p[i]);
    PaddingIndexIs(p, i);
  }

  lemma PaddingIndexIs(s: seq<bv8>, i: nat)
    requires i <= |s| && (i < |s| ==> IsPad(s[i])) && forall k :: 0 <= k < i ==> !IsPad(s[k])
    ensures PaddingIndex(s) == i
  {
    assert !(PaddingIndex(s) < i) && !(i < PaddingIndex(s));
  }

  /** A string comes back exactly when the number of its padded blocks is no multiple of three and all of its bytes are
      above sixteen. */
  lemma ComesBackIff(s: seq<bv8>, key: Block)
    requires |s| >= 1 && NoZero(s)
    ensures DecryptText(EncryptText(s, key), key) == Done(s)
       <==> (|s| / 16 + 1) % 3 != 0 && forall k :: 0 <= k < |s| ==> s[k] > 0x10
  {
    hide EncryptText, DecryptText, Decryptable, Padded, IsPad;
    DecryptionOfEncryption(s, key);
    PadOrZero(s);
    var i := PaddingIndex(s);
    assert |Padded(s)| > |s|;
    if (forall k :: 0 <= k < |s| ==> s[k] > 0x10) {
      assert i == |s| && s[..i] == s;
    } else if !IsPad(s[0]) {
      assert i < |s| && |s[..i]| < |s|;
    }
  }

  lemma PadOrZero(s: seq<bv8>)
    requires NoZero(s)
    ensures forall k :: 0 <= k < |s| ==> (IsPad(s[k]) <==> s[k] <= 0x10)
  {
  }
}
