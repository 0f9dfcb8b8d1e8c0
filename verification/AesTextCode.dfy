/** The text functions of aes.c as loops over their buffers. */
module AesTextCode {
  import opened Options
  import opened Aes
  import opened AesCode
  import opened AesText
  import opened Base64
  import opened Base64Code

  /** The length of the string in a buffer; none if the search runs out of it. */
  method StringLength(buffer: array<bv8>) returns (r: Option<nat>)
    ensures r == StrLen(buffer[..])
  {
    var i := 0;
    while i < buffer.Length
      invariant i <= buffer.Length && NoZero(buffer[..i])
    {
      if buffer[i] == 0 {
        StringHasOneLength(buffer[..], i);
        return Some(i);
      }
      i := i + 1;
    }
    assert buffer[..i] == buffer[..];
    UnterminatedHasNoLength(buffer[..]);
    return None;
  }

  /** The two branches that pad, for less than a block and for more. */
  method Pad(input: array<bv8>, inLength: nat) returns (paddingInput: array<bv8>)
    requires 1 <= inLength <= input.Length
    ensures fresh(paddingInput) && paddingInput[..] == Padded(input[..inLength])
  {
    hide Padded, Hex;
    ghost var s := input[..inLength];
    var remainder := inLength % 16;
    if inLength < 16 {
      paddingInput := new bv8[16];
      for i := 0 to 16
        invariant forall k :: 0 <= k < i ==> paddingInput[k] == Padded(s)[k]
      {
        PaddedAt(s, i);
        if i < inLength {
          paddingInput[i] := input[i];
        } else {
          paddingInput[i] := Hex(16 - inLength);
        }
      }
    } else {
      var group := inLength / 16;
      var size := 16 * (group + 1);
      paddingInput := new bv8[size];
      var dif := size - inLength;
      for i := 0 to size
        invariant forall k :: 0 <= k < i ==> paddingInput[k] == Padded(s)[k]
      {
        PaddedAt(s, i);
        if i < inLength {
          paddingInput[i] := input[i];
        } else {
          if remainder == 0 {
            paddingInput[i] := Hex(0);
          } else {
            paddingInput[i] := Hex(dif);
          }
        }
      }
    }
  }

  /** Where the code finds the byte that pads. */
  lemma PaddedAt(s: seq<bv8>, i: nat)
    requires i < |Padded(s)|
    ensures Padded(s)[i]
         == if i < |s| then s[i] else if |s| < 16 && |s| > 0 then Hex(16 - |s|) else if |s| % 16 == 0 then Hex(0)
            else Hex(16 * (|s| / 16 + 1) - |s|)
  {
    hide Hex;
    PadCountIs(|s|);
  }

  lemma PadCountIs(n: nat)
    ensures 0 < n < 16 ==> PadCount(n) % 16 == 16 - n
    ensures n % 16 == 0 ==> PadCount(n) % 16 == 0
    ensures n % 16 != 0 ==> PadCount(n) % 16 == 16 * (n / 16 + 1) - n
  {
    assert n == 16 * (n / 16) + n % 16;
  }

  method Encrypt(aes: Aes128, input: array<bv8>, key: array<bv8>) returns (text: seq<bv8>)
    requires aes.roundKey.Length == 16 * (ROUNDS + 1) && key.Length >= 16 && key != aes.roundKey
    requires StrLen(input[..]).Some? && StrLen(input[..]).value >= 1 && input != aes.roundKey
    modifies aes, aes.roundKey
    ensures text == EncryptText(old(input[..StrLen(input[..]).value]), old(key[..16]))
  {
    hide StrLen, Padded, Aes.Cipher, EncryptBlocks, Encode;
    var length := StringLength(input);
    ghost var s := input[..length.value];
    var k: Block := key[..16];
    var paddingInput := Pad(input, length.value);
    var paddingInputLength := paddingInput.Length;
    ghost var p := paddingInput[..];
    var count := paddingInputLength / 16;
    var out := new bv8[paddingInputLength];
    NothingEncrypted(k);
    for i := 0 to count
      invariant key[..16] == k && paddingInput[..] == p
      invariant out[..16 * i] == EncryptBlocks(p[..16 * i], k)
    {
      aes.EcbEncrypt(paddingInput, i * 16, key, out, i * 16);
      OneMoreEncrypted(p[..16 * i], p[16 * i..16 * i + 16], k);
      assert p[..16 * (i + 1)] == p[..16 * i] + p[16 * i..16 * i + 16];
      assert out[..16 * (i + 1)] == out[..16 * i] + out[16 * i..16 * i + 16];
    }
    assert p[..16 * count] == p;
    text := EncodeBuffer(out, paddingInputLength);
  }

  lemma NothingEncrypted(key: Block)
    ensures EncryptBlocks([], key) == []
    ensures DecryptBlocks([], key) == []
  {
  }

  lemma {:induction false} OneMoreEncrypted(s: seq<bv8>, block: seq<bv8>, key: Block)
    requires |s| % 16 == 0 && |block| == 16
    ensures EncryptBlocks(s + block, key) == EncryptBlocks(s, key) + Aes.Cipher(block, key)
  {
    hide Aes.Cipher;
    if s == [] {
      assert s + block == block;
      assert block[..16] == block && block[16..] == [];
    } else {
      OneMoreEncrypted(s[16..], block, key);
      assert (s + block)[..16] == s[..16];
      assert (s + block)[16..] == s[16..] + block;
    }
  }

  lemma {:induction false} OneMoreDecrypted(s: seq<bv8>, block: seq<bv8>, key: Block)
    requires |s| % 16 == 0 && |block| == 16
    ensures DecryptBlocks(s + block, key) == DecryptBlocks(s, key) + Aes.InvCipher(block, key)
  {
    hide Aes.InvCipher;
    if s == [] {
      assert s + block == block;
      assert block[..16] == block && block[16..] == [];
    } else {
      OneMoreDecrypted(s[16..], block, key);
      assert (s + block)[..16] == s[..16];
      assert (s + block)[16..] == s[16..] + block;
    }
  }

  /** The search for the first byte that could be padding. */
  method FindPaddingIndex(str: array<bv8>, ghost n: nat) returns (index: nat)
    requires IsString(str[..], n)
    ensures index == PaddingIndex(str[..n])
  {
    var i := 0;
    var length := StringLength(str);
    StringHasOneLength(str[..], n);
    while i < length.value
      invariant i <= n && forall j :: 0 <= j < i ==> !IsPad(str[..n][j])
    {
      var c := str[i];
      if c != 0 {
        for k := 0 to 16
          invariant forall j :: 0 <= j < k ==> Hex(j) != c
        {
          if Hex(k) == c {
            InTable(c, k);
            PaddingIndexIs(str[..n], i);
            return i;
          }
        }
        NotInTable(c);
      }
      i := i + 1;
    }
    PaddingIndexIs(str[..n], i);
    return i;
  }

  lemma InTable(c: bv8, k: nat)
    requires k < 16 && Hex(k) == c
    ensures IsPad(c)
  {
  }

  lemma NotInTable(c: bv8)
    requires c != 0 && forall j :: 0 <= j < 16 ==> Hex(j) != c
    ensures !IsPad(c)
  {
    assert c != Hex(0) && c != Hex(1) && c != Hex(2) && c != Hex(3) && c != Hex(4) && c != Hex(5) && c != Hex(6)
        && c != Hex(7) && c != Hex(8) && c != Hex(9) && c != Hex(10) && c != Hex(11) && c != Hex(12) && c != Hex(13)
        && c != Hex(14) && c != Hex(15);
  }

  /** The decryption, up to where it leaves its buffers if it does. */
  method Decrypt(aes: Aes128, input: array<bv8>, key: array<bv8>) returns (r: Outcome<array<bv8>>)
    requires aes.roundKey.Length == 16 * (ROUNDS + 1) && key.Length >= 16 && key != aes.roundKey
    requires StrLen(input[..]).Some? && input != aes.roundKey
    modifies aes, aes.roundKey
    ensures
      match DecryptText(old(input[..StrLen(input[..]).value]), old(key[..16]))
      case Done(text) => r.Done? && fresh(r.value) && IsString(r.value[..], |text|) && r.value[..][..|text|] == text
      case NoEnd => r.NoEnd?
      case OutOfBounds => r.OutOfBounds?
  {
    hide StrLen, Decode, Aes.InvCipher, DecryptBlocks, PaddingIndex, NoZero, Decryptable;
    var length := StringLength(input);
    ghost var t := input[..length.value];
    var k: Block := key[..16];
    var buffer := DecryptBuffer(aes, input, length.value, key);
    if buffer == None {
      return OutOfBounds;
    }
    var out := buffer.value;
    ghost var was := out[..];
    var end := StringLength(out);
    if end == None {
      return NoEnd;
    }
    ghost var n := end.value;
    var index := FindPaddingIndex(out, n);
    if index == 0 {
      return Done(out);
    }
    if index < end.value {
      for j := index to end.value
        invariant out[..index] == was[..index]
        invariant forall i :: index <= i < j ==> out[i] == 0
      {
        out[j] := 0;
      }
      ShorterString(was, out[..], index, n);
    } else {
      assert was[..n] == was[..index];
    }
    return Done(out);
  }

  lemma ShorterString(was: seq<bv8>, now: seq<bv8>, index: nat, n: nat)
    requires IsString(was, n) && index < n < |now| && now[..index] == was[..index] && now[index] == 0
    ensures IsString(now, index)
    ensures was[..n][..index] == now[..index]
  {
    forall k | 0 <= k < index
      ensures now[..index][k] != 0
    {
      assert was[..n][k] != 0;
      assert now[..index][k] == was[..index][k];
    }
  }

  /** The loop over the blocks. */
  method DecryptAll(aes: Aes128, input: array<bv8>, key: array<bv8>, out: array<bv8>, count: nat)
    requires aes.roundKey.Length == 16 * (ROUNDS + 1) && key.Length >= 16
    requires aes.roundKey != key && aes.roundKey != input && aes.roundKey != out && out != input && out != key
    requires 16 * count <= input.Length && 16 * count <= out.Length
    modifies aes, aes.roundKey, out
    ensures out[..16 * count] == DecryptBlocks(old(input[..16 * count]), old(key[..16]))
    ensures out[16 * count..] == old(out[16 * count..])
  {
    hide Aes.InvCipher, DecryptBlocks;
    ghost var s, was := input[..], out[..];
    ghost var k: Block := key[..16];
    NothingEncrypted(k);
    for i := 0 to count
      invariant key[..16] == k && input[..] == s
      invariant out[..16 * i] == DecryptBlocks(s[..16 * i], k)
      invariant out[16 * i..] == was[16 * i..]
    {
      aes.EcbDecrypt(input, i * 16, key, out, i * 16);
      OneMoreDecrypted(s[..16 * i], s[16 * i..16 * i + 16], k);
      assert s[..16 * (i + 1)] == s[..16 * i] + s[16 * i..16 * i + 16];
      assert out[..16 * (i + 1)] == out[..16 * i] + out[16 * i..16 * i + 16];
      assert was[16 * i..][16..] == was[16 * (i + 1)..];
    }
  }

  /** The decryption up to the search for padding; none if a block is not all in the buffers. */
  method DecryptBuffer(aes: Aes128, input: array<bv8>, length: nat, key: array<bv8>) returns (r: Option<array<bv8>>)
    requires aes.roundKey.Length == 16 * (ROUNDS + 1) && key.Length >= 16 && key != aes.roundKey
    requires length <= input.Length && input != aes.roundKey
    modifies aes, aes.roundKey
    ensures r.Some? <==> Decryptable(old(input[..length]))
    ensures r.Some? ==> fresh(r.value) && r.value[..] == DecryptedBuffer(old(input[..length]), old(key[..16]))
  {
    hide Decode, Aes.InvCipher, DecryptBlocks;
    ghost var t := input[..length];
    var k: Block := key[..16];
    var dec, decsize := DecodeBuffer(input, length);
    var inputDesBase64 := new bv8[|dec| + 1](i requires 0 <= i < |dec| + 1 => if i < |dec| then dec[i] else 0);
    assert inputDesBase64[..] == Decoded(t);
    var inputLength := length / 4 * 3;
    var out := new bv8[inputLength](_ => 0);
    var count := inputLength / 16;
    if count <= 0 {
      count := 1;
    }
    if 16 * count > inputDesBase64.Length || 16 * count > out.Length {
      return None;
    }
    DecryptAll(aes, inputDesBase64, key, out, count);
    assert out[..] == out[..16 * count] + out[16 * count..];
    return Some(out);
  }
}
