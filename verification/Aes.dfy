/** AES with a 128-bit key, as section 5 of FIPS 197 gives it: the transformations, the key schedule, the cipher and its
    inverse. Byte `4 * c + r` of a block is row `r` of column `c` of the state. */
module Aes {
  import opened Gf256
  import opened AesTables
  import opened MixColumn

  type Block = s: seq<bv8> | |s| == 16 witness seq(16, _ => 0)

  const ROUNDS: nat := 10

  // ----- The transformations -----

  function SubBytes(s: Block): Block { seq(16, k requires 0 <= k < 16 => SBox(s[k])) }

  function InvSubBytes(s: Block): Block { seq(16, k requires 0 <= k < 16 => InvSBox(s[k])) }

  function Wrap(column: nat): nat { if column < 4 then column else column - 4 }

  /** The position that row `r` reads, in moving `r` columns to the left. */
  function Left(k: nat): nat
    requires k < 16
    ensures Left(k) < 16
  {
    4 * Wrap(k / 4 + k % 4) + k % 4
  }

  /** The position that it reads in moving back. */
  function Right(k: nat): nat
    requires k < 16
    ensures Right(k) < 16
  {
    4 * Wrap(k / 4 + 4 - k % 4) + k % 4
  }

  lemma LeftRight(k: nat)
    requires k < 16
    ensures Left(Right(k)) == k
  {
    Position(Wrap(k / 4 + 4 - k % 4), k % 4);
  }

  lemma RightLeft(k: nat)
    requires k < 16
    ensures Right(Left(k)) == k
  {
    Position(Wrap(k / 4 + k % 4), k % 4);
  }

  lemma Position(c: nat, r: nat)
    requires r < 4
    ensures (4 * c + r) / 4 == c && (4 * c + r) % 4 == r
  {
  }

  /** Row `r` moves `r` columns to the left. */
  function ShiftRows(s: Block): Block { seq(16, k requires 0 <= k < 16 => s[Left(k)]) }

  function InvShiftRows(s: Block): Block { seq(16, k requires 0 <= k < 16 => s[Right(k)]) }

  /** The position `n` rows below position `k` in its column, going round. */
  function Below(k: nat, n: nat): nat
    requires k < 16
    ensures Below(k, n) < 16
  {
    k / 4 * 4 + (k + n) % 4
  }

  function MixColumns(s: Block): Block {
    seq(16, k requires 0 <= k < 16 => MixedByte(s[k], s[Below(k, 1)], s[Below(k, 2)], s[Below(k, 3)]))
  }

  function InvMixColumns(s: Block): Block {
    seq(16, k requires 0 <= k < 16 => UnmixedByte(s[k], s[Below(k, 1)], s[Below(k, 2)], s[Below(k, 3)]))
  }

  function AddRoundKey(s: Block, key: Block, round: nat): Block
    requires round <= ROUNDS
  {
    seq(16, k requires 0 <= k < 16 => Plus(s[k], ScheduleByte(key, 16 * round + k)))
  }

  // ----- The key schedule -----

  type Word = w: seq<bv8> | |w| == 4 witness [0, 0, 0, 0]

  function SubWord(w: Word): Word { [SBox(w[0]), SBox(w[1]), SBox(w[2]), SBox(w[3])] }

  function RotWord(w: Word): Word { [w[1], w[2], w[3], w[0]] }

  function PlusWord(v: Word, w: Word): Word { [Plus(v[0], w[0]), Plus(v[1], w[1]), Plus(v[2], w[2]), Plus(v[3], w[3])] }

  /** Word `i` of the expanded key, as in section 5.2. */
  function ScheduleWord(key: Block, i: nat): Word
    requires i < 4 * (ROUNDS + 1)
  {
    if i < 4 then key[4 * i..4 * i + 4]
    else if i % 4 == 0 then
      PlusWord(ScheduleWord(key, i - 4), PlusWord(SubWord(RotWord(ScheduleWord(key, i - 1))), [Rcon(i / 4), 0, 0, 0]))
    else
      PlusWord(ScheduleWord(key, i - 4), ScheduleWord(key, i - 1))
  }

  function ScheduleByte(key: Block, k: nat): bv8
    requires k < 16 * (ROUNDS + 1)
  {
    ScheduleWord(key, k / 4)[k % 4]
  }

  /** The first four words that section A.1 of FIPS 197 expands its key by. */
  lemma ExpansionExample(key: Block)
    requires key == [0x2b, 0x7e, 0x15, 0x16, 0x28, 0xae, 0xd2, 0xa6, 0xab, 0xf7, 0x15, 0x88, 0x09, 0xcf, 0x4f, 0x3c]
    ensures ScheduleWord(key, 4) == [0xa0, 0xfa, 0xfe, 0x17] && ScheduleWord(key, 5) == [0x88, 0x54, 0x2c, 0xb1]
    ensures ScheduleWord(key, 6) == [0x23, 0xa3, 0x39, 0x39] && ScheduleWord(key, 7) == [0x2a, 0x6c, 0x76, 0x05]
  {
    hide SBox;
    assert ScheduleWord(key, 0) == [0x2b, 0x7e, 0x15, 0x16] && ScheduleWord(key, 1) == [0x28, 0xae, 0xd2, 0xa6];
    assert ScheduleWord(key, 2) == [0xab, 0xf7, 0x15, 0x88] && ScheduleWord(key, 3) == [0x09, 0xcf, 0x4f, 0x3c];
    SubstitutionExample();
  }

  lemma SubstitutionExample()
    ensures SubWord(RotWord([0x09, 0xcf, 0x4f, 0x3c])) == [0x8a, 0x84, 0xeb, 0x01]
  {
  }

  lemma PlusWordBack(v: Word, w: Word)
    ensures PlusWord(PlusWord(v, w), w) == v
  {
  }

  /** A word of the schedule is what was added to the one four back. */
  lemma ScheduleWordBack(key: Block, i: nat)
    requires 4 <= i < 4 * (ROUNDS + 1)
    ensures ScheduleWord(key, i - 4) == PlusWord(ScheduleWord(key, i), Added(ScheduleWord(key, i - 1), i))
  {
    hide SubWord, RotWord, PlusWord, Rcon;
    PlusWordBack(ScheduleWord(key, i - 4), Added(ScheduleWord(key, i - 1), i));
  }

  function Added(w: Word, i: nat): Word
    requires 4 <= i < 4 * (ROUNDS + 1)
  {
    if i % 4 == 0 then PlusWord(SubWord(RotWord(w)), [Rcon(i / 4), 0, 0, 0]) else w
  }

  /** The expansion loses nothing: two keys with one round key in common are the same key. */
  lemma {:induction false} RoundKeyTellsKey(key: Block, other: Block, r: nat)
    requires r <= ROUNDS
    requires ScheduleWord(key, 4 * r) == ScheduleWord(other, 4 * r)
    requires ScheduleWord(key, 4 * r + 1) == ScheduleWord(other, 4 * r + 1)
    requires ScheduleWord(key, 4 * r + 2) == ScheduleWord(other, 4 * r + 2)
    requires ScheduleWord(key, 4 * r + 3) == ScheduleWord(other, 4 * r + 3)
    ensures key == other
  {
    hide ScheduleWord, Added, PlusWord;
    if r == 0 {
      FirstWords(key);
      FirstWords(other);
    } else {
      var i := 4 * r;
      ScheduleWordBack(key, i + 3);
      ScheduleWordBack(other, i + 3);
      ScheduleWordBack(key, i + 2);
      ScheduleWordBack(other, i + 2);
      ScheduleWordBack(key, i + 1);
      ScheduleWordBack(other, i + 1);
      ScheduleWordBack(key, i);
      ScheduleWordBack(other, i);
      RoundKeyTellsKey(key, other, r - 1);
    }
  }

  lemma FirstWords(key: Block)
    ensures key == ScheduleWord(key, 0) + ScheduleWord(key, 1) + ScheduleWord(key, 2) + ScheduleWord(key, 3)
  {
  }

  // ----- The cipher and its inverse -----

  /** The state after round `r`, one of those that mix columns. */
  function Rounds(s: Block, key: Block, r: nat): Block
    requires r < ROUNDS
  {
    if r == 0 then AddRoundKey(s, key, 0)
    else AddRoundKey(MixColumns(ShiftRows(SubBytes(Rounds(s, key, r - 1)))), key, r)
  }

  function Cipher(s: Block, key: Block): Block {
    AddRoundKey(ShiftRows(SubBytes(Rounds(s, key, ROUNDS - 1))), key, ROUNDS)
  }

  /** The state when the inverse cipher has been through the rounds down to `r`. */
  function InvRounds(s: Block, key: Block, r: nat): Block
    requires 1 <= r <= ROUNDS
    decreases ROUNDS - r
  {
    if r == ROUNDS then AddRoundKey(s, key, ROUNDS)
    else InvMixColumns(AddRoundKey(InvSubBytes(InvShiftRows(InvRounds(s, key, r + 1))), key, r))
  }

  function InvCipher(s: Block, key: Block): Block {
    AddRoundKey(InvSubBytes(InvShiftRows(InvRounds(s, key, 1))), key, 0)
  }

  // ----- Each transformation undoes its inverse, both ways -----

  lemma SubBytesUndone(s: Block)
    ensures InvSubBytes(SubBytes(s)) == s
    ensures SubBytes(InvSubBytes(s)) == s
  {
    hide SBox, InvSBox;
    forall k | 0 <= k < 16
      ensures InvSBox(SBox(s[k])) == s[k] && SBox(InvSBox(s[k])) == s[k]
    {
      SubUndone(s[k]);
      InvSubUndone(s[k]);
    }
  }

  lemma ShiftRowsUndone(s: Block)
    ensures InvShiftRows(ShiftRows(s)) == s
    ensures ShiftRows(InvShiftRows(s)) == s
  {
    hide Left, Right;
    forall k | 0 <= k < 16
      ensures s[Left(Right(k))] == s[k] && s[Right(Left(k))] == s[k]
    {
      LeftRight(k);
      RightLeft(k);
    }
  }

  lemma AddRoundKeyUndone(s: Block, key: Block, round: nat)
    requires round <= ROUNDS
    ensures AddRoundKey(AddRoundKey(s, key, round), key, round) == s
  {
    forall k | 0 <= k < 16
      ensures Plus(Plus(s[k], ScheduleByte(key, 16 * round + k)), ScheduleByte(key, 16 * round + k)) == s[k]
    {
      PlusTwice(s[k], ScheduleByte(key, 16 * round + k));
    }
  }

  lemma BelowBelow(k: nat, n: nat, m: nat)
    requires k < 16
    ensures Below(Below(k, n), m) == Below(k, n + m)
  {
    var c, r := k / 4, (k + n) % 4;
    Position(c, r);
    assert ((4 * c + r) + m) % 4 == (k + (n + m)) % 4;
  }

  /** Going round a column. */
  lemma BelowGoesRound(k: nat, n: nat)
    requires k < 16
    ensures Below(k, n + 4) == Below(k, n)
    ensures Below(k, 0) == k
  {
  }

  lemma RoundAColumn(k: nat)
    requires k < 16
    ensures Below(Below(k, 1), 1) == Below(k, 2) && Below(Below(k, 1), 2) == Below(k, 3) && Below(Below(k, 1), 3) == k
    ensures Below(Below(k, 2), 1) == Below(k, 3) && Below(Below(k, 2), 2) == k && Below(Below(k, 2), 3) == Below(k, 1)
    ensures Below(Below(k, 3), 1) == k && Below(Below(k, 3), 2) == Below(k, 1) && Below(Below(k, 3), 3) == Below(k, 2)
  {
    hide Below;
    BelowBelow(k, 1, 1);
    BelowBelow(k, 1, 2);
    BelowBelow(k, 1, 3);
    BelowBelow(k, 2, 1);
    BelowBelow(k, 2, 2);
    BelowBelow(k, 2, 3);
    BelowBelow(k, 3, 1);
    BelowBelow(k, 3, 2);
    BelowBelow(k, 3, 3);
    BelowGoesRound(k, 0);
    BelowGoesRound(k, 1);
    BelowGoesRound(k, 2);
  }

  lemma UnmixedMixedAt(s: Block, k: nat)
    requires k < 16
    ensures InvMixColumns(MixColumns(s))[k] == s[k]
  {
    hide MixedByte, UnmixedByte, Below;
    var k1, k2, k3 := Below(k, 1), Below(k, 2), Below(k, 3);
    RoundAColumn(k);
    UnmixUndoesMix(s[k], s[k1], s[k2], s[k3]);
  }

  lemma MixColumnsUndone(s: Block)
    ensures InvMixColumns(MixColumns(s)) == s
  {
    hide MixColumns, InvMixColumns;
    forall k | 0 <= k < 16
      ensures InvMixColumns(MixColumns(s))[k] == s[k]
    {
      UnmixedMixedAt(s, k);
    }
  }

  lemma MixedUnmixedAt(s: Block, k: nat)
    requires k < 16
    ensures MixColumns(InvMixColumns(s))[k] == s[k]
  {
    hide UnmixedByte, MixedByte, Below;
    var k1, k2, k3 := Below(k, 1), Below(k, 2), Below(k, 3);
    RoundAColumn(k);
    MixUndoesUnmix(s[k], s[k1], s[k2], s[k3]);
  }

  lemma InvMixColumnsUndone(s: Block)
    ensures MixColumns(InvMixColumns(s)) == s
  {
    hide InvMixColumns, MixColumns;
    forall k | 0 <= k < 16
      ensures MixColumns(InvMixColumns(s))[k] == s[k]
    {
      MixedUnmixedAt(s, k);
    }
  }

  // ----- The cipher is a permutation of the blocks, for every key -----

  /** Each stage of the inverse cipher meets the state that the matching stage of the cipher left. */
  lemma {:induction false} StagesCancel(s: Block, key: Block, r: nat)
    requires 1 <= r <= ROUNDS
    ensures InvRounds(Cipher(s, key), key, r) == ShiftRows(SubBytes(Rounds(s, key, r - 1)))
    decreases ROUNDS - r
  {
    hide ShiftRows, SubBytes, InvShiftRows, InvSubBytes, MixColumns, InvMixColumns, AddRoundKey;
    var t := ShiftRows(SubBytes(Rounds(s, key, r - 1)));
    if r == ROUNDS {
      AddRoundKeyUndone(t, key, ROUNDS);
    } else {
      StagesCancel(s, key, r + 1);
      var u := Rounds(s, key, r);
      ShiftRowsUndone(SubBytes(u));
      SubBytesUndone(u);
      AddRoundKeyUndone(MixColumns(t), key, r);
      MixColumnsUndone(t);
    }
  }

  /** Decrypting an encrypted block returns it. */
  lemma DecryptUndoesEncrypt(s: Block, key: Block)
    ensures InvCipher(Cipher(s, key), key) == s
  {
    hide ShiftRows, SubBytes, InvShiftRows, InvSubBytes, MixColumns, InvMixColumns, AddRoundKey;
    StagesCancel(s, key, 1);
    var u := Rounds(s, key, 0);
    ShiftRowsUndone(SubBytes(u));
    SubBytesUndone(u);
    AddRoundKeyUndone(s, key, 0);
  }

  lemma {:induction false} InvStagesCancel(s: Block, key: Block, r: nat)
    requires r < ROUNDS
    ensures Rounds(InvCipher(s, key), key, r) == InvSubBytes(InvShiftRows(InvRounds(s, key, r + 1)))
  {
    hide ShiftRows, SubBytes, InvShiftRows, InvSubBytes, MixColumns, InvMixColumns, AddRoundKey;
    var t := InvSubBytes(InvShiftRows(InvRounds(s, key, r + 1)));
    if r == 0 {
      AddRoundKeyUndone(t, key, 0);
    } else {
      InvStagesCancel(s, key, r - 1);
      var u := InvRounds(s, key, r);
      SubBytesUndone(InvShiftRows(u));
      ShiftRowsUndone(u);
      InvMixColumnsUndone(AddRoundKey(t, key, r));
      AddRoundKeyUndone(t, key, r);
    }
  }

  /** Encrypting a decrypted block returns it. */
  lemma EncryptUndoesDecrypt(s: Block, key: Block)
    ensures Cipher(InvCipher(s, key), key) == s
  {
    hide ShiftRows, SubBytes, InvShiftRows, InvSubBytes, MixColumns, InvMixColumns, AddRoundKey;
    InvStagesCancel(s, key, ROUNDS - 1);
    var u := InvRounds(s, key, ROUNDS);
    SubBytesUndone(InvShiftRows(u));
    ShiftRowsUndone(u);
    AddRoundKeyUndone(s, key, ROUNDS);
  }
}
