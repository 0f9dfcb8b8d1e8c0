/** The cipher byte by byte, as the equations of FIPS 197 give it. */
module AesReference {
  import opened Gf256
  import opened AesTables
  import opened AesSBox
  import opened MixColumn
  import opened Aes

  /** The round constant of round `j`, a power of x. */
  function RoundConstant(j: nat): bv8
    requires j > 0
  {
    if j == 1 then 1 else XTime(RoundConstant(j - 1))
  }

  /** Byte `r` of word `i` of the expanded key, as in section 5.2. */
  function KeyByte(key: Block, i: nat, r: nat): bv8
    requires r < 4
  {
    if i < 4 then key[4 * i + r]
    else if i % 4 != 0 then Plus(KeyByte(key, i - 4, r), KeyByte(key, i - 1, r))
    else
      var turned := SBox(KeyByte(key, i - 1, (r + 1) % 4));
      Plus(KeyByte(key, i - 4, r), if r == 0 then Plus(turned, RoundConstant(i / 4)) else turned)
  }

  /** The byte in row `r` and column `c` of the state after round `n`, as in sections 5.1.1 to 5.1.4. */
  function StateByte(s: Block, key: Block, n: nat, r: nat, c: nat): bv8
    requires r < 4 && c < 4 && n <= 10
    decreases n, 0
  {
    if n == 0 then Plus(s[4 * c + r], KeyByte(key, c, r))
    else if n == 10 then Plus(Moved(s, key, 9, r, c), KeyByte(key, 40 + c, r))
    else
      Plus(Plus4(Product(Moved(s, key, n - 1, r, c), 2), Product(Moved(s, key, n - 1, (r + 1) % 4, c), 3),
                 Moved(s, key, n - 1, (r + 2) % 4, c), Moved(s, key, n - 1, (r + 3) % 4, c)),
           KeyByte(key, 4 * n + c, r))
  }

  /** The one that the S-box and the shift of rows bring to row `r` and column `c`. */
  function Moved(s: Block, key: Block, n: nat, r: nat, c: nat): bv8
    requires r < 4 && c < 4 && n < 10
    decreases n, 1
  {
    SBox(StateByte(s, key, n, r, (c + r) % 4))
  }

  // ----- The model is that -----

  lemma {:induction false} RconIs(j: nat)
    requires 1 <= j <= 10
    ensures Rcon(j) == RoundConstant(j)
  {
    hide XTime, Rcon;
    RconIsPower(1);
    if j > 1 {
      RconIs(j - 1);
      RconIsPower(j - 1);
    }
  }

  lemma {:induction false} ScheduleIsKeyByte(key: Block, i: nat, r: nat)
    requires i < 44 && r < 4
    ensures ScheduleWord(key, i)[r] == KeyByte(key, i, r)
    decreases i
  {
    hide ScheduleWord, KeyByte;
    WordUnfolds(key, i, r);
    ByteUnfolds(key, i, r);
    if i >= 4 {
      ScheduleIsKeyByte(key, i - 4, r);
      ScheduleIsKeyByte(key, i - 1, if i % 4 != 0 then r else (r + 1) % 4);
    }
  }

  /** What both definitions add to the byte of four words before. */
  function Added(w: Word, i: nat, r: nat): bv8
    requires 4 <= i < 44 && r < 4
  {
    if i % 4 != 0 then w[r]
    else if r == 0 then Plus(SBox(w[1]), RoundConstant(i / 4))
    else SBox(w[(r + 1) % 4])
  }

  lemma WordUnfolds(key: Block, i: nat, r: nat)
    requires i < 44 && r < 4
    ensures i < 4 ==> ScheduleWord(key, i)[r] == key[4 * i + r]
    ensures i >= 4
      ==> ScheduleWord(key, i)[r] == Plus(ScheduleWord(key, i - 4)[r], Added(ScheduleWord(key, i - 1), i, r))
  {
    hide SBox, Plus, Rcon, RoundConstant;
    if i >= 4 && i % 4 == 0 {
      RconIs(i / 4);
      PlusNothing(SBox(RotWord(ScheduleWord(key, i - 1))[r]));
    }
  }

  lemma ByteUnfolds(key: Block, i: nat, r: nat)
    requires i < 44 && r < 4
    ensures i < 4 ==> KeyByte(key, i, r) == key[4 * i + r]
    ensures i >= 4 && i % 4 != 0 ==> KeyByte(key, i, r) == Plus(KeyByte(key, i - 4, r), KeyByte(key, i - 1, r))
    ensures i >= 4 && i % 4 == 0 && r == 0
      ==> KeyByte(key, i, r) == Plus(KeyByte(key, i - 4, r), Plus(SBox(KeyByte(key, i - 1, 1)), RoundConstant(i / 4)))
    ensures i >= 4 && i % 4 == 0 && r > 0
      ==> KeyByte(key, i, r) == Plus(KeyByte(key, i - 4, r), SBox(KeyByte(key, i - 1, (r + 1) % 4)))
  {
    hide SBox, Plus, RoundConstant;
  }

  lemma PlusNothing(x: bv8)
    ensures Plus(x, 0) == x
  {
  }

  lemma RoundKeyByte(key: Block, n: nat, r: nat, c: nat)
    requires n <= 10 && r < 4 && c < 4
    ensures ScheduleByte(key, 16 * n + (4 * c + r)) == KeyByte(key, 4 * n + c, r)
  {
    hide ScheduleWord, KeyByte;
    var i := 4 * n + c;
    Position(i, r);
    ScheduleIsKeyByte(key, i, r);
    assert 16 * n + (4 * c + r) == 4 * i + r;
  }

  lemma Places(r: nat, c: nat)
    requires r < 4 && c < 4
    ensures Left(4 * c + r) == 4 * ((c + r) % 4) + r
    ensures Below(4 * c + r, 1) == 4 * c + (r + 1) % 4 && Below(4 * c + r, 2) == 4 * c + (r + 2) % 4
    ensures Below(4 * c + r, 3) == 4 * c + (r + 3) % 4
  {
    hide Left, Below;
    LeftIs(r, c);
    BelowIs(r, c, 1);
    BelowIs(r, c, 2);
    BelowIs(r, c, 3);
  }

  lemma LeftIs(r: nat, c: nat)
    requires r < 4 && c < 4
    ensures Left(4 * c + r) == 4 * ((c + r) % 4) + r
  {
    Position(c, r);
  }

  lemma BelowIs(r: nat, c: nat, n: nat)
    requires r < 4 && c < 4
    ensures Below(4 * c + r, n) == 4 * c + (r + n) % 4
  {
    Position(c, r);
    Position(c, r + n - (r + n) / 4 * 4);
  }

  /** One round, at one place: which bytes are mixed and what is added. */
  lemma RoundAt(t: Block, key: Block, n: nat, r: nat, c: nat)
    requires n <= 10 && r < 4 && c < 4
    ensures AddRoundKey(MixColumns(t), key, n)[4 * c + r]
         == Plus(Plus4(Product(t[4 * c + r], 2), Product(t[4 * c + (r + 1) % 4], 3), t[4 * c + (r + 2) % 4],
                       t[4 * c + (r + 3) % 4]), KeyByte(key, 4 * n + c, r))
    ensures AddRoundKey(t, key, n)[4 * c + r] == Plus(t[4 * c + r], KeyByte(key, 4 * n + c, r))
  {
    hide Plus, Plus4, Product, ScheduleByte, KeyByte, Below;
    Places(r, c);
    RoundKeyByte(key, n, r, c);
  }

  lemma {:induction false} RoundsAre(s: Block, key: Block, n: nat, r: nat, c: nat)
    requires n < 10 && r < 4 && c < 4
    ensures Rounds(s, key, n)[4 * c + r] == StateByte(s, key, n, r, c)
    decreases n, 0
  {
    hide SBox, Plus, Plus4, Product, KeyByte, AddRoundKey, MixColumns, ShiftRows, SubBytes, Moved;
    if n == 0 {
      RoundAt(s, key, 0, r, c);
    } else {
      RoundAt(ShiftRows(SubBytes(Rounds(s, key, n - 1))), key, n, r, c);
      MovedIs(s, key, n, r, c);
      MovedIs(s, key, n, (r + 1) % 4, c);
      MovedIs(s, key, n, (r + 2) % 4, c);
      MovedIs(s, key, n, (r + 3) % 4, c);
    }
  }

  lemma MovedIs(s: Block, key: Block, n: nat, r: nat, c: nat)
    requires 0 < n <= 10 && r < 4 && c < 4
    ensures ShiftRows(SubBytes(Rounds(s, key, n - 1)))[4 * c + r] == Moved(s, key, n - 1, r, c)
    decreases n - 1, 1
  {
    hide SBox, Rounds, StateByte, Left;
    Places(r, c);
    RoundsAre(s, key, n - 1, r, (c + r) % 4);
  }

  /** Every byte of the cipher is the one of the equations. */
  lemma CipherIsReference(s: Block, key: Block, r: nat, c: nat)
    requires r < 4 && c < 4
    ensures Cipher(s, key)[4 * c + r] == StateByte(s, key, 10, r, c)
  {
    hide SBox, Plus, KeyByte, Rounds, AddRoundKey, ShiftRows, SubBytes, Moved;
    RoundAt(ShiftRows(SubBytes(Rounds(s, key, 9))), key, 10, r, c);
    MovedIs(s, key, 10, r, c);
  }
}
