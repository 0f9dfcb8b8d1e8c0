/** The cipher as the code runs it: in place on the sixteen bytes of the output buffer that `state` points at, with the
    round keys in a table of their own. */
module AesCode {
  import opened Aes
  import opened AesTables
  import opened Gf256
  import opened MixColumn

  /** The code's static variables. `state` and `at` together are its pointer to the state. */
  class Aes128 {
    const roundKey: array<bv8>
    var keyBytes: array<bv8>
    var state: array<bv8>
    var at: nat

    ghost predicate Valid()
      reads this
    {
      && roundKey.Length == 16 * (ROUNDS + 1)
      && keyBytes.Length >= 16
      && state != roundKey && state != keyBytes && keyBytes != roundKey
      && at + 16 <= state.Length
    }

    /** What `state` points at. */
    ghost function State(): (s: Block)
      requires Valid()
      reads this, state
    {
      state[at..at + 16]
    }

    /** The rest of the output buffer, before and after. */
    ghost function Around(): (seq<bv8>, seq<bv8>)
      requires Valid()
      reads this, state
    {
      (state[..at], state[at + 16..])
    }

    /** Whether the round keys are those of `key`. */
    ghost predicate Expanded(key: Block)
      requires Valid()
      reads this, roundKey
    {
      forall k :: 0 <= k < 16 * (ROUNDS + 1) ==> roundKey[k] == ScheduleByte(key, k)
    }

    constructor ()
      ensures roundKey.Length == 16 * (ROUNDS + 1) && fresh(roundKey)
    {
      roundKey := new bv8[16 * (ROUNDS + 1)];
      keyBytes := new bv8[0];
      state := new bv8[0];
      at := 0;
    }

    // ----- Bytes of the state -----

    function Get(column: nat, row: nat): (b: bv8)
      requires Valid() && column < 4 && row < 4
      reads this, state
      ensures b == State()[4 * column + row]
    {
      state[at + 4 * column + row]
    }

    method Set(column: nat, row: nat, b: bv8)
      requires Valid() && column < 4 && row < 4
      modifies state
      ensures State() == old(State())[4 * column + row := b] && Around() == old(Around())
    {
      state[at + 4 * column + row] := b;
    }

    // ----- The key schedule -----

    /** Whether the first `i` words of the table are those of `key`. */
    ghost predicate ExpandedTo(key: Block, i: nat)
      requires roundKey.Length == 16 * (ROUNDS + 1) && i <= 4 * (ROUNDS + 1)
      reads roundKey
    {
      forall k :: 0 <= k < 4 * i ==> roundKey[k] == ScheduleByte(key, k)
    }

    method KeyExpansion(ghost key: Block)
      requires Valid() && key == keyBytes[..16]
      modifies roundKey
      ensures Valid() && Expanded(key)
    {
      hide ScheduleWord;
      for i := 0 to 4
        invariant ExpandedTo(key, i)
      {
        var b0, b1, b2, b3 := keyBytes[i * 4 + 0], keyBytes[i * 4 + 1], keyBytes[i * 4 + 2], keyBytes[i * 4 + 3];
        FirstWord(key, i);
        PutWord(i, b0, b1, b2, b3, key);
      }
      var tempa := new bv8[4];
      for i := 4 to 4 * (ROUNDS + 1)
        invariant ExpandedTo(key, i)
      {
        NextWord(i, tempa, key);
      }
    }

    /** The body of the loop over the words that the key does not give. */
    method NextWord(i: nat, tempa: array<bv8>, ghost key: Block)
      requires roundKey.Length == 16 * (ROUNDS + 1) && 4 <= i < 4 * (ROUNDS + 1)
      requires tempa.Length == 4 && tempa != roundKey
      requires ExpandedTo(key, i)
      modifies roundKey, tempa
      ensures ExpandedTo(key, i + 1)
    {
      hide ScheduleWord, ScheduleByte, Transformed, PlusWord, Gf256.Plus;
      ScheduleBytes(key, i - 1);
      for j := 0 to 4
        invariant roundKey[..] == old(roundKey[..])
        invariant forall k :: 0 <= k < j ==> tempa[k] == roundKey[(i - 1) * 4 + k]
      {
        tempa[j] := roundKey[(i - 1) * 4 + j];
      }
      assert tempa[..] == ScheduleWord(key, i - 1);
      Transform(i, tempa);
      var b0, b1, b2, b3 := AddedByte(i, 0, tempa), AddedByte(i, 1, tempa), AddedByte(i, 2, tempa),
          AddedByte(i, 3, tempa);
      ScheduleBytes(key, i - 4);
      LaterWord(key, i);
      AddedWord(ScheduleWord(key, i - 4), tempa[..]);
      PutWord(i, b0, b1, b2, b3, key);
    }

    function AddedByte(i: nat, j: nat, tempa: array<bv8>): bv8
      requires roundKey.Length == 16 * (ROUNDS + 1) && 4 <= i < 4 * (ROUNDS + 1)
      requires tempa.Length == 4 && j < 4
      reads roundKey, tempa
    {
      Plus(roundKey[(i - 4) * 4 + j], tempa[j])
    }

    /** The four assignments that store word `i`. */
    method PutWord(i: nat, b0: bv8, b1: bv8, b2: bv8, b3: bv8, ghost key: Block)
      requires roundKey.Length == 16 * (ROUNDS + 1) && i < 4 * (ROUNDS + 1)
      requires ExpandedTo(key, i) && ScheduleWord(key, i) == [b0, b1, b2, b3]
      modifies roundKey
      ensures ExpandedTo(key, i + 1)
    {
      hide ScheduleWord, ScheduleByte;
      roundKey[i * 4 + 0] := b0;
      roundKey[i * 4 + 1] := b1;
      roundKey[i * 4 + 2] := b2;
      roundKey[i * 4 + 3] := b3;
      ScheduleBytes(key, i);
    }

    /** What happens to the previous word before it is added. The branch for keys of more than six words is dead. */
    static method Transform(i: nat, tempa: array<bv8>)
      requires 4 <= i < 4 * (ROUNDS + 1) && tempa.Length == 4
      modifies tempa
      ensures tempa[..] == Transformed(i, old(tempa[..]))
    {
      hide SBox;
      if i % 4 == 0 {
        var k := tempa[0];
        tempa[0] := tempa[1];
        tempa[1] := tempa[2];
        tempa[2] := tempa[3];
        tempa[3] := k;
        tempa[0] := SBox(tempa[0]);
        tempa[1] := SBox(tempa[1]);
        tempa[2] := SBox(tempa[2]);
        tempa[3] := SBox(tempa[3]);
        tempa[0] := Plus(tempa[0], Rcon(i / 4));
        PlusZero(tempa[1]);
        PlusZero(tempa[2]);
        PlusZero(tempa[3]);
      }
    }

    method AddTo(column: nat, row: nat, b: bv8)
      requires Valid() && column < 4 && row < 4
      modifies state
      ensures State() == old(State())[4 * column + row := Plus(old(State())[4 * column + row], b)]
      ensures Around() == old(Around())
    {
      Set(column, row, Plus(Get(column, row), b));
    }

    // ----- The transformations -----

    method AddRoundKey(round: nat, ghost key: Block)
      requires Valid() && round <= ROUNDS && Expanded(key)
      modifies state
      ensures Valid() && Expanded(key) && Around() == old(Around())
      ensures State() == Aes.AddRoundKey(old(State()), key, round)
    {
      hide Gf256.Plus, ScheduleByte, Aes.AddRoundKey;
      ghost var s := State();
      ghost var t := Aes.AddRoundKey(s, key, round);
      for i := 0 to 4
        invariant Around() == old(Around())
        invariant forall k :: 4 * i <= k < 16 ==> State()[k] == s[k]
        invariant forall k :: 0 <= k < 4 * i ==> State()[k] == t[k]
      {
        for j := 0 to 4
          invariant Around() == old(Around())
          invariant forall k :: 4 * i + j <= k < 16 ==> State()[k] == s[k]
          invariant forall k :: 0 <= k < 4 * i + j ==> State()[k] == t[k]
        {
          AddTo(i, j, roundKey[round * 4 * 4 + i * 4 + j]);
          AddedAt(s, key, round, 4 * i + j);
        }
      }
    }

    method SubBytes()
      requires Valid()
      modifies state
      ensures Valid() && Around() == old(Around())
      ensures State() == Aes.SubBytes(old(State()))
    {
      hide SBox;
      ghost var s := State();
      for i := 0 to 4
        invariant Around() == old(Around())
        invariant forall k :: 0 <= k < 16 ==> State()[k] == if k % 4 < i then SBox(s[k]) else s[k]
      {
        for j := 0 to 4
          invariant Around() == old(Around())
          invariant forall k :: 0 <= k < 16 ==>
            State()[k] == if k % 4 < i || (k % 4 == i && k / 4 < j) then SBox(s[k]) else s[k]
        {
          Set(j, i, SBox(Get(j, i)));
        }
      }
    }

    method ShiftRows()
      requires Valid()
      modifies state
      ensures Valid() && Around() == old(Around())
      ensures State() == Aes.ShiftRows(old(State()))
    {
      hide Aes.ShiftRows;
      ghost var s := State();
      ShiftRow1();
      ShiftRow2();
      ShiftRow3();
      ShiftedRows(s);
    }

    method ShiftRow1()
      requires Valid()
      modifies state
      ensures Valid() && Around() == old(Around())
      ensures var s := old(State()); State() == s[1 := s[5]][5 := s[9]][9 := s[13]][13 := s[1]]
    {
      var temp := Get(0, 1);
      Set(0, 1, Get(1, 1));
      Set(1, 1, Get(2, 1));
      Set(2, 1, Get(3, 1));
      Set(3, 1, temp);
    }

    method ShiftRow2()
      requires Valid()
      modifies state
      ensures Valid() && Around() == old(Around())
      ensures var s := old(State()); State() == s[2 := s[10]][10 := s[2]][6 := s[14]][14 := s[6]]
    {
      var temp := Get(0, 2);
      Set(0, 2, Get(2, 2));
      Set(2, 2, temp);
      temp := Get(1, 2);
      Set(1, 2, Get(3, 2));
      Set(3, 2, temp);
    }

    method ShiftRow3()
      requires Valid()
      modifies state
      ensures Valid() && Around() == old(Around())
      ensures var s := old(State()); State() == s[3 := s[15]][15 := s[11]][11 := s[7]][7 := s[3]]
    {
      var temp := Get(0, 3);
      Set(0, 3, Get(3, 3));
      Set(3, 3, Get(2, 3));
      Set(2, 3, Get(1, 3));
      Set(1, 3, temp);
    }

    method InvShiftRows()
      requires Valid()
      modifies state
      ensures Valid() && Around() == old(Around())
      ensures State() == Aes.InvShiftRows(old(State()))
    {
      hide Aes.InvShiftRows;
      ghost var s := State();
      InvShiftRow1();
      ShiftRow2();
      InvShiftRow3();
      UnshiftedRows(s);
    }

    method InvShiftRow1()
      requires Valid()
      modifies state
      ensures Valid() && Around() == old(Around())
      ensures var s := old(State()); State() == s[13 := s[9]][9 := s[5]][5 := s[1]][1 := s[13]]
    {
      var temp := Get(3, 1);
      Set(3, 1, Get(2, 1));
      Set(2, 1, Get(1, 1));
      Set(1, 1, Get(0, 1));
      Set(0, 1, temp);
    }

    method InvShiftRow3()
      requires Valid()
      modifies state
      ensures Valid() && Around() == old(Around())
      ensures var s := old(State()); State() == s[3 := s[7]][7 := s[11]][11 := s[15]][15 := s[3]]
    {
      var temp := Get(0, 3);
      Set(0, 3, Get(1, 3));
      Set(1, 3, Get(2, 3));
      Set(2, 3, Get(3, 3));
      Set(3, 3, temp);
    }

    method MixColumns()
      requires Valid()
      modifies state
      ensures Valid() && Around() == old(Around())
      ensures State() == Aes.MixColumns(old(State()))
    {
      hide Aes.MixColumns;
      ghost var s := State();
      for i := 0 to 4
        invariant Around() == old(Around())
        invariant forall k :: 4 * i <= k < 16 ==> State()[k] == s[k]
        invariant forall k :: 0 <= k < 4 * i ==> State()[k] == Aes.MixColumns(s)[k]
      {
        MixColumn(i, s);
      }
    }

    /** The body of the loop. */
    method MixColumn(i: nat, ghost s: Block)
      requires Valid() && i < 4
      requires forall k :: 4 * i <= k < 16 ==> State()[k] == s[k]
      modifies state
      ensures Valid() && Around() == old(Around())
      ensures State() == WithColumn(old(State()), i, Aes.MixColumns(s))
    {
      hide Gf256.Plus, XTime, MixedByte, Aes.MixColumns, Aes128.State, Aes128.Around, Aes128.Get;
      ghost var b, c, d := s[4 * i + 1], s[4 * i + 2], s[4 * i + 3];
      MixedColumn(s, i);
      var t := Get(i, 0);
      var tmp := Plus(Plus(Plus(Get(i, 0), Get(i, 1)), Get(i, 2)), Get(i, 3));
      var tm := Plus(Get(i, 0), Get(i, 1));
      tm := XTime(tm);
      AddTo(i, 0, Plus(tm, tmp));
      assert Get(i, 1) == b && Get(i, 2) == c && Get(i, 3) == d;
      tm := Plus(Get(i, 1), Get(i, 2));
      tm := XTime(tm);
      AddTo(i, 1, Plus(tm, tmp));
      assert Get(i, 2) == c && Get(i, 3) == d;
      tm := Plus(Get(i, 2), Get(i, 3));
      tm := XTime(tm);
      AddTo(i, 2, Plus(tm, tmp));
      assert Get(i, 3) == d;
      tm := Plus(Get(i, 3), t);
      tm := XTime(tm);
      AddTo(i, 3, Plus(tm, tmp));
    }

    method InvSubBytes()
      requires Valid()
      modifies state
      ensures Valid() && Around() == old(Around())
      ensures State() == Aes.InvSubBytes(old(State()))
    {
      hide InvSBox;
      ghost var s := State();
      for i := 0 to 4
        invariant Around() == old(Around())
        invariant forall k :: 0 <= k < 16 ==> State()[k] == if k % 4 < i then InvSBox(s[k]) else s[k]
      {
        for j := 0 to 4
          invariant Around() == old(Around())
          invariant forall k :: 0 <= k < 16 ==>
            State()[k] == if k % 4 < i || (k % 4 == i && k / 4 < j) then InvSBox(s[k]) else s[k]
        {
          Set(j, i, InvSBox(Get(j, i)));
        }
      }
    }

    method InvMixColumns()
      requires Valid()
      modifies state
      ensures Valid() && Around() == old(Around())
      ensures State() == Aes.InvMixColumns(old(State()))
    {
      hide Aes.InvMixColumns;
      ghost var s := State();
      for i := 0 to 4
        invariant Around() == old(Around())
        invariant forall k :: 4 * i <= k < 16 ==> State()[k] == s[k]
        invariant forall k :: 0 <= k < 4 * i ==> State()[k] == Aes.InvMixColumns(s)[k]
      {
        InvMixColumn(i, s);
      }
    }

    /** The body of the loop. */
    method InvMixColumn(i: nat, ghost s: Block)
      requires Valid() && i < 4
      requires forall k :: 4 * i <= k < 16 ==> State()[k] == s[k]
      modifies state
      ensures Valid() && Around() == old(Around())
      ensures State() == WithColumn(old(State()), i, Aes.InvMixColumns(s))
    {
      hide Gf256.Plus, Multiply, UnmixedByte, Aes.InvMixColumns;
      var a, b, c, d := Get(i, 0), Get(i, 1), Get(i, 2), Get(i, 3);
      Set(i, 0, Plus(Plus(Plus(Multiply(a, 0x0e), Multiply(b, 0x0b)), Multiply(c, 0x0d)), Multiply(d, 0x09)));
      Set(i, 1, Plus(Plus(Plus(Multiply(a, 0x09), Multiply(b, 0x0e)), Multiply(c, 0x0b)), Multiply(d, 0x0d)));
      Set(i, 2, Plus(Plus(Plus(Multiply(a, 0x0d), Multiply(b, 0x09)), Multiply(c, 0x0e)), Multiply(d, 0x0b)));
      Set(i, 3, Plus(Plus(Plus(Multiply(a, 0x0b), Multiply(b, 0x0d)), Multiply(c, 0x09)), Multiply(d, 0x0e)));
      UnmixedColumn(s, i);
    }

    // ----- The ciphers -----

    method Cipher(ghost key: Block)
      requires Valid() && Expanded(key)
      modifies state
      ensures Valid() && Expanded(key) && Around() == old(Around())
      ensures State() == Aes.Cipher(old(State()), key)
    {
      hide Aes.AddRoundKey, Aes.SubBytes, Aes.ShiftRows, Aes.MixColumns;
      ghost var s := State();
      AddRoundKey(0, key);
      for round := 1 to ROUNDS
        invariant Expanded(key) && Around() == old(Around())
        invariant State() == Rounds(s, key, round - 1)
      {
        SubBytes();
        ShiftRows();
        MixColumns();
        AddRoundKey(round, key);
      }
      SubBytes();
      ShiftRows();
      AddRoundKey(ROUNDS, key);
    }

    method InvCipher(ghost key: Block)
      requires Valid() && Expanded(key)
      modifies state
      ensures Valid() && Expanded(key) && Around() == old(Around())
      ensures State() == Aes.InvCipher(old(State()), key)
    {
      hide Aes.AddRoundKey, Aes.InvSubBytes, Aes.InvShiftRows, Aes.InvMixColumns;
      ghost var s := State();
      AddRoundKey(ROUNDS, key);
      var round := ROUNDS - 1;
      while round > 0
        invariant 0 <= round < ROUNDS
        invariant Expanded(key) && Around() == old(Around())
        invariant State() == InvRounds(s, key, round + 1)
      {
        InvShiftRows();
        InvSubBytes();
        AddRoundKey(round, key);
        InvMixColumns();
        round := round - 1;
      }
      InvShiftRows();
      InvSubBytes();
      AddRoundKey(0, key);
    }

    // ----- One block -----

    /** The part of the input and of the output that the copy goes over must not overlap the wrong way. */
    static ghost predicate CopyIsSafe(output: array<bv8>, to: nat, input: array<bv8>, from: nat)
    {
      output == input ==> to <= from || from + 16 <= to
    }

    static method BlockCopy(output: array<bv8>, to: nat, input: array<bv8>, from: nat)
      requires to + 16 <= output.Length && from + 16 <= input.Length && CopyIsSafe(output, to, input, from)
      modifies output
      ensures output[to..to + 16] == old(input[from..from + 16])
      ensures output[..to] == old(output[..to]) && output[to + 16..] == old(output[to + 16..])
    {
      for i := 0 to 16
        invariant output[to..to + i] == old(input[from..from + i])
        invariant forall k :: from + i <= k < from + 16 ==> input[k] == old(input[k])
        invariant output[..to] == old(output[..to]) && output[to + 16..] == old(output[to + 16..])
      {
        output[to + i] := input[from + i];
      }
    }

    method EcbEncrypt(input: array<bv8>, from: nat, key: array<bv8>, output: array<bv8>, to: nat)
      requires roundKey.Length == 16 * (ROUNDS + 1)
      requires to + 16 <= output.Length && from + 16 <= input.Length && CopyIsSafe(output, to, input, from)
      requires key.Length >= 16 && key != output && key != roundKey && output != roundKey && input != roundKey
      modifies this, roundKey, output
      ensures output[to..to + 16] == Aes.Cipher(old(input[from..from + 16]), key[..16])
      ensures output[..to] == old(output[..to]) && output[to + 16..] == old(output[to + 16..])
    {
      hide Aes.Cipher, Aes128.Expanded, CopyIsSafe;
      BlockCopy(output, to, input, from);
      state, at := output, to;
      keyBytes := key;
      KeyExpansion(key[..16]);
      Cipher(key[..16]);
    }

    method EcbDecrypt(input: array<bv8>, from: nat, key: array<bv8>, output: array<bv8>, to: nat)
      requires roundKey.Length == 16 * (ROUNDS + 1)
      requires to + 16 <= output.Length && from + 16 <= input.Length && CopyIsSafe(output, to, input, from)
      requires key.Length >= 16 && key != output && key != roundKey && output != roundKey && input != roundKey
      modifies this, roundKey, output
      ensures output[to..to + 16] == Aes.InvCipher(old(input[from..from + 16]), key[..16])
      ensures output[..to] == old(output[..to]) && output[to + 16..] == old(output[to + 16..])
    {
      hide Aes.InvCipher, Aes128.Expanded, CopyIsSafe;
      BlockCopy(output, to, input, from);
      state, at := output, to;
      keyBytes := key;
      KeyExpansion(key[..16]);
      InvCipher(key[..16]);
    }
  }

  // ----- The key schedule, word by word -----

  /** What the code adds to word `i - 4` to get word `i`, from word `i - 1`. */
  function Transformed(i: nat, w: Word): Word
    requires 4 <= i < 4 * (ROUNDS + 1)
  {
    if i % 4 == 0 then PlusWord(SubWord(RotWord(w)), [Rcon(i / 4), 0, 0, 0]) else w
  }

  lemma AddedWord(v: Word, w: Word)
    ensures PlusWord(v, w) == [Plus(v[0], w[0]), Plus(v[1], w[1]), Plus(v[2], w[2]), Plus(v[3], w[3])]
  {
  }

  lemma ScheduleByteAt(key: Block, i: nat, r: nat)
    requires i < 4 * (ROUNDS + 1) && r < 4
    ensures ScheduleByte(key, 4 * i + r) == ScheduleWord(key, i)[r]
  {
    hide ScheduleWord;
    Position(i, r);
  }

  lemma ScheduleBytes(key: Block, i: nat)
    requires i < 4 * (ROUNDS + 1)
    ensures ScheduleByte(key, 4 * i) == ScheduleWord(key, i)[0]
    ensures ScheduleByte(key, 4 * i + 1) == ScheduleWord(key, i)[1]
    ensures ScheduleByte(key, 4 * i + 2) == ScheduleWord(key, i)[2]
    ensures ScheduleByte(key, 4 * i + 3) == ScheduleWord(key, i)[3]
  {
    hide ScheduleWord, ScheduleByte;
    ScheduleByteAt(key, i, 0);
    ScheduleByteAt(key, i, 1);
    ScheduleByteAt(key, i, 2);
    ScheduleByteAt(key, i, 3);
  }

  lemma FirstWord(key: Block, i: nat)
    requires i < 4
    ensures ScheduleWord(key, i) == key[4 * i..4 * i + 4]
  {
  }

  lemma LaterWord(key: Block, i: nat)
    requires 4 <= i < 4 * (ROUNDS + 1)
    ensures ScheduleWord(key, i) == PlusWord(ScheduleWord(key, i - 4), Transformed(i, ScheduleWord(key, i - 1)))
  {
    hide SubWord, RotWord, PlusWord;
  }

  lemma AddedAt(s: Block, key: Block, round: nat, k: nat)
    requires round <= ROUNDS && k < 16
    ensures Aes.AddRoundKey(s, key, round)[k] == Plus(s[k], ScheduleByte(key, 16 * round + k))
  {
  }

  // ----- What the unrolled statements come to -----

  /** The block with column `i` of another. */
  function WithColumn(s: Block, i: nat, t: Block): Block
    requires i < 4
  {
    s[4 * i := t[4 * i]][4 * i + 1 := t[4 * i + 1]][4 * i + 2 := t[4 * i + 2]][4 * i + 3 := t[4 * i + 3]]
  }

  lemma ShiftedRows(s: Block)
    ensures Aes.ShiftRows(s)
         == [s[0], s[5], s[10], s[15], s[4], s[9], s[14], s[3], s[8], s[13], s[2], s[7], s[12], s[1], s[6], s[11]]
  {
  }

  lemma UnshiftedRows(s: Block)
    ensures Aes.InvShiftRows(s)
         == [s[0], s[13], s[10], s[7], s[4], s[1], s[14], s[11], s[8], s[5], s[2], s[15], s[12], s[9], s[6], s[3]]
  {
  }

  /** The four positions of column `i`, from each of them on down. */
  lemma Column(i: nat)
    requires i < 4
    ensures Below(4 * i, 1) == 4 * i + 1 && Below(4 * i, 2) == 4 * i + 2 && Below(4 * i, 3) == 4 * i + 3
    ensures Below(4 * i + 1, 1) == 4 * i + 2 && Below(4 * i + 1, 2) == 4 * i + 3 && Below(4 * i + 1, 3) == 4 * i
    ensures Below(4 * i + 2, 1) == 4 * i + 3 && Below(4 * i + 2, 2) == 4 * i && Below(4 * i + 2, 3) == 4 * i + 1
    ensures Below(4 * i + 3, 1) == 4 * i && Below(4 * i + 3, 2) == 4 * i + 1 && Below(4 * i + 3, 3) == 4 * i + 2
  {
    hide Below;
    ColumnFrom(i, 0);
    ColumnFrom(i, 1);
    ColumnFrom(i, 2);
    ColumnFrom(i, 3);
  }

  lemma ColumnFrom(i: nat, r: nat)
    requires i < 4 && r < 4
    ensures Below(4 * i + r, 1) == 4 * i + (r + 1) % 4
    ensures Below(4 * i + r, 2) == 4 * i + (r + 2) % 4
    ensures Below(4 * i + r, 3) == 4 * i + (r + 3) % 4
  {
    RowAndColumn(i, r);
    RowGoesRound(i, r + 1);
    RowGoesRound(i, r + 2);
    RowGoesRound(i, r + 3);
  }

  lemma RowAndColumn(i: nat, r: nat)
    requires r < 4
    ensures (4 * i + r) / 4 == i
  {
  }

  lemma RowGoesRound(i: nat, r: nat)
    ensures (4 * i + r) % 4 == r % 4
  {
  }

  /** What the code computes for a byte is the row of the matrix product. */
  lemma MixedInPlace(w: bv8, x: bv8, y: bv8, z: bv8, sum: bv8)
    requires sum == Plus4(w, x, y, z)
    ensures Plus(w, Plus(XTime(Plus(w, x)), sum)) == MixedByte(w, x, y, z)
  {
    hide Gf256.Plus, XTime, MixedByte;
    MixedIsByXTime(w, x, y, z);
  }

  lemma MixedColumn(s: Block, i: nat)
    requires i < 4
    ensures
      var a, b, c, d := s[4 * i], s[4 * i + 1], s[4 * i + 2], s[4 * i + 3];
      var sum := Plus(Plus(Plus(a, b), c), d);
      && Aes.MixColumns(s)[4 * i] == Plus(a, Plus(XTime(Plus(a, b)), sum))
      && Aes.MixColumns(s)[4 * i + 1] == Plus(b, Plus(XTime(Plus(b, c)), sum))
      && Aes.MixColumns(s)[4 * i + 2] == Plus(c, Plus(XTime(Plus(c, d)), sum))
      && Aes.MixColumns(s)[4 * i + 3] == Plus(d, Plus(XTime(Plus(d, a)), sum))
  {
    hide Gf256.Plus, XTime, MixedByte, Below;
    var a, b, c, d := s[4 * i], s[4 * i + 1], s[4 * i + 2], s[4 * i + 3];
    var sum := Plus4(a, b, c, d);
    PlusAssociates(Plus(a, b), c, d);
    Column(i);
    SumGoesRound(a, b, c, d);
    SumGoesRound(b, c, d, a);
    SumGoesRound(c, d, a, b);
    MixedInPlace(a, b, c, d, sum);
    MixedInPlace(b, c, d, a, sum);
    MixedInPlace(c, d, a, b, sum);
    MixedInPlace(d, a, b, c, sum);
  }

  /** Four products added up from the left, and from where the row starts. */
  lemma UnmixedInPlace(w: bv8, x: bv8, y: bv8, z: bv8)
    ensures
      var p, q, r, t := Multiply(w, 0x0e), Multiply(x, 0x0b), Multiply(y, 0x0d), Multiply(z, 0x09);
      && Plus(Plus(Plus(p, q), r), t) == UnmixedByte(w, x, y, z)
      && Plus(Plus(Plus(t, p), q), r) == UnmixedByte(w, x, y, z)
      && Plus(Plus(Plus(r, t), p), q) == UnmixedByte(w, x, y, z)
      && Plus(Plus(Plus(q, r), t), p) == UnmixedByte(w, x, y, z)
  {
    hide Gf256.Plus, Multiply, Gf256.Product;
    MultiplyIsProduct(w, 0x0e);
    MultiplyIsProduct(x, 0x0b);
    MultiplyIsProduct(y, 0x0d);
    MultiplyIsProduct(z, 0x09);
    var p, q, r, t := Multiply(w, 0x0e), Multiply(x, 0x0b), Multiply(y, 0x0d), Multiply(z, 0x09);
    SumGoesRound(p, q, r, t);
    SumGoesRound(q, r, t, p);
    SumGoesRound(r, t, p, q);
    PlusAssociates(Plus(p, q), r, t);
    PlusAssociates(Plus(t, p), q, r);
    PlusAssociates(Plus(r, t), p, q);
    PlusAssociates(Plus(q, r), t, p);
  }

  lemma UnmixedColumn(s: Block, i: nat)
    requires i < 4
    ensures
      var a, b, c, d := s[4 * i], s[4 * i + 1], s[4 * i + 2], s[4 * i + 3];
      && Aes.InvMixColumns(s)[4 * i]
         == Plus(Plus(Plus(Multiply(a, 0x0e), Multiply(b, 0x0b)), Multiply(c, 0x0d)), Multiply(d, 0x09))
      && Aes.InvMixColumns(s)[4 * i + 1]
         == Plus(Plus(Plus(Multiply(a, 0x09), Multiply(b, 0x0e)), Multiply(c, 0x0b)), Multiply(d, 0x0d))
      && Aes.InvMixColumns(s)[4 * i + 2]
         == Plus(Plus(Plus(Multiply(a, 0x0d), Multiply(b, 0x09)), Multiply(c, 0x0e)), Multiply(d, 0x0b))
      && Aes.InvMixColumns(s)[4 * i + 3]
         == Plus(Plus(Plus(Multiply(a, 0x0b), Multiply(b, 0x0d)), Multiply(c, 0x09)), Multiply(d, 0x0e))
  {
    hide Gf256.Plus, Multiply, UnmixedByte, Below;
    var a, b, c, d := s[4 * i], s[4 * i + 1], s[4 * i + 2], s[4 * i + 3];
    Column(i);
    UnmixedInPlace(a, b, c, d);
    UnmixedInPlace(b, c, d, a);
    UnmixedInPlace(c, d, a, b);
    UnmixedInPlace(d, a, b, c);
  }
}
