/**
 The in-place implementation of AES over a 4 x 4 byte matrix. Every step is proved to
 compute its specification on the state the matrix holds; `AesEncrypt` and `AesDecrypt`
 are proved to compute `Cipher` and `InvCipher` for the number of rounds they choose.
 */
module AesImplementation {
  import opened Bytes
  import opened CipherModes
  import opened AesTables
  import opened GaloisField
  import opened Aes

  predicate Square(m: array2<bv8>) {
    m.Length0 == 4 && m.Length1 == 4
  }

  function ColumnOf(m: array2<bv8>, c: nat): Column
    requires Square(m) && c < 4
    reads m
  {
    Column(m[0, c], m[1, c], m[2, c], m[3, c])
  }

  function RowOf(m: array2<bv8>, r: nat): Column
    requires Square(m) && r < 4
    reads m
  {
    Column(m[r, 0], m[r, 1], m[r, 2], m[r, 3])
  }

  /** The state a matrix holds. */
  function View(m: array2<bv8>): State
    requires Square(m)
    reads m
  {
    State(ColumnOf(m, 0), ColumnOf(m, 1), ColumnOf(m, 2), ColumnOf(m, 3))
  }

  twostate predicate OtherColumnsKept(m: array2<bv8>, c: nat)
    requires Square(m)
    reads m
  {
    forall i | 0 <= i < 4 && i != c :: ColumnOf(m, i) == old(ColumnOf(m, i))
  }

  twostate predicate OtherRowsKept(m: array2<bv8>, r: nat)
    requires Square(m)
    reads m
  {
    forall i | 0 <= i < 4 && i != r :: RowOf(m, i) == old(RowOf(m, i))
  }

  lemma RowsMakeView(m: array2<bv8>)
    requires Square(m)
    ensures var r0, r1, r2, r3 := RowOf(m, 0), RowOf(m, 1), RowOf(m, 2), RowOf(m, 3);
            View(m) == State(Column(r0.b0, r1.b0, r2.b0, r3.b0), Column(r0.b1, r1.b1, r2.b1, r3.b1),
                             Column(r0.b2, r1.b2, r2.b2, r3.b2), Column(r0.b3, r1.b3, r2.b3, r3.b3))
  {
  }

  // ------------------------------------------------------------- AddRoundKey

  method AddKeyWord(m: array2<bv8>, w: bv32, c: nat)
    requires Square(m) && c < 4
    modifies m
    ensures ColumnOf(m, c) == XorColumn(old(ColumnOf(m, c)), WordBytes(w))
    ensures OtherColumnsKept(m, c)
  {
    hide Xor, WordBytes;
    var subkey := WordBytes(w);
    m[0, c] := Xor(m[0, c], subkey.b0);
    m[1, c] := Xor(m[1, c], subkey.b1);
    m[2, c] := Xor(m[2, c], subkey.b2);
    m[3, c] := Xor(m[3, c], subkey.b3);
  }

  method AddKey(m: array2<bv8>, w: seq<bv32>, round: nat)
    requires Square(m) && HasRoundKey(w, round)
    modifies m
    ensures View(m) == AddRoundKey(old(View(m)), w, round)
  {
    hide XorColumn, WordBytes;
    AddKeyWord(m, w[4 * round], 0);
    AddKeyWord(m, w[4 * round + 1], 1);
    AddKeyWord(m, w[4 * round + 2], 2);
    AddKeyWord(m, w[4 * round + 3], 3);
  }

  // ------------------------------------------------------------- (Inv)SubBytes

  method SubstituteColumn(m: array2<bv8>, c: nat)
    requires Square(m) && c < 4
    modifies m
    ensures ColumnOf(m, c) == MapColumn(SBox, old(ColumnOf(m, c)))
    ensures OtherColumnsKept(m, c)
  {
    hide SBox;
    m[0, c] := SBox(m[0, c]);
    m[1, c] := SBox(m[1, c]);
    m[2, c] := SBox(m[2, c]);
    m[3, c] := SBox(m[3, c]);
  }

  method Substitute(m: array2<bv8>)
    requires Square(m)
    modifies m
    ensures View(m) == SubBytes(old(View(m)))
  {
    hide MapColumn;
    SubstituteColumn(m, 0);
    SubstituteColumn(m, 1);
    SubstituteColumn(m, 2);
    SubstituteColumn(m, 3);
  }

  method InvSubstituteColumn(m: array2<bv8>, c: nat)
    requires Square(m) && c < 4
    modifies m
    ensures ColumnOf(m, c) == MapColumn(InvSBox, old(ColumnOf(m, c)))
    ensures OtherColumnsKept(m, c)
  {
    hide InvSBox;
    m[0, c] := InvSBox(m[0, c]);
    m[1, c] := InvSBox(m[1, c]);
    m[2, c] := InvSBox(m[2, c]);
    m[3, c] := InvSBox(m[3, c]);
  }

  method InvSubstitute(m: array2<bv8>)
    requires Square(m)
    modifies m
    ensures View(m) == InvSubBytes(old(View(m)))
  {
    hide MapColumn;
    InvSubstituteColumn(m, 0);
    InvSubstituteColumn(m, 1);
    InvSubstituteColumn(m, 2);
    InvSubstituteColumn(m, 3);
  }

  // ------------------------------------------------------------- (Inv)ShiftRows

  method ShiftRow1(m: array2<bv8>)
    requires Square(m)
    modifies m
    ensures RowOf(m, 1) == Column(old(RowOf(m, 1)).b1, old(RowOf(m, 1)).b2, old(RowOf(m, 1)).b3, old(RowOf(m, 1)).b0)
    ensures OtherRowsKept(m, 1)
  {
    var t := m[1, 0];
    m[1, 0] := m[1, 1];
    m[1, 1] := m[1, 2];
    m[1, 2] := m[1, 3];
    m[1, 3] := t;
  }

  method ShiftRow2(m: array2<bv8>)
    requires Square(m)
    modifies m
    ensures RowOf(m, 2) == Column(old(RowOf(m, 2)).b2, old(RowOf(m, 2)).b3, old(RowOf(m, 2)).b0, old(RowOf(m, 2)).b1)
    ensures OtherRowsKept(m, 2)
  {
    var t := m[2, 0];
    m[2, 0] := m[2, 2];
    m[2, 2] := t;
    t := m[2, 1];
    m[2, 1] := m[2, 3];
    m[2, 3] := t;
  }

  method ShiftRow3(m: array2<bv8>)
    requires Square(m)
    modifies m
    ensures RowOf(m, 3) == Column(old(RowOf(m, 3)).b3, old(RowOf(m, 3)).b0, old(RowOf(m, 3)).b1, old(RowOf(m, 3)).b2)
    ensures OtherRowsKept(m, 3)
  {
    var t := m[3, 0];
    m[3, 0] := m[3, 3];
    m[3, 3] := m[3, 2];
    m[3, 2] := m[3, 1];
    m[3, 1] := t;
  }

  method Shift(m: array2<bv8>)
    requires Square(m)
    modifies m
    ensures View(m) == ShiftRows(old(View(m)))
  {
    RowsMakeView(m);
    ShiftRow1(m);
    ShiftRow2(m);
    ShiftRow3(m);
    RowsMakeView(m);
  }

  method InvShiftRow1(m: array2<bv8>)
    requires Square(m)
    modifies m
    ensures RowOf(m, 1) == Column(old(RowOf(m, 1)).b3, old(RowOf(m, 1)).b0, old(RowOf(m, 1)).b1, old(RowOf(m, 1)).b2)
    ensures OtherRowsKept(m, 1)
  {
    var t := m[1, 3];
    m[1, 3] := m[1, 2];
    m[1, 2] := m[1, 1];
    m[1, 1] := m[1, 0];
    m[1, 0] := t;
  }

  method InvShiftRow2(m: array2<bv8>)
    requires Square(m)
    modifies m
    ensures RowOf(m, 2) == Column(old(RowOf(m, 2)).b2, old(RowOf(m, 2)).b3, old(RowOf(m, 2)).b0, old(RowOf(m, 2)).b1)
    ensures OtherRowsKept(m, 2)
  {
    var t := m[2, 3];
    m[2, 3] := m[2, 1];
    m[2, 1] := t;
    t := m[2, 2];
    m[2, 2] := m[2, 0];
    m[2, 0] := t;
  }

  method InvShiftRow3(m: array2<bv8>)
    requires Square(m)
    modifies m
    ensures RowOf(m, 3) == Column(old(RowOf(m, 3)).b1, old(RowOf(m, 3)).b2, old(RowOf(m, 3)).b3, old(RowOf(m, 3)).b0)
    ensures OtherRowsKept(m, 3)
  {
    var t := m[3, 3];
    m[3, 3] := m[3, 0];
    m[3, 0] := m[3, 1];
    m[3, 1] := m[3, 2];
    m[3, 2] := t;
  }

  method InvShift(m: array2<bv8>)
    requires Square(m)
    modifies m
    ensures View(m) == InvShiftRows(old(View(m)))
  {
    RowsMakeView(m);
    InvShiftRow1(m);
    InvShiftRow2(m);
    InvShiftRow3(m);
    RowsMakeView(m);
  }

  // ------------------------------------------------------------- (Inv)MixColumns

  /** The table formulas of MixColumns are multiplication by the fixed polynomial. */
  lemma MixColumnFormula(col0: bv8, col1: bv8, col2: bv8, col3: bv8)
    ensures PolyMul(Column(col0, col1, col2, col3), MIX)
         == Column(Xor(Xor(Xor(GfMul(col0).x2, GfMul(col1).x3), col2), col3),
                   Xor(Xor(Xor(col0, GfMul(col1).x2), GfMul(col2).x3), col3),
                   Xor(Xor(Xor(col0, col1), GfMul(col2).x2), GfMul(col3).x3),
                   Xor(Xor(Xor(GfMul(col0).x3, col1), col2), GfMul(col3).x2))
  {
    hide GfMul, Mul;
    TableIsMultiplication(col0); TableIsMultiplication(col1); TableIsMultiplication(col2); TableIsMultiplication(col3);
    MulByCoefficients(col0); MulByCoefficients(col1); MulByCoefficients(col2); MulByCoefficients(col3);
    XorLeft(GfMul(col0).x2, GfMul(col1).x3, col2, col3);
    XorLeft(col0, GfMul(col1).x2, GfMul(col2).x3, col3);
    XorLeft(col0, col1, GfMul(col2).x2, GfMul(col3).x3);
    XorLeft(GfMul(col0).x3, col1, col2, GfMul(col3).x2);
  }

  /** One column of the matrix is replaced, the others stay. */
  method MixColumn(m: array2<bv8>, c: nat)
    requires Square(m) && c < 4
    modifies m
    ensures ColumnOf(m, c) == PolyMul(old(ColumnOf(m, c)), MIX)
    ensures OtherColumnsKept(m, c)
  {
    hide GfMul, PolyMul, Xor;
    var col0, col1, col2, col3 := m[0, c], m[1, c], m[2, c], m[3, c];
    m[0, c] := GfMul(col0).x2;
    m[0, c] := Xor(m[0, c], GfMul(col1).x3);
    m[0, c] := Xor(m[0, c], col2);
    m[0, c] := Xor(m[0, c], col3);
    m[1, c] := col0;
    m[1, c] := Xor(m[1, c], GfMul(col1).x2);
    m[1, c] := Xor(m[1, c], GfMul(col2).x3);
    m[1, c] := Xor(m[1, c], col3);
    m[2, c] := col0;
    m[2, c] := Xor(m[2, c], col1);
    m[2, c] := Xor(m[2, c], GfMul(col2).x2);
    m[2, c] := Xor(m[2, c], GfMul(col3).x3);
    m[3, c] := GfMul(col0).x3;
    m[3, c] := Xor(m[3, c], col1);
    m[3, c] := Xor(m[3, c], col2);
    m[3, c] := Xor(m[3, c], GfMul(col3).x2);
    MixColumnFormula(col0, col1, col2, col3);
  }

  method Mix(m: array2<bv8>)
    requires Square(m)
    modifies m
    ensures View(m) == MixColumns(old(View(m)))
  {
    hide PolyMul;
    MixColumn(m, 0);
    MixColumn(m, 1);
    MixColumn(m, 2);
    MixColumn(m, 3);
  }

  /** The table formulas of InvMixColumns are multiplication by the fixed polynomial. */
  lemma InvMixColumnFormula(col0: bv8, col1: bv8, col2: bv8, col3: bv8)
    ensures PolyMul(Column(col0, col1, col2, col3), INV_MIX)
         == Column(Xor(Xor(Xor(GfMul(col0).xe, GfMul(col1).xb), GfMul(col2).xd), GfMul(col3).x9),
                   Xor(Xor(Xor(GfMul(col0).x9, GfMul(col1).xe), GfMul(col2).xb), GfMul(col3).xd),
                   Xor(Xor(Xor(GfMul(col0).xd, GfMul(col1).x9), GfMul(col2).xe), GfMul(col3).xb),
                   Xor(Xor(Xor(GfMul(col0).xb, GfMul(col1).xd), GfMul(col2).x9), GfMul(col3).xe))
  {
    hide GfMul, Mul;
    TableIsMultiplication(col0); TableIsMultiplication(col1); TableIsMultiplication(col2); TableIsMultiplication(col3);
    XorLeft(GfMul(col0).xe, GfMul(col1).xb, GfMul(col2).xd, GfMul(col3).x9);
    XorLeft(GfMul(col0).x9, GfMul(col1).xe, GfMul(col2).xb, GfMul(col3).xd);
    XorLeft(GfMul(col0).xd, GfMul(col1).x9, GfMul(col2).xe, GfMul(col3).xb);
    XorLeft(GfMul(col0).xb, GfMul(col1).xd, GfMul(col2).x9, GfMul(col3).xe);
  }

  /** One column of the matrix is replaced, the others stay. */
  method InvMixColumn(m: array2<bv8>, c: nat)
    requires Square(m) && c < 4
    modifies m
    ensures ColumnOf(m, c) == PolyMul(old(ColumnOf(m, c)), INV_MIX)
    ensures OtherColumnsKept(m, c)
  {
    hide GfMul, PolyMul, Xor;
    var col0, col1, col2, col3 := m[0, c], m[1, c], m[2, c], m[3, c];
    m[0, c] := GfMul(col0).xe;
    m[0, c] := Xor(m[0, c], GfMul(col1).xb);
    m[0, c] := Xor(m[0, c], GfMul(col2).xd);
    m[0, c] := Xor(m[0, c], GfMul(col3).x9);
    m[1, c] := GfMul(col0).x9;
    m[1, c] := Xor(m[1, c], GfMul(col1).xe);
    m[1, c] := Xor(m[1, c], GfMul(col2).xb);
    m[1, c] := Xor(m[1, c], GfMul(col3).xd);
    m[2, c] := GfMul(col0).xd;
    m[2, c] := Xor(m[2, c], GfMul(col1).x9);
    m[2, c] := Xor(m[2, c], GfMul(col2).xe);
    m[2, c] := Xor(m[2, c], GfMul(col3).xb);
    m[3, c] := GfMul(col0).xb;
    m[3, c] := Xor(m[3, c], GfMul(col1).xd);
    m[3, c] := Xor(m[3, c], GfMul(col2).x9);
    m[3, c] := Xor(m[3, c], GfMul(col3).xe);
    InvMixColumnFormula(col0, col1, col2, col3);
  }

  method InvMix(m: array2<bv8>)
    requires Square(m)
    modifies m
    ensures View(m) == InvMixColumns(old(View(m)))
  {
    hide PolyMul;
    InvMixColumn(m, 0);
    InvMixColumn(m, 1);
    InvMixColumn(m, 2);
    InvMixColumn(m, 3);
  }

  // ------------------------------------------------------------- (En/De)Crypt

  method Load(input: array<bv8>, m: array2<bv8>)
    requires Square(m) && input.Length >= BLOCK
    modifies m
    ensures View(m) == FromBlock(input[..BLOCK])
  {
    LoadColumn(input, m, 0);
    LoadColumn(input, m, 1);
    LoadColumn(input, m, 2);
    LoadColumn(input, m, 3);
  }

  method LoadColumn(input: array<bv8>, m: array2<bv8>, c: nat)
    requires Square(m) && c < 4 && input.Length >= BLOCK
    modifies m
    ensures ColumnOf(m, c) == Column(input[4 * c], input[4 * c + 1], input[4 * c + 2], input[4 * c + 3])
    ensures OtherColumnsKept(m, c)
  {
    m[0, c] := input[4 * c];
    m[1, c] := input[4 * c + 1];
    m[2, c] := input[4 * c + 2];
    m[3, c] := input[4 * c + 3];
  }

  method StoreColumn(m: array2<bv8>, output: array<bv8>, c: nat)
    requires Square(m) && c < 4 && output.Length >= BLOCK
    modifies output
    ensures Column(output[4 * c], output[4 * c + 1], output[4 * c + 2], output[4 * c + 3]) == ColumnOf(m, c)
    ensures forall k | 0 <= k < output.Length && !(4 * c <= k < 4 * c + 4) :: output[k] == old(output[k])
  {
    output[4 * c] := m[0, c];
    output[4 * c + 1] := m[1, c];
    output[4 * c + 2] := m[2, c];
    output[4 * c + 3] := m[3, c];
  }

  method Store(m: array2<bv8>, output: array<bv8>)
    requires Square(m) && output.Length >= BLOCK
    modifies output
    ensures output[..] == ToBlock(View(m)) + old(output[BLOCK..])
  {
    ghost var s := View(m);
    StoreColumn(m, output, 0);
    StoreColumn(m, output, 1);
    StoreColumn(m, output, 2);
    StoreColumn(m, output, 3);
    ColumnsMakeBlock(output[..], s, old(output[..]));
  }

  lemma ColumnsMakeBlock(o: seq<bv8>, s: State, before: seq<bv8>)
    requires |o| == |before| >= BLOCK
    requires Column(o[0], o[1], o[2], o[3]) == s.c0 && Column(o[4], o[5], o[6], o[7]) == s.c1
    requires Column(o[8], o[9], o[10], o[11]) == s.c2 && Column(o[12], o[13], o[14], o[15]) == s.c3
    requires forall k | BLOCK <= k < |o| :: o[k] == before[k]
    ensures o == ToBlock(s) + before[BLOCK..]
  {
    assert o[..BLOCK] == ToBlock(s);
    assert o[BLOCK..] == before[BLOCK..];
    assert o == o[..BLOCK] + o[BLOCK..];
  }

  /** One full round; `s` is the state the whole encryption started from. */
  method EncryptRound(m: array2<bv8>, w: seq<bv32>, round: nat, ghost s: State)
    requires Square(m) && 0 < round && HasRoundKey(w, round)
    requires View(m) == EncryptRounds(s, w, round - 1)
    modifies m
    ensures View(m) == EncryptRounds(s, w, round)
  {
    hide View, SubBytes, ShiftRows, MixColumns, AddRoundKey;
    Substitute(m); Shift(m); Mix(m); AddKey(m, w, round);
  }

  method LastEncryptRound(m: array2<bv8>, w: seq<bv32>, round: nat, ghost s: State)
    requires Square(m) && 0 < round && HasRoundKey(w, round)
    requires View(m) == EncryptRounds(s, w, round - 1)
    modifies m
    ensures View(m) == Cipher(s, w, round)
  {
    hide View, SubBytes, ShiftRows, MixColumns, AddRoundKey;
    Substitute(m); Shift(m); AddKey(m, w, round);
  }

  method AesEncrypt(input: array<bv8>, output: array<bv8>, w: seq<bv32>, keysize: int)
    requires input.Length >= BLOCK && output.Length >= BLOCK
    requires HasRoundKey(w, EncryptionRounds(keysize))
    modifies output
    ensures output[..] == EncryptBlock(old(input[..BLOCK]), w, keysize) + old(output[BLOCK..])
  {
    hide View, SubBytes, ShiftRows, MixColumns, AddRoundKey, Cipher, ToBlock, FromBlock;
    var m := new bv8[4, 4];
    Load(input, m);
    ghost var s := View(m);
    AddKey(m, w, 0);
    EncryptRound(m, w, 1, s);
    EncryptRound(m, w, 2, s);
    EncryptRound(m, w, 3, s);
    EncryptRound(m, w, 4, s);
    EncryptRound(m, w, 5, s);
    EncryptRound(m, w, 6, s);
    EncryptRound(m, w, 7, s);
    EncryptRound(m, w, 8, s);
    EncryptRound(m, w, 9, s);
    if keysize != 128 {
      EncryptRound(m, w, 10, s);
      EncryptRound(m, w, 11, s);
      if keysize != 192 {
        EncryptRound(m, w, 12, s);
        EncryptRound(m, w, 13, s);
        LastEncryptRound(m, w, 14, s);
      } else {
        LastEncryptRound(m, w, 12, s);
      }
    } else {
      LastEncryptRound(m, w, 10, s);
    }
    Store(m, output);
  }

  /** One round of decryption, with the key of round `round`. */
  method DecryptRound(m: array2<bv8>, w: seq<bv32>, round: nat, ghost s: State, ghost rounds: nat)
    requires Square(m) && 0 < round < rounds && HasRoundKey(w, rounds)
    requires View(m) == DecryptRounds(s, w, rounds, round + 1)
    modifies m
    ensures View(m) == DecryptRounds(s, w, rounds, round)
  {
    hide View, InvSubBytes, InvShiftRows, InvMixColumns, AddRoundKey;
    InvShift(m); InvSubstitute(m); AddKey(m, w, round); InvMix(m);
  }

  method AesDecrypt(input: array<bv8>, output: array<bv8>, w: seq<bv32>, keysize: int)
    requires input.Length >= BLOCK && output.Length >= BLOCK
    requires HasRoundKey(w, DecryptionRounds(keysize))
    modifies output
    ensures output[..] == DecryptBlock(old(input[..BLOCK]), w, keysize) + old(output[BLOCK..])
  {
    hide View, InvSubBytes, InvShiftRows, InvMixColumns, AddRoundKey, ToBlock, FromBlock;
    var m := new bv8[4, 4];
    Load(input, m);
    ghost var s := View(m);
    ghost var n := DecryptionRounds(keysize);
    if keysize > 128 {
      if keysize > 192 {
        AddKey(m, w, 14);
        DecryptRound(m, w, 13, s, n);
        DecryptRound(m, w, 12, s, n);
      } else {
        AddKey(m, w, 12);
      }
      DecryptRound(m, w, 11, s, n);
      DecryptRound(m, w, 10, s, n);
    } else {
      AddKey(m, w, 10);
    }
    DecryptRound(m, w, 9, s, n);
    DecryptRound(m, w, 8, s, n);
    DecryptRound(m, w, 7, s, n);
    DecryptRound(m, w, 6, s, n);
    DecryptRound(m, w, 5, s, n);
    DecryptRound(m, w, 4, s, n);
    DecryptRound(m, w, 3, s, n);
    DecryptRound(m, w, 2, s, n);
    DecryptRound(m, w, 1, s, n);
    InvShift(m); InvSubstitute(m); AddKey(m, w, 0);
    Store(m, output);
  }
}
