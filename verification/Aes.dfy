/**
 The AES block cipher of FIPS 197: the round steps as functions on a state of four
 columns, and the cipher and the inverse cipher built from them, proved to undo each
 other for any round keys.
 */
module Aes {
  import opened Bytes
  import opened CipherModes
  import opened AesTables
  import opened GaloisField

  /** The state, column by column: row r, column c of the matrix is byte r of column c. */
  datatype State = State(c0: Column, c1: Column, c2: Column, c3: Column)

  // ------------------------------------------------------------- round steps

  function MapColumn(f: bv8 -> bv8, c: Column): Column {
    Column(f(c.b0), f(c.b1), f(c.b2), f(c.b3))
  }

  function SubBytes(s: State): State {
    State(MapColumn(SBox, s.c0), MapColumn(SBox, s.c1), MapColumn(SBox, s.c2), MapColumn(SBox, s.c3))
  }

  function InvSubBytes(s: State): State {
    State(MapColumn(InvSBox, s.c0), MapColumn(InvSBox, s.c1), MapColumn(InvSBox, s.c2), MapColumn(InvSBox, s.c3))
  }

  /** Row r moves r places to the left. */
  function ShiftRows(s: State): State {
    State(Column(s.c0.b0, s.c1.b1, s.c2.b2, s.c3.b3), Column(s.c1.b0, s.c2.b1, s.c3.b2, s.c0.b3),
          Column(s.c2.b0, s.c3.b1, s.c0.b2, s.c1.b3), Column(s.c3.b0, s.c0.b1, s.c1.b2, s.c2.b3))
  }

  /** Row r moves r places to the right. */
  function InvShiftRows(s: State): State {
    State(Column(s.c0.b0, s.c3.b1, s.c2.b2, s.c1.b3), Column(s.c1.b0, s.c0.b1, s.c3.b2, s.c2.b3),
          Column(s.c2.b0, s.c1.b1, s.c0.b2, s.c3.b3), Column(s.c3.b0, s.c2.b1, s.c1.b2, s.c0.b3))
  }

  /** Every column times the fixed polynomial a(x). */
  function MixColumns(s: State): State {
    State(PolyMul(s.c0, MIX), PolyMul(s.c1, MIX), PolyMul(s.c2, MIX), PolyMul(s.c3, MIX))
  }

  function InvMixColumns(s: State): State {
    State(PolyMul(s.c0, INV_MIX), PolyMul(s.c1, INV_MIX), PolyMul(s.c2, INV_MIX), PolyMul(s.c3, INV_MIX))
  }

  /** The bytes of a word, the most significant first. */
  function WordBytes(w: bv32): Column {
    Column(((w >> 24) & 0xFF) as bv8, ((w >> 16) & 0xFF) as bv8, ((w >> 8) & 0xFF) as bv8, (w & 0xFF) as bv8)
  }

  function XorColumn(a: Column, b: Column): Column {
    Column(Xor(a.b0, b.b0), Xor(a.b1, b.b1), Xor(a.b2, b.b2), Xor(a.b3, b.b3))
  }

  predicate HasRoundKey(w: seq<bv32>, round: nat) {
    |w| >= 4 * round + 4
  }

  /** Each column is added to one of the four words of the round key. */
  function AddRoundKey(s: State, w: seq<bv32>, round: nat): State
    requires HasRoundKey(w, round)
  {
    State(XorColumn(s.c0, WordBytes(w[4 * round])), XorColumn(s.c1, WordBytes(w[4 * round + 1])),
          XorColumn(s.c2, WordBytes(w[4 * round + 2])), XorColumn(s.c3, WordBytes(w[4 * round + 3])))
  }

  // ------------------------------------------------------------- steps undo each other

  lemma InvSBoxUndoesSBox(b: bv8)
    ensures InvSBox(SBox(b)) == b
  {
  }

  lemma SBoxUndoesInvSBox(b: bv8)
    ensures SBox(InvSBox(b)) == b
  {
  }

  /** The two substitution tables are inverse to each other on all 256 bytes. */
  lemma SBoxesInverse(b: bv8)
    ensures InvSBox(SBox(b)) == b && SBox(InvSBox(b)) == b
  {
    InvSBoxUndoesSBox(b);
    SBoxUndoesInvSBox(b);
  }

  lemma SubBytesInverse(s: State)
    ensures InvSubBytes(SubBytes(s)) == s && SubBytes(InvSubBytes(s)) == s
  {
    hide SBox, InvSBox;
    forall b: bv8 ensures InvSBox(SBox(b)) == b && SBox(InvSBox(b)) == b {
      SBoxesInverse(b);
    }
  }

  lemma ShiftRowsInverse(s: State)
    ensures InvShiftRows(ShiftRows(s)) == s && ShiftRows(InvShiftRows(s)) == s
  {
  }

  lemma MixColumnsInverse(s: State)
    ensures InvMixColumns(MixColumns(s)) == s && MixColumns(InvMixColumns(s)) == s
  {
    PolynomialsInverse(s.c0); PolynomialsInverse(s.c1); PolynomialsInverse(s.c2); PolynomialsInverse(s.c3);
  }

  lemma XorColumnInverse(a: Column, b: Column)
    ensures XorColumn(XorColumn(a, b), b) == a
  {
    XorCancel(a.b0, b.b0); XorCancel(a.b1, b.b1); XorCancel(a.b2, b.b2); XorCancel(a.b3, b.b3);
  }

  lemma AddRoundKeyInverse(s: State, w: seq<bv32>, round: nat)
    requires HasRoundKey(w, round)
    ensures AddRoundKey(AddRoundKey(s, w, round), w, round) == s
  {
    XorColumnInverse(s.c0, WordBytes(w[4 * round]));
    XorColumnInverse(s.c1, WordBytes(w[4 * round + 1]));
    XorColumnInverse(s.c2, WordBytes(w[4 * round + 2]));
    XorColumnInverse(s.c3, WordBytes(w[4 * round + 3]));
  }

  // ------------------------------------------------------------- cipher and inverse cipher

  /** The number of rounds `aes_encrypt` performs: it tests the key size with `!=`. */
  function EncryptionRounds(keysize: int): nat {
    if keysize != 128 then if keysize != 192 then 14 else 12 else 10
  }

  /** The number of rounds `aes_decrypt` performs: it tests the key size with `>`. */
  function DecryptionRounds(keysize: int): nat {
    if keysize > 128 then if keysize > 192 then 14 else 12 else 10
  }

  /** The state after the first key and `n` full rounds. */
  function EncryptRounds(s: State, w: seq<bv32>, n: nat): State
    requires HasRoundKey(w, n)
  {
    if n == 0 then AddRoundKey(s, w, 0)
    else AddRoundKey(MixColumns(ShiftRows(SubBytes(EncryptRounds(s, w, n - 1)))), w, n)
  }

  /** `rounds - 1` full rounds and a last one without MixColumns. */
  function Cipher(s: State, w: seq<bv32>, rounds: nat): State
    requires 0 < rounds && HasRoundKey(w, rounds)
  {
    AddRoundKey(ShiftRows(SubBytes(EncryptRounds(s, w, rounds - 1))), w, rounds)
  }

  /** The state of the inverse cipher once round keys `rounds` down to `n` have been used. */
  function DecryptRounds(s: State, w: seq<bv32>, rounds: nat, n: nat): State
    requires 0 < n <= rounds && HasRoundKey(w, rounds)
    decreases rounds - n
  {
    if n == rounds then AddRoundKey(s, w, rounds)
    else InvMixColumns(AddRoundKey(InvSubBytes(InvShiftRows(DecryptRounds(s, w, rounds, n + 1))), w, n))
  }

  function InvCipher(s: State, w: seq<bv32>, rounds: nat): State
    requires 0 < rounds && HasRoundKey(w, rounds)
  {
    AddRoundKey(InvSubBytes(InvShiftRows(DecryptRounds(s, w, rounds, 1))), w, 0)
  }

  /** Halfway through decryption the state is the one encryption had at the same round. */
  lemma {:induction false} DecryptRetraces(s: State, w: seq<bv32>, rounds: nat, n: nat)
    requires 0 < n <= rounds && HasRoundKey(w, rounds)
    ensures DecryptRounds(Cipher(s, w, rounds), w, rounds, n) == ShiftRows(SubBytes(EncryptRounds(s, w, n - 1)))
    decreases rounds - n
  {
    hide SubBytes, InvSubBytes, ShiftRows, InvShiftRows, MixColumns, InvMixColumns, AddRoundKey;
    if n == rounds {
      AddRoundKeyInverse(ShiftRows(SubBytes(EncryptRounds(s, w, rounds - 1))), w, rounds);
    } else {
      DecryptRetraces(s, w, rounds, n + 1);
      var e := EncryptRounds(s, w, n - 1);
      var t := ShiftRows(SubBytes(e));
      ShiftRowsInverse(SubBytes(EncryptRounds(s, w, n)));
      SubBytesInverse(EncryptRounds(s, w, n));
      AddRoundKeyInverse(MixColumns(t), w, n);
      MixColumnsInverse(t);
    }
  }

  lemma {:induction false} EncryptRetraces(s: State, w: seq<bv32>, rounds: nat, n: nat)
    requires n < rounds && HasRoundKey(w, rounds)
    ensures EncryptRounds(InvCipher(s, w, rounds), w, n)
         == InvSubBytes(InvShiftRows(DecryptRounds(s, w, rounds, n + 1)))
  {
    hide SubBytes, InvSubBytes, ShiftRows, InvShiftRows, MixColumns, InvMixColumns, AddRoundKey;
    if n == 0 {
      AddRoundKeyInverse(InvSubBytes(InvShiftRows(DecryptRounds(s, w, rounds, 1))), w, 0);
    } else {
      EncryptRetraces(s, w, rounds, n - 1);
      var d := DecryptRounds(s, w, rounds, n);
      var e := InvSubBytes(InvShiftRows(DecryptRounds(s, w, rounds, n + 1)));
      SubBytesInverse(InvShiftRows(d));
      ShiftRowsInverse(d);
      MixColumnsInverse(AddRoundKey(e, w, n));
      AddRoundKeyInverse(e, w, n);
    }
  }

  /** For any round-key words, cipher and inverse cipher are inverse bijections. */
  lemma CiphersInverse(s: State, w: seq<bv32>, rounds: nat)
    requires 0 < rounds && HasRoundKey(w, rounds)
    ensures InvCipher(Cipher(s, w, rounds), w, rounds) == s
    ensures Cipher(InvCipher(s, w, rounds), w, rounds) == s
  {
    hide SubBytes, InvSubBytes, ShiftRows, InvShiftRows, MixColumns, InvMixColumns, AddRoundKey;
    DecryptRetraces(s, w, rounds, 1);
    var e := EncryptRounds(s, w, 0);
    ShiftRowsInverse(SubBytes(e));
    SubBytesInverse(e);
    AddRoundKeyInverse(s, w, 0);
    EncryptRetraces(s, w, rounds, rounds - 1);
    var d := DecryptRounds(s, w, rounds, rounds);
    SubBytesInverse(InvShiftRows(d));
    ShiftRowsInverse(d);
    AddRoundKeyInverse(s, w, rounds);
  }

  // ------------------------------------------------------------- blocks

  predicate Block(b: seq<bv8>) {
    |b| == BLOCK
  }

  /** A block fills the state column by column. */
  function FromBlock(b: seq<bv8>): State
    requires Block(b)
  {
    State(Column(b[0], b[1], b[2], b[3]), Column(b[4], b[5], b[6], b[7]),
          Column(b[8], b[9], b[10], b[11]), Column(b[12], b[13], b[14], b[15]))
  }

  function ToBlock(s: State): (b: seq<bv8>)
    ensures Block(b)
  {
    [s.c0.b0, s.c0.b1, s.c0.b2, s.c0.b3, s.c1.b0, s.c1.b1, s.c1.b2, s.c1.b3,
     s.c2.b0, s.c2.b1, s.c2.b2, s.c2.b3, s.c3.b0, s.c3.b1, s.c3.b2, s.c3.b3]
  }

  lemma BlocksAreStates(b: seq<bv8>, s: State)
    ensures Block(b) ==> ToBlock(FromBlock(b)) == b
    ensures FromBlock(ToBlock(s)) == s
  {
  }

  /** What `aes_encrypt` computes: the cipher with as many rounds as it chooses for the key size. */
  function EncryptBlock(b: seq<bv8>, w: seq<bv32>, keysize: int): (r: seq<bv8>)
    requires Block(b) && HasRoundKey(w, EncryptionRounds(keysize))
    ensures Block(r)
  {
    ToBlock(Cipher(FromBlock(b), w, EncryptionRounds(keysize)))
  }

  function DecryptBlock(b: seq<bv8>, w: seq<bv32>, keysize: int): (r: seq<bv8>)
    requires Block(b) && HasRoundKey(w, DecryptionRounds(keysize))
    ensures Block(r)
  {
    ToBlock(InvCipher(FromBlock(b), w, DecryptionRounds(keysize)))
  }

  predicate ValidKeySize(keysize: int) {
    keysize == 128 || keysize == 192 || keysize == 256
  }

  /** Enough words for both directions, whichever key size is passed. */
  predicate HasSchedule(w: seq<bv32>, keysize: int) {
    HasRoundKey(w, EncryptionRounds(keysize)) && HasRoundKey(w, DecryptionRounds(keysize))
  }

  /**
   For every block, every array of round-key words and each of the three key sizes,
   decryption undoes encryption and encryption undoes decryption.
   */
  lemma AesRoundTrip(b: seq<bv8>, w: seq<bv32>, keysize: int)
    requires Block(b) && HasSchedule(w, keysize) && ValidKeySize(keysize)
    ensures DecryptBlock(EncryptBlock(b, w, keysize), w, keysize) == b
    ensures EncryptBlock(DecryptBlock(b, w, keysize), w, keysize) == b
  {
    hide Cipher, InvCipher, FromBlock, ToBlock;
    var rounds := EncryptionRounds(keysize);
    var s := FromBlock(b);
    CiphersInverse(s, w, rounds);
    BlocksAreStates(b, Cipher(s, w, rounds));
    BlocksAreStates(b, InvCipher(s, w, rounds));
  }

  /** The two functions agree on the number of rounds exactly outside a band of unsupported sizes. */
  lemma RoundsAgree(keysize: int)
    ensures EncryptionRounds(keysize) == DecryptionRounds(keysize)
         <==> keysize == 128 || keysize == 192 || 192 < keysize
  {
  }
}
