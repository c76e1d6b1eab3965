/**
 AES as FIPS 197 writes it: on blocks of 16 bytes and on the bytes of the expanded key,
 each given by one equation. The cipher that the implementation computes from its words
 and table lookups is proved to be this one.
 */
module AesStandard {
  import opened Bytes
  import opened AesTables
  import opened GaloisField
  import opened Aes
  import opened KeySchedule

  // ------------------------------------------------------------- section 5.2

  /** The powers of x. */
  function Power(j: nat): bv8 {
    if j == 0 then 1 else XTime(Power(j - 1))
  }

  predicate KeyLength(key: seq<bv8>, nk: nat) {
    (nk == 4 || nk == 6 || nk == 8) && |key| == 4 * nk
  }

  /**
   Byte `i` of the expanded key, that is, byte i % 4 of word i / 4: the byte 4 * nk places
   back, plus the byte of the word before, which is rotated, substituted and given a power
   of x in its first byte at multiples of `nk`, and only substituted halfway for 256 bits.
   */
  function KeyByte(key: seq<bv8>, nk: nat, i: nat): bv8
    requires KeyLength(key, nk)
    decreases i / 4
  {
    var n, r := i / 4, i % 4;
    if n < nk then key[i]
    else
      Xor(KeyByte(key, nk, i - 4 * nk),
          if n % nk == 0 then
            Xor(SBox(KeyByte(key, nk, 4 * (n - 1) + (r + 1) % 4)), if r == 0 then Power(n / nk - 1) else 0)
          else if nk == 8 && n % 8 == 4 then SBox(KeyByte(key, nk, i - 4))
          else KeyByte(key, nk, i - 4))
  }

  function KeyBytes(key: seq<bv8>, nk: nat, n: nat): Column
    requires KeyLength(key, nk)
  {
    Column(KeyByte(key, nk, 4 * n), KeyByte(key, nk, 4 * n + 1), KeyByte(key, nk, 4 * n + 2),
           KeyByte(key, nk, 4 * n + 3))
  }

  lemma {:induction false} ConstantIsPower(j: nat)
    requires j < 15
    ensures WordBytes(RCON[j]) == Column(Power(j), 0, 0, 0)
  {
    hide XTime, WordBytes;
    if j == 0 {
      RoundConstants(0);
    } else {
      ConstantIsPower(j - 1);
      RoundConstants(j - 1);
    }
  }

  lemma BytesOfXor(a: bv32, b: bv32)
    ensures WordBytes(XorWord(a, b)) == XorColumn(WordBytes(a), WordBytes(b))
  {
    hide Xor;
    ByteOfXor(a, b);
  }

  lemma ByteOfXor(a: bv32, b: bv32)
    ensures WordBytes(a ^ b).b0 == Xor(WordBytes(a).b0, WordBytes(b).b0)
    ensures WordBytes(a ^ b).b1 == Xor(WordBytes(a).b1, WordBytes(b).b1)
    ensures WordBytes(a ^ b).b2 == Xor(WordBytes(a).b2, WordBytes(b).b2)
    ensures WordBytes(a ^ b).b3 == Xor(WordBytes(a).b3, WordBytes(b).b3)
  {
  }

  function FirstPower(q: nat): bv8 {
    if q == 0 then 0 else Power(q - 1)
  }

  /** What is added to the word `nk` places back, as bytes. */
  function FeedbackBytes(previous: Column, n: nat, nk: nat): Column
    requires nk > 0
  {
    if n % nk == 0 then XorColumn(MapColumn(SBox, Rotate(previous)), Column(FirstPower(n / nk), 0, 0, 0))
    else if nk == 8 && n % 8 == 4 then MapColumn(SBox, previous)
    else previous
  }

  lemma ConstantIndex(n: nat, nk: nat)
    requires (nk == 4 || nk == 6 || nk == 8) && nk <= n < 60 && n % nk == 0
    ensures (n - 1) / nk == n / nk - 1 < 15
  {
    if nk == 4 {
      assert (n - 1) / 4 == n / 4 - 1;
    } else if nk == 6 {
      assert (n - 1) / 6 == n / 6 - 1;
    } else {
      assert (n - 1) / 8 == n / 8 - 1;
    }
  }

  lemma FeedbackAtMultiple(previous: bv32, n: nat, nk: nat)
    requires (nk == 4 || nk == 6 || nk == 8) && nk <= n < 60 && n % nk == 0
    ensures 1 <= n / nk <= 15
    ensures Feedback(previous, n, nk) == XorWord(SubWord(RotWord(previous)), RCON[n / nk - 1])
  {
    hide SubWord, RotWord, XorWord;
    ConstantIndex(n, nk);
    FeedbackWith(previous, n, nk, n / nk - 1);
  }

  lemma FeedbackWith(previous: bv32, n: nat, nk: nat, j: nat)
    requires (nk == 4 || nk == 6 || nk == 8) && nk <= n < 60 && n % nk == 0 && j == (n - 1) / nk < 15
    ensures Feedback(previous, n, nk) == XorWord(SubWord(RotWord(previous)), RCON[j])
  {
    hide SubWord, RotWord, XorWord;
  }

  lemma BytesOfFeedback(previous: bv32, n: nat, nk: nat)
    requires (nk == 4 || nk == 6 || nk == 8) && nk <= n < 60
    ensures WordBytes(Feedback(previous, n, nk)) == FeedbackBytes(WordBytes(previous), n, nk)
  {
    hide SubWord, RotWord, XorWord, WordBytes, SBox, MapColumn, XorColumn, FirstPower;
    if n % nk == 0 {
      FeedbackAtMultiple(previous, n, nk);
      RotatedFeedback(previous, n / nk);
    } else {
      SubWordBytes(previous);
    }
  }

  lemma RotatedFeedback(previous: bv32, q: nat)
    requires 1 <= q <= 15
    ensures WordBytes(XorWord(SubWord(RotWord(previous)), RCON[q - 1]))
         == XorColumn(MapColumn(SBox, Rotate(WordBytes(previous))), Column(FirstPower(q), 0, 0, 0))
  {
    hide SubWord, RotWord, XorWord, WordBytes, SBox, MapColumn, XorColumn, Power;
    SubWordBytes(previous);
    ConstantIsPower(q - 1);
    BytesOfXor(SubWord(RotWord(previous)), RCON[q - 1]);
  }

  lemma KeyByteStep(key: seq<bv8>, nk: nat, n: nat, r: nat)
    requires KeyLength(key, nk) && nk <= n && r < 4
    ensures n / nk >= 1
    ensures KeyByte(key, nk, 4 * n + r)
         == Xor(KeyByte(key, nk, 4 * (n - nk) + r),
                if n % nk == 0 then
                  Xor(SBox(KeyByte(key, nk, 4 * (n - 1) + (r + 1) % 4)), if r == 0 then Power(n / nk - 1) else 0)
                else if nk == 8 && n % 8 == 4 then SBox(KeyByte(key, nk, 4 * (n - 1) + r))
                else KeyByte(key, nk, 4 * (n - 1) + r))
  {
    hide Xor, SBox, Power;
    QuotientAtLeastOne(n, nk);
    PlaceOfByte(n, r);
  }

  lemma PlaceOfByte(n: nat, r: nat)
    requires r < 4
    ensures (4 * n + r) / 4 == n && (4 * n + r) % 4 == r
  {
  }

  lemma QuotientAtLeastOne(n: nat, nk: nat)
    requires 0 < nk <= n
    ensures n / nk >= 1
  {
  }

  lemma KeyBytesStep(key: seq<bv8>, nk: nat, n: nat)
    requires KeyLength(key, nk) && nk <= n
    ensures KeyBytes(key, nk, n)
         == XorColumn(KeyBytes(key, nk, n - nk), FeedbackBytes(KeyBytes(key, nk, n - 1), n, nk))
  {
    hide Xor, SBox, Power, KeyByte;
    KeyByteStep(key, nk, n, 0);
    KeyByteStep(key, nk, n, 1);
    KeyByteStep(key, nk, n, 2);
    KeyByteStep(key, nk, n, 3);
  }

  /** The words of the schedule hold the bytes of the expanded key. */
  lemma {:induction false} ScheduleIsStandard(key: seq<bv8>, nk: nat, n: nat)
    requires KeyLength(key, nk) && n < 60
    ensures WordBytes(ScheduleWord(key, nk, n)) == KeyBytes(key, nk, n)
  {
    hide PackWord, WordBytes, XorWord, XorColumn, Feedback, FeedbackBytes, KeyBytes;
    if n < nk {
      FirstWords(key, nk, n);
      PackWordInverse(KeyColumn(key, n), 0);
      FirstKeyBytes(key, nk, n);
    } else {
      ScheduleIsStandard(key, nk, n - nk);
      ScheduleIsStandard(key, nk, n - 1);
      ScheduleStep(key, nk, n);
      BytesOfXor(ScheduleWord(key, nk, n - nk), Feedback(ScheduleWord(key, nk, n - 1), n, nk));
      BytesOfFeedback(ScheduleWord(key, nk, n - 1), n, nk);
      KeyBytesStep(key, nk, n);
    }
  }

  lemma FirstKeyBytes(key: seq<bv8>, nk: nat, n: nat)
    requires KeyLength(key, nk) && n < nk
    ensures KeyBytes(key, nk, n) == KeyColumn(key, n)
  {
  }

  // ------------------------------------------------------------- section 5.1

  /** Byte (r, c) after substituting and shifting the rows: row r comes from r columns further on. */
  function Shifted(s: seq<bv8>, r: nat, c: nat): bv8
    requires |s| == 16 && r < 4 && c < 4
  {
    SBox(s[r + 4 * ((c + r) % 4)])
  }

  /** Entry (r, j) of the matrix of section 5.1.3. */
  function Entry(r: nat, j: nat): bv8
    requires r < 4 && j < 4
  {
    if j == r then 2 else if j == (r + 1) % 4 then 3 else 1
  }

  /** Byte (r, c) after mixing the columns. */
  function Mixed(s: seq<bv8>, r: nat, c: nat): bv8
    requires |s| == 16 && r < 4 && c < 4
  {
    Xor4(Mul(Shifted(s, 0, c), Entry(r, 0)), Mul(Shifted(s, 1, c), Entry(r, 1)),
         Mul(Shifted(s, 2, c), Entry(r, 2)), Mul(Shifted(s, 3, c), Entry(r, 3)))
  }

  function ShiftedBlock(s: seq<bv8>): (t: seq<bv8>)
    requires |s| == 16
    ensures |t| == 16
  {
    seq(16, i requires 0 <= i < 16 => Shifted(s, i % 4, i / 4))
  }

  function MixedBlock(s: seq<bv8>): (t: seq<bv8>)
    requires |s| == 16
    ensures |t| == 16
  {
    seq(16, i requires 0 <= i < 16 => Mixed(s, i % 4, i / 4))
  }

  /** A block with round key `n` added. */
  function Added(b: seq<bv8>, key: seq<bv8>, nk: nat, n: nat): (r: seq<bv8>)
    requires |b| == 16 && KeyLength(key, nk)
    ensures |r| == 16
  {
    seq(16, i requires 0 <= i < 16 => Xor(b[i], KeyByte(key, nk, 16 * n + i)))
  }

  /** The state after the first key and `n` full rounds; byte (r, c) is byte r + 4 * c. */
  function RoundsOf(block: seq<bv8>, key: seq<bv8>, nk: nat, n: nat): (s: seq<bv8>)
    requires |block| == 16 && KeyLength(key, nk)
    ensures |s| == 16
  {
    if n == 0 then Added(block, key, nk, 0) else Added(MixedBlock(RoundsOf(block, key, nk, n - 1)), key, nk, n)
  }

  /** The cipher has nk + 6 rounds, the last one without mixing the columns. */
  function Encrypt(block: seq<bv8>, key: seq<bv8>, nk: nat): (c: seq<bv8>)
    requires |block| == 16 && KeyLength(key, nk)
    ensures |c| == 16
  {
    Added(ShiftedBlock(RoundsOf(block, key, nk, nk + 5)), key, nk, nk + 6)
  }

  /** The words are those of the schedule, as far as the round keys go. */
  predicate IsSchedule(w: seq<bv32>, key: seq<bv8>, nk: nat)
    requires KeyLength(key, nk)
  {
    4 * nk + 28 <= |w| <= 60 && forall n | 0 <= n < |w| :: w[n] == ScheduleWord(key, nk, n)
  }

  lemma RoundKeyBytes(w: seq<bv32>, key: seq<bv8>, nk: nat, n: nat, c: nat)
    requires KeyLength(key, nk) && IsSchedule(w, key, nk) && n <= nk + 6 && c < 4
    ensures HasRoundKey(w, n)
    ensures WordBytes(w[4 * n + c])
         == Column(KeyByte(key, nk, 16 * n + 4 * c), KeyByte(key, nk, 16 * n + 4 * c + 1),
                   KeyByte(key, nk, 16 * n + 4 * c + 2), KeyByte(key, nk, 16 * n + 4 * c + 3))
  {
    hide WordBytes, KeyByte, ScheduleWord;
    ScheduleIsStandard(key, nk, 4 * n + c);
  }

  /** Four bytes of a block, as a column. */
  function ColumnAt(b: seq<bv8>, c: nat): Column
    requires |b| == 16 && c < 4
  {
    Column(b[4 * c], b[4 * c + 1], b[4 * c + 2], b[4 * c + 3])
  }

  lemma AddColumn(b: seq<bv8>, w: seq<bv32>, key: seq<bv8>, nk: nat, n: nat, c: nat)
    requires |b| == 16 && KeyLength(key, nk) && IsSchedule(w, key, nk) && n <= nk + 6 && c < 4
    ensures HasRoundKey(w, n)
    ensures XorColumn(ColumnAt(b, c), WordBytes(w[4 * n + c])) == ColumnAt(Added(b, key, nk, n), c)
  {
    hide WordBytes, KeyByte, Xor, IsSchedule;
    RoundKeyBytes(w, key, nk, n, c);
  }

  lemma AddIsStandard(b: seq<bv8>, w: seq<bv32>, key: seq<bv8>, nk: nat, n: nat)
    requires |b| == 16 && KeyLength(key, nk) && IsSchedule(w, key, nk) && n <= nk + 6
    ensures HasRoundKey(w, n)
    ensures AddRoundKey(FromBlock(b), w, n) == FromBlock(Added(b, key, nk, n))
  {
    hide WordBytes, IsSchedule, XorColumn, Added;
    AddColumn(b, w, key, nk, n, 0);
    AddColumn(b, w, key, nk, n, 1);
    AddColumn(b, w, key, nk, n, 2);
    AddColumn(b, w, key, nk, n, 3);
  }

  lemma ShiftIsStandard(b: seq<bv8>)
    requires |b| == 16
    ensures ShiftRows(SubBytes(FromBlock(b))) == FromBlock(ShiftedBlock(b))
  {
    hide SBox;
  }

  lemma MixIsStandard(b: seq<bv8>)
    requires |b| == 16
    ensures MixColumns(ShiftRows(SubBytes(FromBlock(b)))) == FromBlock(MixedBlock(b))
  {
    hide SBox, Mul, Xor, Xor4;
  }

  lemma {:induction false} RoundsAreStandard(block: seq<bv8>, w: seq<bv32>, key: seq<bv8>, nk: nat, n: nat)
    requires |block| == 16 && KeyLength(key, nk) && IsSchedule(w, key, nk) && n < nk + 6
    ensures HasRoundKey(w, n) && EncryptRounds(FromBlock(block), w, n) == FromBlock(RoundsOf(block, key, nk, n))
  {
    hide AddRoundKey, MixColumns, ShiftRows, SubBytes, FromBlock, MixedBlock, Added, IsSchedule;
    if n == 0 {
      AddIsStandard(block, w, key, nk, 0);
    } else {
      RoundsAreStandard(block, w, key, nk, n - 1);
      var s := RoundsOf(block, key, nk, n - 1);
      MixIsStandard(s);
      AddIsStandard(MixedBlock(s), w, key, nk, n);
    }
  }

  lemma ScheduleOfKey(key: seq<bv8>, keysize: int)
    requires ValidKeySize(keysize) && |key| == keysize / 8
    ensures var nk := keysize / 32;
            KeyLength(key, nk) && IsSchedule(Schedule(key, keysize), key, nk) && EncryptionRounds(keysize) == nk + 6
  {
    hide ScheduleWord;
    assert KeyWords(keysize) == keysize / 32;
    var w := Schedule(key, keysize);
    forall n | 0 <= n < |w| ensures w[n] == ScheduleWord(key, keysize / 32, n) {
    }
  }

  /** For every key of the three sizes and every block, the code's cipher under its expanded key is AES. */
  lemma EncryptIsStandard(block: seq<bv8>, key: seq<bv8>, keysize: int)
    requires |block| == 16 && ValidKeySize(keysize) && |key| == keysize / 8
    ensures EncryptBlock(block, Schedule(key, keysize), keysize) == Encrypt(block, key, keysize / 32)
  {
    hide AddRoundKey, ShiftRows, SubBytes, FromBlock, ToBlock, ShiftedBlock, Added, IsSchedule, Schedule, EncryptRounds,
        RoundsOf;
    var nk, w := keysize / 32, Schedule(key, keysize);
    ScheduleOfKey(key, keysize);
    RoundsAreStandard(block, w, key, nk, nk + 5);
    var s := RoundsOf(block, key, nk, nk + 5);
    ShiftIsStandard(s);
    AddIsStandard(ShiftedBlock(s), w, key, nk, nk + 6);
    BlocksAreStates(Encrypt(block, key, nk), FromBlock(s));
  }

  /** And the inverse cipher gives the one block that AES encrypts to the one it is given. */
  lemma DecryptIsStandard(block: seq<bv8>, key: seq<bv8>, keysize: int, plain: seq<bv8>)
    requires |block| == |plain| == 16 && ValidKeySize(keysize) && |key| == keysize / 8
    ensures DecryptBlock(block, Schedule(key, keysize), keysize) == plain
       <==> Encrypt(plain, key, keysize / 32) == block
  {
    hide Schedule, EncryptBlock, DecryptBlock, Encrypt;
    var w := Schedule(key, keysize);
    AesRoundTrip(block, w, keysize);
    AesRoundTrip(plain, w, keysize);
    EncryptIsStandard(plain, key, keysize);
  }
}
