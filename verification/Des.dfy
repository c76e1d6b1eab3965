/**
 DES and triple DES (sections 2 and 3 of NIST SP 800-67) as Feistel networks. The round
 function is a parameter: what is proved holds for every one, in particular for the one
 with the S-boxes of DES.
 */
module Des {
  import opened Buffers
  import opened Feistel
  import opened DesPermutation

  const ROUNDS := 16
  const BLOCK := 8

  type RoundFunction = (bv32, seq<bv8>) -> bv32

  function Round(f: RoundFunction, h: Halves, k: seq<bv8>): Halves {
    Halves(h.r, Add(f(h.r, k), h.l))
  }

  function Rounds(f: RoundFunction, h: Halves, keys: seq<seq<bv8>>, n: nat): Halves
    requires n <= |keys|
  {
    if n == 0 then h else Round(f, Rounds(f, h, keys, n - 1), keys[n - 1])
  }

  /** The sixteen rounds between the permutations; the last one does not switch sides. */
  function Crypt(f: RoundFunction, b: seq<bv8>, keys: seq<seq<bv8>>): (c: seq<bv8>)
    requires |b| == BLOCK && |keys| == ROUNDS
    ensures |c| == BLOCK
  {
    InvIp(Swap(Rounds(f, Ip(b), keys, ROUNDS)))
  }

  function Reversed(keys: seq<seq<bv8>>): (r: seq<seq<bv8>>)
    ensures |r| == |keys|
  {
    seq(|keys|, i requires 0 <= i < |keys| => keys[|keys| - 1 - i])
  }

  /** A round undoes itself between two switches of sides. */
  lemma RoundBack(f: RoundFunction, h: Halves, k: seq<bv8>)
    ensures Round(f, Swap(Round(f, h, k)), k) == Swap(h)
  {
    hide Add;
    AddCancel(h.l, f(h.r, k));
  }

  /** After `j` rounds with the keys in reverse, `j` rounds are undone. */
  lemma {:induction false} RoundsUnwind(f: RoundFunction, h: Halves, keys: seq<seq<bv8>>, j: nat)
    requires j <= |keys|
    ensures Rounds(f, Swap(Rounds(f, h, keys, |keys|)), Reversed(keys), j) == Swap(Rounds(f, h, keys, |keys| - j))
  {
    hide Round;
    if j > 0 {
      RoundsUnwind(f, h, keys, j - 1);
      RoundBack(f, Rounds(f, h, keys, |keys| - j), keys[|keys| - j]);
    }
  }

  /** For every round function, schedule and block, the reversed schedule decrypts. */
  lemma CryptInverse(f: RoundFunction, b: seq<bv8>, keys: seq<seq<bv8>>)
    requires |b| == BLOCK && |keys| == ROUNDS
    ensures Crypt(f, Crypt(f, b, keys), Reversed(keys)) == b
  {
    hide Ip, InvIp, Rounds;
    var last := Rounds(f, Ip(b), keys, ROUNDS);
    IpOfInvIp(Swap(last));
    RoundsUnwind(f, Ip(b), keys, ROUNDS);
    NoRounds(f, Ip(b), keys);
    InvIpOfIp(b);
  }

  lemma NoRounds(f: RoundFunction, h: Halves, keys: seq<seq<bv8>>)
    ensures Rounds(f, h, keys, 0) == h
  {
  }

  // ------------------------------------------------------------- key schedule

  datatype Mode = Encrypt | Decrypt

  function Other(mode: Mode): Mode {
    if mode == Encrypt then Decrypt else Encrypt
  }

  type KeyShift = n: nat | 1 <= n <= 2 witness 1
  type KeyBit = n: nat | n < 64
  type HalfBit = n: nat | n < 28

  const KEY_RND_SHIFT: seq<KeyShift> := [1, 1, 2, 2, 2, 2, 2, 2, 1, 2, 2, 2, 2, 2, 2, 1]
  const KEY_PERM_C: seq<KeyBit> := [
    56, 48, 40, 32, 24, 16, 8, 0, 57, 49, 41, 33, 25, 17, 9, 1, 58, 50, 42, 34, 26, 18, 10, 2, 59, 51, 43, 35]
  const KEY_PERM_D: seq<KeyBit> := [
    62, 54, 46, 38, 30, 22, 14, 6, 61, 53, 45, 37, 29, 21, 13, 5, 60, 52, 44, 36, 28, 20, 12, 4, 27, 19, 11, 3]

  /** The two halves of the compression table; the second one selects from D, counted from 28. */
  const KEY_COMPRESSION_C: seq<HalfBit> := [
    13, 16, 10, 23, 0, 4, 2, 27, 14, 5, 20, 9, 22, 18, 11, 3, 25, 7, 15, 6, 26, 19, 12, 1]
  const KEY_COMPRESSION_D: seq<HalfBit> := [
    40 - 28, 51 - 28, 30 - 28, 36 - 28, 46 - 28, 54 - 28, 29 - 28, 39 - 28, 50 - 28, 44 - 28, 32 - 28, 47 - 28,
    43 - 28, 48 - 28, 38 - 28, 55 - 28, 33 - 28, 52 - 28, 45 - 28, 41 - 28, 49 - 28, 35 - 28, 28 - 28, 31 - 28]

  /** Bit `n` of a byte string, counted from the left, moved to bit `c` of a word. */
  function BitNum(b: seq<bv8>, n: nat, c: nat): bv32
    requires n < 8 * |b| && c < 32
  {
    ((b[n / 8] >> (7 - n % 8)) & 1) as bv32 << c
  }

  /** Bit `n` of a word, counted from the left, moved to bit `c` of a byte. */
  function BitOfWord(w: bv32, n: nat, c: nat): bv8
    requires n < 32 && c < 8
  {
    ((w >> (31 - n)) & 1) as bv8 << c
  }

  function Or(a: bv32, b: bv32): bv32 {
    a | b
  }

  function OrByte(a: bv8, b: bv8): bv8 {
    a | b
  }

  /** The first `n` bits of one half of the key. */
  function Chosen(key: seq<bv8>, table: seq<KeyBit>, n: nat): bv32
    requires |key| == 8 && |table| == 28 && n <= 28
  {
    if n == 0 then 0 else Or(Chosen(key, table, n - 1), BitNum(key, table[n - 1], 32 - n))
  }

  function Rotate(c: bv32, shift: nat): bv32
    requires shift <= 2
  {
    ((c << shift) | (c >> (28 - shift))) & 0xfffffff0
  }

  /** One half of the key after `n` rotations. */
  function HalfKey(key: seq<bv8>, table: seq<KeyBit>, n: nat): bv32
    requires |key| == 8 && |table| == 28 && n <= ROUNDS
  {
    if n == 0 then Chosen(key, table, 28) else Rotate(HalfKey(key, table, n - 1), KEY_RND_SHIFT[n - 1])
  }

  /** The subkey bit that goes to position `j`. */
  function SubkeyBit(c: bv32, d: bv32, j: nat): bv8
    requires j < 48
  {
    if j < 24 then BitOfWord(c, KEY_COMPRESSION_C[j], 7 - j % 8) else BitOfWord(d, KEY_COMPRESSION_D[j - 24], 7 - j % 8)
  }

  function SubkeyBits(c: bv32, d: bv32, n: nat): (r: seq<bv8>)
    requires n <= 48
    ensures |r| == 6
  {
    if n == 0 then [0, 0, 0, 0, 0, 0]
    else
      var r := SubkeyBits(c, d, n - 1);
      var j := n - 1;
      r[j / 8 := OrByte(r[j / 8], SubkeyBit(c, d, j))]
  }

  function Subkey(key: seq<bv8>, i: nat): (r: seq<bv8>)
    requires |key| == 8 && i < ROUNDS
    ensures |r| == 6
  {
    SubkeyBits(HalfKey(key, KEY_PERM_C, i + 1), HalfKey(key, KEY_PERM_D, i + 1), 48)
  }

  function Position(mode: Mode, i: nat): (p: nat)
    requires i < ROUNDS
    ensures p < ROUNDS
  {
    if mode == Decrypt then 15 - i else i
  }

  function Schedule(key: seq<bv8>, mode: Mode): (r: seq<seq<bv8>>)
    requires |key| == 8
    ensures |r| == ROUNDS
  {
    seq(ROUNDS, i requires 0 <= i < ROUNDS => Subkey(key, Position(mode, i)))
  }

  /** The two modes give the same subkeys in opposite order. */
  lemma ScheduleReversed(key: seq<bv8>, mode: Mode)
    requires |key| == 8
    ensures Schedule(key, Other(mode)) == Reversed(Schedule(key, mode))
  {
    hide Subkey;
  }

  /** Decryption undoes encryption, and the other way round, for every key and block. */
  lemma DesRoundTrip(f: RoundFunction, b: seq<bv8>, key: seq<bv8>, mode: Mode)
    requires |b| == BLOCK && |key| == 8
    ensures Crypt(f, Crypt(f, b, Schedule(key, mode)), Schedule(key, Other(mode))) == b
  {
    hide Crypt, Schedule;
    ScheduleReversed(key, mode);
    CryptInverse(f, b, Schedule(key, mode));
  }

  // ------------------------------------------------------------- the implementation

  predicate IsSchedule(schedule: array2<bv8>) {
    schedule.Length0 == ROUNDS && schedule.Length1 == 6
  }

  function Row(schedule: array2<bv8>, i: nat): (r: seq<bv8>)
    requires IsSchedule(schedule) && i < ROUNDS
    reads schedule
    ensures |r| == 6
  {
    seq(6, j requires 0 <= j < 6 reads schedule => schedule[i, j])
  }

  function Rows(schedule: array2<bv8>): (r: seq<seq<bv8>>)
    requires IsSchedule(schedule)
    reads schedule
    ensures |r| == ROUNDS
  {
    seq(ROUNDS, i requires 0 <= i < ROUNDS reads schedule => Row(schedule, i))
  }

  /** Writes the subkey of one round, bit by bit. */
  method WriteSubkey(schedule: array2<bv8>, row: nat, c: bv32, d: bv32)
    requires IsSchedule(schedule) && row < ROUNDS
    modifies schedule
    ensures Rows(schedule) == old(Rows(schedule))[row := SubkeyBits(c, d, 48)]
  {
    hide SubkeyBit, OrByte;
    for j := 0 to 6
      invariant forall k | 0 <= k < j :: schedule[row, k] == 0
      invariant forall i, k | 0 <= i < ROUNDS && 0 <= k < 6 && i != row :: schedule[i, k] == old(schedule[i, k])
    {
      schedule[row, j] := 0;
    }
    for j := 0 to 48
      invariant Row(schedule, row) == SubkeyBits(c, d, j)
      invariant forall i, k | 0 <= i < ROUNDS && 0 <= k < 6 && i != row :: schedule[i, k] == old(schedule[i, k])
    {
      assert schedule[row, j / 8] == Row(schedule, row)[j / 8];
      schedule[row, j / 8] := OrByte(schedule[row, j / 8], SubkeyBit(c, d, j));
    }
    forall i | 0 <= i < ROUNDS ensures Rows(schedule)[i] == old(Rows(schedule))[row := SubkeyBits(c, d, 48)][i] {
      assert i != row ==> Row(schedule, i) == old(Row(schedule, i));
    }
  }

  method ChooseBits(key: seq<bv8>, table: seq<KeyBit>) returns (c: bv32)
    requires |key| == 8 && |table| == 28
    ensures c == HalfKey(key, table, 0)
  {
    hide BitNum, Or;
    c := 0;
    for i := 0 to 28
      invariant c == Chosen(key, table, i)
    {
      c := Or(c, BitNum(key, table[i], 31 - i));
    }
  }

  method DesKeySetup(key: seq<bv8>, schedule: array2<bv8>, mode: Mode)
    requires |key| == 8 && IsSchedule(schedule)
    modifies schedule
    ensures Rows(schedule) == Schedule(key, mode)
  {
    hide SubkeyBits, Rotate, Chosen, Rows;
    var c := ChooseBits(key, KEY_PERM_C);
    var d := ChooseBits(key, KEY_PERM_D);
    for i := 0 to 16
      invariant c == HalfKey(key, KEY_PERM_C, i) && d == HalfKey(key, KEY_PERM_D, i)
      invariant forall n | 0 <= n < i :: Rows(schedule)[Position(mode, n)] == Subkey(key, n)
    {
      c := Rotate(c, KEY_RND_SHIFT[i]);
      d := Rotate(d, KEY_RND_SHIFT[i]);
      WriteSubkey(schedule, Position(mode, i), c, d);
    }
    forall n | 0 <= n < ROUNDS ensures Rows(schedule)[n] == Subkey(key, Position(mode, n)) {
      assert Position(mode, Position(mode, n)) == n;
    }
  }

  /** Input and output may be the same array. */
  method DesCrypt(f: RoundFunction, input: array<bv8>, output: array<bv8>, key: array2<bv8>)
    requires input.Length >= BLOCK && output.Length >= BLOCK && IsSchedule(key)
    modifies output
    ensures output[..BLOCK] == Crypt(f, old(input[..BLOCK]), Rows(key))
    ensures output[BLOCK..] == old(output[BLOCK..])
  {
    hide Ip, Byte0, Byte1, Byte2, Byte3, Byte4, Byte5, Byte6, Byte7;
    var state := Ip(input[..BLOCK]);
    ghost var start, keys := state, Rows(key);
    var l, r := state.l, state.r;
    for idx := 0 to 15
      invariant Halves(l, r) == Rounds(f, start, keys, idx)
    {
      var t := r;
      r := Add(f(r, Row(key, idx)), l);
      l := t;
    }
    l := Add(f(r, Row(key, 15)), l);
    StoreBlock(output, Byte0(l, r), Byte1(l, r), Byte2(l, r), Byte3(l, r),
               Byte4(l, r), Byte5(l, r), Byte6(l, r), Byte7(l, r));
  }

  // ------------------------------------------------------------- triple DES

  /** Three schedules, of alternating modes. */
  datatype TripleSchedule = TripleSchedule(first: seq<seq<bv8>>, second: seq<seq<bv8>>, third: seq<seq<bv8>>)

  function TripleKeys(key: seq<bv8>, mode: Mode): TripleSchedule
    requires |key| == 24
  {
    var first := if mode == Encrypt then key[0..8] else key[16..24];
    var third := if mode == Encrypt then key[16..24] else key[0..8];
    TripleSchedule(Schedule(first, mode), Schedule(key[8..16], Other(mode)), Schedule(third, mode))
  }

  predicate IsTriple(s: TripleSchedule) {
    |s.first| == |s.second| == |s.third| == ROUNDS
  }

  function TripleCrypt(f: RoundFunction, b: seq<bv8>, s: TripleSchedule): (c: seq<bv8>)
    requires |b| == BLOCK && IsTriple(s)
    ensures |c| == BLOCK
  {
    Crypt(f, Crypt(f, Crypt(f, b, s.first), s.second), s.third)
  }

  method TripleKeySetup(key: seq<bv8>, schedule: seq<array2<bv8>>, mode: Mode)
    requires |key| == 24 && |schedule| == 3
    requires forall i | 0 <= i < 3 :: IsSchedule(schedule[i])
    requires schedule[0] != schedule[1] && schedule[1] != schedule[2] && schedule[0] != schedule[2]
    modifies schedule
    ensures TripleSchedule(Rows(schedule[0]), Rows(schedule[1]), Rows(schedule[2])) == TripleKeys(key, mode)
  {
    hide Schedule, Rows;
    if mode == Encrypt {
      DesKeySetup(key[0..8], schedule[0], mode);
      DesKeySetup(key[8..16], schedule[1], Other(mode));
      DesKeySetup(key[16..24], schedule[2], mode);
    } else {
      DesKeySetup(key[16..24], schedule[0], mode);
      DesKeySetup(key[8..16], schedule[1], Other(mode));
      DesKeySetup(key[0..8], schedule[2], mode);
    }
  }

  /** The second and third pass work in place. */
  method TripleDesCrypt(f: RoundFunction, input: array<bv8>, output: array<bv8>, key: seq<array2<bv8>>)
    requires input.Length >= BLOCK && output.Length >= BLOCK && |key| == 3
    requires forall i | 0 <= i < 3 :: IsSchedule(key[i])
    modifies output
    ensures output[..BLOCK]
         == TripleCrypt(f, old(input[..BLOCK]), TripleSchedule(Rows(key[0]), Rows(key[1]), Rows(key[2])))
    ensures output[BLOCK..] == old(output[BLOCK..])
  {
    hide Crypt, Rows;
    DesCrypt(f, input, output, key[0]);
    DesCrypt(f, output, output, key[1]);
    DesCrypt(f, output, output, key[2]);
  }

  /** The three passes of one mode are undone, last one first, by those of the other. */
  lemma TripleRoundTrip(f: RoundFunction, b: seq<bv8>, key: seq<bv8>, mode: Mode)
    requires |b| == BLOCK && |key| == 24
    ensures TripleCrypt(f, TripleCrypt(f, b, TripleKeys(key, mode)), TripleKeys(key, Other(mode))) == b
  {
    hide Crypt, Schedule;
    var k1 := if mode == Encrypt then key[0..8] else key[16..24];
    var k2 := key[8..16];
    var k3 := if mode == Encrypt then key[16..24] else key[0..8];
    var x := Crypt(f, b, Schedule(k1, mode));
    var y := Crypt(f, x, Schedule(k2, Other(mode)));
    DesRoundTrip(f, b, k1, mode);
    DesRoundTrip(f, x, k2, Other(mode));
    DesRoundTrip(f, y, k3, mode);
  }
}
