/** The AES key expansion (section 5.2 of FIPS 197). */
module KeySchedule {
  import opened AesTables
  import opened GaloisField
  import opened Aes

  function PackWord(c: Column): bv32 {
    (c.b0 as bv32 << 24) | (c.b1 as bv32 << 16) | (c.b2 as bv32 << 8) | (c.b3 as bv32)
  }

  lemma PackWordInverse(c: Column, w: bv32)
    ensures WordBytes(PackWord(c)) == c
    ensures PackWord(WordBytes(w)) == w
  {
  }

  /** The substitution table applied to the four bytes of a word. */
  function SubWord(w: bv32): bv32 {
    PackWord(MapColumn(SBox, WordBytes(w)))
  }

  function XorWord(a: bv32, b: bv32): bv32 {
    a ^ b
  }

  function RotWord(w: bv32): bv32 {
    (w << 8) | (w >> 24)
  }

  lemma RotWordRotates(w: bv32)
    ensures WordBytes(RotWord(w)) == Rotate(WordBytes(w))
  {
  }

  /** The key expansion works on words what section 5.2 of FIPS 197 says of bytes. */
  lemma SubWordBytes(w: bv32)
    ensures WordBytes(SubWord(w)) == MapColumn(SBox, WordBytes(w))
    ensures WordBytes(SubWord(RotWord(w))) == MapColumn(SBox, Rotate(WordBytes(w)))
  {
    hide PackWord, WordBytes, SBox, RotWord;
    PackWordInverse(MapColumn(SBox, WordBytes(w)), w);
    PackWordInverse(MapColumn(SBox, WordBytes(RotWord(w))), w);
    RotWordRotates(w);
  }

  const RCON: seq<bv32> := [
    0x01000000, 0x02000000, 0x04000000, 0x08000000, 0x10000000, 0x20000000, 0x40000000, 0x80000000,
    0x1b000000, 0x36000000, 0x6c000000, 0xd8000000, 0xab000000, 0x4d000000, 0x9a000000
  ]

  /** The round constants are the powers of x, each in the first byte of its word. */
  lemma RoundConstants(j: nat)
    requires j < 14
    ensures WordBytes(RCON[0]) == Column(1, 0, 0, 0)
    ensures WordBytes(RCON[j + 1]) == Column(XTime(WordBytes(RCON[j]).b0), 0, 0, 0)
  {
    if j < 7 {
      assert j == 0 || j == 1 || j == 2 || j == 3 || j == 4 || j == 5 || j == 6;
    } else {
      assert j == 7 || j == 8 || j == 9 || j == 10 || j == 11 || j == 12 || j == 13;
    }
  }

  /** Words in a key of the given size. */
  function KeyWords(keysize: int): nat
    requires ValidKeySize(keysize)
  {
    if keysize == 128 then 4 else if keysize == 192 then 6 else 8
  }

  /** Words in the schedule: a round key for the start and one for every round. */
  function ScheduleWords(keysize: int): nat {
    4 * (EncryptionRounds(keysize) + 1)
  }

  /** What is added to the word `nk` places back to give word `i`. */
  function Feedback(previous: bv32, i: nat, nk: nat): bv32
    requires nk == 4 || nk == 6 || nk == 8
    requires nk <= i < 60
  {
    if i % nk == 0 then XorWord(SubWord(RotWord(previous)), RCON[(i - 1) / nk])
    else if nk > 6 && i % nk == 4 then SubWord(previous)
    else previous
  }

  function ScheduleWord(key: seq<bv8>, nk: nat, i: nat): bv32
    requires nk == 4 || nk == 6 || nk == 8
    requires |key| == 4 * nk && i < 60
  {
    if i < nk then PackWord(KeyColumn(key, i))
    else XorWord(ScheduleWord(key, nk, i - nk), Feedback(ScheduleWord(key, nk, i - 1), i, nk))
  }

  function Schedule(key: seq<bv8>, keysize: int): (w: seq<bv32>)
    requires ValidKeySize(keysize) && |key| == keysize / 8
    ensures |w| == ScheduleWords(keysize)
    ensures Aes.HasSchedule(w, keysize)
  {
    seq(ScheduleWords(keysize), i requires 0 <= i < ScheduleWords(keysize) => ScheduleWord(key, KeyWords(keysize), i))
  }

  lemma ScheduleStep(key: seq<bv8>, nk: nat, i: nat)
    requires (nk == 4 || nk == 6 || nk == 8) && |key| == 4 * nk && nk <= i < 60
    ensures ScheduleWord(key, nk, i)
         == XorWord(ScheduleWord(key, nk, i - nk), Feedback(ScheduleWord(key, nk, i - 1), i, nk))
  {
  }

  lemma XorWordCancel(a: bv32, b: bv32, t: bv32)
    requires XorWord(a, t) == XorWord(b, t)
    ensures a == b
  {
    assert XorWord(a ^ t, t) == a;
    assert XorWord(b ^ t, t) == b;
  }

  /** The expansion runs backwards: any window of `nk` consecutive words determines the words before it. */
  lemma {:induction false} WindowDeterminesPrefix(key: seq<bv8>, key': seq<bv8>, nk: nat, top: nat, i: nat)
    requires (nk == 4 || nk == 6 || nk == 8) && |key| == |key'| == 4 * nk
    requires nk <= top <= 60 && i < top
    requires forall j | top - nk <= j < top :: ScheduleWord(key, nk, j) == ScheduleWord(key', nk, j)
    ensures ScheduleWord(key, nk, i) == ScheduleWord(key', nk, i)
    decreases top
  {
    hide Feedback, XorWord, PackWord;
    if i < top - nk {
      var t := top - 1;
      assert ScheduleWord(key, nk, t) == ScheduleWord(key', nk, t);
      assert ScheduleWord(key, nk, t - 1) == ScheduleWord(key', nk, t - 1);
      ScheduleStep(key, nk, t);
      ScheduleStep(key', nk, t);
      XorWordCancel(ScheduleWord(key, nk, t - nk), ScheduleWord(key', nk, t - nk),
                    Feedback(ScheduleWord(key, nk, t - 1), t, nk));
      WindowDeterminesPrefix(key, key', nk, t, i);
    }
  }

  lemma PackWordInjective(c: Column, d: Column)
    requires PackWord(c) == PackWord(d)
    ensures c == d
  {
    hide PackWord, WordBytes;
    PackWordInverse(c, 0);
    PackWordInverse(d, 0);
  }

  /** So it determines the key. */
  lemma WindowDeterminesKey(key: seq<bv8>, key': seq<bv8>, nk: nat, top: nat)
    requires (nk == 4 || nk == 6 || nk == 8) && |key| == |key'| == 4 * nk && nk <= top <= 60
    requires forall j | top - nk <= j < top :: ScheduleWord(key, nk, j) == ScheduleWord(key', nk, j)
    ensures key == key'
  {
    hide ScheduleWord;
    forall x | 0 <= x < |key| ensures key[x] == key'[x] {
      var i := x / 4;
      WindowDeterminesPrefix(key, key', nk, top, i);
      FirstWords(key, nk, i);
      FirstWords(key', nk, i);
      PackWordInjective(KeyColumn(key, i), KeyColumn(key', i));
    }
  }

  function KeyColumn(key: seq<bv8>, i: nat): Column
    requires 4 * i + 3 < |key|
  {
    Column(key[4 * i], key[4 * i + 1], key[4 * i + 2], key[4 * i + 3])
  }

  lemma FirstWords(key: seq<bv8>, nk: nat, i: nat)
    requires (nk == 4 || nk == 6 || nk == 8) && |key| == 4 * nk && i < nk
    ensures ScheduleWord(key, nk, i) == PackWord(KeyColumn(key, i))
  {
    hide PackWord;
  }

  /** The first `n` words of `w` are those of the schedule, the words past the schedule are those of `before`. */
  ghost predicate Filled(w: seq<bv32>, before: seq<bv32>, key: seq<bv8>, keysize: int, n: nat)
    requires ValidKeySize(keysize) && |key| == keysize / 8
  {
    && n <= ScheduleWords(keysize) <= |w| == |before|
    && (forall j | 0 <= j < n :: w[j] == ScheduleWord(key, KeyWords(keysize), j))
    && (forall j | ScheduleWords(keysize) <= j < |w| :: w[j] == before[j])
  }

  lemma FilledUp(w: seq<bv32>, before: seq<bv32>, key: seq<bv8>, keysize: int)
    requires ValidKeySize(keysize) && |key| == keysize / 8 && Filled(w, before, key, keysize, ScheduleWords(keysize))
    ensures w == Schedule(key, keysize) + before[ScheduleWords(keysize)..]
  {
    hide ScheduleWord;
    var n := ScheduleWords(keysize);
    assert w[..n] == Schedule(key, keysize);
    assert w[n..] == before[n..];
    assert w == w[..n] + w[n..];
  }

  /** One word of the second loop. */
  method ExpandWord(w: array<bv32>, idx: nat, nk: nat, ghost before: seq<bv32>, ghost key: seq<bv8>, ghost keysize: int)
    requires ValidKeySize(keysize) && |key| == keysize / 8 && nk == KeyWords(keysize) <= idx < ScheduleWords(keysize)
    requires Filled(w[..], before, key, keysize, idx)
    modifies w
    ensures Filled(w[..], before, key, keysize, idx + 1)
  {
    hide PackWord, XorWord, SubWord, RotWord, ScheduleWord;
    var temp := w[idx - 1];
    if idx % nk == 0 {
      temp := XorWord(SubWord(RotWord(temp)), RCON[(idx - 1) / nk]);
    } else if nk > 6 && idx % nk == 4 {
      temp := SubWord(temp);
    }
    ScheduleStep(key, nk, idx);
    w[idx] := XorWord(w[idx - nk], temp);
  }

  /** Unsupported key sizes write nothing. */
  method AesKeySetup(key: seq<bv8>, w: array<bv32>, keysize: int)
    requires ValidKeySize(keysize) ==> |key| == keysize / 8 && ScheduleWords(keysize) <= w.Length
    modifies w
    ensures !ValidKeySize(keysize) ==> w[..] == old(w[..])
    ensures ValidKeySize(keysize) ==> w[..] == Schedule(key, keysize) + old(w[ScheduleWords(keysize)..])
  {
    hide PackWord, Feedback;
    var nr, nk;
    match keysize {
      case 128 => nr, nk := 10, 4;
      case 192 => nr, nk := 12, 6;
      case 256 => nr, nk := 14, 8;
      case _ => return;
    }
    var nb := 4;
    for idx := 0 to nk
      invariant Filled(w[..], old(w[..]), key, keysize, idx)
    {
      w[idx] := PackWord(Column(key[4 * idx], key[4 * idx + 1], key[4 * idx + 2], key[4 * idx + 3]));
    }
    for idx := nk to nb * (nr + 1)
      invariant Filled(w[..], old(w[..]), key, keysize, idx)
    {
      ExpandWord(w, idx, nk, old(w[..]), key, keysize);
    }
    FilledUp(w[..], old(w[..]), key, keysize);
  }
}
