/**
 DES as NIST SP 800-67 describes it, bit by bit: which bit of the block each bit of the
 initial permutation is, which bit of the key each bit of the sixteen subkeys is, and the
 sequence of halves. Bits are numbered from 1 in the standard and from 0 here, from the left.
 */
module DesStandard {
  import opened Feistel
  import opened DesPermutation
  import opened Des

  /** The bit of a byte that has `q` bits to its right. */
  function ByteBit(a: bv8, q: nat): bv8
    requires q < 8
  {
    (a >> q) & 1
  }

  /** Bit `i` of a byte string. */
  function Bit(b: seq<bv8>, i: nat): bv8
    requires i < 8 * |b|
  {
    ByteBit(b[i / 8], 7 - i % 8)
  }

  function WordBit(w: bv32, i: nat): bv8
    requires i < 32
  {
    ((w >> (31 - i)) & 1) as bv8
  }

  // ------------------------------------------------------------- initial permutation

  /** The bit of the block that bit `i` of the left half is: 58, 50, 42, ..., and in the next row two more. */
  function LeftSource(i: nat): (k: nat)
    requires i < 32
    ensures k < 64
  {
    57 - 8 * (i % 8) + 2 * (i / 8)
  }

  /** One less for the right half: 57, 49, 41, ... */
  function RightSource(i: nat): (k: nat)
    requires i < 32
    ensures k < 64
  {
    56 - 8 * (i % 8) + 2 * (i / 8)
  }

  lemma LeftBits0(b: seq<bv8>, i: nat)
    requires |b| == 8 && 0 <= i < 4
    ensures WordBit(LeftWord(b), i) == Bit(b, LeftSource(i))
  {
    match i
    case 0 => case 1 => case 2 => case 3 =>
  }

  lemma LeftBits4(b: seq<bv8>, i: nat)
    requires |b| == 8 && 4 <= i < 8
    ensures WordBit(LeftWord(b), i) == Bit(b, LeftSource(i))
  {
    match i
    case 4 => case 5 => case 6 => case 7 =>
  }

  lemma LeftBits8(b: seq<bv8>, i: nat)
    requires |b| == 8 && 8 <= i < 12
    ensures WordBit(LeftWord(b), i) == Bit(b, LeftSource(i))
  {
    match i
    case 8 => case 9 => case 10 => case 11 =>
  }

  lemma LeftBits12(b: seq<bv8>, i: nat)
    requires |b| == 8 && 12 <= i < 16
    ensures WordBit(LeftWord(b), i) == Bit(b, LeftSource(i))
  {
    match i
    case 12 => case 13 => case 14 => case 15 =>
  }

  lemma LeftBits16(b: seq<bv8>, i: nat)
    requires |b| == 8 && 16 <= i < 20
    ensures WordBit(LeftWord(b), i) == Bit(b, LeftSource(i))
  {
    match i
    case 16 => case 17 => case 18 => case 19 =>
  }

  lemma LeftBits20(b: seq<bv8>, i: nat)
    requires |b| == 8 && 20 <= i < 24
    ensures WordBit(LeftWord(b), i) == Bit(b, LeftSource(i))
  {
    match i
    case 20 => case 21 => case 22 => case 23 =>
  }

  lemma LeftBits24(b: seq<bv8>, i: nat)
    requires |b| == 8 && 24 <= i < 28
    ensures WordBit(LeftWord(b), i) == Bit(b, LeftSource(i))
  {
    match i
    case 24 => case 25 => case 26 => case 27 =>
  }

  lemma LeftBits28(b: seq<bv8>, i: nat)
    requires |b| == 8 && 28 <= i < 32
    ensures WordBit(LeftWord(b), i) == Bit(b, LeftSource(i))
  {
    match i
    case 28 => case 29 => case 30 => case 31 =>
  }

  lemma RightBits0(b: seq<bv8>, i: nat)
    requires |b| == 8 && 0 <= i < 4
    ensures WordBit(RightWord(b), i) == Bit(b, RightSource(i))
  {
    match i
    case 0 => case 1 => case 2 => case 3 =>
  }

  lemma RightBits4(b: seq<bv8>, i: nat)
    requires |b| == 8 && 4 <= i < 8
    ensures WordBit(RightWord(b), i) == Bit(b, RightSource(i))
  {
    match i
    case 4 => case 5 => case 6 => case 7 =>
  }

  lemma RightBits8(b: seq<bv8>, i: nat)
    requires |b| == 8 && 8 <= i < 12
    ensures WordBit(RightWord(b), i) == Bit(b, RightSource(i))
  {
    match i
    case 8 => case 9 => case 10 => case 11 =>
  }

  lemma RightBits12(b: seq<bv8>, i: nat)
    requires |b| == 8 && 12 <= i < 16
    ensures WordBit(RightWord(b), i) == Bit(b, RightSource(i))
  {
    match i
    case 12 => case 13 => case 14 => case 15 =>
  }

  lemma RightBits16(b: seq<bv8>, i: nat)
    requires |b| == 8 && 16 <= i < 20
    ensures WordBit(RightWord(b), i) == Bit(b, RightSource(i))
  {
    match i
    case 16 => case 17 => case 18 => case 19 =>
  }

  lemma RightBits20(b: seq<bv8>, i: nat)
    requires |b| == 8 && 20 <= i < 24
    ensures WordBit(RightWord(b), i) == Bit(b, RightSource(i))
  {
    match i
    case 20 => case 21 => case 22 => case 23 =>
  }

  lemma RightBits24(b: seq<bv8>, i: nat)
    requires |b| == 8 && 24 <= i < 28
    ensures WordBit(RightWord(b), i) == Bit(b, RightSource(i))
  {
    match i
    case 24 => case 25 => case 26 => case 27 =>
  }

  lemma RightBits28(b: seq<bv8>, i: nat)
    requires |b| == 8 && 28 <= i < 32
    ensures WordBit(RightWord(b), i) == Bit(b, RightSource(i))
  {
    match i
    case 28 => case 29 => case 30 => case 31 =>
  }

  /** For every bit of both halves. */
  lemma PermutationIsStandard(b: seq<bv8>, i: nat)
    requires |b| == 8 && i < 32
    ensures WordBit(Ip(b).l, i) == Bit(b, LeftSource(i)) && WordBit(Ip(b).r, i) == Bit(b, RightSource(i))
  {
    hide LeftWord, RightWord, WordBit, Bit, LeftSource, RightSource;
    if i < 4 {
      LeftBits0(b, i);
      RightBits0(b, i);
    } else if i < 8 {
      LeftBits4(b, i);
      RightBits4(b, i);
    } else if i < 12 {
      LeftBits8(b, i);
      RightBits8(b, i);
    } else if i < 16 {
      LeftBits12(b, i);
      RightBits12(b, i);
    } else if i < 20 {
      LeftBits16(b, i);
      RightBits16(b, i);
    } else if i < 24 {
      LeftBits20(b, i);
      RightBits20(b, i);
    } else if i < 28 {
      LeftBits24(b, i);
      RightBits24(b, i);
    } else {
      LeftBits28(b, i);
      RightBits28(b, i);
    }
  }

  // ------------------------------------------------------------- key schedule

  /** Permuted choice 1: which bit of the key bit `x` of the first half is, and of the second. */
  function ChoiceC(x: nat): (k: nat)
    requires x < 28
    ensures k < 64
  {
    56 - 8 * (x % 8) + x / 8
  }

  function ChoiceD(x: nat): (k: nat)
    requires x < 28
    ensures k < 64
  {
    if x < 24 then 62 - 8 * (x % 8) - x / 8 else 27 - 8 * (x - 24)
  }

  /** The total of the left shifts up to round `n`: two places each, but one in rounds 1, 2, 9 and 16. */
  function Shifts(n: nat): nat
    requires n <= 16
  {
    if n == 0 then 0 else Shifts(n - 1) + if n == 1 || n == 2 || n == 9 || n == 16 then 1 else 2
  }

  type LeftChoice = n: nat | 1 <= n <= 28 witness 1
  type RightChoice = n: nat | 29 <= n <= 56 witness 29

  /** The two halves of permuted choice 2, as printed in the standard. */
  const CHOICE_2_LEFT: seq<LeftChoice> := [
    14, 17, 11, 24, 1, 5, 3, 28, 15, 6, 21, 10, 23, 19, 12, 4, 26, 8, 16, 7, 27, 20, 13, 2]
  const CHOICE_2_RIGHT: seq<RightChoice> := [
    41, 52, 31, 37, 47, 55, 30, 40, 51, 45, 33, 48, 44, 49, 39, 56, 34, 53, 46, 42, 50, 36, 29, 32]

  /** The bit of the key that bit `j` of subkey `n` is. */
  function KeySource(n: nat, j: nat): (k: nat)
    requires 1 <= n <= 16 && j < 48
    ensures k < 64
  {
    if j < 24 then ChoiceC(Turned(CHOICE_2_LEFT[j] as int - 1, n))
    else ChoiceD(Turned(CHOICE_2_RIGHT[j - 24] as int - 29, n))
  }

  /** The place that bit `x` of a half had before the shifts of the first `n` rounds. */
  function Turned(x: nat, n: nat): (y: nat)
    requires n <= 16
    ensures y < 28
  {
    (x + Shifts(n)) % 28
  }

  // Single bits of words and bytes.

  /** A shift by a number, as a word. */
  function Amount(p: nat): bv32
    requires p < 32
  {
    match p
    case 0 => 0 case 1 => 1 case 2 => 2 case 3 => 3 case 4 => 4 case 5 => 5 case 6 => 6 case 7 => 7 case 8 => 8
    case 9 => 9 case 10 => 10 case 11 => 11 case 12 => 12 case 13 => 13 case 14 => 14 case 15 => 15
    case 16 => 16 case 17 => 17 case 18 => 18 case 19 => 19 case 20 => 20 case 21 => 21 case 22 => 22
    case 23 => 23 case 24 => 24 case 25 => 25 case 26 => 26 case 27 => 27 case 28 => 28 case 29 => 29
    case 30 => 30 case _ => 31
  }

  lemma NextAmount(p: nat)
    requires p < 31
    ensures Amount(p) < 31 && Amount(p + 1) == Amount(p) + 1 && (p >= 4 ==> Amount(p) >= 4)
  {
    match p
    case 0 => case 1 => case 2 => case 3 => case 4 => case 5 => case 6 => case 7 => case 8 => case 9 =>
    case 10 => case 11 => case 12 => case 13 => case 14 => case 15 => case 16 => case 17 => case 18 =>
    case 19 => case 20 => case 21 => case 22 => case 23 => case 24 => case 25 => case 26 => case 27 =>
    case 28 => case 29 => case 30 =>
  }

  lemma {:induction false} AmountGrows(p: nat, q: nat)
    requires p < q < 32
    ensures Amount(p) < Amount(q)
    decreases q
  {
    hide Amount;
    NextAmount(q - 1);
    if p < q - 1 {
      AmountGrows(p, q - 1);
    }
  }

  lemma AmountsDiffer(p: nat, q: nat)
    requires p < 32 && q < 32
    ensures Amount(p) == Amount(q) <==> p == q
  {
    hide Amount;
    if p < q {
      AmountGrows(p, q);
    } else if q < p {
      AmountGrows(q, p);
    }
  }

  function At(w: bv32, q: bv32): bv8
    requires q < 32
  {
    ((w >> q) & 1) as bv8
  }

  lemma WordBitAt(w: bv32, x: nat)
    requires x < 32
    ensures Amount(31 - x) < 32 && WordBit(w, x) == At(w, Amount(31 - x))
  {
    if x < 16 {
      LowBitAt(w, x);
    } else {
      HighBitAt(w, x);
    }
  }

  lemma LowBitAt(w: bv32, x: nat)
    requires x < 16
    ensures Amount(31 - x) < 32 && WordBit(w, x) == At(w, Amount(31 - x))
  {
    match x
    case 0 => case 1 => case 2 => case 3 => case 4 => case 5 => case 6 => case 7 => case 8 => case 9 =>
    case 10 => case 11 => case 12 => case 13 => case 14 => case 15 =>
  }

  lemma HighBitAt(w: bv32, x: nat)
    requires 16 <= x < 32
    ensures Amount(31 - x) < 32 && WordBit(w, x) == At(w, Amount(31 - x))
  {
    match x
    case 16 => case 17 => case 18 => case 19 => case 20 => case 21 => case 22 => case 23 => case 24 =>
    case 25 => case 26 => case 27 => case 28 => case 29 => case 30 => case 31 =>
  }

  function Placed(bit: bv8, p: bv32): bv32
    requires p < 32
  {
    (bit as bv32) << p
  }

  lemma ShiftByAmount(bit: bv8, p: nat)
    requires p < 32
    ensures Amount(p) < 32 && (bit as bv32) << p == Placed(bit, Amount(p))
  {
    if p < 4 {
      ShiftBy0(bit, p);
    } else if p < 8 {
      ShiftBy4(bit, p);
    } else if p < 12 {
      ShiftBy8(bit, p);
    } else if p < 16 {
      ShiftBy12(bit, p);
    } else if p < 20 {
      ShiftBy16(bit, p);
    } else if p < 24 {
      ShiftBy20(bit, p);
    } else if p < 28 {
      ShiftBy24(bit, p);
    } else {
      ShiftBy28(bit, p);
    }
  }

  lemma ShiftBy0(bit: bv8, p: nat)
    requires 0 <= p < 4
    ensures Amount(p) < 32 && (bit as bv32) << p == Placed(bit, Amount(p))
  {
    match p
    case 0 => case 1 => case 2 => case 3 =>
  }

  lemma ShiftBy4(bit: bv8, p: nat)
    requires 4 <= p < 8
    ensures Amount(p) < 32 && (bit as bv32) << p == Placed(bit, Amount(p))
  {
    match p
    case 4 => case 5 => case 6 => case 7 =>
  }

  lemma ShiftBy8(bit: bv8, p: nat)
    requires 8 <= p < 12
    ensures Amount(p) < 32 && (bit as bv32) << p == Placed(bit, Amount(p))
  {
    match p
    case 8 => case 9 => case 10 => case 11 =>
  }

  lemma ShiftBy12(bit: bv8, p: nat)
    requires 12 <= p < 16
    ensures Amount(p) < 32 && (bit as bv32) << p == Placed(bit, Amount(p))
  {
    match p
    case 12 => case 13 => case 14 => case 15 =>
  }

  lemma ShiftBy16(bit: bv8, p: nat)
    requires 16 <= p < 20
    ensures Amount(p) < 32 && (bit as bv32) << p == Placed(bit, Amount(p))
  {
    match p
    case 16 => case 17 => case 18 => case 19 =>
  }

  lemma ShiftBy20(bit: bv8, p: nat)
    requires 20 <= p < 24
    ensures Amount(p) < 32 && (bit as bv32) << p == Placed(bit, Amount(p))
  {
    match p
    case 20 => case 21 => case 22 => case 23 =>
  }

  lemma ShiftBy24(bit: bv8, p: nat)
    requires 24 <= p < 28
    ensures Amount(p) < 32 && (bit as bv32) << p == Placed(bit, Amount(p))
  {
    match p
    case 24 => case 25 => case 26 => case 27 =>
  }

  lemma ShiftBy28(bit: bv8, p: nat)
    requires 28 <= p < 32
    ensures Amount(p) < 32 && (bit as bv32) << p == Placed(bit, Amount(p))
  {
    match p
    case 28 => case 29 => case 30 => case 31 =>
  }

  lemma PlacedAt(bit: bv8, p: bv32, q: bv32)
    requires bit <= 1 && p < 32 && q < 32
    ensures At(Placed(bit, p), q) == if p == q then bit else 0
  {
    if bit == 0 {
      assert At(0 as bv32 << p, q) == 0;
    } else {
      OneAt(p, q);
    }
  }

  lemma OneAt(p: bv32, q: bv32)
    requires p < 32 && q < 32
    ensures (((1 as bv32 << p) >> q) & 1) as bv8 == if p == q then 1 else 0
  {
  }

  lemma PlacedBit(bit: bv8, p: nat, x: nat)
    requires bit <= 1 && p < 32 && x < 32
    ensures WordBit((bit as bv32) << p, x) == if p == 31 - x then bit else 0
  {
    hide WordBit, At, Placed, Amount;
    ShiftByAmount(bit, p);
    WordBitAt((bit as bv32) << p, x);
    PlacedAt(bit, Amount(p), Amount(31 - x));
    AmountsDiffer(p, 31 - x);
  }

  lemma OrAt(a: bv32, b: bv32, q: bv32)
    requires q < 32
    ensures At(Or(a, b), q) == OrByte(At(a, q), At(b, q))
  {
    assert (((a | b) >> q) & 1) as bv8 == OrByte(((a >> q) & 1) as bv8, ((b >> q) & 1) as bv8);
  }

  lemma BitOfOr(a: bv32, b: bv32, x: nat)
    requires x < 32
    ensures WordBit(Or(a, b), x) == OrByte(WordBit(a, x), WordBit(b, x))
  {
    hide WordBit, At, Or, OrByte, Amount;
    WordBitAt(a, x);
    WordBitAt(b, x);
    WordBitAt(Or(a, b), x);
    OrAt(a, b, Amount(31 - x));
  }

  lemma ZeroBit(x: nat)
    requires x < 32
    ensures WordBit(0, x) == 0
  {
  }

  lemma BitIsBit(key: seq<bv8>, k: nat)
    requires k < 8 * |key|
    ensures Bit(key, k) <= 1
  {
  }

  lemma OrZero(b: bv8)
    ensures OrByte(b, 0) == b && OrByte(0, b) == b
  {
  }

  // The halves of the key.

  lemma {:induction false} ChosenBits(key: seq<bv8>, table: seq<KeyBit>, n: nat, x: nat)
    requires |key| == 8 && |table| == 28 && n <= 28 && x < 32
    ensures WordBit(Chosen(key, table, n), x) == if x < n then Bit(key, table[x]) else 0
  {
    hide WordBit, Or, OrByte, Bit, BitNum;
    if n == 0 {
      ZeroBit(x);
    } else {
      ChosenBits(key, table, n - 1, x);
      BitOfOr(Chosen(key, table, n - 1), BitNum(key, table[n - 1], 32 - n), x);
      KeyBitPlaced(key, table[n - 1], 32 - n, x);
      OrZero(Bit(key, table[n - 1]));
      OrZero(if x < n then Bit(key, table[x]) else 0);
    }
  }

  lemma KeyBitPlaced(key: seq<bv8>, k: nat, p: nat, x: nat)
    requires k < 8 * |key| && p < 32 && x < 32
    ensures WordBit(BitNum(key, k, p), x) == if p == 31 - x then Bit(key, k) else 0
  {
    hide WordBit;
    BitIsBit(key, k);
    PlacedBit(Bit(key, k), p, x);
  }

  lemma LowBitsClear(w: bv32)
    requires WordBit(w, 28) == WordBit(w, 29) == WordBit(w, 30) == WordBit(w, 31) == 0
    ensures w & 0xf == 0
  {
  }

  lemma TurnOnce(c: bv32, q: bv32)
    requires c & 0xf == 0 && 4 <= q < 31
    ensures At(Rotate(c, 1), q + 1) == At(c, q)
  {
    assert (((((c << 1) | (c >> 27)) & 0xfffffff0) >> (q + 1)) & 1) as bv8 == ((c >> q) & 1) as bv8;
  }

  lemma TurnTwice(c: bv32, q: bv32)
    requires c & 0xf == 0 && 4 <= q < 30
    ensures At(Rotate(c, 2), q + 2) == At(c, q)
  {
    assert (((((c << 2) | (c >> 26)) & 0xfffffff0) >> (q + 2)) & 1) as bv8 == ((c >> q) & 1) as bv8;
  }

  lemma TurnRound(c: bv32)
    requires c & 0xf == 0
    ensures At(Rotate(c, 1), 4) == At(c, 31)
  {
    assert (((((c << 1) | (c >> 27)) & 0xfffffff0) >> 4) & 1) as bv8 == ((c >> 31) & 1) as bv8;
  }

  lemma TurnRoundFirst(c: bv32)
    requires c & 0xf == 0
    ensures At(Rotate(c, 2), 5) == At(c, 31)
  {
    assert (((((c << 2) | (c >> 26)) & 0xfffffff0) >> 5) & 1) as bv8 == ((c >> 31) & 1) as bv8;
  }

  lemma TurnRoundSecond(c: bv32)
    requires c & 0xf == 0
    ensures At(Rotate(c, 2), 4) == At(c, 30)
  {
    assert (((((c << 2) | (c >> 26)) & 0xfffffff0) >> 4) & 1) as bv8 == ((c >> 30) & 1) as bv8;
  }

  lemma FewAmounts()
    ensures Amount(4) == 4 && Amount(5) == 5 && Amount(30) == 30 && Amount(31) == 31
  {
  }

  lemma RotatedOnce(c: bv32, x: nat)
    requires c & 0xf == 0 && x < 28
    ensures WordBit(Rotate(c, 1), x) == WordBit(c, (x + 1) % 28)
  {
    hide WordBit, At, Rotate, Amount;
    var y := if x < 27 then x + 1 else 0;
    assert y == (x + 1) % 28;
    WordBitAt(Rotate(c, 1), x);
    WordBitAt(c, y);
    if x < 27 {
      NextAmount(30 - x);
      TurnOnce(c, Amount(30 - x));
    } else {
      FewAmounts();
      TurnRound(c);
    }
  }

  lemma RotatedTwice(c: bv32, x: nat)
    requires c & 0xf == 0 && x < 28
    ensures WordBit(Rotate(c, 2), x) == WordBit(c, (x + 2) % 28)
  {
    hide WordBit, At, Rotate, Amount;
    var y := if x < 26 then x + 2 else x - 26;
    assert y == (x + 2) % 28;
    WordBitAt(Rotate(c, 2), x);
    WordBitAt(c, y);
    if x < 26 {
      NextAmount(29 - x);
      NextAmount(30 - x);
      TurnTwice(c, Amount(29 - x));
    } else {
      FewAmounts();
      TurnRoundFirst(c);
      TurnRoundSecond(c);
    }
  }

  lemma RotatedClear(c: bv32, shift: nat)
    requires shift <= 2
    ensures Rotate(c, shift) & 0xf == 0
  {
  }

  lemma ShiftOfRound(n: nat)
    requires 1 <= n <= 16
    ensures KEY_RND_SHIFT[n - 1] == if n == 1 || n == 2 || n == 9 || n == 16 then 1 else 2
  {
    match n
    case 1 => case 2 => case 3 => case 4 => case 5 => case 6 => case 7 => case 8 => case 9 => case 10 =>
    case 11 => case 12 => case 13 => case 14 => case 15 => case 16 =>
  }

  lemma TurnedBefore(x: nat, n: nat)
    requires 1 <= n <= 16
    ensures Shifts(n) >= Shifts(n - 1)
    ensures Turned((x + (Shifts(n) - Shifts(n - 1))) % 28, n - 1) == Turned(x, n)
  {
    ModuloTwice(x + (Shifts(n) - Shifts(n - 1)), Shifts(n - 1));
  }

  lemma ModuloTwice(a: nat, b: nat)
    ensures (a % 28 + b) % 28 == (a + b) % 28
  {
  }

  lemma RotatedBits(c: bv32, n: nat, x: nat)
    requires c & 0xf == 0 && 1 <= n <= 16 && x < 28
    ensures var shift := Shifts(n) - Shifts(n - 1);
            && 1 <= shift <= 2 && shift == KEY_RND_SHIFT[n - 1]
            && WordBit(Rotate(c, shift), x) == WordBit(c, (x + shift) % 28)
  {
    hide WordBit, Rotate;
    ShiftOfRound(n);
    RotatedOnce(c, x);
    RotatedTwice(c, x);
  }

  lemma FirstHalf(key: seq<bv8>, table: seq<KeyBit>, x: nat)
    requires |key| == 8 && |table| == 28 && x < 28
    ensures WordBit(Chosen(key, table, 28), x) == Bit(key, table[x])
    ensures Chosen(key, table, 28) & 0xf == 0
  {
    hide WordBit, Bit, Chosen;
    ChosenBits(key, table, 28, x);
    ChosenBits(key, table, 28, 28);
    ChosenBits(key, table, 28, 29);
    ChosenBits(key, table, 28, 30);
    ChosenBits(key, table, 28, 31);
    LowBitsClear(Chosen(key, table, 28));
  }

  /** After `n` rounds, a half of the key holds its bits turned by the total of the shifts. */
  lemma {:induction false} HalfKeyBits(key: seq<bv8>, table: seq<KeyBit>, n: nat, x: nat)
    requires |key| == 8 && |table| == 28 && n <= 16 && x < 28
    ensures WordBit(HalfKey(key, table, n), x) == Bit(key, table[Turned(x, n)])
    ensures HalfKey(key, table, n) & 0xf == 0
    decreases n
  {
    hide WordBit, Bit, Rotate, Chosen, Shifts, Turned;
    if n == 0 {
      FirstHalf(key, table, x);
      NotTurned(x);
    } else {
      TurnedBefore(x, n);
      var c, shift := HalfKey(key, table, n - 1), Shifts(n) - Shifts(n - 1);
      HalfKeyBits(key, table, n - 1, (x + shift) % 28);
      RotatedBits(c, n, x);
      RotatedClear(c, shift);
    }
  }

  lemma NotTurned(x: nat)
    requires x < 28
    ensures Turned(x, 0) == x
  {
  }

  lemma TablesAreChoices(x: nat)
    requires x < 28
    ensures KEY_PERM_C[x] == ChoiceC(x) && KEY_PERM_D[x] == ChoiceD(x)
  {
    match x
    case 0 => case 1 => case 2 => case 3 => case 4 => case 5 => case 6 => case 7 => case 8 => case 9 =>
    case 10 => case 11 => case 12 => case 13 => case 14 => case 15 => case 16 => case 17 => case 18 =>
    case 19 => case 20 => case 21 => case 22 => case 23 => case 24 => case 25 => case 26 => case 27 =>
  }

  // The subkeys.

  lemma ShiftedByteBit(bit: bv8, p: bv8, q: bv8)
    requires bit <= 1 && p < 8 && q < 8
    ensures ((bit << p) >> q) & 1 == if p == q then bit else 0
  {
  }

  lemma ByteAmount(p: nat)
    requires p < 8
    ensures (p as bv8) as nat == p && p as bv8 < 8
  {
    match p
    case 0 => case 1 => case 2 => case 3 => case 4 => case 5 => case 6 => case 7 =>
  }

  lemma OrByteBit(a: bv8, b: bv8, q: bv8)
    requires q < 8
    ensures (OrByte(a, b) >> q) & 1 == OrByte((a >> q) & 1, (b >> q) & 1)
  {
    assert ((a | b) >> q) & 1 == ((a >> q) & 1) | ((b >> q) & 1);
  }

  function Put(bit: bv8, p: nat): bv8
    requires p < 8
  {
    bit << p
  }

  /** One more bit put into a byte. */
  lemma PlacedInByte(a: bv8, bit: bv8, p: nat, q: nat)
    requires bit <= 1 && p < 8 && q < 8
    ensures ByteBit(OrByte(a, Put(bit, p)), q) == OrByte(ByteBit(a, q), if p == q then bit else 0)
  {
    hide OrByte;
    ByteAmount(p);
    ByteAmount(q);
    OrByteBit(a, bit << (p as bv8), q as bv8);
    ShiftedByteBit(bit, p as bv8, q as bv8);
  }

  /** The bit of the two halves that goes to bit `j` of a subkey. */
  function Compressed(c: bv32, d: bv32, j: nat): bv8
    requires j < 48
  {
    if j < 24 then WordBit(c, KEY_COMPRESSION_C[j]) else WordBit(d, KEY_COMPRESSION_D[j - 24])
  }

  lemma CompressedIsBit(c: bv32, d: bv32, j: nat)
    requires j < 48
    ensures Compressed(c, d, j) <= 1 && SubkeyBit(c, d, j) == Put(Compressed(c, d, j), 7 - j % 8)
  {
  }

  lemma BitPut(r: seq<bv8>, bit: bv8, k: nat, j: nat)
    requires |r| == 6 && bit <= 1 && k < 48 && j < 48
    ensures Bit(r[k / 8 := OrByte(r[k / 8], Put(bit, 7 - k % 8))], j)
         == if k == j then OrByte(Bit(r, j), bit) else Bit(r, j)
  {
    hide OrByte, Put, ByteBit;
    if j / 8 == k / 8 {
      PlacedInByte(r[k / 8], bit, 7 - k % 8, 7 - j % 8);
      OrZero(Bit(r, j));
    }
  }

  lemma {:induction false} SubkeyBitsAt(c: bv32, d: bv32, n: nat, j: nat)
    requires n <= 48 && j < 48
    ensures Bit(SubkeyBits(c, d, n), j) == if j < n then Compressed(c, d, j) else 0
  {
    hide SubkeyBit, Compressed, OrByte, Bit, Put;
    if n == 0 {
      ZeroByteBit(j);
    } else {
      var k, r := n - 1, SubkeyBits(c, d, n - 1);
      SubkeyBitsAt(c, d, n - 1, j);
      CompressedIsBit(c, d, k);
      BitPut(r, Compressed(c, d, k), k, j);
      OrZero(Compressed(c, d, k));
    }
  }

  lemma ZeroByteBit(j: nat)
    requires j < 48
    ensures Bit([0, 0, 0, 0, 0, 0], j) == 0
  {
  }

  lemma CompressionIsChoice(j: nat)
    requires j < 24
    ensures KEY_COMPRESSION_C[j] as int == CHOICE_2_LEFT[j] as int - 1
    ensures KEY_COMPRESSION_D[j] as int == CHOICE_2_RIGHT[j] as int - 29
  {
    match j
    case 0 => case 1 => case 2 => case 3 => case 4 => case 5 => case 6 => case 7 => case 8 => case 9 =>
    case 10 => case 11 => case 12 => case 13 => case 14 => case 15 => case 16 => case 17 => case 18 =>
    case 19 => case 20 => case 21 => case 22 => case 23 =>
  }

  /** A bit of the subkey from either half; `x` is its place there. */
  lemma SubkeyFromHalf(key: seq<bv8>, n: nat, j: nat, x: nat)
    requires |key| == 8 && 1 <= n <= 16 && j < 48 && x < 28
    requires x == (if j < 24 then KEY_COMPRESSION_C[j] else KEY_COMPRESSION_D[j - 24])
    ensures Bit(Subkey(key, n - 1), j)
         == Bit(key, if j < 24 then ChoiceC(Turned(x, n)) else ChoiceD(Turned(x, n)))
  {
    hide WordBit, Bit, HalfKey, SubkeyBits, Turned, ChoiceC, ChoiceD;
    SubkeyBitsAt(HalfKey(key, KEY_PERM_C, n), HalfKey(key, KEY_PERM_D, n), 48, j);
    HalfKeyBits(key, if j < 24 then KEY_PERM_C else KEY_PERM_D, n, x);
    TablesAreChoices(Turned(x, n));
  }

  /** Every bit of every subkey, for every key. */
  lemma SubkeyIsStandard(key: seq<bv8>, n: nat, j: nat)
    requires |key| == 8 && 1 <= n <= 16 && j < 48
    ensures Bit(Subkey(key, n - 1), j) == Bit(key, KeySource(n, j))
  {
    hide Bit, Subkey, Turned, ChoiceC, ChoiceD;
    CompressionIsChoice(if j < 24 then j else j - 24);
    SubkeyFromHalf(key, n, j, if j < 24 then KEY_COMPRESSION_C[j] else KEY_COMPRESSION_D[j - 24]);
  }

  // ------------------------------------------------------------- ciphers

  /** The subkeys are used in their order to encrypt and in reverse to decrypt. */
  lemma ScheduleIsStandard(key: seq<bv8>, n: nat, j: nat)
    requires |key| == 8 && 1 <= n <= 16 && j < 48
    ensures Bit(Schedule(key, Encrypt)[n - 1], j) == Bit(key, KeySource(n, j))
    ensures Bit(Schedule(key, Decrypt)[16 - n], j) == Bit(key, KeySource(n, j))
  {
    hide Bit, Subkey, KeySource;
    SubkeyIsStandard(key, n, j);
  }

  /** The halves L(n) and R(n): L(n) = R(n-1), R(n) = L(n-1) + f(R(n-1), K(n)). */
  ghost predicate HalvesOf(f: RoundFunction, keys: seq<seq<bv8>>, l: seq<bv32>, r: seq<bv32>)
    requires |keys| == 16
  {
    && |l| == |r| == 17
    && forall n | 1 <= n <= 16 :: l[n] == r[n - 1] && r[n] == Add(l[n - 1], f(r[n - 1], keys[n - 1]))
  }

  lemma AddCommutes(a: bv32, b: bv32)
    ensures Add(a, b) == Add(b, a)
  {
  }

  /** A block is encrypted to the one whose permuted halves are R(16) and L(16). */
  lemma CryptIsStandard(f: RoundFunction, b: seq<bv8>, keys: seq<seq<bv8>>) returns (l: seq<bv32>, r: seq<bv32>)
    requires |b| == 8 && |keys| == 16
    ensures HalvesOf(f, keys, l, r)
    ensures Halves(l[0], r[0]) == Ip(b) && Halves(r[16], l[16]) == Ip(Crypt(f, b, keys))
  {
    hide Ip, InvIp, Add;
    var h := seq(17, n requires 0 <= n <= 16 => Rounds(f, Ip(b), keys, n));
    l := seq(17, n requires 0 <= n <= 16 => h[n].l);
    r := seq(17, n requires 0 <= n <= 16 => h[n].r);
    forall n | 1 <= n <= 16 ensures l[n] == r[n - 1] && r[n] == Add(l[n - 1], f(r[n - 1], keys[n - 1])) {
      assert h[n] == Round(f, h[n - 1], keys[n - 1]);
      AddCommutes(l[n - 1], f(r[n - 1], keys[n - 1]));
    }
    IpOfInvIp(Swap(h[16]));
  }

  /** Triple DES encrypts, decrypts and encrypts with the three keys, and decryption takes them from the last one. */
  lemma TripleIsStandard(f: RoundFunction, b: seq<bv8>, key: seq<bv8>)
    requires |b| == 8 && |key| == 24
    ensures TripleCrypt(f, b, TripleKeys(key, Encrypt))
         == Crypt(f, Crypt(f, Crypt(f, b, Schedule(key[..8], Encrypt)), Schedule(key[8..16], Decrypt)),
                  Schedule(key[16..], Encrypt))
    ensures TripleCrypt(f, b, TripleKeys(key, Decrypt))
         == Crypt(f, Crypt(f, Crypt(f, b, Schedule(key[16..], Decrypt)), Schedule(key[8..16], Encrypt)),
                  Schedule(key[..8], Decrypt))
  {
    hide Crypt, Schedule;
    assert key[0..8] == key[..8] && key[16..24] == key[16..];
  }
}
