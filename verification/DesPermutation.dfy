/** The initial permutation of DES and its inverse, bit by bit. */
module DesPermutation {
  import opened Feistel

  /** The 57th, 49th, 41st, ... bit of the block, counted from the left. */
  function LeftWord(b: seq<bv8>): bv32
    requires |b| == 8
  {
    (((b[7] >> 6) & 1) as bv32 << 31) | (((b[6] >> 6) & 1) as bv32 << 30) | (((b[5] >> 6) & 1) as bv32 << 29) |
    (((b[4] >> 6) & 1) as bv32 << 28) | (((b[3] >> 6) & 1) as bv32 << 27) | (((b[2] >> 6) & 1) as bv32 << 26) |
    (((b[1] >> 6) & 1) as bv32 << 25) | (((b[0] >> 6) & 1) as bv32 << 24) | (((b[7] >> 4) & 1) as bv32 << 23) |
    (((b[6] >> 4) & 1) as bv32 << 22) | (((b[5] >> 4) & 1) as bv32 << 21) | (((b[4] >> 4) & 1) as bv32 << 20) |
    (((b[3] >> 4) & 1) as bv32 << 19) | (((b[2] >> 4) & 1) as bv32 << 18) | (((b[1] >> 4) & 1) as bv32 << 17) |
    (((b[0] >> 4) & 1) as bv32 << 16) | (((b[7] >> 2) & 1) as bv32 << 15) | (((b[6] >> 2) & 1) as bv32 << 14) |
    (((b[5] >> 2) & 1) as bv32 << 13) | (((b[4] >> 2) & 1) as bv32 << 12) | (((b[3] >> 2) & 1) as bv32 << 11) |
    (((b[2] >> 2) & 1) as bv32 << 10) | (((b[1] >> 2) & 1) as bv32 << 9) | (((b[0] >> 2) & 1) as bv32 << 8) |
    ((b[7] & 1) as bv32 << 7) | ((b[6] & 1) as bv32 << 6) | ((b[5] & 1) as bv32 << 5) |
    ((b[4] & 1) as bv32 << 4) | ((b[3] & 1) as bv32 << 3) | ((b[2] & 1) as bv32 << 2) |
    ((b[1] & 1) as bv32 << 1) | ((b[0] & 1) as bv32)
  }

  function RightWord(b: seq<bv8>): bv32
    requires |b| == 8
  {
    (((b[7] >> 7) & 1) as bv32 << 31) | (((b[6] >> 7) & 1) as bv32 << 30) | (((b[5] >> 7) & 1) as bv32 << 29) |
    (((b[4] >> 7) & 1) as bv32 << 28) | (((b[3] >> 7) & 1) as bv32 << 27) | (((b[2] >> 7) & 1) as bv32 << 26) |
    (((b[1] >> 7) & 1) as bv32 << 25) | (((b[0] >> 7) & 1) as bv32 << 24) | (((b[7] >> 5) & 1) as bv32 << 23) |
    (((b[6] >> 5) & 1) as bv32 << 22) | (((b[5] >> 5) & 1) as bv32 << 21) | (((b[4] >> 5) & 1) as bv32 << 20) |
    (((b[3] >> 5) & 1) as bv32 << 19) | (((b[2] >> 5) & 1) as bv32 << 18) | (((b[1] >> 5) & 1) as bv32 << 17) |
    (((b[0] >> 5) & 1) as bv32 << 16) | (((b[7] >> 3) & 1) as bv32 << 15) | (((b[6] >> 3) & 1) as bv32 << 14) |
    (((b[5] >> 3) & 1) as bv32 << 13) | (((b[4] >> 3) & 1) as bv32 << 12) | (((b[3] >> 3) & 1) as bv32 << 11) |
    (((b[2] >> 3) & 1) as bv32 << 10) | (((b[1] >> 3) & 1) as bv32 << 9) | (((b[0] >> 3) & 1) as bv32 << 8) |
    (((b[7] >> 1) & 1) as bv32 << 7) | (((b[6] >> 1) & 1) as bv32 << 6) | (((b[5] >> 1) & 1) as bv32 << 5) |
    (((b[4] >> 1) & 1) as bv32 << 4) | (((b[3] >> 1) & 1) as bv32 << 3) | (((b[2] >> 1) & 1) as bv32 << 2) |
    (((b[1] >> 1) & 1) as bv32 << 1) | (((b[0] >> 1) & 1) as bv32)
  }

  function Ip(b: seq<bv8>): Halves
    requires |b| == 8
  {
    Halves(LeftWord(b), RightWord(b))
  }

  function Byte0(l: bv32, r: bv32): bv8 {
    (((r >> 24) & 1) as bv8 << 7) | (((l >> 24) & 1) as bv8 << 6) | (((r >> 16) & 1) as bv8 << 5) |
    (((l >> 16) & 1) as bv8 << 4) | (((r >> 8) & 1) as bv8 << 3) | (((l >> 8) & 1) as bv8 << 2) |
    ((r & 1) as bv8 << 1) | ((l & 1) as bv8)
  }

  function Byte1(l: bv32, r: bv32): bv8 {
    (((r >> 25) & 1) as bv8 << 7) | (((l >> 25) & 1) as bv8 << 6) | (((r >> 17) & 1) as bv8 << 5) |
    (((l >> 17) & 1) as bv8 << 4) | (((r >> 9) & 1) as bv8 << 3) | (((l >> 9) & 1) as bv8 << 2) |
    (((r >> 1) & 1) as bv8 << 1) | (((l >> 1) & 1) as bv8)
  }

  function Byte2(l: bv32, r: bv32): bv8 {
    (((r >> 26) & 1) as bv8 << 7) | (((l >> 26) & 1) as bv8 << 6) | (((r >> 18) & 1) as bv8 << 5) |
    (((l >> 18) & 1) as bv8 << 4) | (((r >> 10) & 1) as bv8 << 3) | (((l >> 10) & 1) as bv8 << 2) |
    (((r >> 2) & 1) as bv8 << 1) | (((l >> 2) & 1) as bv8)
  }

  function Byte3(l: bv32, r: bv32): bv8 {
    (((r >> 27) & 1) as bv8 << 7) | (((l >> 27) & 1) as bv8 << 6) | (((r >> 19) & 1) as bv8 << 5) |
    (((l >> 19) & 1) as bv8 << 4) | (((r >> 11) & 1) as bv8 << 3) | (((l >> 11) & 1) as bv8 << 2) |
    (((r >> 3) & 1) as bv8 << 1) | (((l >> 3) & 1) as bv8)
  }

  function Byte4(l: bv32, r: bv32): bv8 {
    (((r >> 28) & 1) as bv8 << 7) | (((l >> 28) & 1) as bv8 << 6) | (((r >> 20) & 1) as bv8 << 5) |
    (((l >> 20) & 1) as bv8 << 4) | (((r >> 12) & 1) as bv8 << 3) | (((l >> 12) & 1) as bv8 << 2) |
    (((r >> 4) & 1) as bv8 << 1) | (((l >> 4) & 1) as bv8)
  }

  function Byte5(l: bv32, r: bv32): bv8 {
    (((r >> 29) & 1) as bv8 << 7) | (((l >> 29) & 1) as bv8 << 6) | (((r >> 21) & 1) as bv8 << 5) |
    (((l >> 21) & 1) as bv8 << 4) | (((r >> 13) & 1) as bv8 << 3) | (((l >> 13) & 1) as bv8 << 2) |
    (((r >> 5) & 1) as bv8 << 1) | (((l >> 5) & 1) as bv8)
  }

  function Byte6(l: bv32, r: bv32): bv8 {
    (((r >> 30) & 1) as bv8 << 7) | (((l >> 30) & 1) as bv8 << 6) | (((r >> 22) & 1) as bv8 << 5) |
    (((l >> 22) & 1) as bv8 << 4) | (((r >> 14) & 1) as bv8 << 3) | (((l >> 14) & 1) as bv8 << 2) |
    (((r >> 6) & 1) as bv8 << 1) | (((l >> 6) & 1) as bv8)
  }

  function Byte7(l: bv32, r: bv32): bv8 {
    (((r >> 31) & 1) as bv8 << 7) | (((l >> 31) & 1) as bv8 << 6) | (((r >> 23) & 1) as bv8 << 5) |
    (((l >> 23) & 1) as bv8 << 4) | (((r >> 15) & 1) as bv8 << 3) | (((l >> 15) & 1) as bv8 << 2) |
    (((r >> 7) & 1) as bv8 << 1) | (((l >> 7) & 1) as bv8)
  }

  function InvIp(s: Halves): (b: seq<bv8>)
    ensures |b| == 8
  {
    [Byte0(s.l, s.r), Byte1(s.l, s.r), Byte2(s.l, s.r), Byte3(s.l, s.r),
     Byte4(s.l, s.r), Byte5(s.l, s.r), Byte6(s.l, s.r), Byte7(s.l, s.r)]
  }

  lemma ByteBack0(b: seq<bv8>)
    requires |b| == 8
    ensures Byte0(LeftWord(b), RightWord(b)) == b[0]
  {
  }

  lemma ByteBack1(b: seq<bv8>)
    requires |b| == 8
    ensures Byte1(LeftWord(b), RightWord(b)) == b[1]
  {
  }

  lemma ByteBack2(b: seq<bv8>)
    requires |b| == 8
    ensures Byte2(LeftWord(b), RightWord(b)) == b[2]
  {
  }

  lemma ByteBack3(b: seq<bv8>)
    requires |b| == 8
    ensures Byte3(LeftWord(b), RightWord(b)) == b[3]
  {
  }

  lemma ByteBack4(b: seq<bv8>)
    requires |b| == 8
    ensures Byte4(LeftWord(b), RightWord(b)) == b[4]
  {
  }

  lemma ByteBack5(b: seq<bv8>)
    requires |b| == 8
    ensures Byte5(LeftWord(b), RightWord(b)) == b[5]
  {
  }

  lemma ByteBack6(b: seq<bv8>)
    requires |b| == 8
    ensures Byte6(LeftWord(b), RightWord(b)) == b[6]
  {
  }

  lemma ByteBack7(b: seq<bv8>)
    requires |b| == 8
    ensures Byte7(LeftWord(b), RightWord(b)) == b[7]
  {
  }

  /** The permutations undo each other, in both orders. */
  lemma InvIpOfIp(b: seq<bv8>)
    requires |b| == 8
    ensures InvIp(Ip(b)) == b
  {
    hide LeftWord, RightWord, Byte0, Byte1, Byte2, Byte3, Byte4, Byte5, Byte6, Byte7;
    ByteBack0(b);
    ByteBack1(b);
    ByteBack2(b);
    ByteBack3(b);
    ByteBack4(b);
    ByteBack5(b);
    ByteBack6(b);
    ByteBack7(b);
  }

  lemma LeftBack(l: bv32, r: bv32)
    ensures LeftWord([Byte0(l, r), Byte1(l, r), Byte2(l, r), Byte3(l, r),
                      Byte4(l, r), Byte5(l, r), Byte6(l, r), Byte7(l, r)]) == l
  {
  }

  lemma RightBack(l: bv32, r: bv32)
    ensures RightWord([Byte0(l, r), Byte1(l, r), Byte2(l, r), Byte3(l, r),
                       Byte4(l, r), Byte5(l, r), Byte6(l, r), Byte7(l, r)]) == r
  {
  }

  lemma IpOfInvIp(s: Halves)
    ensures Ip(InvIp(s)) == s
  {
    hide LeftWord, RightWord, Byte0, Byte1, Byte2, Byte3, Byte4, Byte5, Byte6, Byte7;
    LeftBack(s.l, s.r);
    RightBack(s.l, s.r);
  }
}
