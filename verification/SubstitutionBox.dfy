/** The substitution box of AES, as section 5.1.1 of FIPS 197 defines it. */
module SubstitutionBox {
  import opened Bytes
  import opened AesTables
  import opened GaloisField

  function RotateLeft(x: bv8, n: nat): bv8
    requires n <= 8
  {
    (x << n) | (x >> (8 - n))
  }

  /** The affine transformation over GF(2). */
  function Affine(x: bv8): bv8 {
    x ^ RotateLeft(x, 1) ^ RotateLeft(x, 2) ^ RotateLeft(x, 3) ^ RotateLeft(x, 4) ^ 0x63
  }

  function InvAffine(y: bv8): bv8 {
    RotateLeft(y, 1) ^ RotateLeft(y, 3) ^ RotateLeft(y, 6) ^ 0x05
  }

  lemma AffineInverse(y: bv8)
    ensures Affine(InvAffine(y)) == y
  {
  }

  function Sum4(a: bv8, b: bv8, c: bv8, d: bv8): bv8 {
    a ^ b ^ c ^ d
  }

  /** The sum of the multiples of a byte that the low bits of `c` select. */
  function Selected(a0: bv8, a1: bv8, a2: bv8, a3: bv8, c: bv8): bv8 {
    Sum4(if c & 1 != 0 then a0 else 0, if c & 2 != 0 then a1 else 0, if c & 4 != 0 then a2 else 0,
         if c & 8 != 0 then a3 else 0)
  }

  /** The product, with the multiplications by x written out; what the cases below compute with. */
  function Product(a: bv8, c: bv8): bv8 {
    var a1 := (a << 1) ^ (if a & 0x80 != 0 then 0x1b else 0);
    var a2 := (a1 << 1) ^ (if a1 & 0x80 != 0 then 0x1b else 0);
    var a3 := (a2 << 1) ^ (if a2 & 0x80 != 0 then 0x1b else 0);
    var a4 := (a3 << 1) ^ (if a3 & 0x80 != 0 then 0x1b else 0);
    var a5 := (a4 << 1) ^ (if a4 & 0x80 != 0 then 0x1b else 0);
    var a6 := (a5 << 1) ^ (if a5 & 0x80 != 0 then 0x1b else 0);
    var a7 := (a6 << 1) ^ (if a6 & 0x80 != 0 then 0x1b else 0);
    Xor(Selected(a, a1, a2, a3, c & 0x0F), Selected(a4, a5, a6, a7, c >> 4))
  }

  lemma Sum4IsXor4(a: bv8, b: bv8, c: bv8, d: bv8)
    ensures Sum4(a, b, c, d) == Xor4(a, b, c, d)
  {
    hide Xor4;
    XorFlat(a, b, c, d);
  }

  lemma SelectedIsNibble(a0: bv8, a1: bv8, a2: bv8, a3: bv8, c: bv8)
    ensures Selected(a0, a1, a2, a3, c) == Xor4(Term(a0, c, 1), Term(a1, c, 2), Term(a2, c, 4), Term(a3, c, 8))
  {
    hide Sum4, Xor4;
    Sum4IsXor4(Term(a0, c, 1), Term(a1, c, 2), Term(a2, c, 4), Term(a3, c, 8));
  }

  lemma TimesX(a: bv8)
    ensures (a << 1) ^ (if a & 0x80 != 0 then 0x1b else 0) == XTime(a)
  {
  }

  lemma ProductIsMul(a: bv8, c: bv8)
    ensures Product(a, c) == Mul(a, c)
  {
    hide Selected, XTime, Xor, Xor4, Term;
    var a1 := XTime(a);
    var a2 := XTime(a1);
    var a3 := XTime(a2);
    var a4 := XTime(a3);
    var a5 := XTime(a4);
    var a6 := XTime(a5);
    TimesX(a); TimesX(a1); TimesX(a2); TimesX(a3); TimesX(a4); TimesX(a5); TimesX(a6);
    SelectedIsNibble(a, a1, a2, a3, c & 0x0F);
    SelectedIsNibble(a4, a5, a6, XTime(a6), c >> 4);
  }

  // Row by row, the product of each byte and the number its entry stands for.

  lemma Row0(low: bv8)
    requires low & 0x0F == low && low != 0
    ensures Product(0x00 | low, InvAffine(SBoxRow0(low))) == 1
  {
    match low
    case 0 => case 1 => case 2 => case 3 => case 4 => case 5 => case 6 => case 7 =>
    case 8 => case 9 => case 10 => case 11 => case 12 => case 13 => case 14 =>
    case _ => assert low == 15;
  }

  lemma Row1(low: bv8)
    requires low & 0x0F == low
    ensures Product(0x10 | low, InvAffine(SBoxRow1(low))) == 1
  {
    match low
    case 0 => case 1 => case 2 => case 3 => case 4 => case 5 => case 6 => case 7 =>
    case 8 => case 9 => case 10 => case 11 => case 12 => case 13 => case 14 =>
    case _ => assert low == 15;
  }

  lemma Row2(low: bv8)
    requires low & 0x0F == low
    ensures Product(0x20 | low, InvAffine(SBoxRow2(low))) == 1
  {
    match low
    case 0 => case 1 => case 2 => case 3 => case 4 => case 5 => case 6 => case 7 =>
    case 8 => case 9 => case 10 => case 11 => case 12 => case 13 => case 14 =>
    case _ => assert low == 15;
  }

  lemma Row3(low: bv8)
    requires low & 0x0F == low
    ensures Product(0x30 | low, InvAffine(SBoxRow3(low))) == 1
  {
    match low
    case 0 => case 1 => case 2 => case 3 => case 4 => case 5 => case 6 => case 7 =>
    case 8 => case 9 => case 10 => case 11 => case 12 => case 13 => case 14 =>
    case _ => assert low == 15;
  }

  lemma Row4(low: bv8)
    requires low & 0x0F == low
    ensures Product(0x40 | low, InvAffine(SBoxRow4(low))) == 1
  {
    match low
    case 0 => case 1 => case 2 => case 3 => case 4 => case 5 => case 6 => case 7 =>
    case 8 => case 9 => case 10 => case 11 => case 12 => case 13 => case 14 =>
    case _ => assert low == 15;
  }

  lemma Row5(low: bv8)
    requires low & 0x0F == low
    ensures Product(0x50 | low, InvAffine(SBoxRow5(low))) == 1
  {
    match low
    case 0 => case 1 => case 2 => case 3 => case 4 => case 5 => case 6 => case 7 =>
    case 8 => case 9 => case 10 => case 11 => case 12 => case 13 => case 14 =>
    case _ => assert low == 15;
  }

  lemma Row6(low: bv8)
    requires low & 0x0F == low
    ensures Product(0x60 | low, InvAffine(SBoxRow6(low))) == 1
  {
    match low
    case 0 => case 1 => case 2 => case 3 => case 4 => case 5 => case 6 => case 7 =>
    case 8 => case 9 => case 10 => case 11 => case 12 => case 13 => case 14 =>
    case _ => assert low == 15;
  }

  lemma Row7(low: bv8)
    requires low & 0x0F == low
    ensures Product(0x70 | low, InvAffine(SBoxRow7(low))) == 1
  {
    match low
    case 0 => case 1 => case 2 => case 3 => case 4 => case 5 => case 6 => case 7 =>
    case 8 => case 9 => case 10 => case 11 => case 12 => case 13 => case 14 =>
    case _ => assert low == 15;
  }

  lemma Row8(low: bv8)
    requires low & 0x0F == low
    ensures Product(0x80 | low, InvAffine(SBoxRow8(low))) == 1
  {
    match low
    case 0 => case 1 => case 2 => case 3 => case 4 => case 5 => case 6 => case 7 =>
    case 8 => case 9 => case 10 => case 11 => case 12 => case 13 => case 14 =>
    case _ => assert low == 15;
  }

  lemma Row9(low: bv8)
    requires low & 0x0F == low
    ensures Product(0x90 | low, InvAffine(SBoxRow9(low))) == 1
  {
    match low
    case 0 => case 1 => case 2 => case 3 => case 4 => case 5 => case 6 => case 7 =>
    case 8 => case 9 => case 10 => case 11 => case 12 => case 13 => case 14 =>
    case _ => assert low == 15;
  }

  lemma RowA(low: bv8)
    requires low & 0x0F == low
    ensures Product(0xA0 | low, InvAffine(SBoxRowA(low))) == 1
  {
    match low
    case 0 => case 1 => case 2 => case 3 => case 4 => case 5 => case 6 => case 7 =>
    case 8 => case 9 => case 10 => case 11 => case 12 => case 13 => case 14 =>
    case _ => assert low == 15;
  }

  lemma RowB(low: bv8)
    requires low & 0x0F == low
    ensures Product(0xB0 | low, InvAffine(SBoxRowB(low))) == 1
  {
    match low
    case 0 => case 1 => case 2 => case 3 => case 4 => case 5 => case 6 => case 7 =>
    case 8 => case 9 => case 10 => case 11 => case 12 => case 13 => case 14 =>
    case _ => assert low == 15;
  }

  lemma RowC(low: bv8)
    requires low & 0x0F == low
    ensures Product(0xC0 | low, InvAffine(SBoxRowC(low))) == 1
  {
    match low
    case 0 => case 1 => case 2 => case 3 => case 4 => case 5 => case 6 => case 7 =>
    case 8 => case 9 => case 10 => case 11 => case 12 => case 13 => case 14 =>
    case _ => assert low == 15;
  }

  lemma RowD(low: bv8)
    requires low & 0x0F == low
    ensures Product(0xD0 | low, InvAffine(SBoxRowD(low))) == 1
  {
    match low
    case 0 => case 1 => case 2 => case 3 => case 4 => case 5 => case 6 => case 7 =>
    case 8 => case 9 => case 10 => case 11 => case 12 => case 13 => case 14 =>
    case _ => assert low == 15;
  }

  lemma RowE(low: bv8)
    requires low & 0x0F == low
    ensures Product(0xE0 | low, InvAffine(SBoxRowE(low))) == 1
  {
    match low
    case 0 => case 1 => case 2 => case 3 => case 4 => case 5 => case 6 => case 7 =>
    case 8 => case 9 => case 10 => case 11 => case 12 => case 13 => case 14 =>
    case _ => assert low == 15;
  }

  lemma RowF(low: bv8)
    requires low & 0x0F == low
    ensures Product(0xF0 | low, InvAffine(SBoxRowF(low))) == 1
  {
    match low
    case 0 => case 1 => case 2 => case 3 => case 4 => case 5 => case 6 => case 7 =>
    case 8 => case 9 => case 10 => case 11 => case 12 => case 13 => case 14 =>
    case _ => assert low == 15;
  }

  /** Every entry is the affine image of the multiplicative inverse of its byte; 0 stands for the inverse of 0. */
  lemma SBoxIsStandard(b: bv8) returns (c: bv8)
    ensures b != 0 ==> Mul(b, c) == 1
    ensures b == 0 ==> c == 0
    ensures SBox(b) == Affine(c)
  {
    hide Mul, Product, InvAffine, Affine, SBoxRow0, SBoxRow1, SBoxRow2, SBoxRow3, SBoxRow4, SBoxRow5, SBoxRow6,
        SBoxRow7, SBoxRow8, SBoxRow9, SBoxRowA, SBoxRowB, SBoxRowC, SBoxRowD, SBoxRowE, SBoxRowF;
    c := InvAffine(SBox(b));
    ProductIsMul(b, c);
    AffineInverse(SBox(b));
    var low := b & 0x0F;
    assert low & 0x0F == low;
    match b >> 4
    case 0 =>
      assert b == 0x00 | low;
      if low != 0 {
        Row0(low);
      } else {
        ZeroToZero();
      }
    case 1 => assert b == 0x10 | low; Row1(low);
    case 2 => assert b == 0x20 | low; Row2(low);
    case 3 => assert b == 0x30 | low; Row3(low);
    case 4 => assert b == 0x40 | low; Row4(low);
    case 5 => assert b == 0x50 | low; Row5(low);
    case 6 => assert b == 0x60 | low; Row6(low);
    case 7 => assert b == 0x70 | low; Row7(low);
    case 8 => assert b == 0x80 | low; Row8(low);
    case 9 => assert b == 0x90 | low; Row9(low);
    case 10 => assert b == 0xA0 | low; RowA(low);
    case 11 => assert b == 0xB0 | low; RowB(low);
    case 12 => assert b == 0xC0 | low; RowC(low);
    case 13 => assert b == 0xD0 | low; RowD(low);
    case 14 => assert b == 0xE0 | low; RowE(low);
    case _ => assert b == 0xF0 | low; RowF(low);
  }

  lemma ZeroToZero()
    ensures InvAffine(SBoxRow0(0)) == 0
  {
  }
}
