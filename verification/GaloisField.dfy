/**
 Arithmetic in GF(2^8) as section 4 of FIPS 197 defines it: shift-and-reduce
 multiplication, and products of four-term polynomials modulo x^4 + 1. The
 multiplication table of the implementation is proved to compute it, and the two
 polynomials of (Inv)MixColumns are proved to be inverse to each other.
 */
module GaloisField {
  import opened Bytes
  import opened AesTables

  /** Four bytes, read as a polynomial: `b0` is the constant term. */
  datatype Column = Column(b0: bv8, b1: bv8, b2: bv8, b3: bv8)

  function Shift(a: bv8): bv8 {
    a << 1
  }

  /** The reduction by x^8 + x^4 + x^3 + x + 1, due when the top bit is shifted out. */
  function Carry(a: bv8): bv8 {
    if a & 0x80 != 0 then 0x1b else 0
  }

  /** Multiplication by x. */
  function XTime(a: bv8): bv8 {
    Xor(Shift(a), Carry(a))
  }

  /** The contribution of one bit of `c` to a product. */
  function Term(a: bv8, c: bv8, bit: bv8): bv8 {
    if c & bit != 0 then a else 0
  }

  function MulNibble(a: bv8, c: bv8): bv8 {
    Xor4(Term(a, c, 1), Term(XTime(a), c, 2), Term(XTime(XTime(a)), c, 4), Term(XTime(XTime(XTime(a))), c, 8))
  }

  /** Shift-and-reduce multiplication, one term for every bit of `c` (section 4.2.1 of FIPS 197). */
  function Mul(a: bv8, c: bv8): bv8 {
    Xor(MulNibble(a, c & 0x0F), MulNibble(XTime(XTime(XTime(XTime(a)))), c >> 4))
  }

  /** The dot product of a column and four coefficients. */
  function Dot(s: Column, k0: bv8, k1: bv8, k2: bv8, k3: bv8): bv8 {
    Xor4(Mul(s.b0, k0), Mul(s.b1, k1), Mul(s.b2, k2), Mul(s.b3, k3))
  }

  /** Product of two polynomials modulo x^4 + 1 (section 4.3 of FIPS 197). */
  function PolyMul(s: Column, k: Column): Column {
    Column(Dot(s, k.b0, k.b3, k.b2, k.b1),
           Dot(s, k.b1, k.b0, k.b3, k.b2),
           Dot(s, k.b2, k.b1, k.b0, k.b3),
           Dot(s, k.b3, k.b2, k.b1, k.b0))
  }

  /** a(x) = 03 x^3 + 01 x^2 + 01 x + 02. */
  const MIX := Column(0x02, 0x01, 0x01, 0x03)
  /** The inverse of a(x): 0b x^3 + 0d x^2 + 09 x + 0e. */
  const INV_MIX := Column(0x0e, 0x09, 0x0d, 0x0b)

  // ------------------------------------------------------------- linearity

  lemma ShiftLinear(a: bv8, b: bv8)
    ensures Shift(Xor(a, b)) == Xor(Shift(a), Shift(b))
  {
    assert Shift(a ^ b) == Xor(a << 1, b << 1);
  }

  lemma CarryLinear(a: bv8, b: bv8)
    ensures Carry(Xor(a, b)) == Xor(Carry(a), Carry(b))
  {
    assert (a ^ b) & 0x80 == (a & 0x80) ^ (b & 0x80);
    assert a & 0x80 == 0 || a & 0x80 == 0x80;
    assert b & 0x80 == 0 || b & 0x80 == 0x80;
    assert Carry(a ^ b) == Xor(Carry(a), Carry(b));
  }

  lemma XTimeLinear(a: bv8, b: bv8)
    ensures XTime(Xor(a, b)) == Xor(XTime(a), XTime(b))
  {
    ShiftLinear(a, b);
    CarryLinear(a, b);
    XorSwap(Shift(a), Shift(b), Carry(a), Carry(b));
  }

  lemma TermLinear(a: bv8, b: bv8, c: bv8, bit: bv8)
    ensures Term(Xor(a, b), c, bit) == Xor(Term(a, c, bit), Term(b, c, bit))
  {
  }

  lemma NibbleLinear(a: bv8, b: bv8, c: bv8)
    ensures MulNibble(Xor(a, b), c) == Xor(MulNibble(a, c), MulNibble(b, c))
  {
    var a1, b1 := XTime(a), XTime(b);
    var a2, b2 := XTime(a1), XTime(b1);
    var a3, b3 := XTime(a2), XTime(b2);
    XTimeLinear(a, b); XTimeLinear(a1, b1); XTimeLinear(a2, b2);
    TermLinear(a, b, c, 1); TermLinear(a1, b1, c, 2); TermLinear(a2, b2, c, 4); TermLinear(a3, b3, c, 8);
    Xor4Swap(Term(a, c, 1), Term(a1, c, 2), Term(a2, c, 4), Term(a3, c, 8),
             Term(b, c, 1), Term(b1, c, 2), Term(b2, c, 4), Term(b3, c, 8));
  }

  /** Multiplication distributes over addition. */
  lemma MulLinear(a: bv8, b: bv8, c: bv8)
    ensures Mul(Xor(a, b), c) == Xor(Mul(a, c), Mul(b, c))
  {
    var a1, b1 := XTime(a), XTime(b);
    var a2, b2 := XTime(a1), XTime(b1);
    var a3, b3 := XTime(a2), XTime(b2);
    XTimeLinear(a, b); XTimeLinear(a1, b1); XTimeLinear(a2, b2); XTimeLinear(a3, b3);
    NibbleLinear(a, b, c & 0x0F);
    NibbleLinear(XTime(a3), XTime(b3), c >> 4);
    XorSwap(MulNibble(a, c & 0x0F), MulNibble(b, c & 0x0F), MulNibble(XTime(a3), c >> 4), MulNibble(XTime(b3), c >> 4));
  }

  lemma MulLinear4(a: bv8, b: bv8, c: bv8, d: bv8, k: bv8)
    ensures Mul(Xor4(a, b, c, d), k) == Xor4(Mul(a, k), Mul(b, k), Mul(c, k), Mul(d, k))
  {
    MulLinear(a, b, k);
    MulLinear(c, d, k);
    MulLinear(Xor(a, b), Xor(c, d), k);
  }

  // ------------------------------------------------------------- the table

  /** Products by the six coefficients in use, with the zero bits of each coefficient dropped. */
  function Doublings(b: bv8): Multiples {
    var x := XTime(b);
    var x2 := XTime(x);
    var x3 := XTime(x2);
    Multiples(x, Xor(x, b), Xor(x3, b), Xor(Xor(x3, x), b), Xor(Xor(x3, x2), b), Xor(Xor(x3, x2), x))
  }

  lemma MulSmall(b: bv8, c: bv8)
    requires c < 16
    ensures Mul(b, c) == MulNibble(b, c)
  {
    assert c & 0x0F == c && c >> 4 == 0;
    var h := XTime(XTime(XTime(XTime(b))));
    assert MulNibble(h, 0) == Xor4(0, 0, 0, 0) == 0;
  }

  lemma MulByCoefficients(b: bv8)
    ensures Mul(b, 1) == b
    ensures Doublings(b)
         == Multiples(Mul(b, 0x02), Mul(b, 0x03), Mul(b, 0x09), Mul(b, 0x0b), Mul(b, 0x0d), Mul(b, 0x0e))
  {
    var x := XTime(b);
    var x2 := XTime(x);
    var x3 := XTime(x2);
    MulSmall(b, 1); MulSmall(b, 2); MulSmall(b, 3); MulSmall(b, 9); MulSmall(b, 0xb);
    MulSmall(b, 0xd); MulSmall(b, 0xe);
    assert MulNibble(b, 0x1) == Xor4(b, 0, 0, 0);
    assert MulNibble(b, 0x2) == Xor4(0, x, 0, 0);
    assert MulNibble(b, 0x3) == Xor4(b, x, 0, 0);
    assert MulNibble(b, 0x9) == Xor4(b, 0, 0, x3);
    assert MulNibble(b, 0xb) == Xor4(b, x, 0, x3);
    assert MulNibble(b, 0xd) == Xor4(b, 0, x2, x3);
    assert MulNibble(b, 0xe) == Xor4(0, x, x2, x3);
    DropZeros(b, x, x2, x3);
  }

  lemma DropZeros(b: bv8, x: bv8, x2: bv8, x3: bv8)
    ensures Xor4(b, 0, 0, 0) == b && Xor4(0, x, 0, 0) == x && Xor4(b, x, 0, 0) == Xor(x, b)
    ensures Xor4(b, 0, 0, x3) == Xor(x3, b) && Xor4(b, x, 0, x3) == Xor(Xor(x3, x), b)
    ensures Xor4(b, 0, x2, x3) == Xor(Xor(x3, x2), b) && Xor4(0, x, x2, x3) == Xor(Xor(x3, x2), x)
  {
    hide Xor;
    XorZero(0); XorZero(b); XorZero(x); XorZero(x3); XorZero(Xor(b, x));
    XorCommutes(b, x); XorCommutes(b, x3); XorCommutes(x2, x3);
    XorRotate(b, x, x3);
    XorCommutes(b, Xor(x3, x2)); XorCommutes(x, Xor(x3, x2));
  }

  lemma TableRow0(low: bv8)
    requires low & 0x0F == low
    ensures GfMulRow0(low) == Doublings(0x00 | low)
  {
    match low
    case 0 => case 1 => case 2 => case 3 => case 4 => case 5 => case 6 => case 7 =>
    case 8 => case 9 => case 10 => case 11 => case 12 => case 13 => case 14 =>
    case _ => assert low == 15;
  }

  lemma TableRow1(low: bv8)
    requires low & 0x0F == low
    ensures GfMulRow1(low) == Doublings(0x10 | low)
  {
    match low
    case 0 => case 1 => case 2 => case 3 => case 4 => case 5 => case 6 => case 7 =>
    case 8 => case 9 => case 10 => case 11 => case 12 => case 13 => case 14 =>
    case _ => assert low == 15;
  }

  lemma TableRow2(low: bv8)
    requires low & 0x0F == low
    ensures GfMulRow2(low) == Doublings(0x20 | low)
  {
    match low
    case 0 => case 1 => case 2 => case 3 => case 4 => case 5 => case 6 => case 7 =>
    case 8 => case 9 => case 10 => case 11 => case 12 => case 13 => case 14 =>
    case _ => assert low == 15;
  }

  lemma TableRow3(low: bv8)
    requires low & 0x0F == low
    ensures GfMulRow3(low) == Doublings(0x30 | low)
  {
    match low
    case 0 => case 1 => case 2 => case 3 => case 4 => case 5 => case 6 => case 7 =>
    case 8 => case 9 => case 10 => case 11 => case 12 => case 13 => case 14 =>
    case _ => assert low == 15;
  }

  lemma TableRow4(low: bv8)
    requires low & 0x0F == low
    ensures GfMulRow4(low) == Doublings(0x40 | low)
  {
    match low
    case 0 => case 1 => case 2 => case 3 => case 4 => case 5 => case 6 => case 7 =>
    case 8 => case 9 => case 10 => case 11 => case 12 => case 13 => case 14 =>
    case _ => assert low == 15;
  }

  lemma TableRow5(low: bv8)
    requires low & 0x0F == low
    ensures GfMulRow5(low) == Doublings(0x50 | low)
  {
    match low
    case 0 => case 1 => case 2 => case 3 => case 4 => case 5 => case 6 => case 7 =>
    case 8 => case 9 => case 10 => case 11 => case 12 => case 13 => case 14 =>
    case _ => assert low == 15;
  }

  lemma TableRow6(low: bv8)
    requires low & 0x0F == low
    ensures GfMulRow6(low) == Doublings(0x60 | low)
  {
    match low
    case 0 => case 1 => case 2 => case 3 => case 4 => case 5 => case 6 => case 7 =>
    case 8 => case 9 => case 10 => case 11 => case 12 => case 13 => case 14 =>
    case _ => assert low == 15;
  }

  lemma TableRow7(low: bv8)
    requires low & 0x0F == low
    ensures GfMulRow7(low) == Doublings(0x70 | low)
  {
    match low
    case 0 => case 1 => case 2 => case 3 => case 4 => case 5 => case 6 => case 7 =>
    case 8 => case 9 => case 10 => case 11 => case 12 => case 13 => case 14 =>
    case _ => assert low == 15;
  }

  lemma TableRow8(low: bv8)
    requires low & 0x0F == low
    ensures GfMulRow8(low) == Doublings(0x80 | low)
  {
    match low
    case 0 => case 1 => case 2 => case 3 => case 4 => case 5 => case 6 => case 7 =>
    case 8 => case 9 => case 10 => case 11 => case 12 => case 13 => case 14 =>
    case _ => assert low == 15;
  }

  lemma TableRow9(low: bv8)
    requires low & 0x0F == low
    ensures GfMulRow9(low) == Doublings(0x90 | low)
  {
    match low
    case 0 => case 1 => case 2 => case 3 => case 4 => case 5 => case 6 => case 7 =>
    case 8 => case 9 => case 10 => case 11 => case 12 => case 13 => case 14 =>
    case _ => assert low == 15;
  }

  lemma TableRowA(low: bv8)
    requires low & 0x0F == low
    ensures GfMulRowA(low) == Doublings(0xA0 | low)
  {
    match low
    case 0 => case 1 => case 2 => case 3 => case 4 => case 5 => case 6 => case 7 =>
    case 8 => case 9 => case 10 => case 11 => case 12 => case 13 => case 14 =>
    case _ => assert low == 15;
  }

  lemma TableRowB(low: bv8)
    requires low & 0x0F == low
    ensures GfMulRowB(low) == Doublings(0xB0 | low)
  {
    match low
    case 0 => case 1 => case 2 => case 3 => case 4 => case 5 => case 6 => case 7 =>
    case 8 => case 9 => case 10 => case 11 => case 12 => case 13 => case 14 =>
    case _ => assert low == 15;
  }

  lemma TableRowC(low: bv8)
    requires low & 0x0F == low
    ensures GfMulRowC(low) == Doublings(0xC0 | low)
  {
    match low
    case 0 => case 1 => case 2 => case 3 => case 4 => case 5 => case 6 => case 7 =>
    case 8 => case 9 => case 10 => case 11 => case 12 => case 13 => case 14 =>
    case _ => assert low == 15;
  }

  lemma TableRowD(low: bv8)
    requires low & 0x0F == low
    ensures GfMulRowD(low) == Doublings(0xD0 | low)
  {
    match low
    case 0 => case 1 => case 2 => case 3 => case 4 => case 5 => case 6 => case 7 =>
    case 8 => case 9 => case 10 => case 11 => case 12 => case 13 => case 14 =>
    case _ => assert low == 15;
  }

  lemma TableRowE(low: bv8)
    requires low & 0x0F == low
    ensures GfMulRowE(low) == Doublings(0xE0 | low)
  {
    match low
    case 0 => case 1 => case 2 => case 3 => case 4 => case 5 => case 6 => case 7 =>
    case 8 => case 9 => case 10 => case 11 => case 12 => case 13 => case 14 =>
    case _ => assert low == 15;
  }

  lemma TableRowF(low: bv8)
    requires low & 0x0F == low
    ensures GfMulRowF(low) == Doublings(0xF0 | low)
  {
    match low
    case 0 => case 1 => case 2 => case 3 => case 4 => case 5 => case 6 => case 7 =>
    case 8 => case 9 => case 10 => case 11 => case 12 => case 13 => case 14 =>
    case _ => assert low == 15;
  }

  /** All 256 rows of the table hold the six products they stand for. */
  lemma TableIsMultiplication(b: bv8)
    ensures GfMul(b) == Multiples(Mul(b, 0x02), Mul(b, 0x03), Mul(b, 0x09), Mul(b, 0x0b), Mul(b, 0x0d), Mul(b, 0x0e))
  {
    hide Doublings, Mul;
    var low := b & 0x0F;
    assert low & 0x0F == low;
    assert GfMul(b) == Doublings(b) by {
      match b >> 4
      case 0 => assert b == 0x00 | low; TableRow0(low);
      case 1 => assert b == 0x10 | low; TableRow1(low);
      case 2 => assert b == 0x20 | low; TableRow2(low);
      case 3 => assert b == 0x30 | low; TableRow3(low);
      case 4 => assert b == 0x40 | low; TableRow4(low);
      case 5 => assert b == 0x50 | low; TableRow5(low);
      case 6 => assert b == 0x60 | low; TableRow6(low);
      case 7 => assert b == 0x70 | low; TableRow7(low);
      case 8 => assert b == 0x80 | low; TableRow8(low);
      case 9 => assert b == 0x90 | low; TableRow9(low);
      case 10 => assert b == 0xA0 | low; TableRowA(low);
      case 11 => assert b == 0xB0 | low; TableRowB(low);
      case 12 => assert b == 0xC0 | low; TableRowC(low);
      case 13 => assert b == 0xD0 | low; TableRowD(low);
      case 14 => assert b == 0xE0 | low; TableRowE(low);
      case _ => assert b == 0xF0 | low; TableRowF(low);
    }
    MulByCoefficients(b);
  }

  // ------------------------------------------------------------- inverse polynomials

  /** What one input byte contributes to an output byte of a double product. */
  function Twice(a: bv8, k0: bv8, m0: bv8, k1: bv8, m1: bv8, k2: bv8, m2: bv8, k3: bv8, m3: bv8): bv8 {
    Xor4(Mul(Mul(a, k0), m0), Mul(Mul(a, k1), m1), Mul(Mul(a, k2), m2), Mul(Mul(a, k3), m3))
  }

  lemma XorTranspose(a: Column, b: Column, c: Column, d: Column)
    ensures Xor4(Xor4(a.b0, a.b1, a.b2, a.b3), Xor4(b.b0, b.b1, b.b2, b.b3),
                 Xor4(c.b0, c.b1, c.b2, c.b3), Xor4(d.b0, d.b1, d.b2, d.b3))
         == Xor4(Xor4(a.b0, b.b0, c.b0, d.b0), Xor4(a.b1, b.b1, c.b1, d.b1),
                 Xor4(a.b2, b.b2, c.b2, d.b2), Xor4(a.b3, b.b3, c.b3, d.b3))
  {
    Xor4Swap(a.b0, a.b1, a.b2, a.b3, b.b0, b.b1, b.b2, b.b3);
    Xor4Swap(c.b0, c.b1, c.b2, c.b3, d.b0, d.b1, d.b2, d.b3);
    Xor4Swap(Xor(a.b0, b.b0), Xor(a.b1, b.b1), Xor(a.b2, b.b2), Xor(a.b3, b.b3),
             Xor(c.b0, d.b0), Xor(c.b1, d.b1), Xor(c.b2, d.b2), Xor(c.b3, d.b3));
  }

  lemma DoubleProduct(s: Column, k: Column, m: Column)
    ensures PolyMul(PolyMul(s, k), m).b0
         == Xor4(Twice(s.b0, k.b0, m.b0, k.b1, m.b3, k.b2, m.b2, k.b3, m.b1),
                 Twice(s.b1, k.b3, m.b0, k.b0, m.b3, k.b1, m.b2, k.b2, m.b1),
                 Twice(s.b2, k.b2, m.b0, k.b3, m.b3, k.b0, m.b2, k.b1, m.b1),
                 Twice(s.b3, k.b1, m.b0, k.b2, m.b3, k.b3, m.b2, k.b0, m.b1))
  {
    MulLinear4(Mul(s.b0, k.b0), Mul(s.b1, k.b3), Mul(s.b2, k.b2), Mul(s.b3, k.b1), m.b0);
    MulLinear4(Mul(s.b0, k.b1), Mul(s.b1, k.b0), Mul(s.b2, k.b3), Mul(s.b3, k.b2), m.b3);
    MulLinear4(Mul(s.b0, k.b2), Mul(s.b1, k.b1), Mul(s.b2, k.b0), Mul(s.b3, k.b3), m.b2);
    MulLinear4(Mul(s.b0, k.b3), Mul(s.b1, k.b2), Mul(s.b2, k.b1), Mul(s.b3, k.b0), m.b1);
    XorTranspose(
      Column(Mul(Mul(s.b0, k.b0), m.b0), Mul(Mul(s.b1, k.b3), m.b0), Mul(Mul(s.b2, k.b2), m.b0),
             Mul(Mul(s.b3, k.b1), m.b0)),
      Column(Mul(Mul(s.b0, k.b1), m.b3), Mul(Mul(s.b1, k.b0), m.b3), Mul(Mul(s.b2, k.b3), m.b3),
             Mul(Mul(s.b3, k.b2), m.b3)),
      Column(Mul(Mul(s.b0, k.b2), m.b2), Mul(Mul(s.b1, k.b1), m.b2), Mul(Mul(s.b2, k.b0), m.b2),
             Mul(Mul(s.b3, k.b3), m.b2)),
      Column(Mul(Mul(s.b0, k.b3), m.b1), Mul(Mul(s.b1, k.b2), m.b1), Mul(Mul(s.b2, k.b1), m.b1),
             Mul(Mul(s.b3, k.b0), m.b1)));
  }

  /** The products of coefficients of the two polynomials, as sums of a, ax, ax^2, ax^3 and ax^4. */
  lemma CoefficientProducts(a: bv8)
    ensures var x := XTime(a); var x2 := XTime(x); var x3 := XTime(x2); var x4 := XTime(x3);
            && Mul(Mul(a, 1), 0x9) == Mul(Mul(a, 0x9), 1) == Xor(x3, a)
            && Mul(Mul(a, 1), 0xb) == Mul(Mul(a, 0xb), 1) == Xor(Xor(x3, x), a)
            && Mul(Mul(a, 1), 0xd) == Mul(Mul(a, 0xd), 1) == Xor(Xor(x3, x2), a)
            && Mul(Mul(a, 1), 0xe) == Mul(Mul(a, 0xe), 1) == Xor(Xor(x3, x2), x)
            && Mul(Mul(a, 2), 0x9) == Mul(Mul(a, 0x9), 2) == Xor(x4, x)
            && Mul(Mul(a, 2), 0xb) == Mul(Mul(a, 0xb), 2) == Xor(Xor(x4, x2), x)
            && Mul(Mul(a, 2), 0xd) == Mul(Mul(a, 0xd), 2) == Xor(Xor(x4, x3), x)
            && Mul(Mul(a, 2), 0xe) == Mul(Mul(a, 0xe), 2) == Xor(Xor(x4, x3), x2)
  {
    var x := XTime(a); var x2 := XTime(x); var x3 := XTime(x2);
    MulByCoefficients(a);
    MulByCoefficients(x);
    MulByCoefficients(Mul(a, 0x9)); MulByCoefficients(Mul(a, 0xb));
    MulByCoefficients(Mul(a, 0xd)); MulByCoefficients(Mul(a, 0xe));
    XTimeLinear(x3, a);
    XTimeLinear(x3, x); XTimeLinear(Xor(x3, x), a);
    XTimeLinear(x3, x2); XTimeLinear(Xor(x3, x2), a); XTimeLinear(Xor(x3, x2), x);
  }

  /** 03 is 02 + 01, on either side of a product. */
  lemma TimesThree(a: bv8, m: bv8)
    ensures Mul(Mul(a, 3), m) == Xor(Mul(Mul(a, 2), m), Mul(Mul(a, 1), m))
    ensures Mul(Mul(a, m), 3) == Xor(Mul(Mul(a, m), 2), Mul(Mul(a, m), 1))
  {
    MulByCoefficients(a);
    MulByCoefficients(Mul(a, m));
    MulLinear(Mul(a, 2), Mul(a, 1), m);
  }

  // Each power of x occurs an even number of times, but for the constant in the first sum.

  lemma Sum0(a: bv8, x: bv8, x2: bv8, x3: bv8, x4: bv8)
    ensures Xor4(Xor(Xor(x4, x3), x2), Xor(Xor(x3, x), a), Xor(Xor(x3, x2), a), Xor(Xor(x4, x), Xor(x3, a))) == a
  {
    hide Xor;
    var u, v := Xor(x4, x), Xor(x3, a);
    XorSwap(Xor(x4, x3), x2, Xor(x3, x), a); XorShared(x4, x3, x);
    XorCommutes(u, v); XorAssociates(Xor(Xor(x3, x2), a), v, u);
    XorSwap(Xor(x3, x2), a, x3, a); XorDifference(x3, x2); XorSame(a); XorZero(x2);
    XorCommutes(x2, u); XorSwap(u, Xor(x2, a), u, x2);
    XorSame(u); XorDifference(x2, a); XorZero(a);
  }

  lemma Sum1(a: bv8, x: bv8, x2: bv8, x3: bv8, x4: bv8)
    ensures Xor4(Xor(Xor(Xor(x4, x3), x2), Xor(Xor(x3, x2), x)), Xor(Xor(x4, x2), x), Xor(Xor(x3, x2), a), Xor(x3, a))
         == 0
  {
    hide Xor;
    XorAssociates(x4, x3, x2); XorShared(x4, Xor(x3, x2), x);
    XorSwap(x4, x, Xor(x4, x2), x); XorCancel(x2, x4); XorSame(x);
    XorSwap(Xor(x3, x2), a, x3, a); XorDifference(x3, x2); XorSame(a);
    XorZero(x2); XorSame(x2);
  }

  lemma Sum2(a: bv8, x: bv8, x2: bv8, x3: bv8, x4: bv8)
    ensures Xor4(Xor(Xor(x3, x2), x), Xor(Xor(Xor(x4, x2), x), Xor(Xor(x3, x), a)), Xor(Xor(x4, x3), x), Xor(x3, a))
         == 0
  {
    hide Xor;
    var y, v := Xor(x2, x), Xor(x, a);
    XorSwap(Xor(x4, x2), x, Xor(x3, x), a); XorSwap(x4, x2, x3, x);
    XorAssociates(Xor(Xor(x3, x2), x), Xor(Xor(x4, x3), y), v);
    XorAssociates(x3, x2, x); XorSwap(x3, y, Xor(x4, x3), y);
    XorCommutes(x4, x3); XorCancel(x4, x3); XorSame(y); XorZero(x4);
    XorSwap(Xor(x4, x3), x, x3, a);
    XorSame(Xor(x4, v));
  }

  lemma Sum3(a: bv8, x: bv8, x2: bv8, x3: bv8, x4: bv8)
    ensures Xor4(Xor(Xor(x3, x2), x), Xor(Xor(x3, x), a), Xor(Xor(Xor(x4, x3), x), Xor(Xor(x3, x2), a)), Xor(x4, x))
         == 0
  {
    hide Xor;
    XorSwap(Xor(x3, x2), x, Xor(x3, x), a); XorCommutes(x3, x2); XorShared(x2, x3, x); XorShared(x2, x, a);
    XorSwap(Xor(x4, x3), x, Xor(x3, x2), a); XorShared(x4, x3, x2);
    XorSwap(Xor(x4, x2), Xor(x, a), x4, x); XorDifference(x4, x2); XorDifference(x, a);
    XorSame(Xor(x2, a));
  }

  /** An input byte survives in its own place and cancels in the three others, in either order. */
  lemma Contribution0(a: bv8)
    ensures Twice(a, 2, 0xe, 1, 0xb, 1, 0xd, 3, 9) == Twice(a, 0xe, 2, 9, 3, 0xd, 1, 0xb, 1) == a
  {
    CoefficientProducts(a);
    TimesThree(a, 9);
    Sum0(a, XTime(a), XTime(XTime(a)), XTime(XTime(XTime(a))), XTime(XTime(XTime(XTime(a)))));
    Xor4Reorder(Mul(Mul(a, 2), 0xe), Mul(Mul(a, 1), 0xb), Mul(Mul(a, 1), 0xd), Mul(Mul(a, 3), 9));
  }

  lemma Contribution1(a: bv8)
    ensures Twice(a, 3, 0xe, 2, 0xb, 1, 0xd, 1, 9) == Twice(a, 0xb, 2, 0xe, 3, 9, 1, 0xd, 1) == 0
  {
    CoefficientProducts(a);
    TimesThree(a, 0xe);
    Sum1(a, XTime(a), XTime(XTime(a)), XTime(XTime(XTime(a))), XTime(XTime(XTime(XTime(a)))));
    Xor4Reorder(Mul(Mul(a, 3), 0xe), Mul(Mul(a, 2), 0xb), Mul(Mul(a, 1), 0xd), Mul(Mul(a, 1), 9));
  }

  lemma Contribution2(a: bv8)
    ensures Twice(a, 1, 0xe, 3, 0xb, 2, 0xd, 1, 9) == Twice(a, 0xd, 2, 0xb, 3, 0xe, 1, 9, 1) == 0
  {
    CoefficientProducts(a);
    TimesThree(a, 0xb);
    Sum2(a, XTime(a), XTime(XTime(a)), XTime(XTime(XTime(a))), XTime(XTime(XTime(XTime(a)))));
    Xor4Reorder(Mul(Mul(a, 1), 0xe), Mul(Mul(a, 3), 0xb), Mul(Mul(a, 2), 0xd), Mul(Mul(a, 1), 9));
  }

  lemma Contribution3(a: bv8)
    ensures Twice(a, 1, 0xe, 1, 0xb, 3, 0xd, 2, 9) == Twice(a, 9, 2, 0xd, 3, 0xb, 1, 0xe, 1) == 0
  {
    CoefficientProducts(a);
    TimesThree(a, 0xd);
    Sum3(a, XTime(a), XTime(XTime(a)), XTime(XTime(XTime(a))), XTime(XTime(XTime(XTime(a)))));
    Xor4Reorder(Mul(Mul(a, 1), 0xe), Mul(Mul(a, 1), 0xb), Mul(Mul(a, 3), 0xd), Mul(Mul(a, 2), 9));
  }

  function Rotate(s: Column): Column {
    Column(s.b1, s.b2, s.b3, s.b0)
  }

  lemma RotateProduct(s: Column, k: Column)
    ensures PolyMul(Rotate(s), k) == Rotate(PolyMul(s, k))
  {
    Xor4Reorder(Mul(s.b0, k.b0), Mul(s.b1, k.b3), Mul(s.b2, k.b2), Mul(s.b3, k.b1));
    Xor4Reorder(Mul(s.b0, k.b1), Mul(s.b1, k.b0), Mul(s.b2, k.b3), Mul(s.b3, k.b2));
    Xor4Reorder(Mul(s.b0, k.b2), Mul(s.b1, k.b1), Mul(s.b2, k.b0), Mul(s.b3, k.b3));
    Xor4Reorder(Mul(s.b0, k.b3), Mul(s.b1, k.b2), Mul(s.b2, k.b1), Mul(s.b3, k.b0));
  }

  lemma FirstByteRestored(s: Column)
    ensures PolyMul(PolyMul(s, MIX), INV_MIX).b0 == s.b0
    ensures PolyMul(PolyMul(s, INV_MIX), MIX).b0 == s.b0
  {
    DoubleProduct(s, MIX, INV_MIX);
    DoubleProduct(s, INV_MIX, MIX);
    Contribution0(s.b0); Contribution1(s.b1); Contribution2(s.b2); Contribution3(s.b3);
    DropZeros(s.b0, 0, 0, 0);
  }

  /** The two fixed polynomials undo each other, in both orders (section 5.3.3 of FIPS 197). */
  lemma PolynomialsInverse(s: Column)
    ensures PolyMul(PolyMul(s, MIX), INV_MIX) == s
    ensures PolyMul(PolyMul(s, INV_MIX), MIX) == s
  {
    var s1 := Rotate(s);
    var s2 := Rotate(s1);
    var s3 := Rotate(s2);
    RotateProduct(s, MIX); RotateProduct(s1, MIX); RotateProduct(s2, MIX);
    RotateProduct(s, INV_MIX); RotateProduct(s1, INV_MIX); RotateProduct(s2, INV_MIX);
    var t, u := PolyMul(s, MIX), PolyMul(s, INV_MIX);
    RotateProduct(t, INV_MIX); RotateProduct(Rotate(t), INV_MIX); RotateProduct(Rotate(Rotate(t)), INV_MIX);
    RotateProduct(u, MIX); RotateProduct(Rotate(u), MIX); RotateProduct(Rotate(Rotate(u)), MIX);
    FirstByteRestored(s); FirstByteRestored(s1); FirstByteRestored(s2); FirstByteRestored(s3);
  }
}
