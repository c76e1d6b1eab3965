/** Exclusive or on bytes and byte strings, and bytes as digits of big-endian numbers. */
module Bytes {
  import opened Arithmetic

  function Xor(a: bv8, b: bv8): bv8 {
    a ^ b
  }

  function Xor4(a: bv8, b: bv8, c: bv8, d: bv8): bv8 {
    Xor(Xor(a, b), Xor(c, d))
  }

  lemma XorFlat(a: bv8, b: bv8, c: bv8, d: bv8)
    ensures Xor(Xor(a, b), c) == a ^ b ^ c
    ensures Xor4(a, b, c, d) == a ^ b ^ c ^ d
  {
    assert Xor(a ^ b, c) == a ^ b ^ c;
    assert Xor(a ^ b, c ^ d) == a ^ b ^ c ^ d;
  }

  lemma XorLeft(a: bv8, b: bv8, c: bv8, d: bv8)
    ensures Xor(Xor(Xor(a, b), c), d) == Xor4(a, b, c, d)
  {
    XorFlat(a, b, c, d);
    assert Xor(a ^ b ^ c, d) == a ^ b ^ c ^ d;
  }

  lemma XorSwap(a: bv8, b: bv8, c: bv8, d: bv8)
    ensures Xor(Xor(a, b), Xor(c, d)) == Xor(Xor(a, c), Xor(b, d))
  {
    assert Xor(a ^ b, c ^ d) == Xor(a ^ c, b ^ d);
  }

  lemma Xor4Swap(a: bv8, b: bv8, c: bv8, d: bv8, e: bv8, f: bv8, g: bv8, h: bv8)
    ensures Xor4(Xor(a, e), Xor(b, f), Xor(c, g), Xor(d, h)) == Xor(Xor4(a, b, c, d), Xor4(e, f, g, h))
  {
    XorSwap(a, e, b, f);
    XorSwap(c, g, d, h);
    XorSwap(Xor(a, b), Xor(e, f), Xor(c, d), Xor(g, h));
  }

  lemma Xor4Reorder(a: bv8, b: bv8, c: bv8, d: bv8)
    ensures Xor4(a, b, c, d) == Xor4(b, c, d, a) == Xor4(a, d, c, b) == Xor4(b, a, d, c) == Xor4(c, b, a, d)
         == Xor4(d, c, b, a)
  {
    XorFlat(a, b, c, d); XorFlat(b, c, d, a); XorFlat(a, d, c, b);
    XorFlat(b, a, d, c); XorFlat(c, b, a, d); XorFlat(d, c, b, a);
  }

  lemma XorZero(a: bv8)
    ensures Xor(a, 0) == Xor(0, a) == a
  {
  }

  lemma XorCommutes(a: bv8, b: bv8)
    ensures Xor(a, b) == Xor(b, a)
  {
  }

  lemma XorSame(a: bv8)
    ensures Xor(a, a) == 0
  {
  }

  lemma XorDifference(a: bv8, b: bv8)
    ensures Xor(Xor(a, b), a) == b
  {
    assert Xor(a ^ b, a) == b;
  }

  lemma XorAssociates(a: bv8, b: bv8, c: bv8)
    ensures Xor(Xor(a, b), c) == Xor(a, Xor(b, c))
  {
    assert Xor(a ^ b, c) == Xor(a, b ^ c);
  }

  /** A term in both summands drops out. */
  lemma XorShared(a: bv8, b: bv8, c: bv8)
    ensures Xor(Xor(a, b), Xor(b, c)) == Xor(a, c)
  {
    hide Xor;
    XorAssociates(a, b, Xor(b, c));
    XorCancel(c, b);
  }

  lemma XorRotate(a: bv8, b: bv8, c: bv8)
    ensures Xor(Xor(a, b), c) == Xor(Xor(c, b), a)
  {
    assert Xor(a ^ b, c) == Xor(c ^ b, a);
  }

  lemma XorCancel(a: bv8, b: bv8)
    ensures Xor(Xor(a, b), b) == a
    ensures Xor(b, Xor(b, a)) == a
  {
    assert Xor(a ^ b, b) == a;
    assert Xor(b, b ^ a) == a;
  }

  // ------------------------------------------------------------- byte strings

  function Zeros(n: nat): (z: seq<bv8>)
    ensures |z| == n
  {
    seq(n, _ => 0)
  }

  /** `a` with the first |a| bytes of `b` added. */
  function XorBytes(a: seq<bv8>, b: seq<bv8>): (r: seq<bv8>)
    requires |a| <= |b|
    ensures |r| == |a|
  {
    seq(|a|, i requires 0 <= i < |a| => Xor(a[i], b[i]))
  }

  /** `s` with the bytes of `b` written over it from index `d` on. */
  function Splice(s: seq<bv8>, d: nat, b: seq<bv8>): (r: seq<bv8>)
    requires d + |b| <= |s|
    ensures |r| == |s|
  {
    s[..d] + b + s[d + |b|..]
  }

  lemma SpliceSelf(s: seq<bv8>, d: nat, n: nat)
    requires d + n <= |s|
    ensures Splice(s, d, s[d..d + n]) == s
  {
  }

  lemma SpliceTwice(s: seq<bv8>, d: nat, a: seq<bv8>, b: seq<bv8>)
    requires d + |a| + |b| <= |s|
    ensures Splice(Splice(s, d, a), d + |a|, b) == Splice(s, d, a + b)
  {
  }

  lemma SpliceByPoints(before: seq<bv8>, d: nat, b: seq<bv8>, after: seq<bv8>)
    requires d + |b| <= |before| == |after|
    requires forall j | 0 <= j < |after| :: after[j] == if d <= j < d + |b| then b[j - d] else before[j]
    ensures after == Splice(before, d, b)
  {
    var r := Splice(before, d, b);
    forall j | 0 <= j < |after| ensures after[j] == r[j] {
    }
  }

  lemma SpliceXor(s: seq<bv8>, d: nat, mask: seq<bv8>, n: nat)
    requires d + n <= |s| && n <= |mask|
    ensures var r := Splice(s, d, XorBytes(s[d..d + n], mask[..n]));
            && (forall j | d <= j < d + n :: r[j] == Xor(s[j], mask[j - d]))
            && (forall j | 0 <= j < d || d + n <= j < |s| :: r[j] == s[j])
  {
    hide Xor;
    var x := XorBytes(s[d..d + n], mask[..n]);
    var r := Splice(s, d, x);
    forall j | d <= j < d + n ensures r[j] == Xor(s[j], mask[j - d]) {
      assert r[j] == x[j - d];
    }
    forall j | 0 <= j < d || d + n <= j < |s| ensures r[j] == s[j] {
    }
  }

  lemma XorBytesCancel(a: seq<bv8>, b: seq<bv8>)
    requires |a| <= |b|
    ensures XorBytes(XorBytes(a, b), b) == a
  {
    forall i | 0 <= i < |a| ensures XorBytes(XorBytes(a, b), b)[i] == a[i] {
      XorCancel(a[i], b[i]);
    }
  }

  // ------------------------------------------------------------- numbers

  function ToInt(b: bv8): (v: int)
    ensures 0 <= v < 256
  {
    b as int
  }

  function Digit(d: int): bv8
    requires 0 <= d < 256
  {
    d as bv8
  }

  /** The low byte of a number. */
  function ToByte(v: int): bv8 {
    Digit(v % 256)
  }

  lemma DigitOfInt(b: bv8)
    ensures Digit(ToInt(b)) == b
  {
  }

  lemma ByteIncrement(b: bv8)
    ensures ToInt(b + 1) == if ToInt(b) == 255 then 0 else ToInt(b) + 1
    ensures b + 1 == 0 <==> ToInt(b) == 255
  {
  }

  lemma DigitZero()
    ensures ToInt(Digit(0)) == 0
  {
  }

  lemma {:induction false} IntOfDigit(d: nat)
    requires d < 256
    ensures ToInt(Digit(d)) == d
  {
    hide ToInt, Digit;
    if d == 0 {
      DigitZero();
    } else {
      IntOfDigit(d - 1);
      ByteIncrement(Digit(d - 1));
      DigitOfInt(Digit(d - 1) + 1);
    }
  }

  lemma ToIntInjective(a: bv8, b: bv8)
    requires ToInt(a) == ToInt(b)
    ensures a == b
  {
    hide ToInt, Digit;
    DigitOfInt(a);
    DigitOfInt(b);
  }

  lemma ToByteValue(v: int)
    ensures ToInt(ToByte(v)) == v % 256
  {
    hide ToInt, Digit;
    IntOfDigit(v % 256);
  }

  lemma SmallByteInjective(x: int, y: int)
    requires 0 <= x < 256 && 0 <= y < 256 && ToByte(x) == ToByte(y)
    ensures x == y
  {
    hide ToInt, Digit;
    IntOfDigit(x);
    IntOfDigit(y);
  }

  lemma ZeroByte()
    ensures ToInt(0) == 0
  {
  }

  function Pow256(n: nat): (p: nat)
    ensures p > 0
  {
    if n == 0 then 1 else 256 * Pow256(n - 1)
  }

  /** The big-endian value of a byte string. */
  function Value(b: seq<bv8>): (v: nat)
    ensures v < Pow256(|b|)
  {
    if b == [] then 0 else 256 * Value(b[..|b| - 1]) + ToInt(b[|b| - 1])
  }

  /** The `n` low digits of `v`, most significant first. */
  function BigEndian(v: nat, n: nat): (b: seq<bv8>)
    ensures |b| == n
  {
    if n == 0 then [] else BigEndian(v / 256, n - 1) + [ToByte(v)]
  }

  lemma DivideTwice(v: nat, p: nat)
    requires p > 0
    ensures v / 256 / p == v / (256 * p)
  {
    var q, r := v / 256, v % 256;
    var k, t := q / p, q % p;
    assert v == (256 * p) * k + (256 * t + r);
    DivisionUnique(v, 256 * p, k, 256 * t + r);
  }

  /** Digit `i` from the left. */
  lemma {:induction false} DigitAt(v: nat, n: nat, i: nat)
    requires i < n
    ensures BigEndian(v, n)[i] == ToByte(v / Pow256(n - 1 - i))
  {
    hide ToByte;
    if i < n - 1 {
      DigitAt(v / 256, n - 1, i);
      DivideTwice(v, Pow256(n - 2 - i));
    }
  }

  lemma {:induction false} ValueOfBigEndian(v: nat, n: nat)
    ensures Value(BigEndian(v, n)) == v % Pow256(n)
  {
    hide ToInt, ToByte;
    if n > 0 {
      ValueOfBigEndian(v / 256, n - 1);
      ToByteValue(v);
      var b := BigEndian(v, n);
      assert b[..n - 1] == BigEndian(v / 256, n - 1);
      DivideOutDigit(v, Pow256(n - 1));
    }
  }

  lemma {:induction false} BigEndianOfValue(b: seq<bv8>)
    ensures BigEndian(Value(b), |b|) == b
  {
    hide ToInt, ToByte;
    if b != [] {
      var n := |b| - 1;
      BigEndianOfValue(b[..n]);
      assert Value(b) / 256 == Value(b[..n]) && Value(b) % 256 == ToInt(b[n]);
      ToByteValue(Value(b));
      ToIntInjective(ToByte(Value(b)), b[n]);
    }
  }

  lemma {:induction false} BigEndianModulo(v: nat, n: nat)
    ensures BigEndian(v, n) == BigEndian(v % Pow256(n), n)
  {
    ValueOfBigEndian(v, n);
    BigEndianOfValue(BigEndian(v, n));
  }

  /** Numbers less than 256^n apart differ in their `n` low digits. */
  lemma BigEndianDistinct(a: nat, b: nat, n: nat)
    requires a < b && b - a < Pow256(n)
    ensures BigEndian(a, n) != BigEndian(b, n)
  {
    var m := Pow256(n);
    DistinctModulo(a, b, m);
    assert a % m != b % m;
    ValueOfBigEndian(a, n);
    ValueOfBigEndian(b, n);
  }

  lemma LowDigit(w: nat, d: nat, n: nat)
    requires d < 256
    ensures BigEndian(256 * w + d, n + 1) == BigEndian(w, n) + [ToByte(d)]
  {
    hide ToInt, Digit;
    assert (256 * w + d) / 256 == w && (256 * w + d) % 256 == d % 256;
  }

  lemma NoDigits(v: nat)
    ensures BigEndian(v, 0) == []
  {
  }

  lemma TwoDigits(v: nat, n: nat)
    ensures BigEndian(v, n + 2) == BigEndian(v / 0x1_0000, n) + [ToByte(v / 0x100), ToByte(v)]
  {
    hide ToByte;
    assert v / 0x100 / 0x100 == v / 0x1_0000;
    assert BigEndian(v, n + 2) == BigEndian(v / 0x100, n + 1) + [ToByte(v)];
  }

  lemma {:induction false} ZeroDigits(n: nat)
    ensures BigEndian(0, n) == Zeros(n)
  {
    hide ToByte;
    if n > 0 {
      ZeroDigits(n - 1);
      ZeroLowByte();
    }
  }

  lemma ZeroLowByte()
    ensures ToByte(0) == 0
  {
  }

  /** A number that fits `n` digits is written as zeros only if it is zero. */
  lemma AllZeros(v: nat, n: nat)
    requires v < Pow256(n)
    ensures BigEndian(v, n) == Zeros(n) <==> v == 0
  {
    hide BigEndian, Value, Zeros;
    ZeroDigits(n);
    ValueOfBigEndian(v, n);
    ValueOfBigEndian(0, n);
    SmallModulo(v, Pow256(n));
    SmallModulo(0, Pow256(n));
  }

  /** The low `n` digits can be split off. */
  lemma {:induction false} BigEndianSplit(v: nat, x: nat, m: nat, n: nat)
    requires x < Pow256(n)
    ensures BigEndian(v * Pow256(n) + x, m + n) == BigEndian(v, m) + BigEndian(x, n)
  {
    hide ToByte;
    if n == 0 {
      assert v * Pow256(0) + x == v;
    } else {
      var p, q, r := Pow256(n - 1), x / 256, x % 256;
      SplitStep(v, p, q, r);
      BigEndianSplit(v, q, m, n - 1);
      ToByteModulo(v * Pow256(n) + x, x);
      var w := v * Pow256(n) + x;
      assert BigEndian(w, m + n) == BigEndian(w / 256, m + n - 1) + [ToByte(w)];
    }
  }

  lemma SplitStep(v: nat, p: nat, q: nat, r: nat)
    requires p > 0 && r < 256
    ensures (v * (256 * p) + (256 * q + r)) / 256 == v * p + q
    ensures (v * (256 * p) + (256 * q + r)) % 256 == r
  {
    assert v * (256 * p) == 256 * (v * p);
    DivisionUnique(v * (256 * p) + (256 * q + r), 256, v * p + q, r);
  }

  lemma ToByteModulo(v: nat, w: nat)
    requires v % 256 == w % 256
    ensures ToByte(v) == ToByte(w)
  {
  }

  /** The value of two strings of digits, one behind the other. */
  lemma {:induction false} ValueOfConcat(a: seq<bv8>, b: seq<bv8>)
    ensures Value(a + b) == Value(a) * Pow256(|b|) + Value(b)
  {
    hide ToInt;
    if b == [] {
      assert a + b == a;
    } else {
      var n := |b| - 1;
      assert (a + b)[..|a + b| - 1] == a + b[..n];
      ValueOfConcat(a, b[..n]);
      ConcatStep(Value(a), Pow256(n), Value(b[..n]), ToInt(b[n]));
    }
  }

  lemma ConcatStep(v: nat, p: nat, q: nat, r: nat)
    ensures 256 * (v * p + q) + r == v * (256 * p) + (256 * q + r)
  {
  }

  lemma ValueOfZeros(n: nat)
    ensures Value(Zeros(n)) == 0
  {
    hide BigEndian, Value, Zeros;
    ZeroDigits(n);
    ValueOfBigEndian(0, n);
    SmallModulo(0, Pow256(n));
  }

  lemma ValueOfLast(b: seq<bv8>)
    requires b != []
    ensures Value(b) == 256 * Value(b[..|b| - 1]) + ToInt(b[|b| - 1])
  {
  }

  /** `after` is `before` with the digit `at` one up and 255s after it rolled over to 0. */
  ghost predicate CarriedTo(before: seq<bv8>, after: seq<bv8>, at: nat) {
    && at < |before| == |after|
    && after[..at] == before[..at]
    && ToInt(after[at]) == (if ToInt(before[at]) == 255 then 0 else ToInt(before[at]) + 1)
    && (forall j | at < j < |after| :: ToInt(after[j]) == 0 && ToInt(before[j]) == 255)
  }

  /** Without the last digit. */
  lemma CarriedBefore(before: seq<bv8>, after: seq<bv8>, at: nat)
    requires CarriedTo(before, after, at) && at < |before| - 1
    ensures var n := |before| - 1; CarriedTo(before[..n], after[..n], at) && before[..n][at] == before[at]
  {
    hide ToInt;
    var n := |before| - 1;
    assert before[..n][..at] == before[..at] && after[..n][..at] == after[..at];
  }

  lemma {:induction false} CarryAddsOne(before: seq<bv8>, after: seq<bv8>, at: nat)
    requires CarriedTo(before, after, at) && ToInt(before[at]) < 255
    ensures Value(after) == Value(before) + 1
  {
    hide ToInt, Value;
    var n := |before| - 1;
    ValueOfLast(before);
    ValueOfLast(after);
    if at < n {
      CarriedBefore(before, after, at);
      CarryAddsOne(before[..n], after[..n], at);
    }
  }

  lemma {:induction false} CarryWraps(before: seq<bv8>, after: seq<bv8>)
    requires CarriedTo(before, after, 0) && ToInt(before[0]) == 255
    ensures Value(after) == 0 && Value(before) + 1 == Pow256(|before|)
  {
    hide ToInt, Value;
    var n := |before| - 1;
    ValueOfLast(before);
    ValueOfLast(after);
    if 0 < n {
      CarriedBefore(before, after, 0);
      CarryWraps(before[..n], after[..n]);
    } else {
      assert before[..n] == [] && after[..n] == [];
      ValueOfNone();
    }
  }

  lemma ValueOfNone()
    ensures Value([]) == 0
  {
  }

  /** A carry that stops at a digit below 255, or runs off the front, adds one modulo 256^n. */
  lemma CarryIncrements(before: seq<bv8>, after: seq<bv8>, at: nat)
    requires CarriedTo(before, after, at) && (ToInt(before[at]) == 255 ==> at == 0)
    ensures after == BigEndian(Value(before) + 1, |before|)
  {
    hide ToInt, Value, BigEndian, Pow256;
    var n := |before|;
    if ToInt(before[at]) == 255 {
      CarryWraps(before, after);
    } else {
      CarryAddsOne(before, after, at);
    }
    BigEndianModulo(Value(before) + 1, n);
    SmallModulo(Value(before) + 1, Pow256(n));
    BigEndianOfValue(after);
  }
}
