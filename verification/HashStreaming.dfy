/**
 The streaming part of MD5, SHA-1 and SHA-256: buffering, counting and padding around a
 block transform. The three differ in the transform, in the byte order of the length
 field, and in the width of the index of the update loop.
 */
module HashStreaming {
  import opened Arithmetic
  import opened Bytes

  const BLOCK := 64
  const U64: int := 0x1_0000_0000_0000_0000
  const U32: int := 0x1_0000_0000

  type Transform<!S> = (S, seq<bv8>) -> S

  /** The transform applied to the whole blocks of `m`, in order. */
  function Fold<S>(f: Transform<S>, s: S, m: seq<bv8>): S
    decreases |m|
  {
    if |m| < BLOCK then s else Fold(f, f(s, m[..BLOCK]), m[BLOCK..])
  }

  lemma {:induction false} FoldAppend<S>(f: Transform<S>, s: S, a: seq<bv8>, b: seq<bv8>)
    requires |a| % BLOCK == 0
    ensures Fold(f, s, a + b) == Fold(f, Fold(f, s, a), b)
    decreases |a|
  {
    if a == [] {
      assert a + b == b;
    } else {
      assert (a + b)[..BLOCK] == a[..BLOCK] && (a + b)[BLOCK..] == a[BLOCK..] + b;
      FoldAppend(f, f(s, a[..BLOCK]), a[BLOCK..], b);
    }
  }

  lemma FoldOne<S>(f: Transform<S>, s: S, b: seq<bv8>)
    requires |b| == BLOCK
    ensures Fold(f, s, b) == f(s, b)
  {
    assert b[..BLOCK] == b;
    assert Fold(f, f(s, b), b[BLOCK..]) == f(s, b);
  }

  // ------------------------------------------------------------- padding

  function Reversed(s: seq<bv8>): (r: seq<bv8>)
    ensures |r| == |s|
  {
    seq(|s|, i requires 0 <= i < |s| => s[|s| - 1 - i])
  }

  /** A 64-bit number, most or least significant byte first. */
  function LengthField(v: nat, big: bool): (r: seq<bv8>)
    ensures |r| == 8
  {
    if big then BigEndian(v, 8) else Reversed(BigEndian(v, 8))
  }

  /** Section 5.1.1 of FIPS 180-4, and sections 3.1 and 3.2 of RFC 1321 with the other byte order. */
  function Padded(m: seq<bv8>, big: bool): seq<bv8> {
    m + [0x80] + Zeros((55 - |m|) % BLOCK) + LengthField(8 * |m|, big)
  }

  function Digest<S>(f: Transform<S>, s: S, m: seq<bv8>, big: bool): S {
    Fold(f, s, Padded(m, big))
  }

  /**
   The padded message, byte by byte: the message, the mark, zeros, and in the last eight
   bytes the number of bits, most or least significant byte first.
   */
  lemma PaddingLayout(m: seq<bv8>, big: bool, i: nat)
    requires i < |Padded(m, big)|
    ensures var n := |Padded(m, big)|;
            && n >= |m| + 9
            && Padded(m, big)[i] ==
                 if i < |m| then m[i]
                 else if i == |m| then 0x80
                 else if i < n - 8 then 0
                 else ToByte(8 * |m| / Pow256(if big then n - 1 - i else i - (n - 8)))
  {
    hide ToByte, BigEndian, Pow256;
    var n := |Padded(m, big)|;
    if i >= n - 8 {
      DigitAt(8 * |m|, 8, if big then i - (n - 8) else n - 1 - i);
    }
  }

  /** Padding fills up to the next whole block that has room for the mark and the length. */
  lemma PaddingShortest(m: seq<bv8>, big: bool)
    ensures |Padded(m, big)| % BLOCK == 0
    ensures |m| + 9 <= |Padded(m, big)| < |m| + 9 + BLOCK
  {
    hide LengthField, Zeros;
    ZerosNeeded(|m|);
  }

  lemma ZerosNeeded(n: nat)
    ensures (n + 9 + (55 - n) % BLOCK) % BLOCK == 0
  {
    var k, r := n / BLOCK, n % BLOCK;
    assert 55 - n == BLOCK * -k + (55 - r);
    assert (55 - n) % BLOCK == if r <= 55 then 55 - r else 119 - r;
  }

  /** Different messages have different padded messages; the length field may wrap. */
  lemma PaddingInjective(m: seq<bv8>, n: seq<bv8>, big: bool)
    ensures Padded(m, big) == Padded(n, big) <==> m == n
  {
    hide LengthField;
    if Padded(m, big) == Padded(n, big) {
      PaddingShortest(m, big);
      PaddingShortest(n, big);
      var k := |Padded(m, big)| - 8;
      assert Padded(m, big)[k..] == LengthField(8 * |m|, big);
      assert Padded(n, big)[k..] == LengthField(8 * |n|, big);
      if |m| < |n| {
        LengthFieldDistinct(8 * |m|, 8 * |n|, big);
      } else if |n| < |m| {
        LengthFieldDistinct(8 * |n|, 8 * |m|, big);
      }
      assert Padded(m, big)[..|m|] == m && Padded(n, big)[..|n|] == n;
    }
  }

  lemma LengthFieldDistinct(a: nat, b: nat, big: bool)
    requires a < b < a + 8 * BLOCK
    ensures LengthField(a, big) != LengthField(b, big)
  {
    hide ToByte, BigEndian, Pow256;
    PowerOfEight();
    BigEndianDistinct(a, b, 8);
    if LengthField(a, big) == LengthField(b, big) {
      var x, y := BigEndian(a, 8), BigEndian(b, 8);
      forall i | 0 <= i < 8 ensures x[i] == y[i] {
        assert LengthField(a, big)[if big then i else 7 - i] == LengthField(b, big)[if big then i else 7 - i];
      }
    }
  }

  lemma PowerOfEight()
    ensures Pow256(8) == U64
  {
    assert Pow256(4) == U32;
    assert Pow256(6) == 0x1_0000_0000_0000;
  }

  /**
   The digest state is the last of a chain: it starts with the initial state, and each block
   of the padded message takes it one link further.
   */
  lemma {:induction false} FoldChain<S>(f: Transform<S>, s: S, p: seq<bv8>) returns (h: seq<S>)
    requires |p| % BLOCK == 0
    ensures |h| == |p| / 64 + 1 && h[0] == s && h[|p| / 64] == Fold(f, s, p)
    ensures forall i | 0 <= i < |p| / 64 :: h[i + 1] == f(h[i], p[64 * i..64 * i + 64])
    decreases |p|
  {
    if p == [] {
      h := [s];
    } else {
      var rest := p[64..];
      var t := FoldChain(f, f(s, p[..64]), rest);
      h := [s] + t;
      forall i | 0 <= i < |p| / 64 ensures h[i + 1] == f(h[i], p[64 * i..64 * i + 64]) {
        if i == 0 {
          assert p[64 * i..64 * i + 64] == p[..64];
        } else {
          assert rest[64 * (i - 1)..64 * (i - 1) + 64] == p[64 * i..64 * i + 64];
        }
      }
    }
  }

  lemma DigestChain<S>(f: Transform<S>, s: S, m: seq<bv8>, big: bool) returns (h: seq<S>)
    ensures var p := Padded(m, big);
            && |p| % 64 == 0 && |h| == |p| / 64 + 1 && h[0] == s && h[|h| - 1] == Digest(f, s, m, big)
            && forall i | 0 <= i < |p| / 64 :: h[i + 1] == f(h[i], p[64 * i..64 * i + 64])
  {
    hide Padded, Fold;
    PaddingShortest(m, big);
    h := FoldChain(f, s, Padded(m, big));
  }

  // ------------------------------------------------------------- the context

  /** The bits of `n` bytes, modulo 2^64. */
  function Bits(n: nat): nat {
    8 * n % U64
  }

  lemma BitsAdd(n: nat, k: nat)
    ensures (Bits(n) + 8 * k) % U64 == Bits(n + k)
  {
    ModuloOfSum(8 * n, 8 * k, U64);
  }

  lemma WholePart(n: nat)
    ensures (n - n % BLOCK) % BLOCK == 0
  {
  }

  /** What the bytes taken in so far leave in the context. */
  ghost predicate Absorbed<S>(f: Transform<S>, start: S, m: seq<bv8>, state: S, buffer: seq<bv8>, bitlen: nat) {
    && |buffer| == |m| % BLOCK
    && buffer == m[|m| - |buffer|..]
    && state == Fold(f, start, m[..|m| - |buffer|])
    && bitlen == Bits(|m| - |buffer|)
  }

  lemma AbsorbNone<S>(f: Transform<S>, start: S)
    ensures Absorbed(f, start, [], start, [], 0)
  {
  }

  lemma NextRemainder(n: nat)
    ensures (n + 1) % BLOCK == if n % BLOCK == BLOCK - 1 then 0 else n % BLOCK + 1
  {
  }

  lemma AbsorbByte<S>(f: Transform<S>, start: S, m: seq<bv8>, state: S, buffer: seq<bv8>, bitlen: nat, b: bv8)
    requires Absorbed(f, start, m, state, buffer, bitlen)
    ensures |buffer| < BLOCK
    ensures |buffer| + 1 < BLOCK ==> Absorbed(f, start, m + [b], state, buffer + [b], bitlen)
    ensures |buffer| + 1 == BLOCK ==> Absorbed(f, start, m + [b], f(state, buffer + [b]), [], (bitlen + 512) % U64)
  {
    hide Fold, Bits;
    NextRemainder(|m|);
    if |buffer| + 1 == BLOCK {
      FillBlock(f, start, m, state, buffer, bitlen, b);
    } else {
      var k := |m| - |buffer|;
      assert (m + [b])[..k] == m[..k];
      assert (m + [b])[k..] == buffer + [b];
    }
  }

  lemma FillBlock<S>(f: Transform<S>, start: S, m: seq<bv8>, state: S, buffer: seq<bv8>, bitlen: nat, b: bv8)
    requires Absorbed(f, start, m, state, buffer, bitlen) && |buffer| + 1 == BLOCK
    ensures Absorbed(f, start, m + [b], f(state, buffer + [b]), [], (bitlen + 512) % U64)
  {
    hide Fold, Bits;
    var k := |m| - |buffer|;
    NextRemainder(|m|);
    WholePart(|m|);
    WholeBlock(f, start, m[..k], buffer + [b]);
    assert m[..k] + (buffer + [b]) == m + [b] == (m + [b])[..|m| + 1];
    BitsAdd(k, BLOCK);
  }

  lemma WholeBlock<S>(f: Transform<S>, start: S, a: seq<bv8>, b: seq<bv8>)
    requires |a| % BLOCK == 0 && |b| == BLOCK
    ensures Fold(f, start, a + b) == f(Fold(f, start, a), b)
  {
    hide Fold;
    FoldAppend(f, start, a, b);
    FoldOne(f, Fold(f, start, a), b);
  }

  /** The length field takes the number modulo 2^64. */
  lemma LengthFieldWraps(v: nat, big: bool)
    ensures LengthField(v % U64, big) == LengthField(v, big)
  {
    hide BigEndian, Pow256;
    PowerOfEight();
    BigEndianModulo(v, 8);
  }

  /** The counted bits of the whole message. */
  lemma BitsOfMessage<S>(f: Transform<S>, start: S, m: seq<bv8>, state: S, buffer: seq<bv8>, bitlen: nat, big: bool)
    requires Absorbed(f, start, m, state, buffer, bitlen)
    ensures LengthField((bitlen + 8 * |buffer|) % U64, big) == LengthField(8 * |m|, big)
  {
    hide LengthField, Fold;
    BitsAdd(|m| - |buffer|, |buffer|);
    LengthFieldWraps(8 * |m|, big);
  }

  lemma PaddedSplit<S>(f: Transform<S>, start: S, m: seq<bv8>, state: S, buffer: seq<bv8>, bitlen: nat, big: bool)
    requires Absorbed(f, start, m, state, buffer, bitlen)
    ensures Digest(f, start, m, big)
         == Fold(f, state, buffer + [0x80] + Zeros((55 - |buffer|) % BLOCK) + LengthField(8 * |m|, big))
  {
    hide LengthField, Zeros, Fold, Bits, Padded;
    var k := |m| - |buffer|;
    WholePart(|m|);
    PaddedParts(m, k, big);
    FoldAppend(f, start, m[..k], m[k..] + [0x80] + Zeros((55 - |buffer|) % BLOCK) + LengthField(8 * |m|, big));
  }

  lemma PaddedParts(m: seq<bv8>, k: nat, big: bool)
    requires k <= |m| && k == |m| - |m| % BLOCK
    ensures Padded(m, big) == m[..k] + (m[k..] + [0x80] + Zeros((55 - (|m| - k)) % BLOCK) + LengthField(8 * |m|, big))
  {
    hide LengthField, Zeros;
    SameRemainder(|m|);
    Regroup(m, k, [0x80], Zeros((55 - |m|) % BLOCK), LengthField(8 * |m|, big));
  }

  lemma Regroup(m: seq<bv8>, k: nat, a: seq<bv8>, b: seq<bv8>, c: seq<bv8>)
    requires k <= |m|
    ensures m + a + b + c == m[..k] + (m[k..] + a + b + c)
  {
  }

  lemma SameRemainder(n: nat)
    ensures (55 - n) % BLOCK == (55 - n % BLOCK) % BLOCK
  {
    var k, r := n / BLOCK, n % BLOCK;
    assert 55 - n == BLOCK * -k + (55 - r);
  }

  /** The buffer has room for mark and length. */
  lemma OneMoreBlock<S>(f: Transform<S>, start: S, m: seq<bv8>, state: S, buffer: seq<bv8>, bitlen: nat, big: bool)
    requires Absorbed(f, start, m, state, buffer, bitlen) && |buffer| < 56
    ensures var last := buffer + ([0x80] + Zeros(55 - |buffer|)) + LengthField((bitlen + 8 * |buffer|) % U64, big);
            |last| == BLOCK && f(state, last) == Digest(f, start, m, big)
  {
    hide LengthField, Fold, Absorbed, Digest;
    PaddedSplit(f, start, m, state, buffer, bitlen, big);
    BitsOfMessage(f, start, m, state, buffer, bitlen, big);
    var last := buffer + ([0x80] + Zeros(55 - |buffer|)) + LengthField(8 * |m|, big);
    assert last == buffer + [0x80] + Zeros((55 - |buffer|) % BLOCK) + LengthField(8 * |m|, big);
    FoldOne(f, state, last);
  }

  /** The buffer has no room for the length, which goes into a block of its own. */
  lemma TwoMoreBlocks<S>(f: Transform<S>, start: S, m: seq<bv8>, state: S, buffer: seq<bv8>, bitlen: nat, big: bool)
    requires Absorbed(f, start, m, state, buffer, bitlen) && 56 <= |buffer| < BLOCK
    ensures var first := buffer + ([0x80] + Zeros(63 - |buffer|));
            var last := Zeros(56) + LengthField((bitlen + 8 * |buffer|) % U64, big);
            |first| == |last| == BLOCK && f(f(state, first), last) == Digest(f, start, m, big)
  {
    hide LengthField, Fold, Absorbed, Digest;
    PaddedSplit(f, start, m, state, buffer, bitlen, big);
    BitsOfMessage(f, start, m, state, buffer, bitlen, big);
    var first := buffer + ([0x80] + Zeros(63 - |buffer|));
    var last := Zeros(56) + LengthField(8 * |m|, big);
    assert (55 - |buffer|) % BLOCK == 119 - |buffer|;
    assert first + last == buffer + [0x80] + Zeros((55 - |buffer|) % BLOCK) + LengthField(8 * |m|, big);
    FoldAppend(f, state, first, last);
    FoldOne(f, state, first);
    FoldOne(f, f(state, first), last);
  }

  lemma FourDigits(v: nat, n: nat)
    ensures BigEndian(v, n + 4)
         == BigEndian(v / 0x1_0000_0000, n)
             + [ToByte(v / 0x100_0000), ToByte(v / 0x1_0000), ToByte(v / 0x100), ToByte(v)]
  {
    hide ToByte, BigEndian;
    var w := v / 0x1_0000;
    TwoDigits(v, n + 2);
    TwoDigits(w, n);
    assert w / 0x100 == v / 0x100_0000 && w / 0x1_0000 == v / 0x1_0000_0000;
  }

  lemma EightDigits(v: nat)
    ensures BigEndian(v, 8) == [
              ToByte(v / 0x100_0000_0000_0000), ToByte(v / 0x1_0000_0000_0000), ToByte(v / 0x100_0000_0000),
              ToByte(v / 0x1_0000_0000), ToByte(v / 0x100_0000), ToByte(v / 0x1_0000), ToByte(v / 0x100), ToByte(v)]
  {
    hide ToByte, BigEndian;
    var w := v / 0x1_0000_0000;
    FourDigits(v, 4);
    FourDigits(w, 0);
    NoDigits(w / 0x1_0000_0000);
    assert w / 0x100 == v / 0x100_0000_0000 && w / 0x1_0000 == v / 0x1_0000_0000_0000
        && w / 0x100_0000 == v / 0x100_0000_0000_0000;
  }

  lemma LengthBytes(v: nat)
    ensures LengthField(v, true) == [
              ToByte(v / 0x100_0000_0000_0000), ToByte(v / 0x1_0000_0000_0000), ToByte(v / 0x100_0000_0000),
              ToByte(v / 0x1_0000_0000), ToByte(v / 0x100_0000), ToByte(v / 0x1_0000), ToByte(v / 0x100), ToByte(v)]
    ensures LengthField(v, false) == [
              ToByte(v), ToByte(v / 0x100), ToByte(v / 0x1_0000), ToByte(v / 0x100_0000), ToByte(v / 0x1_0000_0000),
              ToByte(v / 0x100_0000_0000), ToByte(v / 0x1_0000_0000_0000), ToByte(v / 0x100_0000_0000_0000)]
  {
    hide ToByte, BigEndian;
    EightDigits(v);
    ReversedEight(
      ToByte(v / 0x100_0000_0000_0000), ToByte(v / 0x1_0000_0000_0000), ToByte(v / 0x100_0000_0000),
      ToByte(v / 0x1_0000_0000), ToByte(v / 0x100_0000), ToByte(v / 0x1_0000), ToByte(v / 0x100), ToByte(v));
  }

  lemma ReversedEight(a: bv8, b: bv8, c: bv8, d: bv8, e: bv8, f: bv8, g: bv8, h: bv8)
    ensures Reversed([a, b, c, d, e, f, g, h]) == [h, g, f, e, d, c, b, a]
  {
  }

  class Context<S> {
    const transform: Transform<S>
    const big: bool
    /** SHA-256 counts the bytes of an update in 32 bits. */
    const narrowIndex: bool
    const data: array<bv8>
    var datalen: nat
    var bitlen: nat
    var state: S
    ghost const start: S
    /** Everything taken in since the context was initialised. */
    ghost var message: seq<bv8>

    ghost predicate Valid()
      reads this, data
    {
      && data.Length == BLOCK && datalen < BLOCK
      && Absorbed(transform, start, message, state, data[..datalen], bitlen)
    }

    constructor (transform: Transform<S>, start: S, big: bool, narrowIndex: bool)
      ensures Valid() && fresh(data) && message == []
      ensures this.transform == transform && this.start == start && this.big == big && this.narrowIndex == narrowIndex
    {
      this.transform, this.big, this.narrowIndex, this.start := transform, big, narrowIndex, start;
      data := new bv8[64];
      datalen, bitlen, state, message := 0, 0, start, [];
      new;
      AbsorbNone(transform, start);
    }

    method Update(input: array<bv8>, len: nat)
      requires Valid() && input != data && len <= input.Length
      requires narrowIndex ==> len < U32
      modifies this, data
      ensures Valid() && message == old(message) + input[..len]
    {
      hide Absorbed;
      for i := 0 to len
        invariant Valid() && message == old(message) + input[..i]
      {
        UpdateByte(input[i]);
      }
    }

    /** The body of the loop. */
    method UpdateByte(b: bv8)
      requires Valid()
      modifies this, data
      ensures Valid() && message == old(message) + [b]
    {
      hide Absorbed;
      AbsorbByte(transform, start, message, state, data[..datalen], bitlen, b);
      data[datalen] := b;
      datalen := datalen + 1;
      assert data[..datalen] == old(data[..datalen]) + [b];
      message := message + [b];
      if datalen == BLOCK {
        assert data[..] == data[..datalen];
        state := transform(state, data[..]);
        bitlen := (bitlen + 512) % U64;
        datalen := 0;
      }
    }

    /** The mark and zeros up to `to`. */
    method Mark(to: nat)
      requires data.Length == BLOCK && datalen < to <= BLOCK
      modifies data
      ensures data[..to] == old(data[..datalen]) + ([0x80] + Zeros(to - datalen - 1))
    {
      var i := datalen;
      data[i] := 0x80;
      i := i + 1;
      while i < to
        invariant datalen < i <= to
        invariant data[..i] == old(data[..datalen]) + ([0x80] + Zeros(i - datalen - 1))
      {
        data[i] := 0x00;
        i := i + 1;
      }
    }

    method PutLength(a: bv8, b: bv8, c: bv8, d: bv8, e: bv8, f: bv8, g: bv8, h: bv8)
      requires data.Length == BLOCK
      modifies data
      ensures data[..56] == old(data[..56]) && data[56..] == [a, b, c, d, e, f, g, h]
    {
      data[56] := a;
      data[57] := b;
      data[58] := c;
      data[59] := d;
      data[60] := e;
      data[61] := f;
      data[62] := g;
      data[63] := h;
    }

    /** The eight bytes of the bit count, least significant first for MD5 and last for SHA. */
    method WriteLength()
      requires data.Length == BLOCK
      modifies data
      ensures data[..56] == old(data[..56]) && data[56..] == LengthField(bitlen, big)
    {
      hide ToByte, BigEndian, LengthField;
      LengthBytes(bitlen);
      if big {
        PutLength(
          ToByte(bitlen / 0x100_0000_0000_0000), ToByte(bitlen / 0x1_0000_0000_0000), ToByte(bitlen / 0x100_0000_0000),
          ToByte(bitlen / 0x1_0000_0000), ToByte(bitlen / 0x100_0000), ToByte(bitlen / 0x1_0000),
          ToByte(bitlen / 0x100), ToByte(bitlen));
      } else {
        PutLength(
          ToByte(bitlen), ToByte(bitlen / 0x100), ToByte(bitlen / 0x1_0000), ToByte(bitlen / 0x100_0000),
          ToByte(bitlen / 0x1_0000_0000), ToByte(bitlen / 0x100_0000_0000), ToByte(bitlen / 0x1_0000_0000_0000),
          ToByte(bitlen / 0x100_0000_0000_0000));
      }
    }

    method Clear(to: nat)
      requires to <= data.Length
      modifies data
      ensures data[..to] == Zeros(to)
    {
      for i := 0 to to
        invariant data[..i] == Zeros(i)
      {
        data[i] := 0;
      }
    }

    /** However the message was divided into updates, the result is that of the whole padded message. */
    method Final() returns (result: S)
      requires Valid()
      modifies this, data
      ensures result == Digest(transform, start, message, big) && message == old(message)
    {
      hide Absorbed, Digest, Fold, LengthField;
      ghost var buffer := data[..datalen];
      if datalen < 56 {
        OneMoreBlock(transform, start, message, state, buffer, bitlen, big);
        Mark(56);
      } else {
        TwoMoreBlocks(transform, start, message, state, buffer, bitlen, big);
        Mark(64);
        assert data[..] == data[..64];
        state := transform(state, data[..]);
        Clear(56);
      }
      bitlen := (bitlen + datalen * 8) % U64;
      WriteLength();
      assert data[..] == data[..56] + data[56..];
      state := transform(state, data[..]);
      result := state;
    }
  }

  function Concat(pieces: seq<seq<bv8>>): seq<bv8>
    decreases |pieces|
  {
    if pieces == [] then [] else Concat(pieces[..|pieces| - 1]) + pieces[|pieces| - 1]
  }

  lemma ConcatSnoc(pieces: seq<seq<bv8>>, n: nat)
    requires n < |pieces|
    ensures Concat(pieces[..n + 1]) == Concat(pieces[..n]) + pieces[n]
  {
    assert pieces[..n + 1][..n] == pieces[..n];
  }

  /** The way callers use a context: the division of the message into updates does not show in the result. */
  method HashInPieces<S>(f: Transform<S>, start: S, big: bool, narrowIndex: bool, pieces: seq<seq<bv8>>)
    returns (result: S)
    requires narrowIndex ==> forall i | 0 <= i < |pieces| :: |pieces[i]| < U32
    ensures result == Digest(f, start, Concat(pieces), big)
  {
    hide Digest, Concat, Absorbed;
    var context := new Context(f, start, big, narrowIndex);
    ConcatNone();
    for k := 0 to |pieces|
      invariant context.Valid() && fresh(context) && fresh(context.data)
      invariant context.transform == f && context.start == start && context.big == big
           && context.narrowIndex == narrowIndex
      invariant context.message == Concat(pieces[..k])
    {
      var piece := pieces[k];
      var input := new bv8[|piece|](i requires 0 <= i < |piece| => piece[i]);
      assert input[..|piece|] == piece;
      context.Update(input, |piece|);
      ConcatSnoc(pieces, k);
    }
    assert pieces[..|pieces|] == pieces;
    result := context.Final();
  }

  lemma ConcatNone()
    ensures Concat([]) == []
  {
  }
}
