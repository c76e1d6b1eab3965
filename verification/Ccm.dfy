/**
 CCM authenticated encryption as the implementation does it: how nonce, associated data
 and payload are laid out for the MAC, which counters mask what, and what sealing and
 opening compute. Holds for any block cipher.
 */
module Ccm {
  import opened Arithmetic
  import opened Bytes
  import opened CipherModes

  predicate ValidMacLength(m: int) {
    m == 4 || m == 6 || m == 8 || m == 10 || m == 12 || m == 14 || m == 16
  }

  predicate ValidNonce(nonce: seq<bv8>) {
    7 <= |nonce| <= 13
  }

  // Decryption checks neither; it needs only that MAC and nonce fit their buffers.

  predicate MacFits(m: int) {
    0 <= m <= BLOCK
  }

  predicate NonceFits(nonce: seq<bv8>) {
    |nonce| < BLOCK
  }

  // ------------------------------------------------------------- the formatted data

  /** The flags: 3 bits for the MAC length, 3 for the size of the length field, one for associated data. */
  function Flags(assocLen: nat, storeSize: int, macLen: int): int {
    HalfOf(macLen - 2) % 8 * 8 + (storeSize - 1) % 8 + if assocLen > 0 then 0x40 else 0
  }

  /** Division by two that truncates towards zero. */
  function HalfOf(m: int): int {
    if m < 0 then -(-m / 2) else m / 2
  }

  /** Flags, nonce, and the low 16 bits of the payload length at the end of the block. */
  function FirstBlock(macLen: int, nonce: seq<bv8>, assocLen: nat, payloadLen: nat): (b: seq<bv8>)
    requires NonceFits(nonce)
    ensures |b| == BLOCK
  {
    var b := [ToByte(Flags(assocLen, BLOCK - 1 - |nonce|, macLen))] + nonce + Zeros(BLOCK - 1 - |nonce|);
    b[14 := ToByte(payloadLen / 256)][15 := ToByte(payloadLen)]
  }

  /** Always between 1 and 16: aligned data get a whole block. */
  function AssocPadding(assocLen: nat): (n: nat)
    ensures 1 <= n <= BLOCK && (assocLen + 2 + n) % BLOCK == 0
  {
    BLOCK - (assocLen + 2) % BLOCK
  }

  function AssocPart(assoc: seq<bv8>): (b: seq<bv8>)
    ensures |b| == 2 + |assoc| + AssocPadding(|assoc|)
  {
    [ToByte(|assoc| / 256), ToByte(|assoc|)] + assoc + Zeros(AssocPadding(|assoc|))
  }

  function PayloadPadding(payloadLen: nat): (n: nat)
    ensures n < BLOCK && (payloadLen + n) % BLOCK == 0
  {
    if payloadLen % BLOCK == 0 then 0 else BLOCK - payloadLen % BLOCK
  }

  function PayloadPart(payload: seq<bv8>): (b: seq<bv8>)
    ensures |b| == |payload| + PayloadPadding(|payload|)
  {
    payload + Zeros(PayloadPadding(|payload|))
  }

  function Format(macLen: int, nonce: seq<bv8>, assoc: seq<bv8>, payload: seq<bv8>): (f: seq<bv8>)
    requires NonceFits(nonce)
    ensures |f| == FormatLength(|assoc|, |payload|)
  {
    FirstBlock(macLen, nonce, |assoc|, |payload|) + AssocPart(assoc) + PayloadPart(payload)
  }

  function FormatLength(assocLen: nat, payloadLen: nat): nat {
    BLOCK + 2 + assocLen + AssocPadding(assocLen) + payloadLen + PayloadPadding(payloadLen)
  }

  /** Whole blocks, and more than one. */
  lemma FormatIsBlocks(assocLen: nat, payloadLen: nat)
    ensures FormatLength(assocLen, payloadLen) % BLOCK == 0
    ensures FormatLength(assocLen, payloadLen) > BLOCK
  {
    hide AssocPadding, PayloadPadding;
    var a, p := assocLen + 2 + AssocPadding(assocLen), payloadLen + PayloadPadding(payloadLen);
    assert a % BLOCK == 0 && p % BLOCK == 0;
    assert (BLOCK + a + p) % BLOCK == 0;
  }

  /**
   At most 49 bytes more than the data. The 48 extra bytes that encryption allocates fall
   short, by one, exactly in the named case.
   */
  lemma FormatFits(assocLen: nat, payloadLen: nat)
    ensures FormatLength(assocLen, payloadLen) <= payloadLen + assocLen + 49
    ensures FormatLength(assocLen, payloadLen) > payloadLen + assocLen + 48
       <==> (assocLen + 2) % BLOCK == 0 && payloadLen % BLOCK == 1
  {
    assert AssocPadding(assocLen) == BLOCK <==> (assocLen + 2) % BLOCK == 0;
    assert PayloadPadding(payloadLen) == BLOCK - 1 <==> payloadLen % BLOCK == 1;
  }

  /** The smallest such case: 64 bytes are needed, 63 are allocated. */
  lemma FormatOverflows()
    ensures FormatLength(14, 1) == 64 && 1 + 14 + 48 == 63
  {
  }

  /** The 48 bytes that decryption adds to the ciphertext, which contains the MAC, suffice unless the MAC is empty. */
  lemma FormatFitsDecryption(assocLen: nat, payloadLen: nat, macLen: nat)
    ensures FormatLength(assocLen, payloadLen) > assocLen + (payloadLen + macLen) + 48
       <==> macLen == 0 && (assocLen + 2) % BLOCK == 0 && payloadLen % BLOCK == 1
  {
    FormatFits(assocLen, payloadLen);
  }

  // ------------------------------------------------------------- unique decodability

  lemma FlagsInjective(m: int, n: int, a: nat, m': int, n': int, a': nat)
    requires ValidMacLength(m) && ValidMacLength(m') && 7 <= n <= 13 && 7 <= n' <= 13
    requires ToByte(Flags(a, BLOCK - 1 - n, m)) == ToByte(Flags(a', BLOCK - 1 - n', m'))
    ensures m == m' && n == n'
  {
    hide ToByte, Flags;
    FlagsValue(m, n, a);
    FlagsValue(m', n', a');
    SmallByteInjective(Flags(a, BLOCK - 1 - n, m), Flags(a', BLOCK - 1 - n', m'));
  }

  lemma FlagsValue(m: int, n: int, a: nat)
    requires ValidMacLength(m) && 7 <= n <= 13
    ensures var f := Flags(a, BLOCK - 1 - n, m); 0 <= f < 128 && n == 14 - f % 8 && m == 2 * (f / 8 % 8) + 2
  {
    var q, s, t := HalfOf(m - 2), 14 - n, if a > 0 then 1 else 0;
    BitFields(q, s, t);
    assert Flags(a, BLOCK - 1 - n, m) == q * 8 + s + t * 64 by {
      assert (BLOCK - 1 - n - 1) % 8 == s && q % 8 == q;
    }
    assert m == 2 * q + 2;
  }

  lemma BitFields(q: int, s: int, t: int)
    requires 0 <= q < 8 && 0 <= s < 8 && 0 <= t < 2
    ensures var f := q * 8 + s + t * 64; f % 8 == s && f / 8 % 8 == q
  {
  }

  lemma LowWord(x: nat)
    ensures x % 0x1_0000 == 256 * (x / 256 % 256) + x % 256
  {
    DivideOutDigit(x, 256);
  }

  /** Two bytes hold a length modulo 2^16. */
  lemma LengthBytesInjective(x: nat, y: nat)
    requires ToByte(x / 256) == ToByte(y / 256) && ToByte(x) == ToByte(y)
    ensures x % 0x1_0000 == y % 0x1_0000
  {
    hide ToByte, ToInt;
    ToByteValue(x);
    ToByteValue(y);
    ToByteValue(x / 256);
    ToByteValue(y / 256);
    LowWord(x);
    LowWord(y);
  }

  lemma SmallLengthsInjective(x: nat, y: nat)
    requires x < 0x1_0000 && y < 0x1_0000 && ToByte(x / 256) == ToByte(y / 256) && ToByte(x) == ToByte(y)
    ensures x == y
  {
    hide ToByte;
    LengthBytesInjective(x, y);
    SmallModulo(x, 0x1_0000);
    SmallModulo(y, 0x1_0000);
  }

  /** Lengths that pad to the same total are less than 16 apart, so 16 bits tell them apart. */
  lemma PaddedLengthsInjective(x: nat, y: nat)
    requires x + PayloadPadding(x) == y + PayloadPadding(y) && x % 0x1_0000 == y % 0x1_0000
    ensures x == y
  {
  }

  /**
   The formatted data determine MAC length, nonce, associated data and payload. No bound
   on the payload is needed, although only 16 bits of its length are stored.
   */
  lemma FormatInjective(m: int, nonce: seq<bv8>, assoc: seq<bv8>, payload: seq<bv8>,
                        m': int, nonce': seq<bv8>, assoc': seq<bv8>, payload': seq<bv8>)
    requires ValidMacLength(m) && ValidNonce(nonce) && |assoc| < 0x1_0000
    requires ValidMacLength(m') && ValidNonce(nonce') && |assoc'| < 0x1_0000
    requires Format(m, nonce, assoc, payload) == Format(m', nonce', assoc', payload')
    ensures m == m' && nonce == nonce' && assoc == assoc' && payload == payload'
  {
    hide ToByte, FirstBlock, AssocPart, PayloadPart;
    var f := Format(m, nonce, assoc, payload);
    var b, b' := FirstBlock(m, nonce, |assoc|, |payload|), FirstBlock(m', nonce', |assoc'|, |payload'|);
    assert b == f[..BLOCK] == b';
    FirstBlockInjective(m, nonce, |assoc|, |payload|, m', nonce', |assoc'|, |payload'|);
    assert AssocPart(assoc) + PayloadPart(payload) == f[BLOCK..] == AssocPart(assoc') + PayloadPart(payload');
    AssocInjective(assoc, PayloadPart(payload), assoc', PayloadPart(payload'));
    PayloadInjective(payload, payload');
  }

  lemma FirstBlockInjective(m: int, nonce: seq<bv8>, a: nat, p: nat, m': int, nonce': seq<bv8>, a': nat, p': nat)
    requires ValidMacLength(m) && ValidNonce(nonce) && ValidMacLength(m') && ValidNonce(nonce')
    requires FirstBlock(m, nonce, a, p) == FirstBlock(m', nonce', a', p')
    ensures m == m' && nonce == nonce' && p % 0x1_0000 == p' % 0x1_0000
  {
    hide ToByte, Flags;
    var b, b' := FirstBlock(m, nonce, a, p), FirstBlock(m', nonce', a', p');
    assert b[0] == b'[0] && b[14] == b'[14] && b[15] == b'[15];
    FlagsInjective(m, |nonce|, a, m', |nonce'|, a');
    assert nonce == b[1..1 + |nonce|] && nonce' == b'[1..1 + |nonce|];
    LengthBytesInjective(p, p');
  }

  lemma AssocBytes(assoc: seq<bv8>, rest: seq<bv8>)
    ensures var s, n := AssocPart(assoc) + rest, |assoc|;
            && |s| >= 2 + n + AssocPadding(n)
            && s[0] == ToByte(n / 256) && s[1] == ToByte(n)
            && assoc == s[2..2 + n] && rest == s[2 + n + AssocPadding(n)..]
  {
    hide ToByte, AssocPadding;
  }

  lemma AssocInjective(assoc: seq<bv8>, rest: seq<bv8>, assoc': seq<bv8>, rest': seq<bv8>)
    requires |assoc| < 0x1_0000 && |assoc'| < 0x1_0000
    requires AssocPart(assoc) + rest == AssocPart(assoc') + rest'
    ensures assoc == assoc' && rest == rest'
  {
    hide ToByte, AssocPadding, AssocPart;
    AssocBytes(assoc, rest);
    AssocBytes(assoc', rest');
    SmallLengthsInjective(|assoc|, |assoc'|);
  }

  lemma PayloadInjective(payload: seq<bv8>, payload': seq<bv8>)
    requires PayloadPart(payload) == PayloadPart(payload') && |payload| % 0x1_0000 == |payload'| % 0x1_0000
    ensures payload == payload'
  {
    PaddedLengthsInjective(|payload|, |payload'|);
    assert payload == PayloadPart(payload)[..|payload|] && payload' == PayloadPart(payload')[..|payload|];
  }

  // ------------------------------------------------------------- counters

  /** Flags, nonce, and a counter of zero. */
  function FirstCounter(nonce: seq<bv8>): (b: seq<bv8>)
    requires NonceFits(nonce)
    ensures |b| == BLOCK
  {
    [ToByte((BLOCK - 1 - |nonce| - 1) % 8)] + nonce + Zeros(BLOCK - 1 - |nonce|)
  }

  /** A block with its last `size` bytes counted on by one, if `size` is positive. */
  function Stepped(c: seq<bv8>, size: int): (b: seq<bv8>)
    requires |c| == BLOCK && size <= BLOCK
    ensures |b| == BLOCK
  {
    if size <= 0 then c else c[..BLOCK - size] + CounterAfter(Value(c[BLOCK - size..]), 1, size)
  }

  /** The counter block the payload starts with; the step counts in the bytes a MAC leaves of 15. */
  function PayloadCounter(macLen: int, nonce: seq<bv8>): (b: seq<bv8>)
    requires MacFits(macLen) && NonceFits(nonce)
    ensures |b| == BLOCK
  {
    Stepped(FirstCounter(nonce), BLOCK - 1 - macLen)
  }

  /** Stepping the last `size` bytes of the first counter is stepping the whole block. */
  lemma NarrowStepIsWideStep(nonce: seq<bv8>, size: nat)
    requires ValidNonce(nonce) && 1 <= size <= BLOCK
    ensures var c := FirstCounter(nonce); Stepped(c, size) == CounterAfter(Value(c), 1, BLOCK)
  {
    hide Value, BigEndian, ToByte;
    var c := FirstCounter(nonce);
    assert c[BLOCK - 1] == 0;
    StepFromZero(c);
    StepFromZero(c[BLOCK - size..]);
    var tail := c[BLOCK - size..];
    assert c == c[..BLOCK - size] + tail;
    assert c[..BLOCK - 1] == c[..BLOCK - size] + tail[..size - 1];
  }

  lemma StepFromZero(c: seq<bv8>)
    requires c != [] && c[|c| - 1] == 0
    ensures CounterAfter(Value(c), 1, |c|) == c[..|c| - 1] + [ToByte(1)]
  {
    hide ToInt, ToByte, Value, BigEndian;
    var w := Value(c[..|c| - 1]);
    ZeroByte();
    ValueOfLast(c);
    LowDigit(w, 1, |c| - 1);
    BigEndianOfValue(c[..|c| - 1]);
  }

  /** How far the payload's counter is ahead of the MAC's: MACs of 15 and 16 bytes leave no byte to count in. */
  function PayloadOffset(macLen: int): nat {
    if macLen >= BLOCK - 1 then 0 else 1
  }

  lemma PayloadCounterValue(macLen: int, nonce: seq<bv8>)
    requires MacFits(macLen) && ValidNonce(nonce)
    ensures PayloadCounter(macLen, nonce) == CounterAfter(Value(FirstCounter(nonce)), PayloadOffset(macLen), BLOCK)
  {
    hide Value, BigEndian, FirstCounter;
    if macLen < BLOCK - 1 {
      NarrowStepIsWideStep(nonce, BLOCK - 1 - macLen);
    } else {
      BigEndianOfValue(FirstCounter(nonce));
    }
  }

  /** The counter whose mask covers block `i` of the payload. */
  function BlockCounter(macLen: int, nonce: seq<bv8>, i: nat): (b: seq<bv8>)
    requires MacFits(macLen) && NonceFits(nonce)
    ensures |b| == BLOCK
  {
    CounterAfter(Value(PayloadCounter(macLen, nonce)), i, BLOCK)
  }

  /** The blocks of one payload, up to 2^128 of them, are masked with different counters. */
  lemma PayloadCountersDistinct(macLen: int, nonce: seq<bv8>, i: nat, j: nat)
    requires MacFits(macLen) && NonceFits(nonce) && i < j < Pow256(BLOCK)
    ensures BlockCounter(macLen, nonce, i) != BlockCounter(macLen, nonce, j)
  {
    hide FirstCounter, Value, Pow256;
    CountersDistinct(Value(PayloadCounter(macLen, nonce)), i, j, BLOCK);
  }

  /**
   The counter that masks the MAC is never used for the payload, except that a MAC of 15 or 16
   bytes shares it with the first block.
   */
  lemma MacCounterReused(macLen: int, nonce: seq<bv8>, i: nat)
    requires MacFits(macLen) && ValidNonce(nonce) && i + 1 < Pow256(BLOCK)
    ensures BlockCounter(macLen, nonce, i) == FirstCounter(nonce) <==> macLen >= BLOCK - 1 && i == 0
  {
    hide FirstCounter, PayloadCounter, Value, Pow256, BigEndian;
    var v := Value(FirstCounter(nonce));
    BigEndianOfValue(FirstCounter(nonce));
    assert CounterAfter(v, 0, BLOCK) == FirstCounter(nonce);
    PayloadCounterValue(macLen, nonce);
    CounterFrom(v, PayloadOffset(macLen), i, BLOCK);
    if PayloadOffset(macLen) + i > 0 {
      CountersDistinct(v, 0, PayloadOffset(macLen) + i, BLOCK);
    }
  }

  // ------------------------------------------------------------- counters of different nonces

  /** The bytes that the counters of a nonce have in common. */
  function CounterPrefix(nonce: seq<bv8>): (p: seq<bv8>)
    requires NonceFits(nonce)
    ensures |p| == 1 + |nonce|
  {
    [ToByte((BLOCK - 1 - |nonce| - 1) % 8)] + nonce
  }

  /** How many counters a nonce has to itself: its counter field has the bytes that are left of the block. */
  function CounterSpace(nonce: seq<bv8>): nat
    requires NonceFits(nonce)
  {
    Pow256(BLOCK - 1 - |nonce|)
  }

  /** The number of a counter block: its prefix counts the spaces before it. */
  function CounterNumber(nonce: seq<bv8>, k: nat): nat
    requires NonceFits(nonce)
  {
    Product(Value(CounterPrefix(nonce)), CounterSpace(nonce)) + k
  }

  lemma FirstCounterValue(nonce: seq<bv8>)
    requires NonceFits(nonce)
    ensures Value(FirstCounter(nonce)) == CounterNumber(nonce, 0)
  {
    hide ToByte, Value, Zeros, Pow256;
    var w := BLOCK - 1 - |nonce|;
    ValueOfConcat(CounterPrefix(nonce), Zeros(w));
    ValueOfZeros(w);
  }

  lemma BlockCounterValue(macLen: int, nonce: seq<bv8>, i: nat)
    requires MacFits(macLen) && ValidNonce(nonce)
    ensures BlockCounter(macLen, nonce, i) == BigEndian(CounterNumber(nonce, PayloadOffset(macLen) + i), BLOCK)
  {
    hide PayloadCounter, FirstCounter, CounterPrefix, CounterSpace, Value, BigEndian, Product;
    PayloadCounterValue(macLen, nonce);
    FirstCounterValue(nonce);
    CounterFrom(Value(FirstCounter(nonce)), PayloadOffset(macLen), i, BLOCK);
  }

  /** As long as the count fits its field, the counter keeps flags and nonce. */
  lemma CounterKeepsNonce(macLen: int, nonce: seq<bv8>, i: nat)
    requires MacFits(macLen) && ValidNonce(nonce) && PayloadOffset(macLen) + i < CounterSpace(nonce)
    ensures BlockCounter(macLen, nonce, i)[..1 + |nonce|] == FirstCounter(nonce)[..1 + |nonce|] == CounterPrefix(nonce)
  {
    hide BlockCounter, Value, BigEndian, ToByte, Pow256;
    var p := CounterPrefix(nonce);
    BlockCounterValue(macLen, nonce, i);
    BigEndianSplit(Value(p), PayloadOffset(macLen) + i, |p|, BLOCK - |p|);
    BigEndianOfValue(p);
  }

  lemma PrefixesDiffer(nonce: seq<bv8>, nonce': seq<bv8>)
    requires ValidNonce(nonce) && ValidNonce(nonce') && nonce != nonce'
    ensures CounterPrefix(nonce)[0] != CounterPrefix(nonce')[0] || CounterPrefix(nonce) != CounterPrefix(nonce')
    ensures |nonce| != |nonce'| ==> CounterPrefix(nonce)[0] != CounterPrefix(nonce')[0]
  {
    hide ToByte;
    if |nonce| != |nonce'| {
      var x, y := (BLOCK - 1 - |nonce| - 1) % 8, (BLOCK - 1 - |nonce'| - 1) % 8;
      assert x == 14 - |nonce| && y == 14 - |nonce'|;
      if ToByte(x) == ToByte(y) {
        SmallByteInjective(x, y);
      }
    } else {
      assert CounterPrefix(nonce)[1..] == nonce && CounterPrefix(nonce')[1..] == nonce';
    }
  }

  /**
   Different nonces share no counter block, for the payload or the MAC, of whatever MAC
   lengths, as long as the counts fit their fields; the code does not limit the payload to that.
   */
  lemma NoncesShareNoCounter(macLen: int, nonce: seq<bv8>, i: nat, macLen': int, nonce': seq<bv8>, j: nat)
    requires MacFits(macLen) && ValidNonce(nonce) && PayloadOffset(macLen) + i < CounterSpace(nonce)
    requires MacFits(macLen') && ValidNonce(nonce') && PayloadOffset(macLen') + j < CounterSpace(nonce')
    requires nonce != nonce'
    ensures BlockCounter(macLen, nonce, i) != BlockCounter(macLen', nonce', j)
    ensures BlockCounter(macLen, nonce, i) != FirstCounter(nonce')
    ensures FirstCounter(nonce) != FirstCounter(nonce')
  {
    hide BlockCounter, FirstCounter, CounterPrefix, CounterSpace;
    CounterKeepsNonce(macLen, nonce, i);
    CounterKeepsNonce(macLen', nonce', j);
    PrefixesDiffer(nonce, nonce');
    var b, c := BlockCounter(macLen, nonce, i), BlockCounter(macLen', nonce', j);
    var f, g := FirstCounter(nonce), FirstCounter(nonce');
    assert b[..1 + |nonce|][0] == b[0] && c[..1 + |nonce'|][0] == c[0];
    assert f[..1 + |nonce|][0] == f[0] && g[..1 + |nonce'|][0] == g[0];
  }

  /** One block further, the payload is masked with the counter of the MAC of the next nonce. */
  lemma CounterReachesNextNonce(macLen: int, nonce: seq<bv8>, next: seq<bv8>)
    requires MacFits(macLen) && ValidNonce(nonce) && |next| == |nonce| && Value(next) == Value(nonce) + 1
    ensures CounterSpace(nonce) >= PayloadOffset(macLen)
    ensures BlockCounter(macLen, nonce, CounterSpace(nonce) - PayloadOffset(macLen)) == FirstCounter(next)
  {
    hide BlockCounter, FirstCounter, Value, BigEndian, Pow256, ToByte;
    var flags := [ToByte((BLOCK - 1 - |nonce| - 1) % 8)];
    var p, s := CounterPrefix(nonce), CounterSpace(nonce);
    BlockCounterValue(macLen, nonce, s - PayloadOffset(macLen));
    ValueOfConcat(flags, nonce);
    ValueOfConcat(flags, next);
    FirstCounterValue(next);
    NextMultiple(Value(p), s);
    BigEndianOfValue(FirstCounter(next));
  }

  lemma NextMultiple(v: nat, s: nat)
    ensures v * s + s == (v + 1) * s
  {
  }

  // ------------------------------------------------------------- sealing and opening

  /** The CBC-MAC of the formatted data under an IV of zeros, cut to the wanted length. */
  ghost function Mac(e: BlockCipher, macLen: int, nonce: seq<bv8>, assoc: seq<bv8>, payload: seq<bv8>): (m: seq<bv8>)
    requires Sound(e) && MacFits(macLen) && NonceFits(nonce)
    ensures |m| == macLen
  {
    FormatIsBlocks(|assoc|, |payload|);
    var f := Format(macLen, nonce, assoc, payload);
    CbcBlock(e, Zeros(BLOCK), f, |f| / BLOCK - 1)[..macLen]
  }

  /** The masked payload, then the masked MAC. */
  ghost function Seal(e: BlockCipher, macLen: int, nonce: seq<bv8>, assoc: seq<bv8>, payload: seq<bv8>): (c: seq<bv8>)
    requires Sound(e) && MacFits(macLen) && NonceFits(nonce)
    ensures |c| == |payload| + macLen
  {
    Ctr(e, PayloadCounter(macLen, nonce), payload) + Ctr(e, FirstCounter(nonce), Mac(e, macLen, nonce, assoc, payload))
  }

  /** The payload a ciphertext stands for, before it is known whether it is authentic. */
  ghost function Unmask(e: BlockCipher, macLen: int, nonce: seq<bv8>, c: seq<bv8>): (p: seq<bv8>)
    requires Sound(e) && MacFits(macLen) && NonceFits(nonce) && macLen <= |c|
    ensures |p| == |c| - macLen
  {
    Ctr(e, PayloadCounter(macLen, nonce), c[..|c| - macLen])
  }

  /** The check of decryption: the unmasked MAC is the MAC of the unmasked payload. */
  ghost predicate Authentic(e: BlockCipher, macLen: int, nonce: seq<bv8>, assoc: seq<bv8>, c: seq<bv8>)
    requires Sound(e) && MacFits(macLen) && NonceFits(nonce) && macLen <= |c|
  {
    Ctr(e, FirstCounter(nonce), c[|c| - macLen..]) == Mac(e, macLen, nonce, assoc, Unmask(e, macLen, nonce, c))
  }

  /** What is sealed unmasks to itself and is authentic. */
  lemma SealOpens(e: BlockCipher, macLen: int, nonce: seq<bv8>, assoc: seq<bv8>, payload: seq<bv8>)
    requires Sound(e) && MacFits(macLen) && NonceFits(nonce)
    ensures var c := Seal(e, macLen, nonce, assoc, payload);
            Unmask(e, macLen, nonce, c) == payload && Authentic(e, macLen, nonce, assoc, c)
  {
    hide Ctr, FirstCounter, PayloadCounter, Mac;
    var c := Seal(e, macLen, nonce, assoc, payload);
    var m := Mac(e, macLen, nonce, assoc, payload);
    CtrInvolution(e, PayloadCounter(macLen, nonce), payload);
    CtrInvolution(e, FirstCounter(nonce), m);
    assert c[..|payload|] == Ctr(e, PayloadCounter(macLen, nonce), payload);
    assert c[|payload|..] == Ctr(e, FirstCounter(nonce), m);
  }

  /** The authentic ciphertexts are exactly the sealed payloads. */
  lemma AuthenticIffSealed(e: BlockCipher, macLen: int, nonce: seq<bv8>, assoc: seq<bv8>, c: seq<bv8>)
    requires Sound(e) && MacFits(macLen) && NonceFits(nonce) && macLen <= |c|
    ensures Authentic(e, macLen, nonce, assoc, c) <==> c == Seal(e, macLen, nonce, assoc, Unmask(e, macLen, nonce, c))
  {
    hide Ctr, FirstCounter, PayloadCounter, Mac;
    var n := |c| - macLen;
    var p := Unmask(e, macLen, nonce, c);
    CtrInvolution(e, PayloadCounter(macLen, nonce), c[..n]);
    CtrInvolution(e, FirstCounter(nonce), c[n..]);
    assert c == c[..n] + c[n..];
    if c == Seal(e, macLen, nonce, assoc, p) {
      SealOpens(e, macLen, nonce, assoc, p);
    }
  }
}
