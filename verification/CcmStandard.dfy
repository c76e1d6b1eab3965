/**
 CCM as NIST SP 800-38C describes it, next to what the code computes: the formatting of
 Appendix A.2, and exactly when the code's format is that one; the counter blocks of
 Appendix A.3 and the generation-encryption process of section 6.1, block by block.
 */
module CcmStandard {
  import opened Arithmetic
  import opened Bytes
  import opened CipherModes
  import opened Ccm

  /** One bit for associated data, three for the MAC length, three for the size of the length field (A.2.1). */
  function StandardFlags(assocLen: nat, nonceLen: nat, macLen: int): int
    requires ValidMacLength(macLen) && 7 <= nonceLen <= 13
  {
    (if assocLen > 0 then 64 else 0) + 8 * ((macLen - 2) / 2) + (BLOCK - 1 - nonceLen - 1)
  }

  /** Flags, nonce, and the payload length in all the bytes that are left (A.2.1). */
  function StandardFirstBlock(macLen: int, nonce: seq<bv8>, assocLen: nat, payloadLen: nat): (b: seq<bv8>)
    requires ValidMacLength(macLen) && ValidNonce(nonce)
    ensures |b| == BLOCK
  {
    [ToByte(StandardFlags(assocLen, |nonce|, macLen))] + nonce + BigEndian(payloadLen, BLOCK - 1 - |nonce|)
  }

  /** Nothing for no data; otherwise length, data, and as few zeros as fill blocks (A.2.2). */
  function StandardAssoc(assoc: seq<bv8>): (b: seq<bv8>)
    ensures |b| == if assoc == [] then 0 else 2 + |assoc| + PayloadPadding(2 + |assoc|)
  {
    if assoc == [] then [] else BigEndian(|assoc|, 2) + assoc + Zeros(PayloadPadding(2 + |assoc|))
  }

  /** First block, associated data, and the payload with as few zeros as fill blocks (A.2.3). */
  function Standard(macLen: int, nonce: seq<bv8>, assoc: seq<bv8>, payload: seq<bv8>): seq<bv8>
    requires ValidMacLength(macLen) && ValidNonce(nonce)
  {
    StandardFirstBlock(macLen, nonce, |assoc|, |payload|) + StandardAssoc(assoc) + PayloadPart(payload)
  }

  lemma FlagsAgree(assocLen: nat, n: nat, macLen: int)
    requires ValidMacLength(macLen) && 7 <= n <= 13
    ensures Flags(assocLen, BLOCK - 1 - n, macLen) == StandardFlags(assocLen, n, macLen)
  {
  }

  /** The code's first block, with the two bytes of the length in their place. */
  lemma FirstBlockShape(macLen: int, nonce: seq<bv8>, assocLen: nat, payloadLen: nat)
    requires ValidNonce(nonce)
    ensures FirstBlock(macLen, nonce, assocLen, payloadLen)
         == [ToByte(Flags(assocLen, BLOCK - 1 - |nonce|, macLen))] + nonce
            + (Zeros(13 - |nonce|) + [ToByte(payloadLen / 0x100), ToByte(payloadLen)])
  {
    hide ToByte, Flags;
  }

  /** The length field holds two zero-extended bytes exactly if the length fits them. */
  lemma LengthField(payloadLen: nat, q: nat)
    requires q >= 2 && payloadLen < Pow256(q)
    ensures BigEndian(payloadLen, q) == Zeros(q - 2) + [ToByte(payloadLen / 0x100), ToByte(payloadLen)]
       <==> payloadLen < 0x1_0000
  {
    hide ToByte, BigEndian, Zeros;
    TwoDigits(payloadLen, q - 2);
    HighPart(payloadLen, q - 2);
    AllZeros(payloadLen / 0x1_0000, q - 2);
    var high, zeros := BigEndian(payloadLen / 0x1_0000, q - 2), Zeros(q - 2);
    var low := [ToByte(payloadLen / 0x100), ToByte(payloadLen)];
    assert (high + low)[..q - 2] == high && (zeros + low)[..q - 2] == zeros;
  }

  lemma HighPart(v: nat, n: nat)
    requires v < Pow256(n + 2)
    ensures v / 0x1_0000 < Pow256(n)
  {
    assert Pow256(n + 2) == 0x1_0000 * Pow256(n);
  }

  lemma FirstBlocksAgree(macLen: int, nonce: seq<bv8>, assocLen: nat, payloadLen: nat)
    requires ValidMacLength(macLen) && ValidNonce(nonce) && payloadLen < Pow256(BLOCK - 1 - |nonce|)
    ensures FirstBlock(macLen, nonce, assocLen, payloadLen) == StandardFirstBlock(macLen, nonce, assocLen, payloadLen)
       <==> payloadLen < 0x1_0000
  {
    hide ToByte, BigEndian, Zeros, Flags, StandardFlags, FirstBlock, Pow256;
    var q := BLOCK - 1 - |nonce|;
    FlagsAgree(assocLen, |nonce|, macLen);
    FirstBlockShape(macLen, nonce, assocLen, payloadLen);
    LengthField(payloadLen, q);
    var head := [ToByte(StandardFlags(assocLen, |nonce|, macLen))] + nonce;
    var ours := Zeros(q - 2) + [ToByte(payloadLen / 0x100), ToByte(payloadLen)];
    var theirs := BigEndian(payloadLen, q);
    assert (head + ours)[|head|..] == ours && (head + theirs)[|head|..] == theirs;
  }

  lemma PaddingsAgree(n: nat)
    ensures AssocPadding(n) == PayloadPadding(2 + n) + if (n + 2) % BLOCK == 0 then BLOCK else 0
    ensures AssocPadding(0) == BLOCK - 2
  {
  }

  lemma TwoByteLength(n: nat)
    ensures BigEndian(n, 2) == [ToByte(n / 0x100), ToByte(n)]
  {
    hide ToByte, BigEndian;
    TwoDigits(n, 0);
    NoDigits(n / 0x1_0000);
  }

  lemma AssocPartsAgree(assoc: seq<bv8>)
    requires assoc != [] && (|assoc| + 2) % BLOCK != 0
    ensures AssocPart(assoc) == StandardAssoc(assoc)
  {
    hide ToByte, BigEndian, Zeros, AssocPadding, PayloadPadding;
    PaddingsAgree(|assoc|);
    TwoByteLength(|assoc|);
  }

  lemma AssocPartLonger(assoc: seq<bv8>)
    requires assoc == [] || (|assoc| + 2) % BLOCK == 0
    ensures |AssocPart(assoc)| == |StandardAssoc(assoc)| + BLOCK
  {
    hide AssocPart, StandardAssoc, AssocPadding, PayloadPadding;
    PaddingsAgree(|assoc|);
  }

  /**
   For every input that section A.2 provides for, the code's format is the standard's if and
   only if there are associated data, these do not fill whole blocks together with their
   length, and the payload has fewer than 65536 bytes.
   */
  lemma StandardExactly(macLen: int, nonce: seq<bv8>, assoc: seq<bv8>, payload: seq<bv8>)
    requires ValidMacLength(macLen) && ValidNonce(nonce)
    requires |assoc| < 0xFF00 && |payload| < Pow256(BLOCK - 1 - |nonce|)
    ensures Format(macLen, nonce, assoc, payload) == Standard(macLen, nonce, assoc, payload)
       <==> assoc != [] && (|assoc| + 2) % BLOCK != 0 && |payload| < 0x1_0000
  {
    hide FirstBlock, StandardFirstBlock, AssocPart, StandardAssoc, PayloadPart, FormatLength, Pow256;
    FirstBlocksAgree(macLen, nonce, |assoc|, |payload|);
    if assoc != [] && (|assoc| + 2) % BLOCK != 0 {
      AssocPartsAgree(assoc);
    } else {
      AssocPartLonger(assoc);
    }
    var b, c := FirstBlock(macLen, nonce, |assoc|, |payload|), StandardFirstBlock(macLen, nonce, |assoc|, |payload|);
    var f, g := Format(macLen, nonce, assoc, payload), Standard(macLen, nonce, assoc, payload);
    assert |f| - |g| == |AssocPart(assoc)| - |StandardAssoc(assoc)|;
    assert f[..BLOCK] == b && g[..BLOCK] == c;
  }

  /** Without associated data the formats always differ. */
  lemma NoAssocDiffers(macLen: int, nonce: seq<bv8>, payload: seq<bv8>)
    requires ValidMacLength(macLen) && ValidNonce(nonce) && |payload| < Pow256(BLOCK - 1 - |nonce|)
    ensures Format(macLen, nonce, [], payload) != Standard(macLen, nonce, [], payload)
  {
    hide Format, Standard, Pow256;
    StandardExactly(macLen, nonce, [], payload);
  }

  /** The code's format for every input, field by field. */
  lemma FormatLayout(macLen: int, nonce: seq<bv8>, assoc: seq<bv8>, payload: seq<bv8>) returns (p: nat, r: nat)
    requires ValidMacLength(macLen) && ValidNonce(nonce)
    ensures 1 <= p <= 16 && (2 + |assoc| + p) % 16 == 0 && r < 16 && (|payload| + r) % 16 == 0
    ensures Format(macLen, nonce, assoc, payload)
         == [ToByte((if assoc != [] then 64 else 0) + 8 * ((macLen - 2) / 2) + (14 - |nonce|))] + nonce
            + Zeros(13 - |nonce|) + BigEndian(|payload|, 2)
            + BigEndian(|assoc|, 2) + assoc + Zeros(p) + payload + Zeros(r)
  {
    hide ToByte, BigEndian, Zeros, Flags, FirstBlock, FormatLength, AssocPadding, PayloadPadding;
    p, r := AssocPadding(|assoc|), PayloadPadding(|payload|);
    FlagsAgree(|assoc|, |nonce|, macLen);
    FirstBlockShape(macLen, nonce, |assoc|, |payload|);
    TwoByteLength(|payload|);
    TwoByteLength(|assoc|);
  }

  // ------------------------------------------------------------- section 6.1

  /** Counter block `i`: flags, nonce, and `i` in all the bytes that are left (A.3). */
  function CounterBlock(nonce: seq<bv8>, i: nat): (b: seq<bv8>)
    requires ValidNonce(nonce)
    ensures |b| == 16
  {
    [ToByte(14 - |nonce|)] + nonce + BigEndian(i, 15 - |nonce|)
  }

  /** The blocks Y of the MAC over the blocks B: Y(0) = E(B(0)), Y(i) = E(B(i) + Y(i-1)). */
  ghost predicate MacBlocks(e: BlockCipher, b: seq<bv8>, y: seq<seq<bv8>>) {
    && |y| > 0 && 16 * |y| == |b| && (forall i | 0 <= i < |y| :: |y[i]| == 16)
    && y[0] == e.encrypt(b[0..16])
    && forall i | 0 < i < |y| :: y[i] == e.encrypt(XorBytes(b[16 * i..16 * i + 16], y[i - 1]))
  }

  /** The number of the counter block that masks the first payload block: 1, but 0 for MACs of 15 and 16 bytes. */
  function FirstNumber(macLen: int): nat {
    if macLen >= 15 then 0 else 1
  }

  /** Byte `i` of the payload is masked with byte i % 16 of the block of number i / 16. */
  ghost predicate PayloadMasked(e: BlockCipher, macLen: nat, nonce: seq<bv8>, payload: seq<bv8>, c: seq<bv8>)
    requires Sound(e) && ValidNonce(nonce) && |payload| <= |c|
  {
    forall i | 0 <= i < |payload| ::
      c[i] == Xor(payload[i], e.encrypt(CounterBlock(nonce, FirstNumber(macLen) + i / 16))[i % 16])
  }

  /** The MAC, cut from the block `last`, is masked with counter block 0. */
  ghost predicate MacMasked(e: BlockCipher, nonce: seq<bv8>, last: seq<bv8>, m: seq<bv8>)
    requires Sound(e) && ValidNonce(nonce) && |m| <= 16 == |last|
  {
    forall j | 0 <= j < |m| :: m[j] == Xor(last[j], e.encrypt(CounterBlock(nonce, 0))[j])
  }

  /** `c` is the masked payload, and then the masked MAC of the formatted data. */
  ghost predicate EncryptsTo(e: BlockCipher, macLen: nat, nonce: seq<bv8>, assoc: seq<bv8>, payload: seq<bv8>,
                             c: seq<bv8>)
    requires Sound(e) && macLen <= 16 && ValidNonce(nonce)
  {
    && |c| == |payload| + macLen
    && PayloadMasked(e, macLen, nonce, payload, c)
    && exists y :: MacBlocks(e, Format(macLen, nonce, assoc, payload), y)
                   && MacMasked(e, nonce, y[|y| - 1], c[|payload|..])
  }

  /** The counter blocks of the payload are counted in their field without overflow. */
  predicate CountersFit(macLen: nat, nonce: seq<bv8>, payloadLen: nat)
    requires ValidNonce(nonce)
  {
    FirstNumber(macLen) + payloadLen / 16 < Pow256(15 - |nonce|)
  }

  lemma NumberOfCounter(nonce: seq<bv8>, i: nat)
    requires ValidNonce(nonce) && i < Pow256(15 - |nonce|)
    ensures BigEndian(CounterNumber(nonce, i), BLOCK) == CounterBlock(nonce, i)
  {
    hide Value, BigEndian, ToByte, Pow256;
    var p := CounterPrefix(nonce);
    assert p == [ToByte(14 - |nonce|)] + nonce;
    BigEndianSplit(Value(p), i, |p|, BLOCK - |p|);
    BigEndianOfValue(p);
  }

  lemma FirstCounterIsBlockZero(nonce: seq<bv8>)
    requires ValidNonce(nonce)
    ensures FirstCounter(nonce) == CounterBlock(nonce, 0)
  {
    hide BigEndian, ToByte, Zeros;
    ZeroDigits(15 - |nonce|);
  }

  /** The mask of payload byte `i`. */
  lemma PayloadMask(e: BlockCipher, macLen: nat, nonce: seq<bv8>, i: nat)
    requires Sound(e) && macLen <= 16 && ValidNonce(nonce) && FirstNumber(macLen) + i / 16 < Pow256(15 - |nonce|)
    ensures MaskByte(e, Value(PayloadCounter(macLen, nonce)), i)
         == e.encrypt(CounterBlock(nonce, FirstNumber(macLen) + i / 16))[i % 16]
  {
    hide Sound, PayloadCounter, CounterBlock, CounterNumber, Value, BigEndian, Pow256;
    BlockCounterValue(macLen, nonce, i / 16);
    NumberOfCounter(nonce, FirstNumber(macLen) + i / 16);
  }

  /** The mask of MAC byte `j`. */
  lemma MacMask(e: BlockCipher, nonce: seq<bv8>, j: nat)
    requires Sound(e) && ValidNonce(nonce) && j < 16
    ensures MaskByte(e, Value(FirstCounter(nonce)), j) == e.encrypt(CounterBlock(nonce, 0))[j]
  {
    hide Sound, FirstCounter, CounterBlock, Value, BigEndian;
    FirstCounterIsBlockZero(nonce);
    BigEndianOfValue(FirstCounter(nonce));
    assert j / BLOCK == 0 && j % BLOCK == j;
  }

  lemma XorZeros(b: seq<bv8>)
    requires |b| == BLOCK
    ensures XorBytes(b, Zeros(BLOCK)) == b
  {
    forall i | 0 <= i < BLOCK ensures XorBytes(b, Zeros(BLOCK))[i] == b[i] {
      XorZero(b[i]);
    }
  }

  /** The blocks of the MAC are those of CBC under an IV of zeros. */
  lemma {:induction false} MacBlocksAreCbc(e: BlockCipher, b: seq<bv8>, y: seq<seq<bv8>>, i: nat)
    requires Sound(e) && MacBlocks(e, b, y) && i < |y|
    ensures y[i] == CbcBlock(e, Zeros(BLOCK), b, i)
  {
    hide Sound, XorBytes;
    if i > 0 {
      MacBlocksAreCbc(e, b, y, i - 1);
    } else {
      XorZeros(b[0..16]);
    }
  }

  lemma CbcIsMacBlocks(e: BlockCipher, b: seq<bv8>)
    requires Sound(e) && b != [] && |b| % BLOCK == 0
    ensures MacBlocks(e, b, CbcBlocks(e, Zeros(BLOCK), b))
  {
    hide Sound, XorBytes;
    var y := CbcBlocks(e, Zeros(BLOCK), b);
    XorZeros(b[0..16]);
    CbcBlockStep(e, Zeros(BLOCK), b, 0);
    forall i | 0 < i < |y| ensures y[i] == e.encrypt(XorBytes(b[16 * i..16 * i + 16], y[i - 1])) {
      CbcBlockStep(e, Zeros(BLOCK), b, i);
    }
  }

  /** The MAC is the first bytes of the last block. */
  lemma MacIsLastBlock(e: BlockCipher, macLen: nat, nonce: seq<bv8>, assoc: seq<bv8>, payload: seq<bv8>,
                       y: seq<seq<bv8>>)
    requires Sound(e) && macLen <= 16 && ValidNonce(nonce)
    requires MacBlocks(e, Format(macLen, nonce, assoc, payload), y)
    ensures |Format(macLen, nonce, assoc, payload)| / BLOCK == |y|
    ensures Mac(e, macLen, nonce, assoc, payload) == y[|y| - 1][..macLen]
  {
    hide Sound, Format, CbcBlock;
    MacBlocksAreCbc(e, Format(macLen, nonce, assoc, payload), y, |y| - 1);
  }

  lemma PayloadMaskedExactly(e: BlockCipher, macLen: nat, nonce: seq<bv8>, payload: seq<bv8>, c: seq<bv8>)
    requires Sound(e) && macLen <= 16 && ValidNonce(nonce) && CountersFit(macLen, nonce, |payload|)
    requires |payload| <= |c|
    ensures c[..|payload|] == Ctr(e, PayloadCounter(macLen, nonce), payload)
       <==> PayloadMasked(e, macLen, nonce, payload, c)
  {
    hide PayloadCounter, CounterBlock, Value, Pow256, MaskByte, Xor;
    var s := Ctr(e, PayloadCounter(macLen, nonce), payload);
    forall i | 0 <= i < |payload|
      ensures s[i] == Xor(payload[i], e.encrypt(CounterBlock(nonce, FirstNumber(macLen) + i / 16))[i % 16])
    {
      PayloadMask(e, macLen, nonce, i);
    }
    if PayloadMasked(e, macLen, nonce, payload, c) {
      assert forall i | 0 <= i < |payload| :: c[..|payload|][i] == s[i];
    }
  }

  lemma MacMaskedExactly(e: BlockCipher, nonce: seq<bv8>, last: seq<bv8>, m: seq<bv8>)
    requires Sound(e) && ValidNonce(nonce) && |m| <= 16 == |last|
    ensures m == Ctr(e, FirstCounter(nonce), last[..|m|]) <==> MacMasked(e, nonce, last, m)
  {
    hide FirstCounter, CounterBlock, Value, MaskByte, Xor;
    var s := Ctr(e, FirstCounter(nonce), last[..|m|]);
    forall j | 0 <= j < |m| ensures s[j] == Xor(last[j], e.encrypt(CounterBlock(nonce, 0))[j]) {
      MacMask(e, nonce, j);
    }
    if MacMasked(e, nonce, last, m) {
      assert forall j | 0 <= j < |m| :: m[j] == s[j];
    }
  }

  /** Sealing is the process of section 6.1 over the code's format, and nothing else is. */
  lemma SealExactly(e: BlockCipher, macLen: nat, nonce: seq<bv8>, assoc: seq<bv8>, payload: seq<bv8>, c: seq<bv8>)
    requires Sound(e) && macLen <= 16 && ValidNonce(nonce) && CountersFit(macLen, nonce, |payload|)
    ensures c == Seal(e, macLen, nonce, assoc, payload) <==> EncryptsTo(e, macLen, nonce, assoc, payload, c)
  {
    hide Sound, Format, Mac, Ctr, CbcBlock, PayloadMasked, MacMasked, FirstCounter, PayloadCounter, CountersFit;
    var f, n := Format(macLen, nonce, assoc, payload), |payload|;
    FormatIsBlocks(|assoc|, n);
    CbcIsMacBlocks(e, f);
    if |c| == n + macLen {
      PayloadMaskedExactly(e, macLen, nonce, payload, c);
      assert c == c[..n] + c[n..];
      forall y | MacBlocks(e, f, y)
        ensures c[n..] == Ctr(e, FirstCounter(nonce), Mac(e, macLen, nonce, assoc, payload))
           <==> MacMasked(e, nonce, y[|y| - 1], c[n..])
      {
        MacIsLastBlock(e, macLen, nonce, assoc, payload, y);
        MacMaskedExactly(e, nonce, y[|y| - 1], c[n..]);
      }
      if c == Seal(e, macLen, nonce, assoc, payload) {
        assert c[..n] == Ctr(e, PayloadCounter(macLen, nonce), payload);
        assert c[n..] == Ctr(e, FirstCounter(nonce), Mac(e, macLen, nonce, assoc, payload));
      }
    }
  }

  /** Authentic are exactly the encryptions of what the ciphertext unmasks to. */
  lemma AuthenticExactly(e: BlockCipher, macLen: nat, nonce: seq<bv8>, assoc: seq<bv8>, c: seq<bv8>)
    requires Sound(e) && macLen <= |c| && macLen <= 16 && ValidNonce(nonce) && CountersFit(macLen, nonce, |c| - macLen)
    ensures Authentic(e, macLen, nonce, assoc, c)
       <==> EncryptsTo(e, macLen, nonce, assoc, Unmask(e, macLen, nonce, c), c)
  {
    hide Sound, Authentic, Seal, Unmask, EncryptsTo, CountersFit;
    AuthenticIffSealed(e, macLen, nonce, assoc, c);
    SealExactly(e, macLen, nonce, assoc, Unmask(e, macLen, nonce, c), c);
  }
}
