/**
 CCM over AES: formatting into a scratch buffer, the CBC-MAC of it, and the two CTR
 passes over the output, in place. The ghost argument `e` is AES under the expanded key.
 */
module AesCcm {
  import opened Arithmetic
  import opened Bytes
  import opened CipherModes
  import opened Ccm
  import opened AesModes
  import Standard = CcmStandard
  import AesStandard
  import KeySchedule

  /** `e` is AES under the key that expands from these bytes. */
  ghost predicate IsAesUnder(e: BlockCipher, keyBytes: seq<bv8>, keysize: int) {
    && Aes.ValidKeySize(keysize) && |keyBytes| == keysize / 8
    && IsAes(e, Key(KeySchedule.Schedule(keyBytes, keysize), keysize))
  }

  /** On every block such a cipher is AES under the key, byte by byte as FIPS 197 has it. */
  lemma UnderKeyIsAes(e: BlockCipher, keyBytes: seq<bv8>, keysize: int, b: seq<bv8>)
    requires IsAesUnder(e, keyBytes, keysize) && |b| == 16
    ensures e.encrypt(b) == AesStandard.Encrypt(b, keyBytes, keysize / 32)
  {
    hide KeySchedule.Schedule, AesStandard.Encrypt, Aes.EncryptBlock, Aes.DecryptBlock;
    AesStandard.EncryptIsStandard(b, keyBytes, keysize);
  }

  // ------------------------------------------------------------- formatting

  method PutBytes(buf: array<bv8>, d: nat, s: seq<bv8>)
    requires d + |s| <= buf.Length
    modifies buf
    ensures buf[..] == Splice(old(buf[..]), d, s)
  {
    for i := 0 to |s|
      invariant forall j | 0 <= j < buf.Length :: buf[j] == if d <= j < d + i then s[j - d] else old(buf[j])
    {
      buf[d + i] := s[i];
    }
    SpliceByPoints(old(buf[..]), d, s, buf[..]);
  }

  method CcmPrepareFirstCtrBlk(counter: array<bv8>, nonce: seq<bv8>, storeSize: int)
    requires counter.Length == BLOCK && NonceFits(nonce) && storeSize == BLOCK - 1 - |nonce|
    modifies counter
    ensures counter[..] == FirstCounter(nonce)
  {
    hide ToByte;
    PutBytes(counter, 0, Zeros(BLOCK));
    counter[0] := ToByte((storeSize - 1) % 8);
    PutBytes(counter, 1, nonce);
  }

  /** The flags byte, the nonce, and zeros up to the end of a block. */
  method StartBlock(buf: array<bv8>, flags: bv8, nonce: seq<bv8>)
    requires buf.Length >= BLOCK && NonceFits(nonce)
    modifies buf
    ensures buf[..] == Splice(old(buf[..]), 0, [flags] + nonce + Zeros(BLOCK - 1 - |nonce|))
  {
    ghost var before := buf[..];
    buf[0] := flags;
    assert buf[..] == Splice(before, 0, [flags]);
    PutBytes(buf, 1, nonce);
    PutBytes(buf, 1 + |nonce|, Zeros(BLOCK - 1 - |nonce|));
    SpliceTwice(before, 0, [flags], nonce);
    SpliceTwice(before, 0, [flags] + nonce, Zeros(BLOCK - 1 - |nonce|));
  }

  method CcmPrepareFirstFormatBlk(buf: array<bv8>, assocLen: nat, payloadLen: nat, storeSize: int, macLen: int,
                                  nonce: seq<bv8>)
    requires buf.Length >= BLOCK && NonceFits(nonce) && storeSize == BLOCK - 1 - |nonce|
    modifies buf
    ensures buf[..] == Splice(old(buf[..]), 0, FirstBlock(macLen, nonce, assocLen, payloadLen))
  {
    hide ToByte;
    var flags := HalfOf(macLen - 2) % 8 * 8 + (storeSize - 1) % 8;
    if assocLen > 0 {
      flags := flags + 0x40;
    }
    assert flags == Flags(assocLen, storeSize, macLen);
    StartBlock(buf, ToByte(flags), nonce);
    buf[15] := ToByte(payloadLen);
    buf[14] := ToByte(payloadLen / 256);
    LengthAtEnd(old(buf[..]), ToByte(flags), nonce, ToByte(payloadLen / 256), ToByte(payloadLen));
  }

  lemma LengthAtEnd(s: seq<bv8>, flags: bv8, nonce: seq<bv8>, high: bv8, low: bv8)
    requires |s| >= BLOCK && NonceFits(nonce)
    ensures var b := [flags] + nonce + Zeros(BLOCK - 1 - |nonce|);
            Splice(s, 0, b)[15 := low][14 := high] == Splice(s, 0, b[14 := high][15 := low])
  {
    hide Zeros;
  }

  method CcmFormatAssocData(buf: array<bv8>, endOfBuf: nat, assoc: seq<bv8>) returns (end: nat)
    requires endOfBuf % BLOCK == 0 && endOfBuf + |AssocPart(assoc)| <= buf.Length
    modifies buf
    ensures buf[..] == Splice(old(buf[..]), endOfBuf, AssocPart(assoc))
    ensures end == endOfBuf + |AssocPart(assoc)|
  {
    hide ToByte, Splice, AssocPadding;
    end := endOfBuf;
    ghost var before := buf[..];
    ghost var size := [ToByte(|assoc| / 256), ToByte(|assoc|)];
    PutLength(buf, end, ToByte(|assoc| / 256), ToByte(|assoc|));
    end := end + 2;
    PutBytes(buf, end, assoc);
    SpliceTwice(before, endOfBuf, size, assoc);
    end := end + |assoc|;
    var pad := BLOCK - end % BLOCK;
    PadOfAssoc(endOfBuf, |assoc|);
    PutBytes(buf, end, Zeros(pad));
    SpliceTwice(before, endOfBuf, size + assoc, Zeros(pad));
    end := end + pad;
  }

  method PutLength(buf: array<bv8>, end: nat, high: bv8, low: bv8)
    requires end + 2 <= buf.Length
    modifies buf
    ensures buf[..] == Splice(old(buf[..]), end, [high, low])
  {
    buf[end + 1] := low;
    buf[end] := high;
  }

  lemma PadOfAssoc(from: nat, len: nat)
    requires from % BLOCK == 0
    ensures BLOCK - (from + 2 + len) % BLOCK == AssocPadding(len)
  {
    AlignedRemainder(from, 2 + len);
  }

  lemma AlignedRemainder(from: nat, n: nat)
    requires from % BLOCK == 0
    ensures (from + n) % BLOCK == n % BLOCK
  {
    ModuloOfSum(from, n, BLOCK);
  }

  lemma PadOfPayload(from: nat, len: nat)
    requires from % BLOCK == 0
    ensures var pad := (from + len) % BLOCK; PayloadPadding(len) == if pad != 0 then BLOCK - pad else 0
  {
    AlignedRemainder(from, len);
  }

  method CcmFormatPayloadData(buf: array<bv8>, endOfBuf: nat, payload: seq<bv8>) returns (end: nat)
    requires endOfBuf % BLOCK == 0 && endOfBuf + |PayloadPart(payload)| <= buf.Length
    modifies buf
    ensures buf[..] == Splice(old(buf[..]), endOfBuf, PayloadPart(payload))
    ensures end == endOfBuf + |PayloadPart(payload)|
  {
    hide Splice, PayloadPadding;
    end := endOfBuf;
    PutBytes(buf, end, payload);
    end := end + |payload|;
    PadOfPayload(endOfBuf, |payload|);
    var pad := end % BLOCK;
    if pad != 0 {
      pad := BLOCK - pad;
    }
    PutBytes(buf, end, Zeros(pad));
    SpliceTwice(old(buf[..]), endOfBuf, payload, Zeros(pad));
    end := end + pad;
  }

  // ------------------------------------------------------------- MAC

  lemma FormatAssembled(s: seq<bv8>, macLen: int, nonce: seq<bv8>, assoc: seq<bv8>, payload: seq<bv8>)
    requires NonceFits(nonce) && FormatLength(|assoc|, |payload|) <= |s|
    ensures var b := FirstBlock(macLen, nonce, |assoc|, |payload|); var a := AssocPart(assoc);
            Splice(Splice(Splice(s, 0, b), BLOCK, a), BLOCK + |a|, PayloadPart(payload))
              == Splice(s, 0, Format(macLen, nonce, assoc, payload))
  {
    hide Splice, FirstBlock, AssocPart, PayloadPart, AssocPadding, PayloadPadding;
    var b, a := FirstBlock(macLen, nonce, |assoc|, |payload|), AssocPart(assoc);
    SpliceTwice(s, 0, b, a);
    SpliceTwice(s, 0, b + a, PayloadPart(payload));
  }

  /** The scratch buffer for the formatted data; 49 bytes more than the data always suffice. */
  method FormatForMac(macLen: int, nonce: seq<bv8>, assoc: seq<bv8>, payload: seq<bv8>)
    returns (buf: array<bv8>, end: nat)
    requires NonceFits(nonce)
    ensures fresh(buf) && end <= buf.Length && buf[..end] == Format(macLen, nonce, assoc, payload)
  {
    hide Splice, FirstBlock, AssocPart, PayloadPart, AssocPadding, PayloadPadding, Format;
    FormatFits(|assoc|, |payload|);
    buf := new bv8[|payload| + |assoc| + 49];
    ghost var before := buf[..];
    CcmPrepareFirstFormatBlk(buf, |assoc|, |payload|, BLOCK - 1 - |nonce|, macLen, nonce);
    end := BLOCK;
    end := CcmFormatAssocData(buf, end, assoc);
    AssocAligned(assoc);
    end := CcmFormatPayloadData(buf, end, payload);
    FormatAssembled(before, macLen, nonce, assoc, payload);
    SplicedFront(before, Format(macLen, nonce, assoc, payload));
  }

  lemma AssocAligned(assoc: seq<bv8>)
    ensures (BLOCK + |AssocPart(assoc)|) % BLOCK == 0
  {
    hide ToByte;
  }

  /** The CBC-MAC of the formatted data under an IV of zeros. */
  method ComputeMac(mac: array<bv8>, macLen: int, nonce: seq<bv8>, assoc: seq<bv8>, payload: seq<bv8>, k: Key,
                    ghost e: BlockCipher)
    requires mac.Length == BLOCK && MacFits(macLen) && NonceFits(nonce)
    requires Sound(e) && IsAes(e, k)
    modifies mac
    ensures mac[..macLen] == Mac(e, macLen, nonce, assoc, payload)
  {
    hide IsAes, Sound, Format, CbcBlock, FormatLength;
    var buf, end := FormatForMac(macLen, nonce, assoc, payload);
    FormatIsBlocks(|assoc|, |payload|);
    var ok := AesEncryptCbcMac(buf, end, mac, k, Zeros(BLOCK), e);
    assert mac[..macLen] == mac[..BLOCK][..macLen];
  }

  /** The counter block the payload starts with, stepped from the first one. */
  method PreparePayloadCounter(tempIv: array<bv8>, macLen: int, nonce: seq<bv8>)
    requires tempIv.Length == BLOCK && MacFits(macLen) && NonceFits(nonce)
    requires tempIv[..] == FirstCounter(nonce)
    modifies tempIv
    ensures tempIv[..] == PayloadCounter(macLen, nonce)
  {
    hide Value, BigEndian, FirstCounter;
    var size := BLOCK - 1 - macLen;
    IncrementIv(tempIv, size);
    if size > 0 {
      assert tempIv[..] == tempIv[..BLOCK - size] + tempIv[BLOCK - size..];
    }
  }

  // ------------------------------------------------------------- (En/De)Crypt

  /** The expanded key, without the unused words of the buffer of 60. */
  method ExpandKey(keyBytes: seq<bv8>, keysize: int) returns (k: Key)
    requires Aes.ValidKeySize(keysize) && |keyBytes| == keysize / 8
    ensures k == Key(KeySchedule.Schedule(keyBytes, keysize), keysize)
  {
    hide KeySchedule.Schedule;
    var w := new bv32[60];
    KeySchedule.AesKeySetup(keyBytes, w, keysize);
    k := Key(w[..KeySchedule.ScheduleWords(keysize)], keysize);
  }

  /** The two CTR passes over the output: the payload, then the MAC behind it. */
  method MaskOutput(output: array<bv8>, payloadLen: nat, macLen: nat, payloadIv: seq<bv8>, macIv: seq<bv8>, k: Key,
                    ghost e: BlockCipher, ghost before: seq<bv8>, ghost payload: seq<bv8>, ghost m: seq<bv8>)
    requires Sound(e) && IsAes(e, k) && |payloadIv| == |macIv| == BLOCK
    requires |payload| == payloadLen && |m| == macLen && payloadLen + macLen <= |before|
    requires output[..] == Splice(before, 0, payload + m)
    modifies output
    ensures output[..] == Splice(before, 0, Ctr(e, payloadIv, payload) + Ctr(e, macIv, m))
  {
    hide IsAes, Sound, Splice, Ctr;
    SplicedParts(before, payload, m);
    AesEncryptCtr(output, 0, payloadLen, output, 0, k, payloadIv, e);
    ghost var masked := Ctr(e, payloadIv, payload);
    SpliceOverFirst(before, payload, m, masked);
    SplicedParts(before, masked, m);
    AesEncryptCtr(output, payloadLen, macLen, output, payloadLen, k, macIv, e);
    SpliceOverSecond(before, masked, m, Ctr(e, macIv, m));
  }

  method PutPayloadAndMac(output: array<bv8>, payload: seq<bv8>, mac: array<bv8>, macLen: nat)
    requires mac != output && macLen <= mac.Length && |payload| + macLen <= output.Length
    modifies output
    ensures output[..] == Splice(old(output[..]), 0, payload + mac[..macLen])
  {
    hide Splice;
    PutBytes(output, 0, payload);
    assert mac[0..macLen] == mac[..macLen];
    CopyBytes(mac, 0, output, |payload|, macLen);
    SpliceTwice(old(output[..]), 0, payload, mac[..macLen]);
  }

  method AesEncryptCcm(payload: seq<bv8>, assoc: seq<bv8>, nonce: seq<bv8>, output: array<bv8>, macLen: int,
                       keyBytes: seq<bv8>, keysize: int, ghost e: BlockCipher)
    returns (ok: bool, outLen: nat)
    requires Sound(e) && IsAesUnder(e, keyBytes, keysize)
    requires ValidMacLength(macLen) ==> |payload| + macLen <= output.Length
    modifies output
    ensures ok == (ValidMacLength(macLen) && ValidNonce(nonce) && |assoc| <= 32768)
    ensures ok <==> macLen in {4, 6, 8, 10, 12, 14, 16} && |nonce| in {7, 8, 9, 10, 11, 12, 13} && |assoc| <= 0x8000
    ensures !ok ==> output[..] == old(output[..])
    ensures ok ==> outLen == |payload| + macLen
    ensures ok ==> output[..] == Splice(old(output[..]), 0, Seal(e, macLen, nonce, assoc, payload))
    ensures ok && Standard.CountersFit(macLen, nonce, |payload|) ==>
              Standard.EncryptsTo(e, macLen, nonce, assoc, payload, output[..outLen])
  {
    hide IsAes, Sound, Splice, Ctr, Mac, FirstCounter, PayloadCounter, Standard.EncryptsTo, Standard.CountersFit, Seal;
    outLen := 0;
    if macLen != 4 && macLen != 6 && macLen != 8 && macLen != 10 && macLen != 12 && macLen != 14 && macLen != 16 {
      return false, outLen;
    }
    if |nonce| < 7 || |nonce| > 13 {
      return false, outLen;
    }
    if |assoc| > 32768 {
      return false, outLen;
    }
    ghost var before := output[..];
    var k := ExpandKey(keyBytes, keysize);
    var counter, tempIv, mac := new bv8[BLOCK], new bv8[BLOCK], new bv8[BLOCK];
    CcmPrepareFirstCtrBlk(counter, nonce, BLOCK - 1 - |nonce|);
    ComputeMac(mac, macLen, nonce, assoc, payload, k, e);
    ghost var m := mac[..macLen];

    PutPayloadAndMac(output, payload, mac, macLen);
    CopyBlock(counter, tempIv);
    PreparePayloadCounter(tempIv, macLen, nonce);
    MaskOutput(output, |payload|, macLen, tempIv[..], counter[..], k, e, before, payload, m);
    outLen := |payload| + macLen;
    SealedOutput(e, macLen, nonce, assoc, payload, before);
    return true, outLen;
  }

  /** What the two passes leave at the front of the output is the sealed payload. */
  lemma SealedOutput(e: BlockCipher, macLen: int, nonce: seq<bv8>, assoc: seq<bv8>, payload: seq<bv8>,
                     before: seq<bv8>)
    requires Sound(e) && MacFits(macLen) && ValidNonce(nonce) && |payload| + macLen <= |before|
    ensures Ctr(e, PayloadCounter(macLen, nonce), payload)
            + Ctr(e, FirstCounter(nonce), Mac(e, macLen, nonce, assoc, payload))
         == Seal(e, macLen, nonce, assoc, payload)
    ensures Standard.CountersFit(macLen, nonce, |payload|) ==>
              Standard.EncryptsTo(e, macLen, nonce, assoc, payload,
                Splice(before, 0, Seal(e, macLen, nonce, assoc, payload))[..|payload| + macLen])
  {
    hide Sound, Splice, Ctr, Mac, FirstCounter, PayloadCounter, Standard.EncryptsTo, Standard.CountersFit;
    SplicedFront(before, Seal(e, macLen, nonce, assoc, payload));
    if Standard.CountersFit(macLen, nonce, |payload|) {
      Standard.SealExactly(e, macLen, nonce, assoc, payload, Seal(e, macLen, nonce, assoc, payload));
    }
  }

  lemma SplicedParts(s: seq<bv8>, a: seq<bv8>, b: seq<bv8>)
    requires |a| + |b| <= |s|
    ensures var r := Splice(s, 0, a + b); r[0..|a|] == a && r[|a|..|a| + |b|] == b
  {
  }

  lemma SpliceOverFirst(s: seq<bv8>, a: seq<bv8>, b: seq<bv8>, a': seq<bv8>)
    requires |a| + |b| <= |s| && |a'| == |a|
    ensures Splice(Splice(s, 0, a + b), 0, a') == Splice(s, 0, a' + b)
  {
  }

  lemma SpliceOverSecond(s: seq<bv8>, a: seq<bv8>, b: seq<bv8>, b': seq<bv8>)
    requires |a| + |b| <= |s| && |b'| == |b|
    ensures Splice(Splice(s, 0, a + b), |a|, b') == Splice(s, 0, a + b')
  {
  }

  /** `memcmp` of two MACs. */
  method SameBytes(a: array<bv8>, b: array<bv8>, n: nat) returns (same: bool)
    requires n <= a.Length && n <= b.Length
    ensures same == (a[..n] == b[..n])
  {
    for i := 0 to n
      invariant a[..i] == b[..i]
    {
      if a[i] != b[i] {
        assert a[..n][i] != b[..n][i];
        return false;
      }
    }
    return true;
  }

  /** Copies the masked payload to the output and unmasks it there. */
  method UnmaskPayload(plaintext: array<bv8>, masked: seq<bv8>, counter: array<bv8>,
                       macLen: int, nonce: seq<bv8>, k: Key, ghost e: BlockCipher)
    requires MacFits(macLen) && NonceFits(nonce) && |masked| <= plaintext.Length
    requires counter.Length == BLOCK && counter != plaintext && counter[..] == FirstCounter(nonce)
    requires Sound(e) && IsAes(e, k)
    modifies plaintext
    ensures plaintext[..] == Splice(old(plaintext[..]), 0, Ctr(e, PayloadCounter(macLen, nonce), masked))
  {
    hide IsAes, Sound, Splice, Ctr, FirstCounter, PayloadCounter;
    ghost var before := plaintext[..];
    PutBytes(plaintext, 0, masked);
    var tempIv := new bv8[BLOCK];
    CopyBlock(counter, tempIv);
    PreparePayloadCounter(tempIv, macLen, nonce);
    SplicedFront(before, masked);
    AesEncryptCtr(plaintext, 0, |masked|, plaintext, 0, k, tempIv[..], e);
    SplicedAgain(before, masked, Ctr(e, PayloadCounter(macLen, nonce), masked));
  }

  /** Unmasks the transmitted MAC and compares it with the MAC of the payload. */
  method CheckMac(masked: seq<bv8>, payload: seq<bv8>, counter: seq<bv8>,
                  macLen: int, nonce: seq<bv8>, assoc: seq<bv8>, k: Key, ghost e: BlockCipher)
    returns (same: bool)
    requires MacFits(macLen) && NonceFits(nonce) && |masked| == macLen && |counter| == BLOCK
    requires Sound(e) && IsAes(e, k)
    ensures same == (Ctr(e, counter, masked) == Mac(e, macLen, nonce, assoc, payload))
  {
    hide IsAes, Sound, Splice, Ctr, Mac;
    var mac, macBuf := new bv8[BLOCK], new bv8[BLOCK];
    ghost var before := mac[..];
    PutBytes(mac, 0, masked);
    SplicedFront(before, masked);
    AesEncryptCtr(mac, 0, macLen, mac, 0, k, counter, e);
    SplicedAgain(before, masked, Ctr(e, counter, masked));
    SplicedFront(before, Ctr(e, counter, masked));
    ComputeMac(macBuf, macLen, nonce, assoc, payload, k, e);
    same := SameBytes(mac, macBuf, macLen);
  }

  /**
   Decryption. `authenticate` is whether the caller passed a place for the verdict; without
   one the payload is unmasked unchecked. An inauthentic payload is zeroed out.
   */
  method AesDecryptCcm(ciphertext: seq<bv8>, assoc: seq<bv8>, nonce: seq<bv8>, plaintext: array<bv8>, macLen: int,
                       authenticate: bool, keyBytes: seq<bv8>, keysize: int, ghost e: BlockCipher)
    returns (ok: bool, plaintextLen: nat, macAuth: bool)
    requires Sound(e) && IsAesUnder(e, keyBytes, keysize)
    requires MacFits(macLen) && NonceFits(nonce) && |ciphertext| <= plaintext.Length + macLen
    modifies plaintext
    ensures ok == (|ciphertext| > macLen)
    ensures !ok ==> plaintext[..] == old(plaintext[..])
    ensures ok ==> plaintextLen == |ciphertext| - macLen
    ensures ok && authenticate ==> macAuth == Authentic(e, macLen, nonce, assoc, ciphertext)
    ensures ok && (authenticate ==> macAuth)
         ==> plaintext[..] == Splice(old(plaintext[..]), 0, Unmask(e, macLen, nonce, ciphertext))
    ensures ok && authenticate && !macAuth ==> plaintext[..] == Splice(old(plaintext[..]), 0, Zeros(plaintextLen))
    ensures ok && authenticate && ValidNonce(nonce) && Standard.CountersFit(macLen, nonce, plaintextLen) ==>
              (macAuth <==> exists p :: Standard.EncryptsTo(e, macLen, nonce, assoc, p, ciphertext))
    ensures ok && authenticate && macAuth && ValidNonce(nonce) && Standard.CountersFit(macLen, nonce, plaintextLen) ==>
              Standard.EncryptsTo(e, macLen, nonce, assoc, plaintext[..plaintextLen], ciphertext)
  {
    hide IsAes, Sound, Splice, Ctr, Mac, FirstCounter, PayloadCounter, Standard.EncryptsTo, Standard.CountersFit;
    plaintextLen, macAuth := 0, false;
    if |ciphertext| <= macLen {
      return false, plaintextLen, macAuth;
    }
    var k := ExpandKey(keyBytes, keysize);
    plaintextLen := |ciphertext| - macLen;
    var counter := new bv8[BLOCK];
    CcmPrepareFirstCtrBlk(counter, nonce, BLOCK - 1 - |nonce|);
    UnmaskPayload(plaintext, ciphertext[..plaintextLen], counter, macLen, nonce, k, e);
    if authenticate {
      ghost var p := Unmask(e, macLen, nonce, ciphertext);
      SplicedFront(old(plaintext[..]), p);
      macAuth := CheckMac(ciphertext[plaintextLen..], plaintext[..plaintextLen], counter[..],
                          macLen, nonce, assoc, k, e);
      if !macAuth {
        PutBytes(plaintext, 0, Zeros(plaintextLen));
        SplicedAgain(old(plaintext[..]), p, Zeros(plaintextLen));
      }
      VerdictExactly(e, macLen, nonce, assoc, ciphertext);
    }
    return true, plaintextLen, macAuth;
  }

  /** The verdict is whether the ciphertext is the encryption of anything, and then it is that of what it unmasks to. */
  lemma VerdictExactly(e: BlockCipher, macLen: int, nonce: seq<bv8>, assoc: seq<bv8>, c: seq<bv8>)
    requires Sound(e) && MacFits(macLen) && NonceFits(nonce) && macLen <= |c|
    ensures ValidNonce(nonce) && Standard.CountersFit(macLen, nonce, |c| - macLen) ==>
              && ((exists p :: Standard.EncryptsTo(e, macLen, nonce, assoc, p, c))
                    <==> Authentic(e, macLen, nonce, assoc, c))
              && (Authentic(e, macLen, nonce, assoc, c) ==>
                    Standard.EncryptsTo(e, macLen, nonce, assoc, Unmask(e, macLen, nonce, c), c))
  {
    hide Sound, Unmask, Authentic, Seal, Standard.PayloadMasked, Standard.MacMasked, Standard.MacBlocks,
        Standard.CountersFit;
    if ValidNonce(nonce) && Standard.CountersFit(macLen, nonce, |c| - macLen) {
      Standard.AuthenticExactly(e, macLen, nonce, assoc, c);
      forall p | Standard.EncryptsTo(e, macLen, nonce, assoc, p, c) ensures Authentic(e, macLen, nonce, assoc, c) {
        assert |p| == |c| - macLen;
        Standard.SealExactly(e, macLen, nonce, assoc, p, c);
        SealOpens(e, macLen, nonce, assoc, p);
      }
    }
  }

  lemma SplicedFront(s: seq<bv8>, a: seq<bv8>)
    requires |a| <= |s|
    ensures Splice(s, 0, a)[0..|a|] == Splice(s, 0, a)[..|a|] == a
  {
  }

  lemma SplicedAgain(s: seq<bv8>, a: seq<bv8>, b: seq<bv8>)
    requires |a| == |b| <= |s|
    ensures Splice(Splice(s, 0, a), 0, b) == Splice(s, 0, b)
  {
  }

  /** For every key there is a cipher for the ghost argument. */
  lemma CipherOfKey(keyBytes: seq<bv8>, keysize: int) returns (e: BlockCipher)
    requires Aes.ValidKeySize(keysize) && |keyBytes| == keysize / 8
    ensures Sound(e) && IsAesUnder(e, keyBytes, keysize)
  {
    hide KeySchedule.Schedule, Cipher;
    var k := Key(KeySchedule.Schedule(keyBytes, keysize), keysize);
    AesIsSound(k);
    e := Cipher(k);
  }

  /**
   The round trip, for every key, nonce, associated data and MAC length that encryption
   accepts: decrypting what encryption wrote returns the payload and the verdict true,
   unless the payload is empty, which decryption always refuses.
   */
  method SealThenOpen(payload: seq<bv8>, assoc: seq<bv8>, nonce: seq<bv8>, macLen: int, keyBytes: seq<bv8>,
                      keysize: int)
    returns (sealed: bool, ok: bool, macAuth: bool, result: seq<bv8>)
    requires Aes.ValidKeySize(keysize) && |keyBytes| == keysize / 8
    ensures sealed == (ValidMacLength(macLen) && ValidNonce(nonce) && |assoc| <= 32768)
    ensures sealed ==> ok == (payload != [])
    ensures sealed && payload != [] ==> macAuth && result == payload
  {
    hide IsAesUnder, Sound, Splice, Seal, Unmask, Authentic;
    ghost var e := CipherOfKey(keyBytes, keysize);
    ok, macAuth, result := false, false, [];
    var output := new bv8[|payload| + 16];
    ghost var before := output[..];
    var outLen;
    sealed, outLen := AesEncryptCcm(payload, assoc, nonce, output, macLen, keyBytes, keysize, e);
    if sealed {
      ghost var c := Seal(e, macLen, nonce, assoc, payload);
      SplicedFront(before, c);
      SealOpens(e, macLen, nonce, assoc, payload);
      var plaintext := new bv8[|payload|];
      before := plaintext[..];
      var n;
      ok, n, macAuth := AesDecryptCcm(output[..outLen], assoc, nonce, plaintext, macLen, true, keyBytes, keysize, e);
      result := plaintext[..];
      if ok {
        SpliceWhole(before, payload);
      }
    }
  }
}
