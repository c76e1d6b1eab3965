/**
 The CBC, CBC-MAC and CTR loops over AES. Input and output may be the same array. The
 ghost argument `e` is the cipher the key stands for; `AesIsSound` provides it.
 */
module AesModes {
  import opened Bytes
  import Aes
  import Impl = AesImplementation
  import opened CipherModes

  /** A key as the modes receive it: round-key words and the key size in bits. */
  datatype Key = Key(w: seq<bv32>, size: int)

  predicate ValidKey(k: Key) {
    Aes.ValidKeySize(k.size) && Aes.HasSchedule(k.w, k.size)
  }

  /** On blocks, `e` is AES under the key `k`. */
  ghost predicate IsAes(e: BlockCipher, k: Key) {
    && ValidKey(k)
    && (forall b {:trigger Aes.EncryptBlock(b, k.w, k.size)} | |b| == BLOCK
        :: e.encrypt(b) == Aes.EncryptBlock(b, k.w, k.size))
    && (forall b {:trigger Aes.DecryptBlock(b, k.w, k.size)} | |b| == BLOCK
        :: e.decrypt(b) == Aes.DecryptBlock(b, k.w, k.size))
  }

  function Cipher(k: Key): BlockCipher
    requires ValidKey(k)
  {
    BlockCipher((b: seq<bv8>) => if |b| == BLOCK then Aes.EncryptBlock(b, k.w, k.size) else b,
                (b: seq<bv8>) => if |b| == BLOCK then Aes.DecryptBlock(b, k.w, k.size) else b)
  }

  /** Under every valid key there is a sound block cipher that is AES. */
  lemma AesIsSound(k: Key)
    requires ValidKey(k)
    ensures Sound(Cipher(k)) && IsAes(Cipher(k), k)
  {
    hide Aes.EncryptBlock, Aes.DecryptBlock;
    forall b: seq<bv8> | |b| == BLOCK
      ensures Aes.DecryptBlock(Aes.EncryptBlock(b, k.w, k.size), k.w, k.size) == b
      ensures Aes.EncryptBlock(Aes.DecryptBlock(b, k.w, k.size), k.w, k.size) == b
    {
      Aes.AesRoundTrip(b, k.w, k.size);
    }
  }

  // ------------------------------------------------------------- buffers

  method CopyBytes(src: array<bv8>, s: nat, dst: array<bv8>, d: nat, n: nat)
    requires src != dst && s + n <= src.Length && d + n <= dst.Length
    modifies dst
    ensures dst[..] == Splice(old(dst[..]), d, src[s..s + n])
  {
    for i := 0 to n
      invariant forall j | 0 <= j < dst.Length :: dst[j] == if d <= j < d + i then src[s + j - d] else old(dst[j])
    {
      dst[d + i] := src[s + i];
    }
    SpliceByPoints(old(dst[..]), d, src[s..s + n], dst[..]);
  }

  /** Adds the first `n` bytes of `input` to the bytes of `output` from index `d` on. */
  method XorBuf(input: array<bv8>, output: array<bv8>, d: nat, n: nat)
    requires input != output && n <= input.Length && d + n <= output.Length
    modifies output
    ensures output[..] == Splice(old(output[..]), d, XorBytes(old(output[d..d + n]), input[..n]))
  {
    hide Xor, Splice;
    for i := 0 to n
      invariant forall j | 0 <= j < output.Length ::
        output[j] == if d <= j < d + i then Xor(old(output[j]), input[j - d]) else old(output[j])
    {
      output[d + i] := Xor(output[d + i], input[i]);
    }
    ghost var x := XorBytes(old(output[d..d + n]), input[..n]);
    forall j | d <= j < d + n ensures output[j] == x[j - d] {
      assert x[j - d] == Xor(old(output[d..d + n])[j - d], input[..n][j - d]);
    }
    SpliceByPoints(old(output[..]), d, x, output[..]);
  }

  /** `aes_encrypt` on a block buffer. */
  method EncryptBuffer(input: array<bv8>, output: array<bv8>, k: Key, ghost e: BlockCipher)
    requires input.Length == BLOCK && output.Length == BLOCK && IsAes(e, k)
    modifies output
    ensures output[..] == e.encrypt(old(input[..]))
  {
    hide Aes.EncryptBlock;
    Impl.AesEncrypt(input, output, k.w, k.size);
    assert old(input[..]) == old(input[..BLOCK]);
  }

  method DecryptBuffer(input: array<bv8>, output: array<bv8>, k: Key, ghost e: BlockCipher)
    requires input.Length == BLOCK && output.Length == BLOCK && IsAes(e, k)
    modifies output
    ensures output[..] == e.decrypt(old(input[..]))
  {
    hide Aes.DecryptBlock;
    Impl.AesDecrypt(input, output, k.w, k.size);
    assert old(input[..]) == old(input[..BLOCK]);
  }

  // ------------------------------------------------------------- CBC

  lemma SpliceWhole(s: seq<bv8>, b: seq<bv8>)
    requires |s| == |b|
    ensures Splice(s, 0, b) == b
  {
  }

  method CopyBlock(src: array<bv8>, dst: array<bv8>)
    requires src != dst && src.Length == dst.Length == BLOCK
    modifies dst
    ensures dst[..] == src[..]
  {
    CopyBytes(src, 0, dst, 0, BLOCK);
    assert src[0..BLOCK] == src[..];
    SpliceWhole(old(dst[..]), src[..]);
  }

  /** Adds one block buffer to another. */
  method XorBlock(input: array<bv8>, output: array<bv8>)
    requires input != output && input.Length == output.Length == BLOCK
    modifies output
    ensures output[..] == XorBytes(old(output[..]), input[..])
  {
    ghost var block := output[..];
    assert block[0..BLOCK] == block && input[..BLOCK] == input[..];
    XorBuf(input, output, 0, BLOCK);
    SpliceWhole(block, XorBytes(block, input[..]));
  }

  method ReadBlock(input: array<bv8>, idx: nat, buf: array<bv8>)
    requires input != buf && buf.Length == BLOCK && BLOCK * idx + BLOCK <= input.Length
    modifies buf
    ensures buf[..] == BlockAt(input[..], idx)
  {
    CopyBytes(input, BLOCK * idx, buf, 0, BLOCK);
    SpliceWhole(old(buf[..]), input[BLOCK * idx..BLOCK * idx + BLOCK]);
  }

  method WriteBlock(buf: array<bv8>, output: array<bv8>, idx: nat)
    requires output != buf && buf.Length == BLOCK && BLOCK * idx + BLOCK <= output.Length
    modifies output
    ensures output[..] == Splice(old(output[..]), BLOCK * idx, buf[..])
  {
    assert buf[0..BLOCK] == buf[..];
    CopyBytes(buf, 0, output, BLOCK * idx, BLOCK);
  }

  /** One pass of the encryption loop, up to writing the block out. */
  method ChainBlock(input: array<bv8>, idx: nat,
                    bufIn: array<bv8>, bufOut: array<bv8>, ivBuf: array<bv8>, k: Key, ghost e: BlockCipher)
    requires bufIn.Length == bufOut.Length == ivBuf.Length == BLOCK
    requires bufIn != bufOut && bufIn != ivBuf && bufOut != ivBuf
    requires input != bufIn && BLOCK * idx + BLOCK <= input.Length && IsAes(e, k)
    modifies bufIn, bufOut, ivBuf
    ensures ivBuf[..] == bufOut[..] == e.encrypt(XorBytes(old(BlockAt(input[..], idx)), old(ivBuf[..])))
  {
    hide IsAes, XorBytes, BlockAt;
    ReadBlock(input, idx, bufIn);
    XorBlock(ivBuf, bufIn);
    EncryptBuffer(bufIn, bufOut, k, e);
    CopyBlock(bufOut, ivBuf);
  }

  /** One pass of the decryption loop, up to writing the block out. */
  method UnchainBlock(input: array<bv8>, idx: nat,
                      bufIn: array<bv8>, bufOut: array<bv8>, ivBuf: array<bv8>, k: Key, ghost e: BlockCipher)
    requires bufIn.Length == bufOut.Length == ivBuf.Length == BLOCK
    requires bufIn != bufOut && bufIn != ivBuf && bufOut != ivBuf
    requires input != bufIn && BLOCK * idx + BLOCK <= input.Length && Sound(e) && IsAes(e, k)
    modifies bufIn, bufOut
    ensures bufIn[..] == old(BlockAt(input[..], idx))
    ensures |e.decrypt(bufIn[..])| == BLOCK && bufOut[..] == XorBytes(e.decrypt(bufIn[..]), ivBuf[..])
  {
    hide IsAes, XorBytes, BlockAt;
    ReadBlock(input, idx, bufIn);
    DecryptBuffer(bufIn, bufOut, k, e);
    XorBlock(ivBuf, bufOut);
  }

  /** One pass of the encryption loop; `p` is the whole plaintext, which may be overwritten up to this block. */
  method EncryptCbcBlock(input: array<bv8>, inLen: nat, output: array<bv8>, idx: nat,
                         bufIn: array<bv8>, bufOut: array<bv8>, ivBuf: array<bv8>, k: Key,
                         ghost e: BlockCipher, ghost iv: seq<bv8>, ghost p: seq<bv8>)
    requires bufIn.Length == bufOut.Length == ivBuf.Length == BLOCK
    requires bufIn != bufOut && bufIn != ivBuf && bufOut != ivBuf && input !in {bufIn, bufOut, ivBuf}
    requires output !in {bufIn, bufOut, ivBuf} && inLen <= input.Length && inLen <= output.Length
    requires |iv| == BLOCK && |p| == inLen && HasBlock(p, idx) && Sound(e) && IsAes(e, k)
    requires ivBuf[..] == if idx == 0 then iv else CbcBlocks(e, iv, p)[idx - 1]
    requires PrefixIs(output[..], CbcBlocks(e, iv, p), idx) && input[BLOCK * idx..inLen] == p[BLOCK * idx..]
    modifies bufIn, bufOut, ivBuf, output
    ensures ivBuf[..] == CbcBlocks(e, iv, p)[idx]
    ensures PrefixIs(output[..], CbcBlocks(e, iv, p), idx + 1)
    ensures input[BLOCK * idx + BLOCK..inLen] == p[BLOCK * idx + BLOCK..]
    ensures output[inLen..] == old(output[inLen..])
  {
    hide IsAes, Splice, XorBytes, Sound, PrefixIs, CbcBlock;
    BlockOfTail(input[..], p, idx);
    ghost var before := output[..];
    ChainBlock(input, idx, bufIn, bufOut, ivBuf, k, e);
    CbcBlockStep(e, iv, p, idx);
    PrefixExtend(before, CbcBlocks(e, iv, p), idx);
    WriteBlock(bufOut, output, idx);
    TailKept(before, output[..], BLOCK * idx + BLOCK, inLen);
  }

  method AesEncryptCbc(input: array<bv8>, inLen: nat, output: array<bv8>, k: Key, iv: seq<bv8>, ghost e: BlockCipher)
    returns (ok: bool)
    requires inLen <= input.Length && inLen <= output.Length && |iv| == BLOCK
    requires Sound(e) && IsAes(e, k)
    modifies output
    ensures ok == (inLen % BLOCK == 0)
    ensures !ok ==> output[..] == old(output[..])
    ensures ok ==> IsCbcEncryption(e, iv, old(input[..inLen]), output[..inLen])
    ensures output[inLen..] == old(output[inLen..])
  {
    hide IsAes, Splice, XorBytes, Sound, PrefixIs, CbcBlock;
    if inLen % BLOCK != 0 {
      return false;
    }
    ghost var p := input[..inLen];
    ghost var want := CbcBlocks(e, iv, p);
    var bufIn, bufOut := new bv8[BLOCK], new bv8[BLOCK];
    var ivBuf := new bv8[BLOCK](i requires 0 <= i < |iv| => iv[i]);
    var blocks := inLen / BLOCK;
    assert ivBuf[..] == iv;
    PrefixEmpty(output[..], want);
    for idx := 0 to blocks
      invariant ivBuf[..] == if idx == 0 then iv else want[idx - 1]
      invariant PrefixIs(output[..], want, idx)
      invariant input[BLOCK * idx..inLen] == p[BLOCK * idx..]
      invariant output[inLen..] == old(output[inLen..])
    {
      EncryptCbcBlock(input, inLen, output, idx, bufIn, bufOut, ivBuf, k, e, iv, p);
    }
    PrefixWhole(output[..], want, inLen);
    return true;
  }

  /** Only the last block is output; it is the last block of the CBC encryption. */
  method AesEncryptCbcMac(input: array<bv8>, inLen: nat, output: array<bv8>, k: Key, iv: seq<bv8>, ghost e: BlockCipher)
    returns (ok: bool)
    requires inLen <= input.Length && BLOCK <= output.Length && |iv| == BLOCK
    requires Sound(e) && IsAes(e, k)
    modifies output
    ensures ok == (inLen % BLOCK == 0)
    ensures !ok ==> output[..] == old(output[..])
    ensures ok && inLen > 0 ==> output[..BLOCK] == CbcBlock(e, iv, old(input[..inLen]), inLen / BLOCK - 1)
    ensures output[BLOCK..] == old(output[BLOCK..])
  {
    hide IsAes, XorBytes, Sound, CbcBlock;
    if inLen % BLOCK != 0 {
      return false;
    }
    ghost var p := input[..inLen];
    ghost var want := CbcBlocks(e, iv, p);
    var bufIn, bufOut := new bv8[BLOCK], new bv8[BLOCK];
    var ivBuf := new bv8[BLOCK](i requires 0 <= i < |iv| => iv[i]);
    var blocks := inLen / BLOCK;
    assert ivBuf[..] == iv;
    for idx := 0 to blocks
      invariant ivBuf[..] == if idx == 0 then iv else want[idx - 1]
      invariant idx > 0 ==> bufOut[..] == ivBuf[..]
      invariant input[..] == old(input[..]) && output[..] == old(output[..])
    {
      assert input[BLOCK * idx..inLen] == p[BLOCK * idx..];
      BlockOfTail(input[..], p, idx);
      ChainBlock(input, idx, bufIn, bufOut, ivBuf, k, e);
      CbcBlockStep(e, iv, p, idx);
    }
    WriteBlock(bufOut, output, 0);
    return true;
  }

  /** One pass of the decryption loop; `c` is the whole ciphertext. */
  method DecryptCbcBlock(input: array<bv8>, inLen: nat, output: array<bv8>, idx: nat,
                         bufIn: array<bv8>, bufOut: array<bv8>, ivBuf: array<bv8>, k: Key,
                         ghost e: BlockCipher, ghost iv: seq<bv8>, ghost c: seq<bv8>)
    requires bufIn.Length == bufOut.Length == ivBuf.Length == BLOCK
    requires bufIn != bufOut && bufIn != ivBuf && bufOut != ivBuf && input !in {bufIn, bufOut, ivBuf}
    requires output !in {bufIn, bufOut, ivBuf} && inLen <= input.Length && inLen <= output.Length
    requires |iv| == BLOCK && |c| == inLen && HasBlock(c, idx) && Sound(e) && IsAes(e, k)
    requires ivBuf[..] == if idx == 0 then iv else BlockAt(c, idx - 1)
    requires PrefixIs(output[..], CbcPlainBlocks(e, iv, c), idx) && input[BLOCK * idx..inLen] == c[BLOCK * idx..]
    modifies bufIn, bufOut, ivBuf, output
    ensures ivBuf[..] == BlockAt(c, idx)
    ensures PrefixIs(output[..], CbcPlainBlocks(e, iv, c), idx + 1)
    ensures input[BLOCK * idx + BLOCK..inLen] == c[BLOCK * idx + BLOCK..]
    ensures output[inLen..] == old(output[inLen..])
  {
    hide IsAes, Splice, XorBytes, Sound, PrefixIs;
    BlockOfTail(input[..], c, idx);
    ghost var before := output[..];
    UnchainBlock(input, idx, bufIn, bufOut, ivBuf, k, e);
    PrefixExtend(before, CbcPlainBlocks(e, iv, c), idx);
    WriteBlock(bufOut, output, idx);
    TailKept(before, output[..], BLOCK * idx + BLOCK, inLen);
    CopyBlock(bufIn, ivBuf);
  }

  method AesDecryptCbc(input: array<bv8>, inLen: nat, output: array<bv8>, k: Key, iv: seq<bv8>, ghost e: BlockCipher)
    returns (ok: bool)
    requires inLen <= input.Length && inLen <= output.Length && |iv| == BLOCK
    requires Sound(e) && IsAes(e, k)
    modifies output
    ensures ok == (inLen % BLOCK == 0)
    ensures !ok ==> output[..] == old(output[..])
    ensures ok ==> IsCbcDecryption(e, iv, old(input[..inLen]), output[..inLen])
    ensures output[inLen..] == old(output[inLen..])
  {
    hide IsAes, Splice, XorBytes, Sound, PrefixIs;
    if inLen % BLOCK != 0 {
      return false;
    }
    ghost var c := input[..inLen];
    ghost var want := CbcPlainBlocks(e, iv, c);
    var bufIn, bufOut := new bv8[BLOCK], new bv8[BLOCK];
    var ivBuf := new bv8[BLOCK](i requires 0 <= i < |iv| => iv[i]);
    var blocks := inLen / BLOCK;
    assert ivBuf[..] == iv;
    PrefixEmpty(output[..], want);
    for idx := 0 to blocks
      invariant ivBuf[..] == if idx == 0 then iv else BlockAt(c, idx - 1)
      invariant PrefixIs(output[..], want, idx)
      invariant input[BLOCK * idx..inLen] == c[BLOCK * idx..]
      invariant output[inLen..] == old(output[inLen..])
    {
      DecryptCbcBlock(input, inLen, output, idx, bufIn, bufOut, ivBuf, k, e, iv, c);
    }
    PrefixWhole(output[..], want, inLen);
    return true;
  }

  // ------------------------------------------------------------- CTR

  /** Adds one to the big-endian number in the last `size` bytes; nothing happens unless `size` is positive. */
  method IncrementIv(iv: array<bv8>, size: int)
    requires iv.Length == BLOCK && size <= BLOCK
    modifies iv
    ensures size <= 0 ==> iv[..] == old(iv[..])
    ensures size > 0 ==> iv[..BLOCK - size] == old(iv[..BLOCK - size])
    ensures size > 0 ==> iv[BLOCK - size..] == CounterAfter(Value(old(iv[BLOCK - size..])), 1, size)
  {
    hide ToInt, Value, BigEndian;
    var idx := BLOCK - 1;
    while idx >= BLOCK - size
      invariant idx < BLOCK && (size <= 0 ==> idx == BLOCK - 1) && (size > 0 ==> BLOCK - size <= idx)
      invariant forall j | 0 <= j <= idx :: iv[j] == old(iv[j])
      invariant forall j | idx < j < BLOCK :: ToInt(iv[j]) == 0 && ToInt(old(iv[j])) == 255
    {
      ByteIncrement(iv[idx]);
      iv[idx] := iv[idx] + 1;
      if iv[idx] != 0 || idx == BLOCK - size {
        break;
      }
      idx := idx - 1;
    }
    if size > 0 {
      SuffixCarried(old(iv[..]), iv[..], idx, BLOCK - size);
    }
  }

  lemma SuffixCarried(before: seq<bv8>, after: seq<bv8>, idx: nat, from: nat)
    requires from <= idx < |before| == |after|
    requires forall j | 0 <= j < idx :: after[j] == before[j]
    requires ToInt(after[idx]) == if ToInt(before[idx]) == 255 then 0 else ToInt(before[idx]) + 1
    requires ToInt(before[idx]) == 255 ==> idx == from
    requires forall j | idx < j < |after| :: ToInt(after[j]) == 0 && ToInt(before[j]) == 255
    ensures after[..from] == before[..from]
    ensures after[from..] == BigEndian(Value(before[from..]) + 1, |before| - from)
  {
    hide ToInt, Value, BigEndian;
    var b, a, at := before[from..], after[from..], idx - from;
    assert a[..at] == b[..at] && a[at] == after[idx] && b[at] == before[idx];
    forall j | at < j < |a| ensures ToInt(a[j]) == 0 && ToInt(b[j]) == 255 {
      assert a[j] == after[j + from] && b[j] == before[j + from];
    }
    CarryIncrements(b, a, at);
  }

  /** A counter block, moved on to the next. */
  method NextCounter(ivBuf: array<bv8>, ghost v: nat, ghost n: nat)
    requires ivBuf.Length == BLOCK && ivBuf[..] == CounterAfter(v, n, BLOCK)
    modifies ivBuf
    ensures ivBuf[..] == CounterAfter(v, n + 1, BLOCK)
  {
    hide Value, BigEndian;
    assert ivBuf[0..] == ivBuf[..];
    IncrementIv(ivBuf, BLOCK);
    assert ivBuf[0..] == ivBuf[..];
    CounterFrom(v, n, 1, BLOCK);
  }

  /** Masks the next `n` bytes of output, up to one block. */
  method MaskBlock(ivBuf: array<bv8>, outBuf: array<bv8>, output: array<bv8>, d: nat, idx: nat, n: nat, k: Key,
                   ghost e: BlockCipher, ghost v: nat, ghost before: seq<bv8>, ghost p: seq<bv8>)
    requires ivBuf.Length == outBuf.Length == BLOCK && ivBuf != outBuf && outBuf != output && ivBuf != output
    requires Sound(e) && IsAes(e, k)
    requires idx % BLOCK == 0 && n <= BLOCK && idx + n <= |p|
    requires ivBuf[..] == CounterAfter(v, idx / BLOCK, BLOCK)
    requires Masked(e, v, before, d, p, output[..], idx)
    modifies outBuf, output
    ensures Masked(e, v, before, d, p, output[..], idx + n)
  {
    hide IsAes, BigEndian, Splice, XorBytes, Masked;
    EncryptBuffer(ivBuf, outBuf, k, e);
    MaskedExtend(e, v, before, d, p, output[..], idx, n, outBuf[..]);
    XorBuf(outBuf, output, d + idx, n);
  }

  /** The input is copied to the output, unless it is there already; nothing is masked yet. */
  method StartMasking(input: array<bv8>, s: nat, inLen: nat, output: array<bv8>, d: nat,
                      ghost e: BlockCipher, ghost v: nat)
    requires s + inLen <= input.Length && d + inLen <= output.Length && Sound(e)
    requires input != output || s == d
    modifies output
    ensures Masked(e, v, old(output[..]), d, old(input[s..s + inLen]), output[..], 0)
  {
    hide Sound, Splice, Masked;
    MaskedNone(e, v, output[..], d, input[s..s + inLen]);
    if input != output {
      CopyBytes(input, s, output, d, inLen);
    } else {
      SpliceSelf(output[..], d, inLen);
    }
  }

  /** Input and output are whole arrays or regions of them; the same region may serve as both. */
  method AesEncryptCtr(input: array<bv8>, s: nat, inLen: nat, output: array<bv8>, d: nat, k: Key, iv: seq<bv8>,
                       ghost e: BlockCipher)
    requires s + inLen <= input.Length && d + inLen <= output.Length && |iv| == BLOCK
    requires input != output || s == d
    requires Sound(e) && IsAes(e, k)
    modifies output
    ensures output[..] == Splice(old(output[..]), d, Ctr(e, iv, old(input[s..s + inLen])))
  {
    hide IsAes, BigEndian, Value, Sound, Splice, Masked;
    ghost var p, v := input[s..s + inLen], Value(iv);
    ghost var before := output[..];
    StartMasking(input, s, inLen, output, d, e, v);
    var ivBuf := new bv8[BLOCK](i requires 0 <= i < |iv| => iv[i]);
    var outBuf := new bv8[BLOCK];
    assert ivBuf[..] == iv;
    BigEndianOfValue(iv);
    var idx := 0;
    if inLen > BLOCK {
      var lastBlockLength := inLen - BLOCK;
      while idx < lastBlockLength
        invariant idx % BLOCK == 0 && idx < inLen
        invariant ivBuf[..] == CounterAfter(v, idx / BLOCK, BLOCK)
        invariant Masked(e, v, before, d, p, output[..], idx)
      {
        MaskBlock(ivBuf, outBuf, output, d, idx, BLOCK, k, e, v, before, p);
        NextCounter(ivBuf, v, idx / BLOCK);
        idx := idx + BLOCK;
      }
    }
    MaskBlock(ivBuf, outBuf, output, d, idx, inLen - idx, k, e, v, before, p);
    MaskedAll(e, iv, before, d, p, output[..]);
  }
}
