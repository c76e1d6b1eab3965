/**
 The CBC, CBC-MAC and CTR modes of NIST SP 800-38A, as functions on byte strings. They
 use a block cipher only through what it does to 16-byte blocks, so everything here
 holds for any block cipher.
 */
module CipherModes {
  import opened Arithmetic
  import opened Bytes

  const BLOCK := 16

  /** A pair of maps on blocks; a cipher under one fixed key. */
  datatype BlockCipher = BlockCipher(encrypt: seq<bv8> -> seq<bv8>, decrypt: seq<bv8> -> seq<bv8>)

  /** Blocks go to blocks, and each map undoes the other. */
  ghost predicate Sound(e: BlockCipher) {
    && (forall b | |b| == BLOCK :: |e.encrypt(b)| == BLOCK && e.decrypt(e.encrypt(b)) == b)
    && (forall b | |b| == BLOCK :: |e.decrypt(b)| == BLOCK && e.encrypt(e.decrypt(b)) == b)
  }

  predicate HasBlock(s: seq<bv8>, j: nat) {
    BLOCK * j + BLOCK <= |s|
  }

  function BlockAt(s: seq<bv8>, j: nat): (r: seq<bv8>)
    requires HasBlock(s, j)
    ensures |r| == BLOCK
  {
    s[BLOCK * j..BLOCK * j + BLOCK]
  }

  /** Strings of whole blocks are equal when their blocks are. */
  lemma SameBlocks(s: seq<bv8>, t: seq<bv8>)
    requires |s| == |t| && |s| % BLOCK == 0
    requires forall j: nat | HasBlock(s, j) :: BlockAt(s, j) == BlockAt(t, j)
    ensures s == t
  {
    forall i | 0 <= i < |s| ensures s[i] == t[i] {
      var j := i / BLOCK;
      assert HasBlock(s, j);
      assert BlockAt(s, j)[i % BLOCK] == s[i] && BlockAt(t, j)[i % BLOCK] == t[i];
    }
  }

  // ------------------------------------------------------------- CBC

  /** Section 6.2 of NIST SP 800-38A: C(j) = E(P(j) + C(j-1)), with C(-1) the IV. */
  ghost function CbcBlock(e: BlockCipher, iv: seq<bv8>, p: seq<bv8>, j: nat): (r: seq<bv8>)
    requires Sound(e) && |iv| == BLOCK && HasBlock(p, j)
    ensures |r| == BLOCK
  {
    e.encrypt(XorBytes(BlockAt(p, j), if j == 0 then iv else CbcBlock(e, iv, p, j - 1)))
  }

  /** P(j) = D(C(j)) + C(j-1). */
  ghost function CbcPlainBlock(e: BlockCipher, iv: seq<bv8>, c: seq<bv8>, j: nat): (r: seq<bv8>)
    requires Sound(e) && |iv| == BLOCK && HasBlock(c, j)
    ensures |r| == BLOCK
  {
    XorBytes(e.decrypt(BlockAt(c, j)), if j == 0 then iv else BlockAt(c, j - 1))
  }

  /** `c` is the CBC encryption of `p`. */
  ghost predicate IsCbcEncryption(e: BlockCipher, iv: seq<bv8>, p: seq<bv8>, c: seq<bv8>)
    requires Sound(e) && |iv| == BLOCK
  {
    |c| == |p| && forall j: nat | HasBlock(p, j) :: BlockAt(c, j) == CbcBlock(e, iv, p, j)
  }

  /** `p` is the CBC decryption of `c`. */
  ghost predicate IsCbcDecryption(e: BlockCipher, iv: seq<bv8>, c: seq<bv8>, p: seq<bv8>)
    requires Sound(e) && |iv| == BLOCK
  {
    |p| == |c| && forall j: nat | HasBlock(c, j) :: BlockAt(p, j) == CbcPlainBlock(e, iv, c, j)
  }

  lemma CbcBlockDecrypts(e: BlockCipher, iv: seq<bv8>, p: seq<bv8>, c: seq<bv8>, j: nat)
    requires Sound(e) && |iv| == BLOCK && IsCbcEncryption(e, iv, p, c) && HasBlock(p, j)
    ensures CbcPlainBlock(e, iv, c, j) == BlockAt(p, j)
  {
    var previous := if j == 0 then iv else CbcBlock(e, iv, p, j - 1);
    assert j > 0 ==> HasBlock(p, j - 1);
    XorBytesCancel(BlockAt(p, j), previous);
  }

  lemma {:induction false} CbcBlockEncrypts(e: BlockCipher, iv: seq<bv8>, c: seq<bv8>, p: seq<bv8>, j: nat)
    requires Sound(e) && |iv| == BLOCK && IsCbcDecryption(e, iv, c, p) && HasBlock(c, j)
    ensures CbcBlock(e, iv, p, j) == BlockAt(c, j)
  {
    if j > 0 {
      CbcBlockEncrypts(e, iv, c, p, j - 1);
    }
    XorBytesCancel(e.decrypt(BlockAt(c, j)), if j == 0 then iv else BlockAt(c, j - 1));
  }

  /** Encryption and decryption are the same relation, read in two directions. */
  lemma CbcRoundTrip(e: BlockCipher, iv: seq<bv8>, p: seq<bv8>, c: seq<bv8>)
    requires Sound(e) && |iv| == BLOCK
    ensures IsCbcEncryption(e, iv, p, c) <==> IsCbcDecryption(e, iv, c, p)
  {
    if IsCbcEncryption(e, iv, p, c) {
      forall j: nat | HasBlock(c, j) ensures BlockAt(p, j) == CbcPlainBlock(e, iv, c, j) {
        CbcBlockDecrypts(e, iv, p, c, j);
      }
    }
    if IsCbcDecryption(e, iv, c, p) {
      forall j: nat | HasBlock(p, j) ensures BlockAt(c, j) == CbcBlock(e, iv, p, j) {
        CbcBlockEncrypts(e, iv, c, p, j);
      }
    }
  }

  /** Whatever a decryption of the ciphertext gives is the plaintext. */
  lemma CbcRecovers(e: BlockCipher, iv: seq<bv8>, p: seq<bv8>, c: seq<bv8>, d: seq<bv8>)
    requires Sound(e) && |iv| == BLOCK && |p| % BLOCK == 0
    requires IsCbcEncryption(e, iv, p, c) && IsCbcDecryption(e, iv, c, d)
    ensures d == p
  {
    hide Sound;
    CbcRoundTrip(e, iv, p, c);
    SameBlocks(d, p);
  }

  ghost function CbcBlocks(e: BlockCipher, iv: seq<bv8>, p: seq<bv8>): (r: seq<seq<bv8>>)
    requires Sound(e) && |iv| == BLOCK
    ensures |r| == |p| / BLOCK
  {
    seq(|p| / BLOCK, j requires 0 <= j < |p| / BLOCK => CbcBlock(e, iv, p, j))
  }

  ghost function CbcPlainBlocks(e: BlockCipher, iv: seq<bv8>, c: seq<bv8>): (r: seq<seq<bv8>>)
    requires Sound(e) && |iv| == BLOCK
    ensures |r| == |c| / BLOCK
  {
    seq(|c| / BLOCK, j requires 0 <= j < |c| / BLOCK => CbcPlainBlock(e, iv, c, j))
  }

  lemma CbcBlockStep(e: BlockCipher, iv: seq<bv8>, p: seq<bv8>, j: nat)
    requires Sound(e) && |iv| == BLOCK && HasBlock(p, j)
    ensures CbcBlock(e, iv, p, j)
         == e.encrypt(XorBytes(BlockAt(p, j), if j == 0 then iv else CbcBlock(e, iv, p, j - 1)))
  {
  }

  /** Byte by byte: each block of ciphertext is E of the plaintext block plus the ciphertext block before it. */
  lemma CbcIsStandard(e: BlockCipher, iv: seq<bv8>, p: seq<bv8>, c: seq<bv8>, j: nat) returns (x: seq<bv8>)
    requires Sound(e) && |iv| == 16 && IsCbcEncryption(e, iv, p, c) && 16 * j + 16 <= |p|
    ensures |c| == |p| && |x| == 16 && c[16 * j..16 * j + 16] == e.encrypt(x)
    ensures forall i | 0 <= i < 16 :: x[i] == Xor(p[16 * j + i], if j == 0 then iv[i] else c[16 * j - 16 + i])
  {
    hide Sound, Xor;
    assert HasBlock(p, j) && HasBlock(c, j) && (j > 0 ==> HasBlock(p, j - 1) && HasBlock(c, j - 1));
    CbcBlockStep(e, iv, p, j);
    assert j > 0 ==> BlockAt(c, j - 1) == CbcBlock(e, iv, p, j - 1);
    x := XorBytes(BlockAt(p, j), if j == 0 then iv else BlockAt(c, j - 1));
  }

  // Writing the blocks out one by one.

  /** The first `n` blocks of `s` are as wanted. */
  predicate PrefixIs(s: seq<bv8>, want: seq<seq<bv8>>, n: nat)
    requires n <= |want| && BLOCK * n <= |s|
  {
    forall j: nat | j < n :: BlockAt(s, j) == want[j]
  }

  lemma PrefixEmpty(s: seq<bv8>, want: seq<seq<bv8>>)
    ensures PrefixIs(s, want, 0)
  {
  }

  lemma PrefixExtend(s: seq<bv8>, want: seq<seq<bv8>>, n: nat)
    requires n < |want| && HasBlock(s, n) && PrefixIs(s, want, n) && |want[n]| == BLOCK
    ensures var r := Splice(s, BLOCK * n, want[n]);
            PrefixIs(r, want, n + 1) && r[BLOCK * n + BLOCK..] == s[BLOCK * n + BLOCK..]
  {
    var r := Splice(s, BLOCK * n, want[n]);
    forall j: nat | j < n ensures BlockAt(r, j) == want[j] {
      assert forall x | BLOCK * j <= x < BLOCK * j + BLOCK :: r[x] == s[x];
      assert BlockAt(r, j) == BlockAt(s, j);
    }
    assert BlockAt(r, n) == want[n];
  }

  lemma PrefixWhole(s: seq<bv8>, want: seq<seq<bv8>>, len: nat)
    requires len <= |s| && len % BLOCK == 0 && len / BLOCK <= |want| && PrefixIs(s, want, len / BLOCK)
    ensures forall j: nat | HasBlock(s[..len], j) :: BlockAt(s[..len], j) == want[j]
  {
    forall j: nat | HasBlock(s[..len], j) ensures BlockAt(s[..len], j) == want[j] {
      assert j < len / BLOCK;
      assert BlockAt(s[..len], j) == BlockAt(s, j);
    }
  }

  /** What is read of `s` while its first `n` blocks may already be overwritten. */
  lemma BlockOfTail(s: seq<bv8>, p: seq<bv8>, n: nat)
    requires |p| <= |s| && HasBlock(p, n) && s[BLOCK * n..|p|] == p[BLOCK * n..]
    ensures BlockAt(s, n) == BlockAt(p, n)
    ensures s[BLOCK * n + BLOCK..|p|] == p[BLOCK * n + BLOCK..]
  {
    var d := BLOCK * n;
    forall x | d <= x < |p| ensures s[x] == p[x] {
      assert s[d..|p|][x - d] == p[d..][x - d];
    }
  }

  lemma TailKept(s: seq<bv8>, t: seq<bv8>, from: nat, to: nat)
    requires |s| == |t| && from <= to <= |s| && t[from..] == s[from..]
    ensures t[from..to] == s[from..to] && t[to..] == s[to..]
  {
    assert t[from..to] == t[from..][..to - from] && s[from..to] == s[from..][..to - from];
    assert t[to..] == t[from..][to - from..] && s[to..] == s[from..][to - from..];
  }

  // ------------------------------------------------------------- CTR

  /** The counter block `n` steps after `v`, counting in `len` bytes. */
  function CounterAfter(v: nat, n: nat, len: nat): (r: seq<bv8>)
    ensures |r| == len
  {
    BigEndian(v + n, len)
  }

  /** The mask of byte `i` when counting starts at `start`: block start + i / 16, modulo 2^128. */
  ghost function MaskByte(e: BlockCipher, start: nat, i: nat): bv8
    requires Sound(e)
  {
    e.encrypt(CounterAfter(start, i / BLOCK, BLOCK))[i % BLOCK]
  }

  /** Section 6.5 of NIST SP 800-38A: counting starts at the big-endian value of the IV. */
  ghost function Ctr(e: BlockCipher, iv: seq<bv8>, p: seq<bv8>): (c: seq<bv8>)
    requires Sound(e)
    ensures |c| == |p|
  {
    seq(|p|, i requires 0 <= i < |p| => Xor(p[i], MaskByte(e, Value(iv), i)))
  }

  /** The mask of byte `i` is a byte of E(T), with T the block of the number of the IV plus i / 16, modulo 2^128. */
  lemma CtrIsStandard(e: BlockCipher, iv: seq<bv8>, p: seq<bv8>, i: nat) returns (t: seq<bv8>)
    requires Sound(e) && |iv| == 16 && i < |p|
    ensures |t| == 16 && Value(t) == (Value(iv) + i / 16) % Pow256(16)
    ensures Ctr(e, iv, p)[i] == Xor(p[i], e.encrypt(t)[i % 16])
  {
    hide Sound, Value, Pow256, BigEndian, Xor;
    t := CounterAfter(Value(iv), i / BLOCK, BLOCK);
    ValueOfBigEndian(Value(iv) + i / BLOCK, BLOCK);
  }

  /** CTR is its own inverse, for every length. */
  lemma CtrInvolution(e: BlockCipher, iv: seq<bv8>, p: seq<bv8>)
    requires Sound(e)
    ensures Ctr(e, iv, Ctr(e, iv, p)) == p
  {
    forall i | 0 <= i < |p| ensures Ctr(e, iv, Ctr(e, iv, p))[i] == p[i] {
      XorCancel(p[i], MaskByte(e, Value(iv), i));
    }
  }

  /** `out` is `before` with `p` written at `d` and the first `n` bytes of it masked. */
  ghost predicate Masked(e: BlockCipher, start: nat, before: seq<bv8>, d: nat, p: seq<bv8>, out: seq<bv8>, n: nat)
    requires Sound(e)
  {
    && n <= |p| && d + |p| <= |before| == |out|
    && (forall j | d <= j < d + n :: out[j] == Xor(p[j - d], MaskByte(e, start, j - d)))
    && (forall j | d + n <= j < d + |p| :: out[j] == p[j - d])
    && (forall j | 0 <= j < d || d + |p| <= j < |out| :: out[j] == before[j])
  }

  lemma MaskedNone(e: BlockCipher, start: nat, before: seq<bv8>, d: nat, p: seq<bv8>)
    requires Sound(e) && d + |p| <= |before|
    ensures Masked(e, start, before, d, p, Splice(before, d, p), 0)
  {
  }

  lemma MaskedExtend(e: BlockCipher, start: nat, before: seq<bv8>, d: nat, p: seq<bv8>,
                     out: seq<bv8>, idx: nat, n: nat, mask: seq<bv8>)
    requires Sound(e) && Masked(e, start, before, d, p, out, idx)
    requires idx % BLOCK == 0 && n <= BLOCK && idx + n <= |p|
    requires |mask| == BLOCK && mask == e.encrypt(CounterAfter(start, idx / BLOCK, BLOCK))
    ensures d + idx + n <= |out|
    ensures Masked(e, start, before, d, p,
                   Splice(out, d + idx, XorBytes(out[d + idx..d + idx + n], mask[..n])), idx + n)
  {
    hide Xor, BigEndian, MaskByte, Splice, XorBytes, Sound, CounterAfter;
    MaskOfBlock(e, start, idx, mask);
    SpliceXor(out, d + idx, mask, n);
    ghost var r := Splice(out, d + idx, XorBytes(out[d + idx..d + idx + n], mask[..n]));
    forall j | d + idx <= j < d + idx + n ensures r[j] == Xor(p[j - d], MaskByte(e, start, j - d)) {
      assert r[j] == Xor(out[j], mask[j - (d + idx)]);
      assert MaskByte(e, start, j - d) == mask[j - d - idx];
    }
  }

  lemma MaskOfBlock(e: BlockCipher, start: nat, idx: nat, mask: seq<bv8>)
    requires Sound(e) && idx % BLOCK == 0
    requires |mask| == BLOCK && mask == e.encrypt(CounterAfter(start, idx / BLOCK, BLOCK))
    ensures forall i | idx <= i < idx + BLOCK :: MaskByte(e, start, i) == mask[i - idx]
  {
    hide BigEndian;
    forall i | idx <= i < idx + BLOCK ensures MaskByte(e, start, i) == mask[i - idx] {
      assert i / BLOCK == idx / BLOCK && i % BLOCK == i - idx;
    }
  }

  lemma MaskedAll(e: BlockCipher, iv: seq<bv8>, before: seq<bv8>, d: nat, p: seq<bv8>, out: seq<bv8>)
    requires Sound(e) && Masked(e, Value(iv), before, d, p, out, |p|)
    ensures out == Splice(before, d, Ctr(e, iv, p))
  {
    hide MaskByte, Xor, Value;
    var r := Splice(before, d, Ctr(e, iv, p));
    forall j | 0 <= j < |out| ensures out[j] == r[j] {
    }
  }

  /** A counter block holds its number modulo 256^len, so counting on from it is counting on from the number. */
  lemma CounterFrom(v: nat, n: nat, i: nat, len: nat)
    ensures CounterAfter(Value(CounterAfter(v, n, len)), i, len) == CounterAfter(v, n + i, len)
  {
    hide ToInt, Value, Pow256, BigEndian;
    var m := Pow256(len);
    ValueOfBigEndian(v + n, len);
    BigEndianModulo((v + n) % m + i, len);
    BigEndianModulo(v + n + i, len);
    ModuloOfSum(v + n, i, m);
  }

  /** Counter blocks less than 256^len steps apart are different. */
  lemma CountersDistinct(v: nat, m: nat, n: nat, len: nat)
    requires m < n && n - m < Pow256(len)
    ensures CounterAfter(v, m, len) != CounterAfter(v, n, len)
  {
    BigEndianDistinct(v + m, v + n, len);
  }
}
