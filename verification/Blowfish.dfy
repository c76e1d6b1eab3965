/**
 Blowfish for arbitrary subkeys and S-boxes: decryption is encryption with the eighteen
 subkeys in reverse, and undoes it.
 */
module Blowfish {
  import opened Buffers
  import opened Bytes
  import opened Feistel

  const BLOCK := 8
  const SUBKEYS := 18

  /** Four boxes of 256 words. */
  datatype Key = Key(p: seq<bv32>, s: seq<seq<bv32>>)

  predicate ValidKey(k: Key) {
    |k.p| == SUBKEYS && ValidBoxes(k.s)
  }

  predicate ValidBoxes(s: seq<seq<bv32>>) {
    |s| == 4 && forall i | 0 <= i < 4 :: |s[i]| == 256
  }

  /** The four bytes of a word, the most significant first. */
  function Byte0(x: bv32): bv8 { ((x >> 24) & 0xff) as bv8 }
  function Byte1(x: bv32): bv8 { ((x >> 16) & 0xff) as bv8 }
  function Byte2(x: bv32): bv8 { ((x >> 8) & 0xff) as bv8 }
  function Byte3(x: bv32): bv8 { (x & 0xff) as bv8 }

  /** Addition modulo 2^32. */
  function Plus(a: bv32, b: bv32): bv32 {
    a + b
  }

  /** The four bytes of the word select from the four boxes. */
  function Mix(s: seq<seq<bv32>>, x: bv32): bv32
    requires ValidBoxes(s)
  {
    var t := Plus(s[0][ToInt(Byte0(x))], s[1][ToInt(Byte1(x))]);
    Plus(Add(t, s[2][ToInt(Byte2(x))]), s[3][ToInt(Byte3(x))])
  }

  /** One iteration: the subkey into the left half, its mix into the right half, sides switched. */
  function Iterate(k: Key, h: Halves, i: nat): Halves
    requires ValidKey(k) && i < SUBKEYS
  {
    var l := Add(h.l, k.p[i]);
    Halves(Add(h.r, Mix(k.s, l)), l)
  }

  /** `n` iterations with the subkeys from 0 on. */
  function Iterations(k: Key, h: Halves, n: nat): Halves
    requires ValidKey(k) && n <= SUBKEYS
  {
    if n == 0 then h else Iterate(k, Iterations(k, h, n - 1), n - 1)
  }

  /** Sixteen iterations without the last switch, then the last two subkeys. */
  function Encrypted(k: Key, h: Halves): Halves
    requires ValidKey(k)
  {
    var s := Swap(Iterations(k, h, 16));
    Halves(Add(s.l, k.p[17]), Add(s.r, k.p[16]))
  }

  function Backwards(k: Key): (r: Key)
    requires ValidKey(k)
    ensures ValidKey(r)
  {
    k.(p := seq(SUBKEYS, i requires 0 <= i < SUBKEYS => k.p[SUBKEYS - 1 - i]))
  }

  /** What decryption has after undoing down to iteration `i`: sides switched, two subkeys still on. */
  function Covered(k: Key, h: Halves, i: nat): Halves
    requires ValidKey(k) && i <= 16
  {
    Halves(Add(h.r, k.p[i + 1]), Add(h.l, k.p[i]))
  }

  /** An iteration with subkey `i + 1` undoes the iteration with subkey `i - 1` and uncovers one more step. */
  lemma IterateBack(k: Key, h: Halves, i: nat)
    requires ValidKey(k) && 1 <= i <= 16
    ensures Iterate(Backwards(k), Covered(k, Iterate(k, h, i - 1), i), 16 - i) == Covered(k, h, i - 1)
  {
    hide Add, Mix;
    var g := Iterate(k, h, i - 1);
    AddCancel(g.r, k.p[i + 1]);
    AddReorder(g.l, k.p[i], Mix(k.s, g.r));
    AddCancel(h.r, Mix(k.s, g.r));
  }

  lemma {:induction false} IterationsUnwind(k: Key, h: Halves, j: nat)
    requires ValidKey(k) && j <= 16
    ensures Iterations(Backwards(k), Covered(k, Iterations(k, h, 16), 16), j)
         == Covered(k, Iterations(k, h, 16 - j), 16 - j)
  {
    hide Iterate, Covered, Backwards, ValidKey;
    if j > 0 {
      IterationsUnwind(k, h, j - 1);
      IterateBack(k, Iterations(k, h, 16 - j), 17 - j);
    }
  }

  /** For every subkey array and all S-box contents. */
  lemma EncryptedBackwards(k: Key, h: Halves)
    requires ValidKey(k)
    ensures Encrypted(Backwards(k), Encrypted(k, h)) == h
  {
    hide Add, Mix, Iterate;
    IterationsUnwind(k, h, 16);
    AddCancel(h.l, k.p[0]);
    AddCancel(h.r, k.p[1]);
  }

  // ------------------------------------------------------------- bytes

  function Word(a: bv8, b: bv8, c: bv8, d: bv8): bv32 {
    (a as bv32 << 24) | (b as bv32 << 16) | (c as bv32 << 8) | d as bv32
  }

  function FromBytes(b: seq<bv8>): Halves
    requires |b| == BLOCK
  {
    Halves(Word(b[0], b[1], b[2], b[3]), Word(b[4], b[5], b[6], b[7]))
  }

  function ToBytes(h: Halves): (b: seq<bv8>)
    ensures |b| == BLOCK
  {
    [Byte0(h.l), Byte1(h.l), Byte2(h.l), Byte3(h.l), Byte0(h.r), Byte1(h.r), Byte2(h.r), Byte3(h.r)]
  }

  lemma BytesOfWord(a: bv8, b: bv8, c: bv8, d: bv8)
    ensures var w := Word(a, b, c, d); Byte0(w) == a && Byte1(w) == b && Byte2(w) == c && Byte3(w) == d
  {
  }

  lemma WordOfBytes(x: bv32)
    ensures Word(Byte0(x), Byte1(x), Byte2(x), Byte3(x)) == x
  {
  }

  function EncryptBlock(k: Key, b: seq<bv8>): (c: seq<bv8>)
    requires ValidKey(k) && |b| == BLOCK
    ensures |c| == BLOCK
  {
    ToBytes(Encrypted(k, FromBytes(b)))
  }

  function DecryptBlock(k: Key, b: seq<bv8>): (c: seq<bv8>)
    requires ValidKey(k) && |b| == BLOCK
    ensures |c| == BLOCK
  {
    ToBytes(Encrypted(Backwards(k), FromBytes(b)))
  }

  lemma FromToBytes(h: Halves)
    ensures FromBytes(ToBytes(h)) == h
  {
    hide Word, Byte0, Byte1, Byte2, Byte3;
    WordOfBytes(h.l);
    WordOfBytes(h.r);
  }

  lemma ToFromBytes(b: seq<bv8>)
    requires |b| == BLOCK
    ensures ToBytes(FromBytes(b)) == b
  {
    hide Word, Byte0, Byte1, Byte2, Byte3;
    BytesOfWord(b[0], b[1], b[2], b[3]);
    BytesOfWord(b[4], b[5], b[6], b[7]);
  }

  lemma BackwardsTwice(k: Key)
    requires ValidKey(k)
    ensures Backwards(Backwards(k)) == k
  {
  }

  /** Each of the two operations undoes the other, for every key structure and block. */
  lemma BlockRoundTrip(k: Key, b: seq<bv8>)
    requires ValidKey(k) && |b| == BLOCK
    ensures DecryptBlock(k, EncryptBlock(k, b)) == b
    ensures EncryptBlock(k, DecryptBlock(k, b)) == b
  {
    hide Encrypted, FromBytes, ToBytes, Backwards;
    FromToBytes(Encrypted(k, FromBytes(b)));
    EncryptedBackwards(k, FromBytes(b));
    FromToBytes(Encrypted(Backwards(k), FromBytes(b)));
    EncryptedBackwards(Backwards(k), FromBytes(b));
    BackwardsTwice(k);
    ToFromBytes(b);
  }

  // ------------------------------------------------------------- as published

  /** The operations on words: big-endian bytes, addition modulo 2^32, exclusive or. */
  lemma WordOperations(a: bv8, b: bv8, c: bv8, d: bv8, u: bv32, v: bv32)
    ensures Word(a, b, c, d) == (a as bv32 << 24) | (b as bv32 << 16) | (c as bv32 << 8) | d as bv32
    ensures Plus(u, v) == u + v && Add(u, v) == u ^ v
  {
  }

  /** The four bytes of a word, from the left, select a word of each box: add, exclusive or, add. */
  lemma MixIsStandard(s: seq<seq<bv32>>, a: bv8, b: bv8, c: bv8, d: bv8)
    requires ValidBoxes(s)
    ensures Mix(s, Word(a, b, c, d))
         == Plus(Add(Plus(s[0][ToInt(a)], s[1][ToInt(b)]), s[2][ToInt(c)]), s[3][ToInt(d)])
  {
    hide Word, Byte0, Byte1, Byte2, Byte3, ToInt, Add, Plus;
    BytesOfWord(a, b, c, d);
  }

  /** The halves after each of the sixteen iterations: the subkey, the mix, the switch. */
  ghost predicate HalvesOf(k: Key, l: seq<bv32>, r: seq<bv32>)
    requires ValidKey(k)
  {
    && |l| == |r| == 17
    && forall i | 0 <= i < 16 ::
         r[i + 1] == Add(l[i], k.p[i]) && l[i + 1] == Add(r[i], Mix(k.s, Add(l[i], k.p[i])))
  }

  /** A block is encrypted to the last halves, switched back, with the last two subkeys added. */
  lemma EncryptIsStandard(k: Key, b: seq<bv8>) returns (l: seq<bv32>, r: seq<bv32>)
    requires ValidKey(k) && |b| == 8
    ensures HalvesOf(k, l, r)
    ensures l[0] == Word(b[0], b[1], b[2], b[3]) && r[0] == Word(b[4], b[5], b[6], b[7])
    ensures var c := EncryptBlock(k, b);
            && Word(c[0], c[1], c[2], c[3]) == Add(r[16], k.p[17])
            && Word(c[4], c[5], c[6], c[7]) == Add(l[16], k.p[16])
  {
    hide Add, Mix, Word, ToBytes;
    var h := seq(17, i requires 0 <= i <= 16 => Iterations(k, FromBytes(b), i));
    l := seq(17, i requires 0 <= i <= 16 => h[i].l);
    r := seq(17, i requires 0 <= i <= 16 => h[i].r);
    forall i | 0 <= i < 16
      ensures r[i + 1] == Add(l[i], k.p[i]) && l[i + 1] == Add(r[i], Mix(k.s, Add(l[i], k.p[i])))
    {
      assert h[i + 1] == Iterate(k, h[i], i);
    }
    FromToBytes(Encrypted(k, FromBytes(b)));
  }

  // ------------------------------------------------------------- the implementation

  /** One `ITERATION`; `done` of them were made with the subkeys of `k` from 0 on. */
  method Iteration(key: Key, l: bv32, r: bv32, pval: nat, ghost k: Key, ghost start: Halves, ghost done: nat)
    returns (l': bv32, r': bv32)
    requires ValidKey(key) && ValidKey(k) && key.s == k.s && pval < SUBKEYS && done < SUBKEYS
         && key.p[pval] == k.p[done]
    requires Halves(l, r) == Iterations(k, start, done)
    ensures Halves(l', r') == Iterations(k, start, done + 1)
  {
    hide Add, Mix;
    var x := Add(l, key.p[pval]);
    var t := Mix(key.s, x);
    var y := Add(r, t);
    l', r' := y, x;
  }

  /** The last iteration, without the switch, and the two remaining subkeys. */
  method Finish(key: Key, l: bv32, r: bv32, pval: nat, ghost k: Key, ghost start: Halves, a: nat, b: nat)
    returns (l': bv32, r': bv32)
    requires ValidKey(key) && ValidKey(k) && key.s == k.s && pval < SUBKEYS && a < SUBKEYS && b < SUBKEYS
    requires key.p[pval] == k.p[15] && key.p[a] == k.p[16] && key.p[b] == k.p[17]
    requires Halves(l, r) == Iterations(k, start, 15)
    ensures Halves(l', r') == Encrypted(k, start)
  {
    hide Add, Mix;
    var x := Add(l, key.p[pval]);
    var t := Mix(key.s, x);
    var y := Add(r, t);
    r' := Add(y, key.p[a]);
    l' := Add(x, key.p[b]);
  }

  /** Input and output may be the same array. */
  method BlowfishEncrypt(input: array<bv8>, output: array<bv8>, key: Key)
    requires input.Length >= BLOCK && output.Length >= BLOCK && ValidKey(key)
    modifies output
    ensures output[..BLOCK] == EncryptBlock(key, old(input[..BLOCK])) && output[BLOCK..] == old(output[BLOCK..])
  {
    hide Word, Byte0, Byte1, Byte2, Byte3, Iterations, Encrypted, ValidKey;
    var l := Word(input[0], input[1], input[2], input[3]);
    var r := Word(input[4], input[5], input[6], input[7]);
    ghost var start := Halves(l, r);
    NoIterations(key, start);
    l, r := Iteration(key, l, r, 0, key, start, 0);
    l, r := Iteration(key, l, r, 1, key, start, 1);
    l, r := Iteration(key, l, r, 2, key, start, 2);
    l, r := Iteration(key, l, r, 3, key, start, 3);
    l, r := Iteration(key, l, r, 4, key, start, 4);
    l, r := Iteration(key, l, r, 5, key, start, 5);
    l, r := Iteration(key, l, r, 6, key, start, 6);
    l, r := Iteration(key, l, r, 7, key, start, 7);
    l, r := Iteration(key, l, r, 8, key, start, 8);
    l, r := Iteration(key, l, r, 9, key, start, 9);
    l, r := Iteration(key, l, r, 10, key, start, 10);
    l, r := Iteration(key, l, r, 11, key, start, 11);
    l, r := Iteration(key, l, r, 12, key, start, 12);
    l, r := Iteration(key, l, r, 13, key, start, 13);
    l, r := Iteration(key, l, r, 14, key, start, 14);
    l, r := Finish(key, l, r, 15, key, start, 16, 17);
    StoreBlock(output, Byte0(l), Byte1(l), Byte2(l), Byte3(l), Byte0(r), Byte1(r), Byte2(r), Byte3(r));
  }

  /** The subkeys from 17 down. */
  method BlowfishDecrypt(input: array<bv8>, output: array<bv8>, key: Key)
    requires input.Length >= BLOCK && output.Length >= BLOCK && ValidKey(key)
    modifies output
    ensures output[..BLOCK] == DecryptBlock(key, old(input[..BLOCK])) && output[BLOCK..] == old(output[BLOCK..])
  {
    hide Word, Byte0, Byte1, Byte2, Byte3, Iterations, Encrypted, ValidKey, Backwards;
    var l := Word(input[0], input[1], input[2], input[3]);
    var r := Word(input[4], input[5], input[6], input[7]);
    ghost var start, k := Halves(l, r), Backwards(key);
    BackwardsSubkeys(key);
    NoIterations(k, start);
    l, r := Iteration(key, l, r, 17, k, start, 0);
    l, r := Iteration(key, l, r, 16, k, start, 1);
    l, r := Iteration(key, l, r, 15, k, start, 2);
    l, r := Iteration(key, l, r, 14, k, start, 3);
    l, r := Iteration(key, l, r, 13, k, start, 4);
    l, r := Iteration(key, l, r, 12, k, start, 5);
    l, r := Iteration(key, l, r, 11, k, start, 6);
    l, r := Iteration(key, l, r, 10, k, start, 7);
    l, r := Iteration(key, l, r, 9, k, start, 8);
    l, r := Iteration(key, l, r, 8, k, start, 9);
    l, r := Iteration(key, l, r, 7, k, start, 10);
    l, r := Iteration(key, l, r, 6, k, start, 11);
    l, r := Iteration(key, l, r, 5, k, start, 12);
    l, r := Iteration(key, l, r, 4, k, start, 13);
    l, r := Iteration(key, l, r, 3, k, start, 14);
    l, r := Finish(key, l, r, 2, k, start, 1, 0);
    StoreBlock(output, Byte0(l), Byte1(l), Byte2(l), Byte3(l), Byte0(r), Byte1(r), Byte2(r), Byte3(r));
  }

  lemma NoIterations(k: Key, h: Halves)
    requires ValidKey(k)
    ensures |k.p| == SUBKEYS && Iterations(k, h, 0) == h
  {
  }

  lemma BackwardsSubkeys(k: Key)
    requires ValidKey(k)
    ensures |k.p| == SUBKEYS && |Backwards(k).p| == SUBKEYS && Backwards(k).s == k.s
    ensures forall i | 0 <= i < SUBKEYS :: Backwards(k).p[i] == k.p[SUBKEYS - 1 - i]
  {
  }
}
