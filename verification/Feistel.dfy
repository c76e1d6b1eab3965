/** Pairs of 32-bit words, as the Feistel ciphers work on. */
module Feistel {

  datatype Halves = Halves(l: bv32, r: bv32)

  function Swap(h: Halves): Halves {
    Halves(h.r, h.l)
  }

  function Add(a: bv32, b: bv32): bv32 {
    a ^ b
  }

  lemma AddCancel(a: bv32, b: bv32)
    ensures Add(b, Add(b, a)) == a && Add(Add(a, b), b) == a
  {
    assert b ^ (b ^ a) == a;
    assert Add(b, b ^ a) == a && Add(a ^ b, b) == a;
  }

  lemma AddReorder(a: bv32, b: bv32, c: bv32)
    ensures Add(Add(a, b), c) == Add(Add(a, c), b)
  {
    assert Add(a ^ b, c) == Add(a ^ c, b);
  }
}
