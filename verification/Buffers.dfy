/** Runs of byte assignments to consecutive places of a buffer. */
module Buffers {

  method StoreFour(output: array<bv8>, at: nat, a: bv8, b: bv8, c: bv8, d: bv8)
    requires at + 4 <= output.Length
    modifies output
    ensures output[at] == a && output[at + 1] == b && output[at + 2] == c && output[at + 3] == d
    ensures forall i | 0 <= i < at || at + 4 <= i < output.Length :: output[i] == old(output[i])
  {
    output[at] := a;
    output[at + 1] := b;
    output[at + 2] := c;
    output[at + 3] := d;
  }

  /** Four bytes behind the first `at`. */
  method AppendFour(output: array<bv8>, at: nat, a: bv8, b: bv8, c: bv8, d: bv8)
    requires at + 4 <= output.Length
    modifies output
    ensures output[..at + 4] == old(output[..at]) + [a, b, c, d]
    ensures output[at + 4..] == old(output[at + 4..])
  {
    StoreFour(output, at, a, b, c, d);
    assert output[..at] == old(output[..at]);
    assert output[at..at + 4] == [a, b, c, d];
    assert output[..at + 4] == output[..at] + output[at..at + 4];
  }

  /** The eight byte assignments at the end of a block operation. */
  method StoreBlock(output: array<bv8>, a: bv8, b: bv8, c: bv8, d: bv8, e: bv8, f: bv8, g: bv8, h: bv8)
    requires output.Length >= 8
    modifies output
    ensures output[..8] == [a, b, c, d, e, f, g, h] && output[8..] == old(output[8..])
  {
    StoreFour(output, 0, a, b, c, d);
    StoreFour(output, 4, e, f, g, h);
    assert output[4] == e;
  }
}
