/**
 The text of section 4 of RFC 4648, character by character: the bits of three bytes read
 as four numbers of six bits, each written in the base 64 alphabet. The encoder is proved
 to write this text, in lines of 76 characters if wanted, and the decoder to read it.
 */
module Base64Standard {
  import opened Wrappers
  import opened Base64

  /** Table 1 of RFC 4648: A to Z, a to z, 0 to 9, plus, slash. */
  function Alphabet(v: bv8): bv8 {
    if v < 26 then 65 + v
    else if v < 52 then 97 + (v - 26)
    else if v < 62 then 48 + (v - 52)
    else if v == 62 then 43
    else 47
  }

  function Group(a: bv8, b: bv8, c: bv8): bv24 {
    (a as bv24 << 16) | (b as bv24 << 8) | c as bv24
  }

  /** The six bits number `j` of a group, from the left. */
  function Sextet(group: bv24, j: nat): bv8
    requires j < 4
  {
    ((group >> (18 - 6 * j)) & 0x3f) as bv8
  }

  /** A byte of the message, with zeros behind its end. */
  function ByteAt(m: seq<bv8>, i: nat): bv8 {
    if i < |m| then m[i] else 0
  }

  /** Character `q` of the text without newlines; the last group is padded. */
  function CharAt(m: seq<bv8>, q: nat): bv8 {
    var i, j := 3 * (q / 4), q % 4;
    if j > 0 && i + j - 1 >= |m| then 61
    else Alphabet(Sextet(Group(ByteAt(m, i), ByteAt(m, i + 1), ByteAt(m, i + 2)), j))
  }

  // ------------------------------------------------------------- encoding

  lemma CharIsAlphabet(v: bv8)
    requires v & 0x3f == v
    ensures Char(v) == Alphabet(v)
  {
    hide CharRow0, CharRow1, CharRow2, CharRow3;
    var low := v & 0xf;
    AlphabetRow0(low);
    AlphabetRow1(low);
    AlphabetRow2(low);
    AlphabetRow3(low);
  }

  lemma AlphabetRow0(low: bv8)
    requires low & 0xf == low
    ensures CharRow0(low) == Alphabet(low)
  {
  }

  lemma AlphabetRow1(low: bv8)
    requires low & 0xf == low
    ensures CharRow1(low) == Alphabet(16 + low)
  {
  }

  lemma AlphabetRow2(low: bv8)
    requires low & 0xf == low
    ensures CharRow2(low) == Alphabet(32 + low)
  {
  }

  lemma AlphabetRow3(low: bv8)
    requires low & 0xf == low
    ensures CharRow3(low) == Alphabet(48 + low)
  {
  }

  lemma SixesAreSextets(a: bv8, b: bv8, c: bv8)
    ensures Six0(a) == Sextet(Group(a, b, c), 0) && Six1(a, b) == Sextet(Group(a, b, c), 1)
    ensures Six2(b, c) == Sextet(Group(a, b, c), 2) && Six3(c) == Sextet(Group(a, b, c), 3)
  {
  }

  lemma CharsOfGroup(a: bv8, b: bv8, c: bv8)
    ensures Char(Six0(a)) == Alphabet(Sextet(Group(a, b, c), 0))
    ensures Char(Six1(a, b)) == Alphabet(Sextet(Group(a, b, c), 1))
    ensures Char(Six2(b, c)) == Alphabet(Sextet(Group(a, b, c), 2))
    ensures Char(Six3(c)) == Alphabet(Sextet(Group(a, b, c), 3))
  {
    hide Char, Alphabet, Sextet, Group, Six0, Six1, Six2, Six3;
    SixBits(a, b, c);
    SixesAreSextets(a, b, c);
    CharIsAlphabet(Six0(a));
    CharIsAlphabet(Six1(a, b));
    CharIsAlphabet(Six2(b, c));
    CharIsAlphabet(Six3(c));
  }

  lemma QuadIsStandard(m: seq<bv8>, g: nat, j: nat)
    requires 3 * g + 3 <= |m| && j < 4
    ensures Quad(m, g)[j] == CharAt(m, 4 * g + j)
  {
    hide Char, Alphabet, Sextet, Group, Six0, Six1, Six2, Six3;
    assert (4 * g + j) / 4 == g && (4 * g + j) % 4 == j;
    CharsOfGroup(m[3 * g], m[3 * g + 1], m[3 * g + 2]);
  }

  lemma TailIsStandard(m: seq<bv8>, j: nat)
    requires |m| % 3 > 0 && j < 4
    ensures Tail(m)[j] == CharAt(m, 4 * (|m| / 3) + j)
  {
    hide Char, Alphabet, Sextet, Group, Six0, Six1, Six2, Six3;
    var g, i := |m| / 3, |m| - |m| % 3;
    assert (4 * g + j) / 4 == g && (4 * g + j) % 4 == j && i == 3 * g;
    LastSixes(ByteAt(m, i));
    LastSixes(ByteAt(m, i + 1));
    CharsOfGroup(ByteAt(m, i), ByteAt(m, i + 1), 0);
  }

  /** Where character `p` of wrapped text stands: the group it is in, or the newline behind a line. */
  lemma PlaceInLine(p: nat, q: nat)
    requires p < QuadAt(q, true)
    ensures p % 77 == 76 ==> var h := 19 * (p / 77 + 1); h <= q && EndsLine(h, true) && QuadAt(h, true) == p + 1
    ensures p % 77 != 76 ==>
              var x := p - p / 77;
              x / 4 < q && QuadAt(x / 4, true) + x % 4 == p
  {
    var l, col := p / 77, p % 77;
    assert p == 77 * l + col;
    if q < 19 * (l + 1) {
      assert q / 19 <= l;
    }
    if col < 76 {
      var x := 76 * l + col;
      assert x == p - l;
      assert x / 4 == 19 * l + col / 4 && x % 4 == col % 4;
      assert (19 * l + col / 4) / 19 == l;
    }
  }

  lemma PlaceInTail(j: nat, q: nat)
    requires j < 4
    ensures var p := QuadAt(q, true) + j; p % 77 != 76 && p - p / 77 == 4 * q + j
  {
    var l, r, p := q / 19, q % 19, QuadAt(q, true) + j;
    assert p == 77 * l + (4 * r + j);
    assert p / 77 == l && p % 77 == 4 * r + j;
  }

  lemma GroupOfText(text: seq<bv8>, m: seq<bv8>, q: nat, h: nat, newline: bool)
    requires 3 * q <= |m| && Begins(text, m, q, newline) && h <= q
    ensures h < q ==> QuadAt(h, newline) + 4 <= |text|
                      && text[QuadAt(h, newline)..QuadAt(h, newline) + 4] == Quad(m, h)
    ensures EndsLine(h, newline) ==> 0 < QuadAt(h, newline) <= |text| && text[QuadAt(h, newline) - 1] == NEWLINE
  {
    hide Begins, Quad;
    if h < q {
      BeginsAt(text, m, q, h + 1, newline);
      BeginsShorter(text, m, h + 1, newline);
    }
    if EndsLine(h, newline) {
      BeginsAt(text, m, q, h, newline);
      BeginsShorter(text, m, h, newline);
    }
  }

  /** The characters of the whole groups, and the newlines. */
  lemma GroupsAreStandard(text: seq<bv8>, m: seq<bv8>, newline: bool, p: nat)
    requires var q := |m| / 3; Begins(text, m, q, newline) && p < QuadAt(q, newline) <= |text|
    ensures text[p] == if newline && p % 77 == 76 then 10 else CharAt(m, if newline then p - p / 77 else p)
  {
    hide Begins, Quad, CharAt;
    var q := |m| / 3;
    if newline && p % 77 == 76 {
      PlaceInLine(p, q);
      GroupOfText(text, m, q, 19 * (p / 77 + 1), true);
    } else {
      var x := if newline then p - p / 77 else p;
      if newline {
        PlaceInLine(p, q);
      }
      GroupOfText(text, m, q, x / 4, newline);
      assert text[QuadAt(x / 4, newline)..QuadAt(x / 4, newline) + 4][x % 4] == text[p];
      QuadIsStandard(m, x / 4, x % 4);
    }
  }

  /** The encoder's output, for every message and every character, with and without newlines. */
  lemma EncodeIsStandard(m: seq<bv8>, newline: bool, p: nat)
    requires p < |Encode(m, newline)|
    ensures Encode(m, newline)[p]
         == if newline && p % 77 == 76 then 10 else CharAt(m, if newline then p - p / 77 else p)
  {
    hide Quads, Tail, CharAt;
    var text, q := Encode(m, newline), |m| / 3;
    var k := QuadAt(q, newline);
    if p < k {
      assert text[..k] == Quads(m, q, newline);
      GroupsAreStandard(text, m, newline, p);
    } else {
      assert text[p] == Tail(m)[p - k];
      TailIsStandard(m, p - k);
      PlaceInTail(p - k, q);
    }
  }

  // ------------------------------------------------------------- decoding

  /** Four characters of the alphabet give the three bytes whose bits they are. */
  lemma TripleIsStandard(text: seq<bv8>, p: nat, u: bv8, v: bv8, w: bv8, x: bv8)
    requires p + 4 <= |text| && u < 64 && v < 64 && w < 64 && x < 64
    requires text[p..p + 4] == [Alphabet(u), Alphabet(v), Alphabet(w), Alphabet(x)]
    ensures var t := Triple(text, p);
            Group(t[0], t[1], t[2]) == (u as bv24 << 18) | (v as bv24 << 12) | (w as bv24 << 6) | x as bv24
  {
    hide Alphabet, Revchar, Group, Glue0, Glue1, Glue2;
    var t := text[p..p + 4];
    assert text[p] == t[0] && text[p + 1] == t[1] && text[p + 2] == t[2] && text[p + 3] == t[3];
    RevcharOfAlphabet(u);
    RevcharOfAlphabet(v);
    RevcharOfAlphabet(w);
    RevcharOfAlphabet(x);
    GlueIsGroup(u, v, w, x);
  }

  lemma RevcharOfAlphabet(v: bv8)
    requires v < 64
    ensures Revchar(Alphabet(v)) == v
  {
  }

  lemma GlueIsGroup(u: bv8, v: bv8, w: bv8, x: bv8)
    requires u < 64 && v < 64 && w < 64 && x < 64
    ensures Group(Glue0(u, v), Glue1(v, w), Glue2(w, x))
         == (u as bv24 << 18) | (v as bv24 << 12) | (w as bv24 << 6) | x as bv24
  {
  }

  lemma GroupsUnfold(text: seq<bv8>, p: nat, n: nat, len: nat)
    requires n > 0 && p + 4 * n <= len <= |text| && NEWLINE !in text[..len]
    ensures Groups(text, p, p + 4 * n) == Prepend(Triple(text, p), Groups(text, p + 4, p + 4 * n))
  {
    hide Triple;
    assert text[p] == text[..len][p];
  }

  lemma {:induction false} GroupsInPlace(text: seq<bv8>, p: nat, n: nat, len: nat)
    requires p + 4 * n <= len <= |text| && NEWLINE !in text[..len]
    ensures var loop := Groups(text, p, p + 4 * n);
            && loop.Part? && |loop.bytes| == 3 * n
            && forall g | 0 <= g < n :: loop.bytes[3 * g..3 * g + 3] == Triple(text, p + 4 * g)
    decreases n
  {
    hide Triple, Groups;
    if n == 0 {
      OneGroupMore(text, p, p);
    } else {
      GroupsUnfold(text, p, n, len);
      GroupsInPlace(text, p + 4, n - 1, len);
      var first, rest := Triple(text, p), Groups(text, p + 4, p + 4 * n).bytes;
      forall g | 0 <= g < n ensures (first + rest)[3 * g..3 * g + 3] == Triple(text, p + 4 * g) {
        if g > 0 {
          assert (first + rest)[3 * g..3 * g + 3] == rest[3 * (g - 1)..3 * (g - 1) + 3];
          assert p + 4 + 4 * (g - 1) == p + 4 * g;
        }
      }
    }
  }

  /** So the decoder reads any text without newlines group by group, also one the encoder has not written. */
  lemma DecodeIsStandard(text: seq<bv8>, len: nat, g: nat, u: bv8, v: bv8, w: bv8, x: bv8)
    requires len <= |text| && NEWLINE !in text[..len] && 4 * g + 4 <= len
    requires u < 64 && v < 64 && w < 64 && x < 64
    requires text[4 * g..4 * g + 4] == [Alphabet(u), Alphabet(v), Alphabet(w), Alphabet(x)]
    ensures Decode(text, len).Some? && 3 * g + 3 <= |Decode(text, len).value|
    ensures var t := Decode(text, len).value;
            Group(t[3 * g], t[3 * g + 1], t[3 * g + 2])
              == (u as bv24 << 18) | (v as bv24 << 12) | (w as bv24 << 6) | x as bv24
  {
    hide Alphabet, Decode, Groups, Rest, Stripped, Group, Triple;
    var k := Stripped(text, len);
    GroupNotStripped(text, len, g, x);
    UnwrappedStaysInside(text, len);
    DecodeParts(text, len, k);
    GroupsInPlace(text, 0, k / 4, len);
    TripleIsStandard(text, 4 * g, u, v, w, x);
    var bytes, t := Groups(text, 0, k / 4 * 4).bytes, Decode(text, len).value;
    assert t[3 * g..3 * g + 3] == bytes[3 * g..3 * g + 3];
    var b := t[3 * g..3 * g + 3];
    assert t[3 * g] == b[0] && t[3 * g + 1] == b[1] && t[3 * g + 2] == b[2];
  }

  lemma GroupNotStripped(text: seq<bv8>, len: nat, g: nat, x: bv8)
    requires len <= |text| && 4 * g + 4 <= len && x < 64 && text[4 * g + 3] == Alphabet(x)
    ensures g < Stripped(text, len) / 4
  {
    AlphabetIsText(x);
  }

  lemma AlphabetIsText(v: bv8)
    requires v < 64
    ensures Alphabet(v) != PAD && Alphabet(v) != NEWLINE
  {
  }
}
