/**
 Base64 (section 4 of RFC 4648), with an optional newline after every 76 characters.
 Decoding undoes encoding without newlines; with newlines it does so only for some
 lengths, and exactly which ones is proved here.
 */
module Base64 {
  import opened Buffers
  import opened Wrappers

  const NEWLINE: bv8 := 10
  const PAD: bv8 := 61
  const NEWLINE_INVL := 76

  /** Upper case, lower case, digits, plus and slash. */
  function Char(v: bv8): bv8 {
    match v >> 4
    case 0 => CharRow0(v & 0xf)
    case 1 => CharRow1(v & 0xf)
    case 2 => CharRow2(v & 0xf)
    case _ => CharRow3(v & 0xf)
  }

  function CharRow0(low: bv8): bv8 {
    match low
    case 0 => 65 case 1 => 66 case 2 => 67 case 3 => 68 case 4 => 69 case 5 => 70
    case 6 => 71 case 7 => 72 case 8 => 73 case 9 => 74 case 10 => 75 case 11 => 76
    case 12 => 77 case 13 => 78 case 14 => 79 case _ => 80
  }

  function CharRow1(low: bv8): bv8 {
    match low
    case 0 => 81 case 1 => 82 case 2 => 83 case 3 => 84 case 4 => 85 case 5 => 86
    case 6 => 87 case 7 => 88 case 8 => 89 case 9 => 90 case 10 => 97 case 11 => 98
    case 12 => 99 case 13 => 100 case 14 => 101 case _ => 102
  }

  function CharRow2(low: bv8): bv8 {
    match low
    case 0 => 103 case 1 => 104 case 2 => 105 case 3 => 106 case 4 => 107 case 5 => 108
    case 6 => 109 case 7 => 110 case 8 => 111 case 9 => 112 case 10 => 113 case 11 => 114
    case 12 => 115 case 13 => 116 case 14 => 117 case _ => 118
  }

  function CharRow3(low: bv8): bv8 {
    match low
    case 0 => 119 case 1 => 120 case 2 => 121 case 3 => 122 case 4 => 48 case 5 => 49
    case 6 => 50 case 7 => 51 case 8 => 52 case 9 => 53 case 10 => 54 case 11 => 55
    case 12 => 56 case 13 => 57 case 14 => 43 case _ => 47
  }

  function Revchar(ch: bv8): bv8 {
    if 65 <= ch <= 90 then ch - 65
    else if 97 <= ch <= 122 then ch - 97 + 26
    else if 48 <= ch <= 57 then ch - 48 + 52
    else if ch == 43 then 62
    else if ch == 47 then 63
    else ch
  }

  predicate IsText(ch: bv8) {
    ch != NEWLINE && ch != PAD
  }

  lemma RevcharOfRow0(low: bv8)
    requires low & 0xf == low
    ensures Revchar(CharRow0(low)) == 0 + low && IsText(CharRow0(low))
  {
  }

  lemma RevcharOfRow1(low: bv8)
    requires low & 0xf == low
    ensures Revchar(CharRow1(low)) == 16 + low && IsText(CharRow1(low))
  {
  }

  lemma RevcharOfRow2(low: bv8)
    requires low & 0xf == low
    ensures Revchar(CharRow2(low)) == 32 + low && IsText(CharRow2(low))
  {
  }

  lemma RevcharOfRow3(low: bv8)
    requires low & 0xf == low
    ensures Revchar(CharRow3(low)) == 48 + low && IsText(CharRow3(low))
  {
  }

  lemma RevcharOfChar(v: bv8)
    requires v & 0x3f == v
    ensures Revchar(Char(v)) == v && IsText(Char(v))
  {
    hide Revchar, CharRow0, CharRow1, CharRow2, CharRow3, IsText;
    var low := v & 0xf;
    assert low & 0xf == low;
    RevcharOfRow0(low);
    RevcharOfRow1(low);
    RevcharOfRow2(low);
    RevcharOfRow3(low);
  }

  // ------------------------------------------------------------- bits

  function Six0(a: bv8): bv8 { a >> 2 }
  function Six1(a: bv8, b: bv8): bv8 { ((a & 0x03) << 4) | (b >> 4) }
  function Six2(b: bv8, c: bv8): bv8 { ((b & 0x0f) << 2) | (c >> 6) }
  function Six3(c: bv8): bv8 { c & 0x3f }

  function Glue0(u: bv8, v: bv8): bv8 { (u << 2) | ((v & 0x30) >> 4) }
  function Glue1(u: bv8, v: bv8): bv8 { (u << 4) | (v >> 2) }
  function Glue2(u: bv8, v: bv8): bv8 { (u << 6) | v }

  function Join0(w: bv8, x: bv8): bv8 { Glue0(Revchar(w), Revchar(x)) }
  function Join1(x: bv8, y: bv8): bv8 { Glue1(Revchar(x), Revchar(y)) }
  function Join2(y: bv8, z: bv8): bv8 { Glue2(Revchar(y), Revchar(z)) }

  lemma SixBits(a: bv8, b: bv8, c: bv8)
    ensures Six0(a) & 0x3f == Six0(a) && Six1(a, b) & 0x3f == Six1(a, b)
    ensures Six2(b, c) & 0x3f == Six2(b, c) && Six3(c) & 0x3f == Six3(c)
  {
  }

  lemma GlueSixes(a: bv8, b: bv8, c: bv8)
    ensures Glue0(Six0(a), Six1(a, b)) == a
    ensures Glue1(Six1(a, b), Six2(b, c)) == b
    ensures Glue2(Six2(b, c), Six3(c)) == c
  {
    assert Glue0(a >> 2, ((a & 0x03) << 4) | (b >> 4)) == a;
    assert Glue1(((a & 0x03) << 4) | (b >> 4), ((b & 0x0f) << 2) | (c >> 6)) == b;
    assert Glue2(((b & 0x0f) << 2) | (c >> 6), c & 0x3f) == c;
  }

  /** The four characters of three bytes give the bytes back. */
  lemma JoinBack(a: bv8, b: bv8, c: bv8)
    ensures Join0(Char(Six0(a)), Char(Six1(a, b))) == a
    ensures Join1(Char(Six1(a, b)), Char(Six2(b, c))) == b
    ensures Join2(Char(Six2(b, c)), Char(Six3(c))) == c
  {
    hide Revchar, Char, Six0, Six1, Six2, Six3, Glue0, Glue1, Glue2;
    SixBits(a, b, c);
    RevcharOfChar(Six0(a));
    RevcharOfChar(Six1(a, b));
    RevcharOfChar(Six2(b, c));
    RevcharOfChar(Six3(c));
    GlueSixes(a, b, c);
  }

  // ------------------------------------------------------------- encoding

  /** The characters of group `g` of three bytes. */
  function Quad(m: seq<bv8>, g: nat): (r: seq<bv8>)
    requires 3 * g + 3 <= |m|
    ensures |r| == 4
  {
    var a, b, c := m[3 * g], m[3 * g + 1], m[3 * g + 2];
    [Char(Six0(a)), Char(Six1(a, b)), Char(Six2(b, c)), Char(Six3(c))]
  }

  /** One newline after every 19 groups, that is, after 76 characters. */
  function Lines(groups: nat, newline: bool): nat {
    if newline then groups / 19 else 0
  }

  function QuadAt(g: nat, newline: bool): nat {
    4 * g + Lines(g, newline)
  }

  predicate EndsLine(groups: nat, newline: bool) {
    newline && groups > 0 && groups % 19 == 0
  }

  /** The first `g` groups with their newlines. */
  function Quads(m: seq<bv8>, g: nat, newline: bool): (r: seq<bv8>)
    requires 3 * g <= |m|
    ensures |r| == QuadAt(g, newline)
  {
    if g == 0 then [] else Quads(m, g - 1, newline) + Quad(m, g - 1) + if EndsLine(g, newline) then [NEWLINE] else []
  }

  /** The one or two bytes after the last whole group. */
  function Tail(m: seq<bv8>): (r: seq<bv8>)
    ensures |r| == if |m| % 3 == 0 then 0 else 4
  {
    var n := |m| - |m| % 3;
    if |m| % 3 == 0 then []
    else if |m| % 3 == 1 then [Char(Six0(m[n])), Char((m[n] & 0x03) << 4), PAD, PAD]
    else [Char(Six0(m[n])), Char(Six1(m[n], m[n + 1])), Char((m[n + 1] & 0x0f) << 2), PAD]
  }

  function Encode(m: seq<bv8>, newline: bool): seq<bv8> {
    Quads(m, |m| / 3, newline) + Tail(m)
  }

  /** What `base64_encode` reports when it is given no output. */
  function EncodedSize(len: nat, newline: bool): nat {
    len / 3 * 4 + (if len % 3 != 0 then 4 else 0) + if newline then len / 57 else 0
  }

  /** The reported size is the number of characters written, newlines included. */
  lemma EncodedSizeExact(m: seq<bv8>, newline: bool)
    ensures |Encode(m, newline)| == EncodedSize(|m|, newline)
  {
    hide Quads, Tail;
    assert |m| / 3 / 19 == |m| / 57;
  }

  // ------------------------------------------------------------- decoding

  /** The length without one padding character at the end. */
  function Unpadded(text: seq<bv8>, len: nat): (n: nat)
    requires len <= |text|
    ensures n <= len
  {
    if len > 0 && text[len - 1] == PAD then len - 1 else len
  }

  function Stripped(text: seq<bv8>, len: nat): (n: nat)
    requires len <= |text|
    ensures n <= len
  {
    Unpadded(text, Unpadded(text, len))
  }

  /** The result of the decoding loop, or a read beyond the text. */
  datatype Part = Overrun | Part(bytes: seq<bv8>, pos: nat)

  function Prepend(b: seq<bv8>, p: Part): Part {
    if p.Overrun? then Overrun else Part(b + p.bytes, p.pos)
  }

  function Skip(text: seq<bv8>, p: nat): nat
    requires p < |text|
  {
    if text[p] == NEWLINE then p + 1 else p
  }

  function Triple(text: seq<bv8>, p: nat): (r: seq<bv8>)
    requires p + 4 <= |text|
    ensures |r| == 3
  {
    [Join0(text[p], text[p + 1]), Join1(text[p + 1], text[p + 2]), Join2(text[p + 2], text[p + 3])]
  }

  /** Groups from position `p` on, until `end` is reached; one newline is skipped before a group. */
  function Groups(text: seq<bv8>, p: nat, end: nat): Part
    decreases end - p
  {
    if p >= end then Part([], p)
    else if p >= |text| || Skip(text, p) + 4 > |text| then Overrun
    else Prepend(Triple(text, Skip(text, p)), Groups(text, Skip(text, p) + 4, end))
  }

  function Rest(text: seq<bv8>, p: nat, left: nat): Option<seq<bv8>> {
    if left == 2 then
      if p + 2 <= |text| then Some([Join0(text[p], text[p + 1])]) else None
    else if left == 3 then
      if p + 3 <= |text| then Some([Join0(text[p], text[p + 1]), Join1(text[p + 1], text[p + 2])]) else None
    else Some([])
  }

  /** What is written for the first `len` characters of `text`, unless something beyond the text is read. */
  function Decode(text: seq<bv8>, len: nat): Option<seq<bv8>>
    requires len <= |text|
  {
    var n := Stripped(text, len);
    var loop := Groups(text, 0, n / 4 * 4);
    if loop.Overrun? then None
    else
      var rest := Rest(text, loop.pos, n % 4);
      if rest.None? then None else Some(loop.bytes + rest.value)
  }

  /** How many bytes the code takes from the last `left` characters. */
  function Count(left: nat): nat {
    if left == 2 then 1 else if left == 3 then 2 else 0
  }

  /** What `base64_decode` reports when it is given no output. */
  function DecodedSize(text: seq<bv8>, len: nat): nat
    requires len <= |text|
  {
    SizeOf(text, Stripped(text, len))
  }

  /** Of text without padding; newlines are discounted if there is one after 76 characters. */
  function SizeOf(text: seq<bv8>, n: nat): nat
    requires n <= |text|
  {
    var k := if n >= 77 && text[NEWLINE_INVL] == NEWLINE then n - n / (NEWLINE_INVL + 1) else n;
    k / 4 * 3 + Count(k % 4)
  }

  // ------------------------------------------------------------- reading encoded text

  /** Where the loop stands after `g` groups: a newline before the next group is not skipped yet. */
  function LoopAt(g: nat, newline: bool): nat {
    if g == 0 then 0 else QuadAt(g - 1, newline) + 4
  }

  /** Whether a string begins with the first `g` encoded groups. */
  ghost predicate Begins(text: seq<bv8>, m: seq<bv8>, g: nat, newline: bool)
    requires 3 * g <= |m|
  {
    |text| >= QuadAt(g, newline) && text[..QuadAt(g, newline)] == Quads(m, g, newline)
  }

  lemma InPrefix(s: seq<bv8>, e: nat, a: nat, b: nat)
    requires a <= b <= e <= |s|
    ensures s[..e][a..b] == s[a..b]
  {
  }

  lemma BeginsShorter(text: seq<bv8>, m: seq<bv8>, g: nat, newline: bool)
    requires g > 0 && 3 * g <= |m| && Begins(text, m, g, newline)
    ensures QuadAt(g - 1, newline) + 4 <= QuadAt(g, newline) <= |text|
    ensures Begins(text, m, g - 1, newline)
    ensures text[QuadAt(g - 1, newline)..QuadAt(g - 1, newline) + 4] == Quad(m, g - 1)
    ensures EndsLine(g, newline) ==>
              QuadAt(g, newline) == QuadAt(g - 1, newline) + 5 && text[QuadAt(g, newline) - 1] == NEWLINE
    ensures !EndsLine(g, newline) ==> QuadAt(g, newline) == QuadAt(g - 1, newline) + 4
  {
    hide Quad;
    var p, e := QuadAt(g - 1, newline), QuadAt(g, newline);
    var shorter := Quads(m, g - 1, newline);
    assert Quads(m, g, newline) == shorter + Quad(m, g - 1) + if EndsLine(g, newline) then [NEWLINE] else [];
    InPrefix(text, e, 0, p);
    InPrefix(text, e, p, p + 4);
    InPrefix(text, e, e - 1, e);
    assert text[e - 1..e][0] == text[e - 1];
    assert shorter == Quads(m, g, newline)[0..p] && Quad(m, g - 1) == Quads(m, g, newline)[p..p + 4];
  }

  lemma {:induction false} BeginsAt(text: seq<bv8>, m: seq<bv8>, q: nat, g: nat, newline: bool)
    requires g <= q && 3 * q <= |m| && Begins(text, m, q, newline)
    ensures Begins(text, m, g, newline)
    decreases q - g
  {
    hide Begins;
    if g < q {
      BeginsShorter(text, m, q, newline);
      BeginsAt(text, m, q - 1, g, newline);
    }
  }

  lemma QuadBack(text: seq<bv8>, p: nat, m: seq<bv8>, g: nat)
    requires 3 * g + 3 <= |m| && p + 4 <= |text| && text[p..p + 4] == Quad(m, g)
    ensures Triple(text, p) == m[3 * g..3 * g + 3] && text[p] != NEWLINE
  {
    hide Char, Join0, Join1, Join2, Six0, Six1, Six2, Six3;
    var a, b, c, t := m[3 * g], m[3 * g + 1], m[3 * g + 2], text[p..p + 4];
    assert text[p] == t[0] && text[p + 1] == t[1] && text[p + 2] == t[2] && text[p + 3] == t[3];
    JoinBack(a, b, c);
    FirstIsText(a);
  }

  /** One round of the loop on encoded text. */
  lemma GroupBack(text: seq<bv8>, m: seq<bv8>, q: nat, g: nat, newline: bool)
    requires g < q && 3 * q <= |m| && Begins(text, m, q, newline)
    ensures LoopAt(g, newline) < |text| && Skip(text, LoopAt(g, newline)) == QuadAt(g, newline)
    ensures QuadAt(g, newline) + 4 <= |text| && Triple(text, QuadAt(g, newline)) == m[3 * g..3 * g + 3]
    ensures LoopAt(g + 1, newline) == QuadAt(g, newline) + 4
  {
    hide Begins, Quad, Triple, Quads;
    BeginsAt(text, m, q, g + 1, newline);
    BeginsShorter(text, m, g + 1, newline);
    QuadBack(text, QuadAt(g, newline), m, g);
    if g > 0 {
      BeginsShorter(text, m, g, newline);
    }
  }

  lemma FirstIsText(a: bv8)
    ensures Char(Six0(a)) != NEWLINE
  {
    hide Char;
    SixBits(a, 0, 0);
    RevcharOfChar(Six0(a));
  }

  /** The loop decodes the groups up to `q` if it gets there. */
  lemma {:induction false} LoopBack(text: seq<bv8>, m: seq<bv8>, q: nat, g: nat, newline: bool, end: nat)
    requires g <= q && 3 * q <= |m| && Begins(text, m, q, newline)
    requires forall h | g <= h < q :: LoopAt(h, newline) < end
    ensures Groups(text, LoopAt(g, newline), end) == Prepend(m[3 * g..3 * q], Groups(text, LoopAt(q, newline), end))
    decreases q - g
  {
    hide Begins, LoopAt, QuadAt, Triple;
    if g < q {
      GroupBack(text, m, q, g, newline);
      LoopBack(text, m, q, g + 1, newline, end);
      assert m[3 * g..3 * g + 3] + m[3 * (g + 1)..3 * q] == m[3 * g..3 * q];
      PrependTwice(m[3 * g..3 * g + 3], m[3 * (g + 1)..3 * q], Groups(text, LoopAt(q, newline), end));
    }
  }

  lemma PrependTwice(a: seq<bv8>, b: seq<bv8>, p: Part)
    ensures Prepend(a, Prepend(b, p)) == Prepend(a + b, p)
  {
    if p.Part? {
      assert a + (b + p.bytes) == a + b + p.bytes;
    }
  }

  /** Going on after the last group writes too much, if it does not read beyond the text. */
  lemma OneGroupMore(text: seq<bv8>, p: nat, end: nat)
    ensures p >= end ==> Groups(text, p, end) == Part([], p)
    ensures p < end && Groups(text, p, end).Part? ==> |Groups(text, p, end).bytes| >= 3
  {
  }

  /** The characters of the last group but for padding. */
  function Extra(t: nat): nat {
    if t == 0 then 0 else t + 1
  }

  lemma PaddingStripped(text: seq<bv8>, m: seq<bv8>, newline: bool)
    requires m != [] && |text| >= |Encode(m, newline)| && text[..|Encode(m, newline)|] == Encode(m, newline)
    ensures Stripped(text, |Encode(m, newline)|) == QuadAt(|m| / 3, newline) + Extra(|m| % 3)
    ensures Begins(text, m, |m| / 3, newline)
  {
    hide Char, Six0, Six1, Six2, Six3, Quads;
    var q := |m| / 3;
    var e := Encode(m, newline);
    var k := QuadAt(q, newline);
    assert text[..k] == e[..k];
    TailAt(text, m, newline);
    if |m| % 3 == 0 {
      LastNotPad(text, m, q, newline);
    }
  }

  /** The last characters of encoded text. */
  lemma TailAt(text: seq<bv8>, m: seq<bv8>, newline: bool)
    requires |text| >= |Encode(m, newline)| && text[..|Encode(m, newline)|] == Encode(m, newline)
    ensures var k, t := QuadAt(|m| / 3, newline), |m| % 3;
            && (t == 0 ==> |Encode(m, newline)| == k)
            && (t > 0 ==> |Encode(m, newline)| == k + 4 && text[k..k + 4] == Tail(m) && text[k + 3] == PAD
                          && (text[k + 2] == PAD <==> t == 1) && text[k + 1] != PAD)
  {
    hide Char, Quads, Tail, QuadAt;
    var k, e := QuadAt(|m| / 3, newline), |Encode(m, newline)|;
    assert Encode(m, newline)[k..e] == Tail(m);
    InPrefix(text, e, k, e);
    TailChars(m);
    assert |m| % 3 > 0 ==> text[k + 1] == Tail(m)[1] && text[k + 2] == Tail(m)[2] && text[k + 3] == Tail(m)[3];
  }

  /** The padding characters are at the end, and only there. */
  lemma TailChars(m: seq<bv8>)
    ensures |m| % 3 > 0 ==> Tail(m)[3] == PAD && (Tail(m)[2] == PAD <==> |m| % 3 == 1) && Tail(m)[1] != PAD
  {
    hide Char, Six0, Six1, Six2, Six3;
    if |m| % 3 > 0 {
      LastSixes(m[|m| - |m| % 3]);
      LastSixes(m[|m| - 1]);
      TextNotPad(m[|m| - |m| % 3], m[|m| - 1]);
    }
  }

  lemma LastSixes(a: bv8)
    ensures (a & 0x03) << 4 == Six1(a, 0) && (a & 0x0f) << 2 == Six2(a, 0)
  {
  }

  lemma TextNotPad(a: bv8, b: bv8)
    ensures Char(Six0(a)) != PAD && Char(Six1(a, 0)) != PAD && Char(Six1(a, b)) != PAD
    ensures Char(Six2(b, 0)) != PAD && Char(Six3(b)) != PAD
  {
    hide Char, Six0, Six1, Six2, Six3;
    SixBits(a, 0, b);
    SixBits(a, b, 0);
    RevcharOfChar(Six0(a));
    RevcharOfChar(Six1(a, 0));
    RevcharOfChar(Six1(a, b));
    RevcharOfChar(Six2(b, 0));
    RevcharOfChar(Six3(b));
  }

  lemma LastNotPad(text: seq<bv8>, m: seq<bv8>, q: nat, newline: bool)
    requires q > 0 && 3 * q <= |m| && Begins(text, m, q, newline)
    ensures text[QuadAt(q, newline) - 1] != PAD
  {
    hide Char, Six0, Six1, Six2, Six3, Quads, Begins;
    BeginsShorter(text, m, q, newline);
    var p := QuadAt(q - 1, newline);
    assert text[p + 3] == text[p..p + 4][3] == Quad(m, q - 1)[3];
    TextNotPad(m[3 * q - 3], m[3 * q - 1]);
  }

  // ------------------------------------------------------------- when decoding undoes encoding

  /**
   The lengths for which it does: always without newlines; with them, if the number of full
   lines is a multiple of four and a whole group stands on the line after them (or there is
   no full line), or if it is one more than that and no padding is needed.
   */
  predicate Decodable(n: nat, newline: bool) {
    || !newline
    || (n / 57 % 4 == 0 && (n < 57 || n % 57 >= 3))
    || (n / 57 % 4 == 1 && n % 3 == 0)
  }

  /** The characters that are left after the padding is stripped. */
  function TextLength(n: nat, newline: bool): nat {
    QuadAt(n / 3, newline) + Extra(n % 3)
  }

  lemma LinesOfLength(n: nat)
    ensures var q := n / 3; q / 19 == n / 57 && n % 57 == 3 * (q % 19) + n % 3
  {
  }

  lemma LoopEnd(q: nat, newline: bool)
    ensures LoopAt(q, newline) == QuadAt(q, newline) - if EndsLine(q, newline) then 1 else 0
  {
  }

  /** The loop always reaches the last group. */
  lemma LoopReachesLast(n: nat, newline: bool, h: nat)
    requires h < n / 3
    ensures LoopAt(h, newline) < TextLength(n, newline) / 4 * 4
  {
    var q := n / 3;
    LoopEnd(h, newline);
    var k := TextLength(n, newline);
    assert Lines(h, newline) <= Lines(q, newline);
    assert QuadAt(h, newline) + 4 <= QuadAt(q, newline) <= k;
    assert k / 4 * 4 + 3 >= k;
  }

  lemma QuarterOfSum(q: nat, y: nat, z: nat)
    requires z < 8
    ensures var k := 4 * q + 4 * y + z; k % 4 == (if z < 4 then z else z - 4) && k / 4 * 4 == k - k % 4
  {
    var k := 4 * q + 4 * y + z;
    assert k == 4 * (q + y) + z;
  }

  /** `d` is 1 if the newline behind the last group is not skipped. */
  lemma StopArithmetic(q: nat, lines: nat, t: nat, d: nat)
    requires t < 3 && d <= 1
    ensures var k := 4 * q + lines + Extra(t);
            && (4 * q + lines - d >= k / 4 * 4 && Count(k % 4) == t
                <==> (d == 0 && lines % 4 == 0) || (t == 0 && lines % 4 == 1))
            && (d == 0 && lines % 4 == 0 && t > 0 ==> k % 4 == t + 1)
  {
    QuarterOfSum(q, lines / 4, lines % 4 + Extra(t));
    assert lines == 4 * (lines / 4) + lines % 4;
  }

  /** It stops there, with the right number of characters left, exactly for the decodable lengths. */
  lemma StopsInTime(n: nat, newline: bool)
    ensures var q, k := n / 3, TextLength(n, newline);
            && (Decodable(n, newline) <==> LoopAt(q, newline) >= k / 4 * 4 && Count(k % 4) == n % 3)
            && (Decodable(n, newline) && n % 3 > 0 ==> LoopAt(q, newline) == QuadAt(q, newline) && k % 4 == n % 3 + 1)
  {
    hide LoopAt, Count, Extra;
    var q := n / 3;
    LinesOfLength(n);
    LoopEnd(q, newline);
    StopArithmetic(q, Lines(q, newline), n % 3, if EndsLine(q, newline) then 1 else 0);
    LinesDecodable(n);
  }

  lemma LinesDecodable(n: nat)
    ensures var q, lines := n / 3, n / 57;
            Decodable(n, true) <==> (!EndsLine(q, true) && lines % 4 == 0) || (n % 3 == 0 && lines % 4 == 1)
  {
    LinesOfLength(n);
  }

  /** The characters of the last one or two bytes give them back. */
  lemma TailBack(text: seq<bv8>, m: seq<bv8>, p: nat)
    requires |m| % 3 > 0 && p + 4 <= |text| && text[p..p + 4] == Tail(m)
    ensures Rest(text, p, |m| % 3 + 1) == Some(m[|m| - |m| % 3..])
  {
    hide Char, Six0, Six1, Six2, Six3, Join0, Join1, Join2;
    var n, last, t := |m| - |m| % 3, |m| - 1, text[p..p + 4];
    assert text[p] == t[0] && text[p + 1] == t[1] && text[p + 2] == t[2];
    LastSixes(m[n]);
    LastSixes(m[last]);
    JoinBack(m[n], 0, 0);
    JoinBack(m[n], m[last], 0);
    assert m[n..] == if |m| % 3 == 1 then [m[n]] else [m[n], m[last]];
  }

  /** The bytes of the loop and of the rest, if neither reads beyond the text. */
  lemma DecodeParts(text: seq<bv8>, len: nat, k: nat)
    requires len <= |text| && k == Stripped(text, len)
    ensures var loop := Groups(text, 0, k / 4 * 4);
            && (Decode(text, len).Some? <==> loop.Part? && Rest(text, loop.pos, k % 4).Some?)
            && (Decode(text, len).Some? ==> Decode(text, len).value == loop.bytes + Rest(text, loop.pos, k % 4).value)
  {
    hide Stripped, Groups, Rest;
  }

  lemma RestLength(text: seq<bv8>, p: nat, left: nat)
    ensures Rest(text, p, left).Some? ==> |Rest(text, p, left).value| == Count(left)
  {
    hide Join0, Join1;
  }

  /**
   Decoding undoes encoding exactly for the decodable lengths, whatever stands in memory
   behind the text. For the others the code writes a wrong number of bytes.
   */
  lemma RoundTrip(m: seq<bv8>, newline: bool, after: seq<bv8>)
    requires m != []
    ensures Decode(Encode(m, newline) + after, |Encode(m, newline)|) == Some(m) <==> Decodable(|m|, newline)
    ensures !Decodable(|m|, newline) ==>
              Decode(Encode(m, newline) + after, |Encode(m, newline)|).None?
              || |Decode(Encode(m, newline) + after, |Encode(m, newline)|).value| != |m|
  {
    hide Encode, Decode, Decodable, Begins, Tail, Quads, Groups, Rest, Stripped, LoopAt, QuadAt, TextLength;
    var text, len, n, q := Encode(m, newline) + after, |Encode(m, newline)|, |m|, |m| / 3;
    assert text[..len] == Encode(m, newline);
    PaddingStripped(text, m, newline);
    var k := Stripped(text, len);
    StrippedLength(n, newline);
    DecodeParts(text, len, k);
    LoopOnText(text, m, newline, k / 4 * 4);
    StopsInTime(n, newline);
    var pos := LoopAt(q, newline);
    OneGroupMore(text, pos, k / 4 * 4);
    RestLength(text, pos, k % 4);
    if Decodable(n, newline) {
      assert m[..3 * q] + [] == m[..3 * q];
      assert m[..3 * q] + m[3 * q..] == m;
      TailAt(text, m, newline);
      if n % 3 > 0 {
        TailBack(text, m, QuadAt(q, newline));
      } else {
        RestNone(text, pos, k % 4);
      }
    }
  }

  lemma RestNone(text: seq<bv8>, p: nat, left: nat)
    requires Count(left) == 0
    ensures Rest(text, p, left) == Some([])
  {
  }

  /** The loop takes all whole groups, and goes on if it has not reached the end. */
  lemma LoopOnText(text: seq<bv8>, m: seq<bv8>, newline: bool, end: nat)
    requires Begins(text, m, |m| / 3, newline) && end == TextLength(|m|, newline) / 4 * 4
    ensures var q := |m| / 3; Groups(text, 0, end) == Prepend(m[..3 * q], Groups(text, LoopAt(q, newline), end))
  {
    hide Begins, Groups, LoopAt, TextLength;
    var q := |m| / 3;
    forall h | 0 <= h < q ensures LoopAt(h, newline) < end {
      LoopReachesLast(|m|, newline, h);
    }
    LoopBack(text, m, q, 0, newline, end);
    LoopStart(newline);
    assert m[3 * 0..3 * q] == m[..3 * q];
  }

  // ------------------------------------------------------------- when decoding reads behind the text

  /**
   The lengths for which it does so on wrapped text: after a multiple of four full lines
   with no whole group behind them, after two more if no padding is needed, and after three
   more unless two padding characters are.
   */
  predicate ReadsBehind(n: nat, newline: bool) {
    newline &&
    var l := n / 57 % 4;
    || (l == 0 && n >= 57 && n % 57 < 3)
    || (l == 2 && n % 3 == 0)
    || (l == 3 && n % 3 != 1)
  }

  /** The rest needs as many characters as are left, if it is two or three. */
  lemma RestReads(text: seq<bv8>, p: nat, left: nat)
    ensures Rest(text, p, left).None? <==> left in {2, 3} && p + left > |text|
  {
    hide Join0, Join1;
  }

  /** What a loop that goes on behind the last whole group finds there: nothing, or the padded characters. */
  lemma LastGroup(text: seq<bv8>, m: seq<bv8>, newline: bool, end: nat)
    requires m != [] && text == Encode(m, newline)
    requires LoopAt(|m| / 3, newline) < end <= TextLength(|m|, newline)
    ensures |text| == QuadAt(|m| / 3, newline) + if |m| % 3 == 0 then 0 else 4
    ensures |m| % 3 == 0 ==> Groups(text, LoopAt(|m| / 3, newline), end).Overrun?
    ensures |m| % 3 > 0 ==> Groups(text, LoopAt(|m| / 3, newline), end).Part?
                            && Groups(text, LoopAt(|m| / 3, newline), end).pos == |text|
  {
    hide Encode, Tail, Quads, Begins, Triple, TextLength;
    var q := |m| / 3;
    var pos, p := LoopAt(q, newline), QuadAt(q, newline);
    assert text[..|text|] == text;
    PaddingStripped(text, m, newline);
    TailAt(text, m, newline);
    LoopEnd(q, newline);
    StrippedLength(|m|, newline);
    SkipsToTail(text, m, newline);
    if |m| % 3 > 0 {
      OneGroupMore(text, |text|, end);
    }
  }

  lemma SkipsToTail(text: seq<bv8>, m: seq<bv8>, newline: bool)
    requires m != [] && text == Encode(m, newline) && LoopAt(|m| / 3, newline) < |text|
    ensures Skip(text, LoopAt(|m| / 3, newline)) == QuadAt(|m| / 3, newline)
  {
    hide Encode, Tail, Quads, Begins, QuadAt;
    var q := |m| / 3;
    assert text[..|text|] == text;
    PaddingStripped(text, m, newline);
    TailAt(text, m, newline);
    LoopEnd(q, newline);
    if EndsLine(q, newline) {
      BeginsShorter(text, m, q, newline);
    } else {
      var k := QuadAt(q, newline);
      assert text[k] == text[k..k + 4][0];
      TailIsText(m);
    }
  }

  /** The arithmetic of it; `d` is 1 if the newline behind the last group is not skipped. */
  lemma OverrunArithmetic(q: nat, lines: nat, t: nat, d: nat)
    requires t < 3 && d <= 1 && d <= lines
    ensures var k, size := 4 * q + lines + Extra(t), 4 * q + lines + if t == 0 then 0 else 4;
            var pos, end, left := 4 * q + lines - d, k / 4 * 4, k % 4;
            var stop := if pos >= end then pos else size;
            (pos < end && t == 0) || (left in {2, 3} && stop + left > size)
            <==> (lines % 4 == 0 && d == 1) || (lines % 4 == 2 && t == 0) || (lines % 4 == 3 && t != 1)
  {
    QuarterOfSum(q, lines / 4, lines % 4 + Extra(t));
    assert lines == 4 * (lines / 4) + lines % 4;
  }

  lemma LinesReadBehind(n: nat)
    ensures var q, lines := n / 3, n / 57;
            ReadsBehind(n, true) <==>
              (lines % 4 == 0 && EndsLine(q, true)) || (lines % 4 == 2 && n % 3 == 0) || (lines % 4 == 3 && n % 3 != 1)
  {
    LinesOfLength(n);
  }

  /** Decoding encoded text reads memory behind it for exactly these lengths. */
  lemma OverrunsExactly(m: seq<bv8>, newline: bool)
    requires m != []
    ensures Decode(Encode(m, newline), |Encode(m, newline)|).None? <==> ReadsBehind(|m|, newline)
  {
    hide Encode, Decode, ReadsBehind, Begins, Tail, Quads, Groups, Rest, Stripped, LoopAt, QuadAt, TextLength, Extra;
    var text, n, q := Encode(m, newline), |m|, |m| / 3;
    assert text[..|text|] == text;
    PaddingStripped(text, m, newline);
    var k := Stripped(text, |text|);
    StrippedLength(n, newline);
    DecodeParts(text, |text|, k);
    LoopOnText(text, m, newline, k / 4 * 4);
    TailAt(text, m, newline);
    OverrunParts(text, m, newline, k);
    OverrunCases(n, newline);
  }

  /** The two ways to read behind the text: in the loop, or with the characters that are left. */
  lemma OverrunParts(text: seq<bv8>, m: seq<bv8>, newline: bool, k: nat)
    requires m != [] && text == Encode(m, newline) && k == TextLength(|m|, newline)
    ensures var pos, end := LoopAt(|m| / 3, newline), k / 4 * 4;
            var rest := Groups(text, pos, end);
            var stop := if pos >= end then pos else |text|;
            rest.Overrun? || Rest(text, rest.pos, k % 4).None?
            <==> (pos < end && |m| % 3 == 0) || (k % 4 in {2, 3} && stop + k % 4 > |text|)
  {
    hide Encode, Groups, Rest, LoopAt, TextLength;
    var pos, end := LoopAt(|m| / 3, newline), k / 4 * 4;
    OneGroupMore(text, pos, end);
    if pos < end {
      LastGroup(text, m, newline, end);
    }
    RestReads(text, if pos >= end then pos else |text|, k % 4);
  }

  lemma OverrunCases(n: nat, newline: bool)
    ensures var q, k, size := n / 3, TextLength(n, newline), QuadAt(n / 3, newline) + if n % 3 == 0 then 0 else 4;
            var pos, end, left := LoopAt(q, newline), k / 4 * 4, k % 4;
            var stop := if pos >= end then pos else size;
            (pos < end && n % 3 == 0) || (left in {2, 3} && stop + left > size) <==> ReadsBehind(n, newline)
  {
    hide LoopAt, Extra, ReadsBehind;
    var q := n / 3;
    LinesOfLength(n);
    LoopEnd(q, newline);
    OverrunArithmetic(q, Lines(q, newline), n % 3, if EndsLine(q, newline) then 1 else 0);
    LinesReadBehind(n);
    NoLinesInside(n);
  }

  lemma NoLinesInside(n: nat)
    ensures !ReadsBehind(n, false)
  {
  }

  /** Text without newlines is never left, whether it is well formed or not. */
  lemma UnwrappedStaysInside(text: seq<bv8>, len: nat)
    requires len <= |text| && NEWLINE !in text[..len]
    ensures Decode(text, len).Some?
  {
    hide Groups, Rest, Stripped;
    var n := Stripped(text, len);
    DecodeParts(text, len, n);
    GroupsStayInside(text, 0, n / 4, len);
    RestReads(text, n / 4 * 4, n % 4);
  }

  lemma {:induction false} GroupsStayInside(text: seq<bv8>, p: nat, groups: nat, len: nat)
    requires p + 4 * groups <= len <= |text| && NEWLINE !in text[..len]
    ensures Groups(text, p, p + 4 * groups).Part? && Groups(text, p, p + 4 * groups).pos == p + 4 * groups
    decreases groups
  {
    hide Triple;
    if groups > 0 {
      assert text[p] == text[..len][p];
      GroupsStayInside(text, p + 4, groups - 1, len);
    }
  }

  /** The smallest case: the 154 characters of any 114 bytes; for fewer bytes no read leaves the text. */
  lemma TwoLinesOverrun(m: seq<bv8>)
    requires m != [] && |m| <= 114
    ensures Decode(Encode(m, true), |Encode(m, true)|).None? <==> |m| == 114
    ensures |m| == 114 ==> |Encode(m, true)| == 154
  {
    hide Encode, Decode, ReadsBehind, EncodedSize;
    OverrunsExactly(m, true);
    EncodedSizeExact(m, true);
    ShortLengths(|m|);
  }

  lemma ShortLengths(n: nat)
    requires n <= 114
    ensures ReadsBehind(n, true) <==> n == 114
    ensures n == 114 ==> EncodedSize(n, true) == 154
  {
    if n < 57 {
      assert n / 57 == 0;
    } else if n < 114 {
      assert n / 57 == 1;
    }
  }

  lemma StrippedLength(n: nat, newline: bool)
    ensures TextLength(n, newline) == QuadAt(n / 3, newline) + Extra(n % 3)
  {
  }

  lemma LoopStart(newline: bool)
    ensures LoopAt(0, newline) == 0
  {
  }

  /** Without newlines, for every non-empty byte string. */
  lemma UnwrappedRoundTrip(m: seq<bv8>)
    requires m != []
    ensures Decode(Encode(m, false), |Encode(m, false)|) == Some(m)
  {
    hide Encode, Decode;
    RoundTrip(m, false, []);
    assert Encode(m, false) + [] == Encode(m, false);
  }

  /** The shortest text that is not decoded correctly: one byte on the second line. */
  lemma SecondLineFails(m: seq<bv8>, after: seq<bv8>)
    requires |m| == 58
    ensures Decode(Encode(m, true) + after, |Encode(m, true)|) != Some(m)
  {
    hide Encode, Decode;
    RoundTrip(m, true, after);
  }

  /** The 77th character is a newline exactly in wrapped text of at least one line. */
  lemma LineBreak(text: seq<bv8>, m: seq<bv8>, newline: bool)
    requires m != [] && |text| >= |Encode(m, newline)| && text[..|Encode(m, newline)|] == Encode(m, newline)
    requires TextLength(|m|, newline) >= 77
    ensures |text| > 76 && (text[76] == NEWLINE <==> newline)
  {
    hide Char, Quads, Six0, Six1, Six2, Six3, Begins, Tail;
    var q := |m| / 3;
    PaddingStripped(text, m, newline);
    if q > 19 || newline {
      BeginsAt(text, m, q, if newline then 19 else 20, newline);
      BeginsShorter(text, m, if newline then 19 else 20, newline);
      if !newline {
        assert text[76] == text[76..80][0];
        FirstIsText(m[57]);
      }
    } else {
      TailAt(text, m, newline);
      assert text[76] == text[76..80][0];
      TailIsText(m);
    }
  }

  lemma TailIsText(m: seq<bv8>)
    requires |m| % 3 > 0
    ensures Tail(m)[0] != NEWLINE
  {
    hide Char, Six0;
    FirstIsText(m[|m| - |m| % 3]);
  }

  /** Dividing by the length of a line counts the newlines. */
  lemma SizeWithoutLines(n: nat, newline: bool)
    ensures var k := TextLength(n, newline);
            var c := if newline && k >= 77 then k - k / 77 else k;
            c / 4 * 3 + Count(c % 4) == n
  {
    LinesOfLength(n);
    var k, rest := TextLength(n, newline), 4 * (n / 3 % 19) + Extra(n % 3);
    if newline {
      assert k == 77 * (n / 57) + rest;
      assert k / 77 == n / 57;
    }
    var c := if newline && k >= 77 then k - k / 77 else k;
    assert c == 4 * (n / 3) + Extra(n % 3);
  }

  /** The size reported for encoded text is right, with newlines and without, also where decoding is not. */
  lemma DecodedSizeExact(m: seq<bv8>, newline: bool, after: seq<bv8>)
    requires m != []
    ensures DecodedSize(Encode(m, newline) + after, |Encode(m, newline)|) == |m|
  {
    hide Encode, Begins, Stripped, TextLength, QuadAt;
    var text, len, n := Encode(m, newline) + after, |Encode(m, newline)|, |m|;
    assert text[..len] == Encode(m, newline);
    PaddingStripped(text, m, newline);
    StrippedLength(n, newline);
    SizeWithoutLines(n, newline);
    if TextLength(n, newline) >= 77 {
      LineBreak(text, m, newline);
    }
  }

  // ------------------------------------------------------------- the implementation

  lemma QuadsStep(m: seq<bv8>, g: nat, newline: bool)
    requires 3 * g + 3 <= |m|
    ensures Quads(m, g + 1, newline)
         == Quads(m, g, newline) + Quad(m, g) + if EndsLine(g + 1, newline) then [NEWLINE] else []
    ensures QuadAt(g + 1, newline) == QuadAt(g, newline) + 4 + if EndsLine(g + 1, newline) then 1 else 0
    ensures EndsLine(g + 1, newline) <==> (QuadAt(g, newline) - Lines(g, newline) + 4) % NEWLINE_INVL == 0 && newline
  {
    hide Quad;
    LinesStep(g, newline);
    FullLine(g + 1);
  }

  /** 76 characters are 19 groups. */
  lemma FullLine(g: nat)
    ensures 4 * g % NEWLINE_INVL == 0 <==> g % 19 == 0
  {
    assert 4 * g == NEWLINE_INVL * (g / 19) + 4 * (g % 19);
  }

  lemma QuadAtMonotone(g: nat, h: nat, newline: bool)
    requires g <= h
    ensures QuadAt(g, newline) <= QuadAt(h, newline) && Lines(g, newline) <= Lines(h, newline)
  {
  }

  /** Writes one group, and the newline if a line is full. */
  method PutQuad(out: array<bv8>, idx2: nat, a: bv8, b: bv8, c: bv8, full: bool) returns (next: nat)
    requires idx2 + 4 + (if full then 1 else 0) <= out.Length
    modifies out
    ensures next == idx2 + 4 + if full then 1 else 0
    ensures out[..next] == old(out[..idx2]) + [Char(Six0(a)), Char(Six1(a, b)), Char(Six2(b, c)), Char(Six3(c))]
                           + if full then [NEWLINE] else []
    ensures out[next..] == old(out[next..])
  {
    hide Char, Six0, Six1, Six2, Six3;
    AppendFour(out, idx2, Char(Six0(a)), Char(Six1(a, b)), Char(Six2(b, c)), Char(Six3(c)));
    next := idx2 + 4;
    if full {
      ghost var before := out[..];
      out[next] := NEWLINE;
      next := next + 1;
      assert out[..next] == before[..next - 1] + [NEWLINE];
      assert out[next..] == before[next..] == before[next - 1..][1..];
    }
  }

  lemma SizeParts(m: seq<bv8>, newline: bool)
    ensures QuadAt(|m| / 3, newline) + (if |m| % 3 == 0 then 0 else 4) == EncodedSize(|m|, newline)
  {
    LinesOfLength(|m|);
  }

  /** The text, or only its length if there is no output. */
  method Base64Encode(input: array<bv8>, out: array?<bv8>, len: nat, newline: bool) returns (idx2: nat)
    requires len <= input.Length
    requires out != null ==> out != input && EncodedSize(len, newline) <= out.Length
    modifies out
    ensures idx2 == EncodedSize(len, newline)
    ensures out != null ==> out[..idx2] == Encode(old(input[..len]), newline) && out[idx2..] == old(out[idx2..])
  {
    hide Quads, QuadAt, Tail;
    var blks, leftOver := len / 3, len % 3;
    if out == null {
      idx2 := blks * 4;
      if leftOver != 0 {
        idx2 := idx2 + 4;
      }
      if newline {
        idx2 := idx2 + len / 57;
      }
    } else {
      SizeParts(input[..len], newline);
      idx2 := PutQuads(input, out, len, newline);
      idx2 := PutTail(input, out, len, idx2);
    }
  }

  /** The loop over the whole groups. */
  method PutQuads(input: array<bv8>, out: array<bv8>, len: nat, newline: bool) returns (idx2: nat)
    requires len <= input.Length && out != input && QuadAt(len / 3, newline) <= out.Length
    modifies out
    ensures idx2 == QuadAt(len / 3, newline) && out[..idx2] == Quads(input[..len], len / 3, newline)
    ensures out[idx2..] == old(out[idx2..])
  {
    hide Quads, QuadAt, Lines, Char, Six0, Six1, Six2, Six3;
    ghost var m, before := input[..len], out[..];
    var idx, newlineCount := 0, 0;
    idx2 := 0;
    ghost var g := 0;
    QuadsNone(m, newline);
    while idx < len / 3 * 3
      invariant idx == 3 * g && g <= len / 3 && idx2 == QuadAt(g, newline) <= out.Length
      invariant newlineCount == Lines(g, newline) <= idx2
      invariant out[..idx2] == Quads(m, g, newline) && out[idx2..] == before[idx2..]
      decreases len - idx
    {
      QuadsStep(m, g, newline);
      QuadAtMonotone(g, len / 3, newline);
      QuadAtMonotone(g + 1, len / 3, newline);
      LinesStep(g, newline);
      var full := (idx2 - newlineCount + 4) % NEWLINE_INVL == 0 && newline;
      idx2 := PutQuad(out, idx2, input[idx], input[idx + 1], input[idx + 2], full);
      if full {
        newlineCount := newlineCount + 1;
      }
      idx, g := idx + 3, g + 1;
    }
  }

  lemma QuadsNone(m: seq<bv8>, newline: bool)
    ensures QuadAt(0, newline) == 0 && Lines(0, newline) == 0 && Quads(m, 0, newline) == []
  {
  }

  lemma LinesStep(g: nat, newline: bool)
    ensures Lines(g + 1, newline) == Lines(g, newline) + if EndsLine(g + 1, newline) then 1 else 0
  {
  }

  /** The last one or two bytes. */
  method PutTail(input: array<bv8>, out: array<bv8>, len: nat, idx2: nat) returns (next: nat)
    requires len <= input.Length && out != input && idx2 + (if len % 3 == 0 then 0 else 4) <= out.Length
    modifies out
    ensures next == idx2 + if len % 3 == 0 then 0 else 4
    ensures out[..next] == old(out[..idx2]) + Tail(old(input[..len]))
    ensures out[next..] == old(out[next..])
  {
    hide Char, Six0, Six1, Six2, Six3;
    var idx := len / 3 * 3;
    next := idx2;
    if len % 3 == 1 {
      AppendFour(out, idx2, Char(Six0(input[idx])), Char((input[idx] & 0x03) << 4), PAD, PAD);
      next := idx2 + 4;
    } else if len % 3 == 2 {
      AppendFour(out, idx2, Char(Six0(input[idx])), Char(Six1(input[idx], input[idx + 1])),
          Char((input[idx + 1] & 0x0f) << 2), PAD);
      next := idx2 + 4;
    }
  }

  /** The three assignments of the decoding loop; in place they never write what is still to be read. */
  method PutTriple(input: array<bv8>, out: array<bv8>, idx: nat, p: nat)
    requires p + 4 <= input.Length && idx + 3 <= out.Length && idx <= p
    modifies out
    ensures [out[idx], out[idx + 1], out[idx + 2]] == Triple(old(input[..]), p)
    ensures forall j | 0 <= j < idx || idx + 3 <= j < out.Length :: out[j] == old(out[j])
  {
    hide Join0, Join1, Join2;
    out[idx] := Join0(input[p], input[p + 1]);
    out[idx + 1] := Join1(input[p + 1], input[p + 2]);
    out[idx + 2] := Join2(input[p + 2], input[p + 3]);
  }

  method AppendTriple(input: array<bv8>, out: array<bv8>, idx: nat, p: nat)
    requires p + 4 <= input.Length && idx + 3 <= out.Length && idx <= p
    modifies out
    ensures out[..idx + 3] == old(out[..idx]) + Triple(old(input[..]), p)
    ensures input[p + 4..] == old(input[p + 4..])
  {
    hide Triple;
    PutTriple(input, out, idx, p);
    assert out[..idx] == old(out[..idx]);
    assert out[..idx + 3] == out[..idx] + [out[idx], out[idx + 1], out[idx + 2]];
  }

  lemma TripleOfTail(text: seq<bv8>, now: seq<bv8>, p: nat)
    requires |text| == |now| && p + 4 <= |text| && text[p..] == now[p..]
    ensures Triple(text, p) == Triple(now, p) && text[p + 4..] == now[p + 4..]
  {
    hide Join0, Join1, Join2;
    assert text[p..][0] == now[p..][0] && text[p..][1] == now[p..][1] && text[p..][2] == now[p..][2]
        && text[p..][3] == now[p..][3];
    assert text[p + 4..] == text[p..][4..] && now[p + 4..] == now[p..][4..];
  }

  /**
   The bytes, or only their number if there is no output. There must be a character that is
   not the first of the padding, and the output has room for what is decoded. No read may
   leave the text: `UnwrappedStaysInside` and `OverrunsExactly` say when that is so. Input and
   output may be the same array.
   */
  method Base64Decode(input: array<bv8>, out: array?<bv8>, len: nat) returns (idx: nat)
    requires 0 < len <= input.Length && Unpadded(input[..], len) > 0
    requires out != null ==> Decode(input[..], len).Some? && |Decode(input[..], len).value| <= out.Length
    modifies out
    ensures out == null ==> idx == DecodedSize(input[..], len)
    ensures out != null ==> idx <= out.Length && Decode(old(input[..]), len) == Some(out[..idx])
  {
    hide Decode, SizeOf;
    var n := len;
    if input[n - 1] == PAD {
      n := n - 1;
    }
    if input[n - 1] == PAD {
      n := n - 1;
    }
    if out == null {
      idx := ReportSize(input, n);
    } else {
      idx := DecodeInto(input, out, len, n);
    }
  }

  /** The branch without an output. */
  method ReportSize(input: array<bv8>, len: nat) returns (idx: nat)
    requires len <= input.Length
    ensures idx == SizeOf(input[..], len)
  {
    var n := len;
    if n >= 77 && input[NEWLINE_INVL] == NEWLINE {
      n := n - n / (NEWLINE_INVL + 1);
    }
    idx := n / 4 * 3;
    if n % 4 == 2 {
      idx := idx + 1;
    } else if n % 4 == 3 {
      idx := idx + 2;
    }
  }

  /** The branch with an output; `n` characters are left without the padding. */
  method DecodeInto(input: array<bv8>, out: array<bv8>, ghost len: nat, n: nat) returns (idx: nat)
    requires len <= input.Length && n == Stripped(input[..], len)
    requires Decode(input[..], len).Some? && |Decode(input[..], len).value| <= out.Length
    modifies out
    ensures idx <= out.Length && Decode(old(input[..]), len) == Some(out[..idx])
  {
    hide Groups, Rest, Decode, Stripped;
    ghost var text := input[..];
    DecodeParts(text, len, n);
    GroupsBeforeRest(text, len, n);
    var idx2;
    idx, idx2 := GetGroups(input, out, n / 4 * 4);
    GetRest(input, out, idx, idx2, n % 4, text);
    idx := idx + Count(n % 4);
  }

  lemma GroupsBeforeRest(text: seq<bv8>, len: nat, n: nat)
    requires len <= |text| && n == Stripped(text, len) && Decode(text, len).Some?
    ensures Groups(text, 0, n / 4 * 4).Part?
    ensures |Decode(text, len).value| == |Groups(text, 0, n / 4 * 4).bytes| + Count(n % 4)
  {
    hide Stripped, Groups, Rest;
    DecodeParts(text, len, n);
    RestLength(text, Groups(text, 0, n / 4 * 4).pos, n % 4);
  }

  lemma GroupsStep(text: seq<bv8>, p: nat, end: nat)
    requires p < end && Groups(text, p, end).Part?
    ensures p < |text| && Skip(text, p) + 4 <= |text| && Groups(text, Skip(text, p) + 4, end).Part?
    ensures Groups(text, p, end) == Prepend(Triple(text, Skip(text, p)), Groups(text, Skip(text, p) + 4, end))
  {
    hide Triple;
  }

  method GetGroups(input: array<bv8>, out: array<bv8>, end: nat) returns (idx: nat, idx2: nat)
    requires Groups(input[..], 0, end).Part? && |Groups(input[..], 0, end).bytes| <= out.Length
    modifies out
    ensures idx <= idx2 && idx <= out.Length && Groups(old(input[..]), 0, end) == Part(out[..idx], idx2)
    ensures idx2 <= input.Length ==> input[idx2..] == old(input[idx2..])
  {
    hide Groups, Triple, Skip;
    ghost var text := input[..];
    idx, idx2 := 0, 0;
    PrependNone(Groups(text, 0, end));
    while idx2 < end
      invariant idx <= idx2 && idx <= out.Length && Groups(text, idx2, end).Part?
      invariant idx2 <= input.Length && input[idx2..] == text[idx2..]
      invariant Groups(text, 0, end) == Prepend(out[..idx], Groups(text, idx2, end))
      decreases end - idx2
    {
      GroupsStep(text, idx2, end);
      SkipStep(text, idx2);
      assert input[idx2..][0] == text[idx2..][0];
      if input[idx2] == NEWLINE {
        assert input[idx2..][1..] == input[idx2 + 1..] && text[idx2..][1..] == text[idx2 + 1..];
        idx2 := idx2 + 1;
      }
      TripleOfTail(text, input[..], idx2);
      PrependTwice(out[..idx], Triple(text, idx2), Groups(text, idx2 + 4, end));
      AppendTriple(input, out, idx, idx2);
      idx, idx2 := idx + 3, idx2 + 4;
    }
    OneGroupMore(text, idx2, end);
    assert out[..idx] + [] == out[..idx];
  }

  lemma SkipStep(text: seq<bv8>, p: nat)
    requires p < |text|
    ensures Skip(text, p) == if text[p] == NEWLINE then p + 1 else p
  {
  }

  lemma PrependNone(p: Part)
    ensures Prepend([], p) == p
  {
    if p.Part? {
      assert [] + p.bytes == p.bytes;
    }
  }

  method GetRest(input: array<bv8>, out: array<bv8>, idx: nat, idx2: nat, left: nat, ghost text: seq<bv8>)
    requires idx <= idx2 && Rest(text, idx2, left).Some? && idx + Count(left) <= out.Length
    requires |text| == input.Length && (idx2 <= input.Length ==> input[idx2..] == text[idx2..])
    modifies out
    ensures out[..idx + Count(left)] == old(out[..idx]) + Rest(text, idx2, left).value
  {
    hide Join0, Join1;
    if left == 2 {
      assert text[idx2..][0] == input[idx2..][0] && text[idx2..][1] == input[idx2..][1];
      out[idx] := Join0(input[idx2], input[idx2 + 1]);
    } else if left == 3 {
      assert text[idx2..][0] == input[idx2..][0] && text[idx2..][1] == input[idx2..][1]
          && text[idx2..][2] == input[idx2..][2];
      out[idx] := Join0(input[idx2], input[idx2 + 1]);
      out[idx + 1] := Join1(input[idx2 + 1], input[idx2 + 2]);
    }
  }
}
