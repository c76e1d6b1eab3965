/**
 The length-prefixed frames of the RPC stream: how a message is packaged, and how a buffer
 is cut into messages.
 */
module RpcFraming {

  newtype byte = x: int | 0 <= x < 256

  type uint32 = x: int | 0 <= x < 0x1_0000_0000

  /** The packed header of 11 bytes. */
  datatype Head = Head(commModel: byte, rpcModel: byte, reqId: uint32, titleSize: byte, contentSize: uint32)

  /** A message; the content starts with the status byte. */
  datatype Message = Message(name: seq<byte>, head: Head, content: seq<byte>)

  const HEAD_SIZE := 11
  const STATUS_SIZE := 1
  const MAX_CONTENT := 0x7FFF_FFFF

  const REQUEST: byte := 0
  const FUTURE: byte := 0
  const CALLBACK: byte := 1

  // ------------------------------------------------------------- header

  /** Little-endian, as the header lies in memory. */
  function LittleEndian(v: uint32): (b: seq<byte>)
    ensures |b| == 4
  {
    [(v % 256) as byte, (v / 256 % 256) as byte, (v / 0x1_0000 % 256) as byte, (v / 0x100_0000) as byte]
  }

  function FromLittleEndian(b: seq<byte>): uint32
    requires |b| == 4
  {
    b[0] as int + 256 * b[1] as int + 0x1_0000 * b[2] as int + 0x100_0000 * b[3] as int
  }

  lemma LittleEndianInverse(v: uint32)
    ensures FromLittleEndian(LittleEndian(v)) == v
  {
    assert v == v % 256 + 256 * (v / 256);
    assert v / 256 == v / 256 % 256 + 256 * (v / 0x1_0000);
    assert v / 0x1_0000 == v / 0x1_0000 % 256 + 256 * (v / 0x100_0000);
  }

  function EncodeHead(h: Head): (b: seq<byte>)
    ensures |b| == HEAD_SIZE
  {
    [h.commModel, h.rpcModel] + LittleEndian(h.reqId) + [h.titleSize] + LittleEndian(h.contentSize)
  }

  function DecodeHead(b: seq<byte>): Head
    requires |b| >= HEAD_SIZE
  {
    Head(b[0], b[1], FromLittleEndian(b[2..6]), b[6], FromLittleEndian(b[7..11]))
  }

  lemma HeadRoundTrip(h: Head, rest: seq<byte>)
    ensures DecodeHead(EncodeHead(h) + rest) == h
  {
    var b := EncodeHead(h) + rest;
    assert b[2..6] == LittleEndian(h.reqId) && b[7..11] == LittleEndian(h.contentSize);
    LittleEndianInverse(h.reqId);
    LittleEndianInverse(h.contentSize);
  }

  lemma LowByteOff(b: int, w: int)
    requires 0 <= b < 256
    ensures (b + 256 * w) / 256 == w && (b + 256 * w) % 256 == b
  {
  }

  lemma LittleEndianBack(b: seq<byte>)
    requires |b| == 4
    ensures LittleEndian(FromLittleEndian(b)) == b
  {
    var v := FromLittleEndian(b);
    var w1 := b[2] as int + 256 * b[3] as int;
    var w0 := b[1] as int + 256 * w1;
    assert v == b[0] as int + 256 * w0;
    LowByteOff(b[0] as int, w0);
    LowByteOff(b[1] as int, w1);
    LowByteOff(b[2] as int, b[3] as int);
    assert v / 0x1_0000 == v / 256 / 256 && v / 0x100_0000 == v / 256 / 256 / 256;
  }

  /** The four bytes of a number, the least significant first. */
  predicate Holds(b: seq<byte>, at: nat, v: int)
    requires at + 4 <= |b|
  {
    v == b[at] as int + 256 * b[at + 1] as int + 256 * 256 * b[at + 2] as int + 256 * 256 * 256 * b[at + 3] as int
  }

  /** The fields in the order of the packed structure: 1, 1, 4, 1 and 4 bytes. */
  lemma HeadLayout(h: Head)
    ensures var b := EncodeHead(h);
            && |b| == 11 && b[0] == h.commModel && b[1] == h.rpcModel && Holds(b, 2, h.reqId)
            && b[6] == h.titleSize && Holds(b, 7, h.contentSize)
  {
    hide LittleEndian, FromLittleEndian;
    LittleEndianInverse(h.reqId);
    LittleEndianInverse(h.contentSize);
    var b := EncodeHead(h);
    assert b[2..6] == LittleEndian(h.reqId) && b[7..11] == LittleEndian(h.contentSize);
    FourBytes(b, 2);
    FourBytes(b, 7);
  }

  lemma FourBytes(b: seq<byte>, at: nat)
    requires at + 4 <= |b|
    ensures Holds(b, at, FromLittleEndian(b[at..at + 4]))
  {
  }

  /** Eleven bytes are a header in exactly one way. */
  lemma HeadBack(s: seq<byte>)
    requires |s| >= 11
    ensures EncodeHead(DecodeHead(s)) == s[..11]
  {
    hide LittleEndian, FromLittleEndian;
    LittleEndianBack(s[2..6]);
    LittleEndianBack(s[7..11]);
    assert s[..11] == [s[0], s[1]] + s[2..6] + [s[6]] + s[7..11];
  }

  // ------------------------------------------------------------- package

  /** Header, name and content; the header has room for 8 bits of name length and 32 of content length. */
  function Package(name: seq<byte>, commModel: byte, rpcModel: byte, reqId: uint32, content: seq<byte>): seq<byte> {
    var titleSize := |name| % 256;
    EncodeHead(Head(commModel, rpcModel, reqId, titleSize as byte, |content| % 0x1_0000_0000))
    + name[..titleSize] + content
  }

  function MessageOf(name: seq<byte>, commModel: byte, rpcModel: byte, reqId: uint32, content: seq<byte>): Message {
    Message(name, Head(commModel, rpcModel, reqId, (|name| % 256) as byte, |content| % 0x1_0000_0000), content)
  }

  /** Messages whose lengths fit the header and pass the check of the decoder. */
  predicate WellFormed(m: Message) {
    && 1 <= |m.name| <= 255 && m.head.titleSize as int == |m.name|
    && |m.content| <= MAX_CONTENT && m.head.contentSize == |m.content|
  }

  function Encode(m: Message): seq<byte> {
    EncodeHead(m.head) + m.name + m.content
  }

  function EncodeAll(ms: seq<Message>): seq<byte> {
    if ms == [] then [] else Encode(ms[0]) + EncodeAll(ms[1..])
  }

  /** The bytes of a packaged message whose lengths fit the header. */
  lemma PackageLayout(name: seq<byte>, commModel: byte, rpcModel: byte, reqId: uint32, content: seq<byte>)
    requires |name| <= 255 && |content| < 0x1_0000_0000
    ensures var p := Package(name, commModel, rpcModel, reqId, content);
            && |p| == 11 + |name| + |content|
            && p[0] == commModel && p[1] == rpcModel && Holds(p, 2, reqId)
            && p[6] as int == |name| && Holds(p, 7, |content|)
            && p[11..11 + |name|] == name && p[11 + |name|..] == content
  {
    hide EncodeHead;
    var h := Head(commModel, rpcModel, reqId, |name| as byte, |content|);
    HeadLayout(h);
    assert Package(name, commModel, rpcModel, reqId, content) == EncodeHead(h) + name + content;
  }

  // ------------------------------------------------------------- unpackage

  /** Whole frames at the front of a buffer, the bytes they take, and whether a bad header follows. */
  datatype Parsed = Parsed(frames: seq<Message>, consumed: nat, bad: bool)

  predicate BadHead(h: Head) {
    h.titleSize == 0 || h.contentSize > MAX_CONTENT
  }

  function FrameSize(h: Head): nat {
    HEAD_SIZE + h.titleSize as int + h.contentSize
  }

  function FrameAt(s: seq<byte>, h: Head): Message
    requires FrameSize(h) <= |s|
  {
    var t := HEAD_SIZE + h.titleSize as int;
    Message(s[HEAD_SIZE..t], h, s[t..FrameSize(h)])
  }

  function Parse(s: seq<byte>): (r: Parsed)
    ensures r.consumed <= |s|
  {
    if |s| < HEAD_SIZE + STATUS_SIZE then Parsed([], 0, false) else
      var h := DecodeHead(s);
      if BadHead(h) then Parsed([], 0, true)
      else if |s| < FrameSize(h) then Parsed([], 0, false)
      else
        var rest := Parse(s[FrameSize(h)..]);
        Parsed([FrameAt(s, h)] + rest.frames, FrameSize(h) + rest.consumed, rest.bad)
  }

  lemma ParseStep(s: seq<byte>)
    requires CompleteFrame(s)
    ensures var h := DecodeHead(s); var rest := Parse(s[FrameSize(h)..]);
            Parse(s) == Prepend([FrameAt(s, h)], FrameSize(h), rest)
  {
    hide DecodeHead;
  }

  lemma ParseStops(s: seq<byte>)
    requires !CompleteFrame(s)
    ensures Parse(s) == Parsed([], 0, |s| >= HEAD_SIZE + STATUS_SIZE && BadHead(DecodeHead(s)))
  {
    hide DecodeHead;
  }

  /** What `unpackage_msg` returns: nothing but an error once a bad header is met. */
  datatype Unpacked = Unpacked(messages: seq<Message>, dealLen: nat, error: bool)

  function Unpackage(s: seq<byte>): Unpacked {
    var r := Parse(s);
    if r.bad then Unpacked([], 0, true) else Unpacked(r.frames, r.consumed, false)
  }

  method UnpackageMsg(msg: seq<byte>) returns (messages: seq<Message>, dealLen: nat, error: bool)
    ensures Unpacked(messages, dealLen, error) == Unpackage(msg)
  {
    hide DecodeHead, Parse;
    messages := [];
    var offset := 0;
    while |msg| - offset >= HEAD_SIZE + STATUS_SIZE
      invariant offset <= |msg|
      invariant Parse(msg) == Prepend(messages, offset, Parse(msg[offset..]))
    {
      ghost var start := msg[offset..];
      var curHead := DecodeHead(msg[offset..]);
      offset := offset + HEAD_SIZE;
      if curHead.titleSize == 0 || curHead.contentSize > MAX_CONTENT {
        ParseStops(start);
        return [], 0, true;
      }
      if |msg| - offset < curHead.titleSize as int + curHead.contentSize {
        ParseStops(start);
        return messages, offset - HEAD_SIZE, false;
      }
      var rpcName := msg[offset..offset + curHead.titleSize as int];
      offset := offset + curHead.titleSize as int;
      var content := msg[offset..offset + curHead.contentSize];
      offset := offset + curHead.contentSize;
      var item := Message(rpcName, curHead, content);
      ParseStep(start);
      assert item == FrameAt(start, curHead);
      assert msg[offset..] == start[FrameSize(curHead)..];
      PrependTwice(messages, offset - FrameSize(curHead), [item], FrameSize(curHead), Parse(msg[offset..]));
      messages := messages + [item];
    }
    ParseStops(msg[offset..]);
    return messages, offset, false;
  }

  /** A parse result with frames already found in front of it. */
  function Prepend(frames: seq<Message>, consumed: nat, r: Parsed): Parsed {
    Parsed(frames + r.frames, consumed + r.consumed, r.bad)
  }

  lemma PrependTwice(fs: seq<Message>, n: nat, gs: seq<Message>, m: nat, r: Parsed)
    ensures Prepend(fs, n, Prepend(gs, m, r)) == Prepend(fs + gs, n + m, r)
  {
  }

  lemma PrependNothing(r: Parsed)
    ensures Prepend([], 0, r) == r
  {
  }

  // ------------------------------------------------------------- properties of one buffer

  /** A frame whose header is acceptable and whose bytes are all there. */
  predicate CompleteFrame(s: seq<byte>) {
    |s| >= HEAD_SIZE && !BadHead(DecodeHead(s)) && FrameSize(DecodeHead(s)) <= |s|
  }

  /** The 12-byte guard of the loop never leaves a complete frame behind. */
  lemma {:induction false} NoFrameLeftBehind(s: seq<byte>)
    ensures !Parse(s).bad ==> !CompleteFrame(s[Parse(s).consumed..])
  {
    hide DecodeHead, Parse;
    if CompleteFrame(s) {
      ParseStep(s);
      var t := s[FrameSize(DecodeHead(s))..];
      NoFrameLeftBehind(t);
      assert s[Parse(s).consumed..] == t[Parse(t).consumed..];
    } else {
      ParseStops(s);
      assert s[0..] == s;
    }
  }

  lemma EncodeParses(m: Message, rest: seq<byte>)
    requires WellFormed(m)
    ensures Parse(Encode(m) + rest) == Prepend([m], |Encode(m)|, Parse(rest))
  {
    hide EncodeHead, DecodeHead, Parse;
    var s := Encode(m) + rest;
    assert s == EncodeHead(m.head) + (m.name + m.content + rest);
    HeadRoundTrip(m.head, m.name + m.content + rest);
    assert s[FrameSize(m.head)..] == rest;
    FrameOfEncoded(m.head, m.name, m.content, rest);
    ParseStep(s);
  }

  lemma FrameOfEncoded(h: Head, name: seq<byte>, content: seq<byte>, rest: seq<byte>)
    requires h.titleSize as int == |name| && h.contentSize == |content|
    ensures FrameAt(EncodeHead(h) + (name + content + rest), h) == Message(name, h, content)
  {
    hide EncodeHead;
    var s := EncodeHead(h) + (name + content + rest);
    assert s[HEAD_SIZE..HEAD_SIZE + |name|] == name;
    assert s[HEAD_SIZE + |name|..FrameSize(h)] == content;
  }

  /** Decoding undoes encoding for any number of messages, whatever follows them. */
  lemma {:induction false} StreamRoundTrip(ms: seq<Message>, rest: seq<byte>)
    requires forall m | m in ms :: WellFormed(m)
    ensures Parse(EncodeAll(ms) + rest) == Prepend(ms, |EncodeAll(ms)|, Parse(rest))
  {
    hide Encode, Parse, WellFormed;
    if ms == [] {
      assert EncodeAll(ms) + rest == rest;
      PrependNothing(Parse(rest));
    } else {
      var tail := EncodeAll(ms[1..]) + rest;
      assert EncodeAll(ms) + rest == Encode(ms[0]) + tail;
      StreamRoundTrip(ms[1..], rest);
      EncodeParses(ms[0], tail);
      PrependTwice([ms[0]], |Encode(ms[0])|, ms[1..], |EncodeAll(ms[1..])|, Parse(rest));
      assert ms == [ms[0]] + ms[1..];
    }
  }

  /** A packaged message decodes to itself exactly when its lengths fit the header and the decoder's limit. */
  lemma PackageRoundTrip(name: seq<byte>, commModel: byte, rpcModel: byte, reqId: uint32, content: seq<byte>)
    ensures var p := Package(name, commModel, rpcModel, reqId, content);
            Unpackage(p) == Unpacked([MessageOf(name, commModel, rpcModel, reqId, content)], |p|, false)
            <==> (1 <= |name| <= 255 && |content| <= MAX_CONTENT)
  {
    hide EncodeHead, DecodeHead, Parse;
    var m := MessageOf(name, commModel, rpcModel, reqId, content);
    var p := Package(name, commModel, rpcModel, reqId, content);
    var title := name[..|name| % 256];
    assert p == EncodeHead(m.head) + (title + content);
    HeadRoundTrip(m.head, title + content);
    if 1 <= |name| <= 255 && |content| <= MAX_CONTENT {
      assert title == name && p == Encode(m) + [];
      EncodeParses(m, []);
      ParseStops([]);
    } else if CompleteFrame(p) {
      ParseStep(p);
      assert Parse(p).frames[0] == FrameAt(p, m.head) != m;
    } else {
      ParseStops(p);
    }
  }

  // ------------------------------------------------------------- what decoding finds

  predicate AllWellFormed(ms: seq<Message>) {
    forall m | m in ms :: WellFormed(m)
  }

  /** Less than a frame: too short for a header and a status byte, or for what the header announces. */
  predicate Incomplete(s: seq<byte>) {
    |s| < 12 || (var h := DecodeHead(s); 0 < h.titleSize && h.contentSize <= 0x7FFF_FFFF
                                         && |s| < 11 + h.titleSize as int + h.contentSize)
  }

  /** A header with an empty name, or with a content of 2^31 bytes or more. */
  predicate Malformed(s: seq<byte>) {
    |s| >= 12 && (var h := DecodeHead(s); h.titleSize == 0 || h.contentSize >= 0x8000_0000)
  }

  lemma StopsThere(s: seq<byte>)
    ensures Incomplete(s) ==> Parse(s) == Parsed([], 0, false)
    ensures Malformed(s) ==> Parse(s) == Parsed([], 0, true)
    ensures !CompleteFrame(s) ==> if Parse(s).bad then Malformed(s) else Incomplete(s)
    ensures CompleteFrame(s) ==> !Incomplete(s) && !Malformed(s)
  {
    hide DecodeHead, Parse;
    if !CompleteFrame(s) {
      ParseStops(s);
    }
  }

  lemma FrameBack(s: seq<byte>)
    requires CompleteFrame(s)
    ensures var h := DecodeHead(s); WellFormed(FrameAt(s, h)) && Encode(FrameAt(s, h)) == s[..FrameSize(h)]
  {
    hide DecodeHead, EncodeHead;
    var h := DecodeHead(s);
    HeadBack(s);
    var t := HEAD_SIZE + h.titleSize as int;
    assert s[..FrameSize(h)] == s[..HEAD_SIZE] + s[HEAD_SIZE..t] + s[t..FrameSize(h)];
  }

  /** What was decoded is what encodes to the bytes that were consumed. */
  lemma {:induction false} FramesBack(s: seq<byte>)
    ensures var r := Parse(s);
            && AllWellFormed(r.frames) && EncodeAll(r.frames) == s[..r.consumed]
            && (if r.bad then Malformed(s[r.consumed..]) else Incomplete(s[r.consumed..]))
  {
    hide DecodeHead, Parse, Encode, WellFormed, CompleteFrame, Malformed, Incomplete;
    var r := Parse(s);
    StopsThere(s);
    if CompleteFrame(s) {
      ParseStep(s);
      FrameBack(s);
      FrameInside(s);
      var h := DecodeHead(s);
      var rest := s[FrameSize(h)..];
      FramesBack(rest);
      assert r.frames[1..] == Parse(rest).frames && r.frames[0] == FrameAt(s, h);
      assert s[..r.consumed] == s[..FrameSize(h)] + rest[..Parse(rest).consumed];
      assert s[r.consumed..] == rest[Parse(rest).consumed..];
    } else {
      ParseStops(s);
      assert s[0..] == s;
    }
  }

  lemma FrameInside(s: seq<byte>)
    requires CompleteFrame(s)
    ensures |s| >= HEAD_SIZE && 0 < FrameSize(DecodeHead(s)) <= |s|
  {
    hide DecodeHead;
  }

  /**
   Decoding is exact: it finds these messages in these bytes if and only if the bytes are
   those of well-formed messages, and what follows them is less than a frame.
   */
  lemma UnpackExactly(s: seq<byte>, ms: seq<Message>, n: nat)
    ensures Unpackage(s) == Unpacked(ms, n, false)
       <==> AllWellFormed(ms) && n <= |s| && s[..n] == EncodeAll(ms) && Incomplete(s[n..])
  {
    hide Parse, EncodeAll, WellFormed, Incomplete, Malformed;
    FramesBack(s);
    if AllWellFormed(ms) && n <= |s| && s[..n] == EncodeAll(ms) && Incomplete(s[n..]) {
      assert s == EncodeAll(ms) + s[n..];
      StreamRoundTrip(ms, s[n..]);
      StopsThere(s[n..]);
    }
  }

  /** It fails if and only if a malformed header follows a number of well-formed messages. */
  lemma UnpackFails(s: seq<byte>)
    ensures Unpackage(s).error
       <==> exists ms: seq<Message> :: AllWellFormed(ms) && EncodeAll(ms) <= s && Malformed(s[|EncodeAll(ms)|..])
    ensures Unpackage(s).error ==> Unpackage(s) == Unpacked([], 0, true)
  {
    hide Parse, EncodeAll, WellFormed, Incomplete, Malformed;
    FramesBack(s);
    assert EncodeAll(Parse(s).frames) <= s;
    forall ms: seq<Message> | AllWellFormed(ms) && EncodeAll(ms) <= s && Malformed(s[|EncodeAll(ms)|..])
      ensures Parse(s).bad
    {
      var n := |EncodeAll(ms)|;
      assert s == EncodeAll(ms) + s[n..];
      StreamRoundTrip(ms, s[n..]);
      StopsThere(s[n..]);
    }
  }
}
