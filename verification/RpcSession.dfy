/**
 A session that reads the RPC stream in pieces: it keeps the bytes of an incomplete
 frame, hands whole messages to the dispatcher, and closes on data it cannot accept.
 */
module RpcSession {
  import opened RpcFraming

  /** The messages handled so far, and while the session is open the bytes kept for later. */
  datatype Session = Open(retained: seq<byte>, handled: seq<Message>) | Closed(handled: seq<Message>)

  /** A reply whose model is neither future nor callback makes the dispatcher close the session. */
  predicate Routable(m: Message) {
    m.head.commModel == REQUEST || m.head.rpcModel == FUTURE || m.head.rpcModel == CALLBACK
  }

  predicate AllRoutable(ms: seq<Message>) {
    forall m | m in ms :: Routable(m)
  }

  /** The messages dispatched before the first unroutable one. */
  function Dispatched(ms: seq<Message>): seq<Message> {
    if ms == [] || !Routable(ms[0]) then [] else [ms[0]] + Dispatched(ms[1..])
  }

  /** The state after dispatching the frames at the front of `s`. */
  function Deliver(handled: seq<Message>, s: seq<byte>, r: Parsed): Session
    requires r.consumed <= |s|
  {
    if AllRoutable(r.frames) then Open(s[r.consumed..], handled + r.frames) else Closed(handled + Dispatched(r.frames))
  }

  /** One read callback: an error anywhere in the buffer drops all of it. */
  function Receive(st: Session, chunk: seq<byte>): Session {
    match st
    case Closed(_) => st
    case Open(retained, handled) =>
      var buf := retained + chunk;
      var r := Parse(buf);
      if r.bad then Closed(handled) else Deliver(handled, buf, r)
  }

  function ReceiveAll(st: Session, chunks: seq<seq<byte>>): Session
    decreases |chunks|
  {
    if chunks == [] then st else ReceiveAll(Receive(st, chunks[0]), chunks[1..])
  }

  function Flatten(chunks: seq<seq<byte>>): seq<byte>
    decreases |chunks|
  {
    if chunks == [] then [] else chunks[0] + Flatten(chunks[1..])
  }

  const FRESH := Open([], [])

  // ------------------------------------------------------------- the read callback

  class Reader {
    var readBuf: seq<byte>
    var handled: seq<Message>
    var open: bool

    constructor ()
      ensures View() == FRESH
    {
      readBuf, handled, open := [], [], true;
    }

    function View(): Session
      reads this
    {
      if open then Open(readBuf, handled) else Closed(handled)
    }

    method ReadCbk(chunk: seq<byte>)
      modifies this
      ensures View() == Receive(old(View()), chunk)
    {
      hide Parse, Dispatched;
      if !open {
        return;
      }
      readBuf := readBuf + chunk;
      var units, dealLen, error := UnpackageMsg(readBuf);
      if error {
        open := false;
        return;
      }
      Dispatch(units);
      if open {
        readBuf := readBuf[dealLen..];
      }
    }

    /** The loop over the messages of one buffer. */
    method Dispatch(units: seq<Message>)
      requires open
      modifies `handled, `open
      ensures open == AllRoutable(units)
      ensures handled == old(handled) + Dispatched(units)
      ensures open ==> handled == old(handled) + units
    {
      for i := 0 to |units|
        invariant open && AllRoutable(units[..i])
        invariant handled == old(handled) + units[..i]
      {
        var item := units[i];
        DispatchedUpTo(units, i);
        if item.head.commModel != REQUEST && item.head.rpcModel != FUTURE && item.head.rpcModel != CALLBACK {
          open := false;
          return;
        }
        handled := handled + [item];
      }
      DispatchedAppend(units, []);
      assert units[..|units|] == units && units + [] == units;
    }
  }

  lemma DispatchedUpTo(ms: seq<Message>, i: nat)
    requires i < |ms| && AllRoutable(ms[..i])
    ensures ms[..i + 1] == ms[..i] + [ms[i]]
    ensures Routable(ms[i]) ==> AllRoutable(ms[..i + 1])
    ensures !Routable(ms[i]) ==> Dispatched(ms) == ms[..i] && !AllRoutable(ms)
  {
    hide AllRoutable, Dispatched, Routable;
    assert ms[..i + 1] == ms[..i] + [ms[i]];
    assert ms == ms[..i] + ms[i..];
    AllRoutableAppend(ms[..i], [ms[i]]);
    AllRoutableAppend(ms[..i], ms[i..]);
    DispatchedAppend(ms[..i], ms[i..]);
    StopsAtFirst(ms[i..]);
    OneRoutable(ms[i]);
  }

  lemma StopsAtFirst(ms: seq<Message>)
    requires ms != []
    ensures !Routable(ms[0]) ==> Dispatched(ms) == [] && !AllRoutable(ms)
  {
    hide Routable;
    assert ms[0] in ms;
  }

  lemma OneRoutable(m: Message)
    ensures AllRoutable([m]) <==> Routable(m)
  {
    hide Routable;
    assert m in [m];
  }

  // ------------------------------------------------------------- chunking

  /** Decoding a longer buffer first decodes what a shorter one held. */
  lemma {:induction false} ParseAppend(a: seq<byte>, b: seq<byte>)
    ensures var r := Parse(a);
            if r.bad then Parse(a + b).bad && Parse(a + b).frames == r.frames
            else Parse(a + b) == Prepend(r.frames, r.consumed, Parse(a[r.consumed..] + b))
  {
    hide DecodeHead, Parse;
    if CompleteFrame(a) {
      var h := DecodeHead(a);
      var t := a[FrameSize(h)..];
      SameHead(a, b);
      ParseStep(a);
      ParseStep(a + b);
      assert FrameAt(a + b, h) == FrameAt(a, h);
      assert (a + b)[FrameSize(h)..] == t + b;
      ParseAppend(t, b);
      if !Parse(a).bad {
        PrependTwice([FrameAt(a, h)], FrameSize(h), Parse(t).frames, Parse(t).consumed,
            Parse(t[Parse(t).consumed..] + b));
        assert a[Parse(a).consumed..] == t[Parse(t).consumed..];
      }
    } else {
      ParseStops(a);
      if Parse(a).bad {
        SameHead(a, b);
        ParseStops(a + b);
      } else {
        assert a[0..] == a;
        PrependNothing(Parse(a + b));
      }
    }
  }

  lemma SameHead(a: seq<byte>, b: seq<byte>)
    requires |a| >= HEAD_SIZE
    ensures DecodeHead(a + b) == DecodeHead(a)
  {
    assert (a + b)[2..6] == a[2..6] && (a + b)[7..11] == a[7..11];
  }

  /** What is left over after a decode holds nothing to decode. */
  lemma LeftoverIsIdle(s: seq<byte>)
    requires !Parse(s).bad
    ensures Parse(s[Parse(s).consumed..]) == Parsed([], 0, false)
  {
    hide Parse;
    var t := s[Parse(s).consumed..];
    ParseAppend(s, []);
    assert s + [] == s && t + [] == t;
    assert |Parse(s).frames| == |Parse(s).frames + Parse(t).frames|;
  }

  lemma {:induction false} DispatchedAppend(a: seq<Message>, b: seq<Message>)
    ensures AllRoutable(a) ==> Dispatched(a + b) == a + Dispatched(b)
    ensures !AllRoutable(a) ==> Dispatched(a + b) == Dispatched(a)
    ensures Dispatched(a) <= a
  {
    if a == [] {
      assert a + b == b;
    } else {
      assert (a + b)[1..] == a[1..] + b;
      assert a == [a[0]] + a[1..];
      DispatchedAppend(a[1..], b);
    }
  }

  /** From any idle state: as long as no bad header comes, pieces and whole give the same. */
  lemma {:induction false} ReceiveInPieces(retained: seq<byte>, handled: seq<Message>, chunks: seq<seq<byte>>)
    requires Parse(retained) == Parsed([], 0, false) && !Parse(retained + Flatten(chunks)).bad
    ensures ReceiveAll(Open(retained, handled), chunks) == Receive(Open(retained, handled), Flatten(chunks))
    decreases |chunks|
  {
    hide Parse;
    if chunks == [] {
      assert retained + [] == retained && retained[0..] == retained && handled + [] == handled;
    } else {
      var buf := retained + chunks[0];
      var rest := Flatten(chunks[1..]);
      var r := Parse(buf);
      assert retained + Flatten(chunks) == buf + rest;
      ParseAppend(buf, rest);
      var left := buf[r.consumed..];
      var p := Parse(left + rest);
      DispatchedAppend(r.frames, p.frames);
      assert (buf + rest)[r.consumed + p.consumed..] == (left + rest)[p.consumed..];
      assert handled + (r.frames + p.frames) == handled + r.frames + p.frames;
      if AllRoutable(r.frames) {
        LeftoverIsIdle(buf);
        ReceiveInPieces(left, handled + r.frames, chunks[1..]);
        assert handled + (r.frames + Dispatched(p.frames)) == handled + r.frames + Dispatched(p.frames);
        AllRoutableAppend(r.frames, p.frames);
      } else {
        ClosedStays(handled + Dispatched(r.frames), chunks[1..]);
      }
    }
  }

  lemma AllRoutableAppend(a: seq<Message>, b: seq<Message>)
    ensures AllRoutable(a + b) <==> AllRoutable(a) && AllRoutable(b)
  {
    forall m | m in a + b ensures m in a || m in b {
    }
  }

  lemma {:induction false} ClosedStays(handled: seq<Message>, chunks: seq<seq<byte>>)
    ensures ReceiveAll(Closed(handled), chunks) == Closed(handled)
    decreases |chunks|
  {
    if chunks != [] {
      ClosedStays(handled, chunks[1..]);
    }
  }

  /** However a stream without a bad header is cut, the session ends in the same state as when it comes at once. */
  lemma ChunkingIrrelevant(chunks: seq<seq<byte>>)
    requires !Parse(Flatten(chunks)).bad
    ensures ReceiveAll(FRESH, chunks) == Receive(FRESH, Flatten(chunks))
  {
    assert [] + Flatten(chunks) == Flatten(chunks);
    ReceiveInPieces([], [], chunks);
  }

  /** With a bad header the session always ends closed, and has handled some of the messages before it, in order. */
  lemma {:induction false} BadStreamCloses(retained: seq<byte>, handled: seq<Message>, chunks: seq<seq<byte>>)
    requires Parse(retained) == Parsed([], 0, false) && Parse(retained + Flatten(chunks)).bad
    ensures var st := ReceiveAll(Open(retained, handled), chunks);
            st.Closed? && handled <= st.handled <= handled + Dispatched(Parse(retained + Flatten(chunks)).frames)
    decreases |chunks|
  {
    hide Parse;
    assert retained + [] == retained;
    if chunks != [] {
      var buf := retained + chunks[0];
      var rest := Flatten(chunks[1..]);
      var r := Parse(buf);
      assert retained + Flatten(chunks) == buf + rest;
      ParseAppend(buf, rest);
      if r.bad {
        ClosedStays(handled, chunks[1..]);
      } else {
        var left := buf[r.consumed..];
        var p := Parse(left + rest);
        DispatchedAppend(r.frames, p.frames);
        if AllRoutable(r.frames) {
          LeftoverIsIdle(buf);
          BadStreamCloses(left, handled + r.frames, chunks[1..]);
          assert handled + (r.frames + Dispatched(p.frames)) == handled + r.frames + Dispatched(p.frames);
        } else {
          ClosedStays(handled + Dispatched(r.frames), chunks[1..]);
        }
      }
    }
  }

  /** A bad stream that comes at once is dropped whole. */
  lemma BadStreamDropped(s: seq<byte>)
    requires Parse(s).bad
    ensures Receive(FRESH, s) == Closed([])
  {
    hide Parse;
    assert [] + s == s;
  }

  lemma TwoPieces(a: seq<byte>, b: seq<byte>)
    ensures Flatten([a, b]) == a + b
    ensures ReceiveAll(FRESH, [a, b]) == ReceiveAll(Receive(FRESH, a), [b])
  {
    assert [a, b][1..] == [b];
    SinglePiece(b);
  }

  lemma FirstFrameAlone(s: seq<byte>)
    requires CompleteFrame(s)
    ensures var h := DecodeHead(s);
            Parse(s[..FrameSize(h)]) == Parsed([FrameAt(s, h)], FrameSize(h), false)
  {
    hide DecodeHead, Parse;
    var h := DecodeHead(s);
    var a := s[..FrameSize(h)];
    assert a + s[FrameSize(h)..] == s;
    SameHead(a, s[FrameSize(h)..]);
    assert FrameAt(a, h) == FrameAt(s, h);
    assert a[FrameSize(h)..] == [];
    ParseStep(a);
    ParseStops([]);
  }

  lemma OpenWithAll(a: seq<byte>, ms: seq<Message>)
    requires Parse(a) == Parsed(ms, |a|, false) && AllRoutable(ms)
    ensures Receive(FRESH, a) == Open([], ms)
  {
    hide Parse;
    assert [] + a == a && a[|a|..] == [] && [] + ms == ms;
  }

  lemma SinglePiece(b: seq<byte>)
    ensures Flatten([b]) == b
  {
    assert [b][1..] == [] && Flatten([]) == [];
  }

  /** A cut behind the first frame, if that is routable, keeps it from being dropped with the bad header. */
  lemma CutBehindFirst(s: seq<byte>)
    requires Parse(s).bad && Dispatched(Parse(s).frames) != []
    ensures CompleteFrame(s)
    ensures var n := FrameSize(DecodeHead(s));
            Flatten([s[..n], s[n..]]) == s && ReceiveAll(FRESH, [s[..n], s[n..]]) != Receive(FRESH, s)
  {
    hide DecodeHead, Parse, Receive, ReceiveAll, Flatten;
    if !CompleteFrame(s) {
      ParseStops(s);
    }
    var n := FrameSize(DecodeHead(s));
    var a, b, f := s[..n], s[n..], FrameAt(s, DecodeHead(s));
    assert a + b == s && [] + b == b;
    ParseStep(s);
    FirstFrameAlone(s);
    OneRoutable(f);
    OpenWithAll(a, [f]);
    TwoPieces(a, b);
    SinglePiece(b);
    ParseStops([]);
    BadStreamCloses([], [f], [b]);
    BadStreamDropped(s);
  }

  /**
   The streams on which the cut does not matter are those without a bad header and those
   whose first frame, if any, closes the session by itself.
   */
  lemma ChunkingExactly(s: seq<byte>)
    ensures (forall chunks | Flatten(chunks) == s :: ReceiveAll(FRESH, chunks) == Receive(FRESH, s))
       <==> !Parse(s).bad || Dispatched(Parse(s).frames) == []
  {
    hide Parse, Receive, ReceiveAll, Flatten, Dispatched;
    if !Parse(s).bad {
      forall chunks | Flatten(chunks) == s ensures ReceiveAll(FRESH, chunks) == Receive(FRESH, s) {
        ChunkingIrrelevant(chunks);
      }
    } else if Dispatched(Parse(s).frames) == [] {
      BadStreamDropped(s);
      ParseStops([]);
      forall chunks | Flatten(chunks) == s ensures ReceiveAll(FRESH, chunks) == Receive(FRESH, s) {
        assert [] + s == s;
        BadStreamCloses([], [], chunks);
      }
    } else {
      CutBehindFirst(s);
    }
  }

  /**
   For example: routable messages that come in an earlier piece are all handled, the same
   messages in one piece with a bad header are dropped.
   */
  lemma ChunkingMattersBeforeBadHeader(ms: seq<Message>, junk: seq<byte>)
    requires (forall m | m in ms :: WellFormed(m)) && AllRoutable(ms)
    requires |junk| >= HEAD_SIZE + STATUS_SIZE && BadHead(DecodeHead(junk))
    ensures ReceiveAll(FRESH, [EncodeAll(ms), junk]) == Closed(ms)
    ensures ReceiveAll(FRESH, [EncodeAll(ms) + junk]) == Closed([])
  {
    hide DecodeHead, Parse, Receive, ReceiveAll, EncodeAll;
    var a := EncodeAll(ms);
    StreamRoundTrip(ms, junk);
    StreamRoundTrip(ms, []);
    ParseStops([]);
    ParseStops(junk);
    assert a + [] == a && ms + [] == ms;
    OpenWithAll(a, ms);
    TwoPieces(a, junk);
    OnePiece(Open([], ms), junk);
    BadPieceCloses(ms, junk);
    OnePiece(FRESH, a + junk);
    BadStreamDropped(a + junk);
  }

  lemma OnePiece(st: Session, b: seq<byte>)
    ensures ReceiveAll(st, [b]) == Receive(st, b)
  {
    hide Receive;
    assert [b][1..] == [];
  }

  lemma BadPieceCloses(ms: seq<Message>, b: seq<byte>)
    requires Parse(b).bad
    ensures Receive(Open([], ms), b) == Closed(ms)
  {
    hide Parse;
    assert [] + b == b;
  }

  // ------------------------------------------------------------- what a session hands on

  lemma AllOfKnownModel(ms: seq<Message>)
    requires forall m | m in ms :: m.head.commModel == 0 || m.head.rpcModel == 0 || m.head.rpcModel == 1
    ensures AllRoutable(ms)
  {
  }

  lemma OfUnknownModel(u: Message)
    requires u.head.commModel != 0 && u.head.rpcModel > 1
    ensures !Routable(u)
  {
  }

  /**
   However the bytes of well-formed messages arrive, with the beginning of another frame
   behind them: the messages are handled, each once and in order, and the beginning is kept.
   Requests carry model 0 in their first field, replies 0 or 1 in their second.
   */
  lemma StreamDelivered(ms: seq<Message>, rest: seq<byte>, chunks: seq<seq<byte>>)
    requires AllWellFormed(ms) && Incomplete(rest) && Flatten(chunks) == EncodeAll(ms) + rest
    requires forall m | m in ms :: m.head.commModel == 0 || m.head.rpcModel == 0 || m.head.rpcModel == 1
    ensures ReceiveAll(FRESH, chunks) == Open(rest, ms)
  {
    hide Parse, EncodeAll, AllRoutable, Incomplete, WellFormed, ReceiveAll, Flatten;
    AllOfKnownModel(ms);
    var s := EncodeAll(ms) + rest;
    StreamRoundTrip(ms, rest);
    StopsThere(rest);
    ChunkingIrrelevant(chunks);
    assert [] + s == s && [] + ms == ms && ms + [] == ms && s[|EncodeAll(ms)|..] == rest;
  }

  /** The first reply of unknown model closes the session; the messages before it are handled, none behind it. */
  lemma StreamStopped(a: seq<Message>, u: Message, b: seq<Message>, rest: seq<byte>, chunks: seq<seq<byte>>)
    requires AllWellFormed(a + [u] + b) && Incomplete(rest) && Flatten(chunks) == EncodeAll(a + [u] + b) + rest
    requires forall m | m in a :: m.head.commModel == 0 || m.head.rpcModel == 0 || m.head.rpcModel == 1
    requires u.head.commModel != 0 && u.head.rpcModel > 1
    ensures ReceiveAll(FRESH, chunks) == Closed(a)
  {
    hide Parse, EncodeAll, Incomplete, WellFormed, ReceiveAll, Flatten, Routable;
    AllOfKnownModel(a);
    OfUnknownModel(u);
    var ms := a + [u] + b;
    var s := EncodeAll(ms) + rest;
    StreamRoundTrip(ms, rest);
    StopsThere(rest);
    ChunkingIrrelevant(chunks);
    assert ms == a + ([u] + b) && a + [] == a;
    assert ([u] + b)[0] == u;
    StopsAtFirst([u] + b);
    DispatchedAppend(a, [u] + b);
    AllRoutableAppend(a, [u] + b);
    assert [] + s == s && ms + [] == ms && [] + a == a;
  }
}
