/**
 The resumable frame parser of the echo servers, on values.

 A frame is a four-byte big-endian length followed by that many bytes.  Both servers run the
 same loop over the bytes that have arrived on a connection; they differ only in the largest
 length they accept and in what they do with a larger one.
 */
module FrameParser {
  import opened Bytes

  /** `SessionInfo` together with the unread bytes of the connection's input buffer. */
  datatype Session = Session(recvingHeader: bool, bodySize: nat, input: Bytes)

  /** What one call of the read callback leaves behind.  `refused` tells that it returned early
      because a header announced more than the limit. */
  datatype Outcome = Outcome(session: Session, bodies: seq<Bytes>, refused: bool)

  /** The read loop, run until it stops.  A refused header is consumed and `recvingHeader` is
      cleared, but `bodySize` keeps its old value. */
  function Run(limit: nat, s: Session): Outcome
    decreases |s.input|, if s.recvingHeader then 0 else 1
  {
    if |s.input| == 0 then
      Outcome(s, [], false)
    else if s.recvingHeader then
      if |s.input| < 4 then
        Outcome(s, [], false)
      else if Unsigned32(s.input) > limit then
        Outcome(Session(false, s.bodySize, s.input[4..]), [], true)
      else
        Run(limit, Session(false, Unsigned32(s.input), s.input[4..]))
    else if |s.input| < s.bodySize then
      Outcome(s, [], false)
    else
      Prepend([s.input[..s.bodySize]], Run(limit, Session(true, s.bodySize, s.input[s.bodySize..])))
  }

  function Prepend(bodies: seq<Bytes>, o: Outcome): Outcome {
    o.(bodies := bodies + o.bodies)
  }

  function Arrive(s: Session, chunk: Bytes): Session {
    s.(input := s.input + chunk)
  }

  /** One read event: the chunk is appended to the input buffer and the callback runs. */
  function Feed(limit: nat, s: Session, chunk: Bytes): Outcome {
    Run(limit, Arrive(s, chunk))
  }

  /** A connection that has just been accepted, with `input` already waiting. */
  function Fresh(input: Bytes): Session {
    Session(true, 0, input)
  }

  /** The loop cannot take the next header or body. */
  predicate Stalled(s: Session) {
    |s.input| == 0 || (if s.recvingHeader then |s.input| < 4 else |s.input| < s.bodySize)
  }

  lemma RunStalled(limit: nat, s: Session)
    requires Stalled(s)
    ensures Run(limit, s) == Outcome(s, [], false)
  {
  }

  lemma RunHeader(limit: nat, s: Session)
    requires !Stalled(s) && s.recvingHeader
    ensures Run(limit, s) ==
            if Unsigned32(s.input) > limit then Outcome(Session(false, s.bodySize, s.input[4..]), [], true)
            else Run(limit, Session(false, Unsigned32(s.input), s.input[4..]))
  {
  }

  lemma RunBody(limit: nat, s: Session, bodies: seq<Bytes>)
    requires !Stalled(s) && !s.recvingHeader
    ensures Run(limit, s) ==
            Prepend([s.input[..s.bodySize]], Run(limit, Session(true, s.bodySize, s.input[s.bodySize..])))
    ensures Prepend(bodies, Run(limit, s)) ==
            Prepend(bodies + [s.input[..s.bodySize]], Run(limit, Session(true, s.bodySize, s.input[s.bodySize..])))
  {
    var o := Run(limit, Session(true, s.bodySize, s.input[s.bodySize..]));
    assert bodies + ([s.input[..s.bodySize]] + o.bodies) == (bodies + [s.input[..s.bodySize]]) + o.bodies;
  }

  lemma PrependPrepend(a: seq<Bytes>, b: seq<Bytes>, o: Outcome)
    ensures Prepend(a, Prepend(b, o)) == Prepend(a + b, o) && Prepend([], o) == o
  {
    assert a + (b + o.bodies) == (a + b) + o.bodies;
  }

  // ---- more input ----

  /** More bytes do not change what the loop did before it stopped. */
  lemma {:induction false} MoreInput(limit: nat, s: Session, more: Bytes)
    ensures var r := Run(limit, s);
            Run(limit, Arrive(s, more)) ==
              if r.refused then r.(session := Arrive(r.session, more))
              else Prepend(r.bodies, Run(limit, Arrive(r.session, more)))
    decreases |s.input|, if s.recvingHeader then 0 else 1
  {
    var t := Arrive(s, more);
    if Stalled(s) {
      assert [] + Run(limit, t).bodies == Run(limit, t).bodies;
    } else if s.recvingHeader {
      assert t.input[4..] == s.input[4..] + more;
      if Unsigned32(s.input) <= limit {
        MoreInput(limit, Session(false, Unsigned32(s.input), s.input[4..]), more);
      }
    } else {
      var n := s.bodySize;
      var next := Session(true, n, s.input[n..]);
      assert t.input[..n] == s.input[..n] && t.input[n..] == s.input[n..] + more;
      MoreInput(limit, next, more);
      var r := Run(limit, next);
      var r' := Run(limit, Arrive(r.session, more));
      assert [s.input[..n]] + (r.bodies + r'.bodies) == ([s.input[..n]] + r.bodies) + r'.bodies;
    }
  }

  // ---- what the loop decodes ----

  function Frame(body: Bytes): Bytes {
    BigEndian32(|body|) + body
  }

  function Frames(bodies: seq<Bytes>): Bytes {
    if bodies == [] then [] else Frame(bodies[0]) + Frames(bodies[1..])
  }

  lemma {:induction false} FramesAppend(a: seq<Bytes>, b: seq<Bytes>)
    ensures Frames(a + b) == Frames(a) + Frames(b)
  {
    if a == [] {
      assert a + b == b;
    } else {
      assert (a + b)[1..] == a[1..] + b;
      FramesAppend(a[1..], b);
    }
  }

  lemma FramesOne(body: Bytes)
    ensures Frames([body]) == Frame(body)
  {
    assert Frames([body]) == Frame(body) + Frames([]);
  }

  lemma FramesSnoc(bodies: seq<Bytes>, body: Bytes)
    ensures Frames(bodies + [body]) == Frames(bodies) + Frame(body)
  {
    FramesAppend(bodies, [body]);
    FramesOne(body);
  }

  /** The bytes that the parser has taken in but not yet turned into bodies. */
  function Residue(s: Session): Bytes {
    if s.recvingHeader then s.input else BigEndian32(s.bodySize) + s.input
  }

  lemma HeaderKeepsBytes(s: Session)
    requires s.recvingHeader && |s.input| >= 4
    ensures Residue(s) == Residue(Session(false, Unsigned32(s.input), s.input[4..]))
  {
    EncodeDecode32(s.input);
    assert s.input == s.input[..4] + s.input[4..];
  }

  lemma BodyKeepsBytes(s: Session, bodies: seq<Bytes>, residue: Bytes)
    requires !Stalled(s) && !s.recvingHeader
    requires s.input[s.bodySize..] == Frames(bodies) + residue
    ensures Residue(s) == Frames([s.input[..s.bodySize]] + bodies) + residue
  {
    var body, rest := s.input[..s.bodySize], s.input[s.bodySize..];
    assert s.input == body + rest;
    assert ([body] + bodies)[1..] == bodies;
    var header, tail := BigEndian32(s.bodySize), Frames(bodies);
    assert header + (body + (tail + residue)) == ((header + body) + tail) + residue;
  }

  /** The loop only cuts the stream: re-encoding what it decoded gives the stream back. */
  lemma {:induction false} RunKeepsBytes(limit: nat, s: Session)
    requires !Run(limit, s).refused
    ensures Residue(s) == Frames(Run(limit, s).bodies) + Residue(Run(limit, s).session)
    decreases |s.input|, if s.recvingHeader then 0 else 1
  {
    if Stalled(s) {
      RunStalled(limit, s);
      assert Frames([]) == [];
    } else if s.recvingHeader {
      HeaderKeepsBytes(s);
      RunKeepsBytes(limit, Session(false, Unsigned32(s.input), s.input[4..]));
    } else {
      var next := Session(true, s.bodySize, s.input[s.bodySize..]);
      RunKeepsBytes(limit, next);
      BodyKeepsBytes(s, Run(limit, next).bodies, Residue(Run(limit, next).session));
    }
  }

  /** The complete frames at the front of a stream, read off without any parser state. */
  function WholeFrames(stream: Bytes): seq<Bytes>
    decreases |stream|
  {
    if |stream| < 4 || |stream| < 4 + Unsigned32(stream) then []
    else var n := Unsigned32(stream); [stream[4..4 + n]] + WholeFrames(stream[4 + n..])
  }

  /** A frame is the length of its body, as four bytes to the base 256, and the body. */
  lemma FrameLayout(body: Bytes)
    requires |body| < 0x1_0000_0000
    ensures |Frame(body)| == 4 + |body| && BigEndianValue(Frame(body)[..4]) == |body| && Frame(body)[4..] == body
  {
    BigEndian32Value(|body|);
    assert Frame(body)[..4] == BigEndian32(|body|);
  }

  /** A stream begins with a whole frame exactly if all the bytes that its first four announce are
      there. */
  lemma FirstWholeFrame(stream: Bytes)
    ensures WholeFrames(stream) == [] <==> |stream| < 4 || |stream| < 4 + BigEndianValue(stream[..4])
    ensures WholeFrames(stream) != [] ==>
              var n := BigEndianValue(stream[..4]);
              WholeFrames(stream) == [stream[4..4 + n]] + WholeFrames(stream[4 + n..])
  {
    if |stream| >= 4 {
      Unsigned32Value(stream);
    }
  }

  /** No header at the front of the stream announces more than `limit`. */
  predicate Sane(limit: nat, stream: Bytes)
    decreases |stream|
  {
    |stream| < 4 ||
    (Unsigned32(stream) <= limit &&
     (|stream| < 4 + Unsigned32(stream) || Sane(limit, stream[4 + Unsigned32(stream)..])))
  }

  /** One round of the loop, from a header to the body it announces. */
  lemma RunOneFrame(limit: nat, stale: nat, stream: Bytes)
    requires |stream| >= 4 && Unsigned32(stream) <= limit
    ensures var n := Unsigned32(stream);
            Run(limit, Session(true, stale, stream)) ==
              if |stream| == 4 || |stream| < 4 + n then Outcome(Session(false, n, stream[4..]), [], false)
              else Prepend([stream[4..4 + n]], Run(limit, Session(true, n, stream[4 + n..])))
  {
    var n := Unsigned32(stream);
    var body := Session(false, n, stream[4..]);
    assert Run(limit, Session(true, stale, stream)) == Run(limit, body);
    if |stream| > 4 && |stream| >= 4 + n {
      assert stream[4..][..n] == stream[4..4 + n] && stream[4..][n..] == stream[4 + n..];
    }
  }

  /** A zero-length frame whose header was the last thing to arrive: its empty body is taken only
      with the next byte. */
  function HeldBack(s: Session): seq<Bytes> {
    if !s.recvingHeader && s.bodySize == 0 && |s.input| == 0 then [[]] else []
  }

  /** The parser refuses exactly the streams with an oversize header. */
  lemma {:induction false} RefusesOversize(limit: nat, stale: nat, stream: Bytes)
    ensures Run(limit, Session(true, stale, stream)).refused <==> !Sane(limit, stream)
    decreases |stream|
  {
    if |stream| < 4 || Unsigned32(stream) > limit {
    } else {
      var n := Unsigned32(stream);
      RunOneFrame(limit, stale, stream);
      if |stream| >= 4 + n {
        RefusesOversize(limit, n, stream[4 + n..]);
      }
    }
  }

  /** A header by itself is refused exactly if its four bytes announce more than the limit. */
  lemma HeaderLimit(limit: nat, header: Bytes)
    requires |header| == 4
    ensures Run(limit, Fresh(header)).refused <==> BigEndianValue(header) > limit
  {
    Unsigned32Value(header);
    RefusesOversize(limit, 0, header);
    assert header[..4] == header;
  }

  // ---- chunk independence, from the input alone ----

  /** No header that the parser is still to read announces more than `limit`: in the header phase those
      of the buffer, in the body phase those behind the body. */
  predicate SaneFrom(limit: nat, s: Session) {
    if s.recvingHeader then Sane(limit, s.input)
    else |s.input| < s.bodySize || Sane(limit, s.input[s.bodySize..])
  }

  lemma RefusesUnlessSane(limit: nat, s: Session)
    ensures Run(limit, s).refused <==> !SaneFrom(limit, s)
  {
    if s.recvingHeader {
      RefusesOversize(limit, s.bodySize, s.input);
    } else if |s.input| >= s.bodySize && |s.input| > 0 {
      RefusesOversize(limit, s.bodySize, s.input[s.bodySize..]);
    }
  }

  /** What lies behind the first oversize header of a stream, and the size that is then stale: that of
      the frame before it, or `stale` if there is none. */
  function Behind(limit: nat, stale: nat, stream: Bytes): (r: (nat, Bytes))
    requires !Sane(limit, stream)
    decreases |stream|
  {
    var n := Unsigned32(stream);
    if n > limit then (stale, stream[4..]) else Behind(limit, n, stream[4 + n..])
  }

  function BehindFrom(limit: nat, s: Session): (nat, Bytes)
    requires !SaneFrom(limit, s)
  {
    Behind(limit, s.bodySize, if s.recvingHeader then s.input else s.input[s.bodySize..])
  }

  lemma {:induction false} StopsBehind(limit: nat, stale: nat, stream: Bytes)
    requires !Sane(limit, stream)
    ensures var (size, rest) := Behind(limit, stale, stream);
            Run(limit, Session(true, stale, stream)).session == Session(false, size, rest)
    decreases |stream|
  {
    var n := Unsigned32(stream);
    if n <= limit {
      RunOneFrame(limit, stale, stream);
      StopsBehind(limit, n, stream[4 + n..]);
    }
  }

  lemma RefusedSession(limit: nat, s: Session)
    requires !SaneFrom(limit, s)
    ensures var (size, rest) := BehindFrom(limit, s);
            Run(limit, s).session == Session(false, size, rest)
  {
    if s.recvingHeader {
      StopsBehind(limit, s.bodySize, s.input);
    } else {
      StopsBehind(limit, s.bodySize, s.input[s.bodySize..]);
    }
  }

  /** Reading `a` and then `b` has the same effect as reading `a + b` at once, exactly when, with `a`
      arrived, no header still to be read is oversize, or when what lies behind the first such header
      is, with `b`, empty or still short of the stale size. */
  lemma ChunkIndependence(limit: nat, s: Session, a: Bytes, b: Bytes)
    ensures var first := Feed(limit, s, a);
            var second := Feed(limit, first.session, b);
            var whole := Feed(limit, s, a + b);
            (whole.session == second.session && whole.bodies == first.bodies + second.bodies)
            <==>
            (SaneFrom(limit, Arrive(s, a)) ||
             var (size, rest) := BehindFrom(limit, Arrive(s, a)); |rest + b| == 0 || |rest + b| < size)
  {
    var s' := Arrive(s, a);
    assert Arrive(s, a + b) == Arrive(s', b);
    MoreInput(limit, s', b);
    RefusesUnlessSane(limit, s');
    hide SaneFrom, BehindFrom;
    if !SaneFrom(limit, s') {
      RefusedSession(limit, s');
      RefusedThenMore(limit, s', b);
    }
  }

  /** After a refusal the next call does nothing exactly if it still waits for the body it expects. */
  lemma RefusedThenMore(limit: nat, s: Session, b: Bytes)
    requires Run(limit, s).refused
    ensures var first := Run(limit, s);
            var second := Feed(limit, first.session, b);
            (second.session == Arrive(first.session, b) && second.bodies == [])
            <==> |first.session.input + b| == 0 || |first.session.input + b| < first.session.bodySize
  {
    RefusedLeavesBodyPhase(limit, s);
  }

  lemma {:induction false} RefusedLeavesBodyPhase(limit: nat, s: Session)
    requires Run(limit, s).refused
    ensures !Run(limit, s).session.recvingHeader
    decreases |s.input|, if s.recvingHeader then 0 else 1
  {
    if s.recvingHeader {
      if Unsigned32(s.input) <= limit {
        RefusedLeavesBodyPhase(limit, Session(false, Unsigned32(s.input), s.input[4..]));
      }
    } else {
      RefusedLeavesBodyPhase(limit, Session(true, s.bodySize, s.input[s.bodySize..]));
    }
  }

  /** The family of inputs shut out above is not empty: after an oversize header one more byte is
      framed with the size left over from the connection's start. */
  lemma OversizeHeaderDependsOnChunks()
    ensures var first := Feed(1024000, Fresh([]), [255, 255, 255, 255]);
            first.bodies + Feed(1024000, first.session, [7]).bodies
            != Feed(1024000, Fresh([]), [255, 255, 255, 255] + [7]).bodies
  {
    var first := Feed(1024000, Fresh([]), [255, 255, 255, 255]);
    assert Arrive(Fresh([]), [255, 255, 255, 255]).input == [255, 255, 255, 255];
    assert first.session == Session(false, 0, []);
    assert Arrive(first.session, [7]).input == [7];
    assert |Feed(1024000, first.session, [7]).bodies| > 0;
    assert Arrive(Fresh([]), [255, 255, 255, 255] + [7]).input[..4] == [255, 255, 255, 255];
  }

  /** Of any other stream it delivers every whole frame, holding back only a zero-length frame
      that ends the stream. */
  lemma {:induction false} DecodesWholeFrames(limit: nat, stale: nat, stream: Bytes)
    requires Sane(limit, stream)
    ensures var r := Run(limit, Session(true, stale, stream));
            WholeFrames(stream) == r.bodies + HeldBack(r.session)
    decreases |stream|
  {
    if |stream| < 4 {
    } else {
      var n := Unsigned32(stream);
      RunOneFrame(limit, stale, stream);
      if |stream| == 4 && n == 0 {
        assert stream[4..4] == [] && WholeFrames(stream[4..]) == [];
      } else if |stream| >= 4 + n {
        DecodesWholeFrames(limit, n, stream[4 + n..]);
      }
    }
  }

  /** Framing is reversible, so equal byte streams carry equal bodies. */
  lemma {:induction false} WholeFramesOfFrames(bodies: seq<Bytes>)
    requires forall b :: b in bodies ==> |b| < 0x1_0000_0000
    ensures WholeFrames(Frames(bodies)) == bodies
  {
    if bodies != [] {
      var n := |bodies[0]|;
      DecodeEncode32(n, bodies[0] + Frames(bodies[1..]));
      assert Frames(bodies) == BigEndian32(n) + (bodies[0] + Frames(bodies[1..]));
      assert Frames(bodies)[4..4 + n] == bodies[0] && Frames(bodies)[4 + n..] == Frames(bodies[1..]);
      WholeFramesOfFrames(bodies[1..]);
    }
  }

  /** A smaller limit, and a stale `bodySize` seen while a header is expected, make no difference
      as long as no header is refused. */
  ghost predicate SameParser(p: Session, q: Session) {
    p.recvingHeader == q.recvingHeader && p.input == q.input && (p.recvingHeader || p.bodySize == q.bodySize)
  }

  lemma {:induction false} SameRun(low: nat, high: nat, p: Session, q: Session)
    requires low <= high && SameParser(p, q) && !Run(low, p).refused
    ensures var r, r' := Run(low, p), Run(high, q);
            SameParser(r.session, r'.session) && r.bodies == r'.bodies && !r'.refused
    decreases |p.input|, if p.recvingHeader then 0 else 1
  {
    if Stalled(p) {
    } else if p.recvingHeader {
      var next := Session(false, Unsigned32(p.input), p.input[4..]);
      SameRun(low, high, next, next);
    } else {
      var next := Session(true, p.bodySize, p.input[p.bodySize..]);
      SameRun(low, high, next, next);
    }
  }
}
