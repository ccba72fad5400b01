/** The packages of the coroutine server: magic, signed length, body; `recvall`; and the loop of the
    connection handler that takes a stream apart into requests. */
module PackageFraming {
  import opened Bytes
  import opened Options

  const MAGIC: Bytes := [0x31, 0x51, 0x32, 0x57, 0x33, 0x45, 0x34, 0x52]
  const HEAD_LEN := 12
  const MAX_BODY_LEN := 10485760

  // ---- the struct format '!i' ----

  /** None stands for the exception raised on an integer outside the signed 32-bit range. */
  function PackInt(n: int): (b: Option<Bytes>)
    ensures b.Some? ==> |b.value| == 4
  {
    if -0x8000_0000 <= n < 0x8000_0000 then Some(BigEndian32(if n < 0 then n + 0x1_0000_0000 else n)) else None
  }

  /** None stands for the exception raised unless there are exactly four bytes. */
  function UnpackInt(b: Bytes): (n: Option<int>)
    ensures n.Some? ==> -0x8000_0000 <= n.value < 0x8000_0000
  {
    if |b| != 4 then None
    else if Unsigned32(b) < 0x8000_0000 then Some(Unsigned32(b)) else Some(Unsigned32(b) - 0x1_0000_0000)
  }

  lemma UnpackPacked(n: int)
    requires -0x8000_0000 <= n < 0x8000_0000
    ensures UnpackInt(PackInt(n).value) == Some(n)
  {
    var m := if n < 0 then n + 0x1_0000_0000 else n;
    DecodeEncode32(m, []);
    assert BigEndian32(m) + [] == BigEndian32(m);
  }

  lemma PackUnpacked(b: Bytes)
    requires |b| == 4
    ensures PackInt(UnpackInt(b).value) == Some(b)
  {
    EncodeDecode32(b);
    assert b[..4] == b;
  }

  /** The number that four bytes are in two's complement, the most significant byte first. */
  function SignedValue(b: Bytes): int {
    if BigEndianValue(b) < 0x8000_0000 then BigEndianValue(b) else BigEndianValue(b) - 0x1_0000_0000
  }

  lemma PackIntFormat(n: int)
    ensures PackInt(n).Some? <==> -0x8000_0000 <= n < 0x8000_0000
    ensures match PackInt(n)
            case Some(b) => |b| == 4 && SignedValue(b) == n
            case None => forall b: Bytes :: |b| == 4 ==> SignedValue(b) != n
  {
    hide BigEndianValue, BigEndian32, Unsigned32;
    if -0x8000_0000 <= n < 0x8000_0000 {
      BigEndian32Value(if n < 0 then n + 0x1_0000_0000 else n);
    } else {
      forall b: Bytes | |b| == 4 ensures SignedValue(b) != n {
        Unsigned32Value(b);
        assert b[..4] == b;
      }
    }
  }

  lemma UnpackIntFormat(b: Bytes)
    ensures UnpackInt(b) == if |b| == 4 then Some(SignedValue(b)) else None
  {
    hide BigEndianValue, Unsigned32;
    if |b| == 4 {
      Unsigned32Value(b);
      assert b[..4] == b;
    }
  }

  // ---- packages ----

  function PackPackage(body: Bytes): (p: Option<Bytes>)
    ensures p.Some? <==> |body| < 0x8000_0000
    ensures p.Some? ==> |p.value| == HEAD_LEN + |body|
  {
    match PackInt(|body|)
    case None => None
    case Some(length) => Some(MAGIC + length + body)
  }

  function TestMagic(input: Bytes): Option<Bytes> {
    if |input| >= 8 && input[..8] == MAGIC then Some(input[8..]) else None
  }

  /** None stands for an exception: a wrong magic or a header of another length. */
  function BodyLength(header: Bytes): Option<int> {
    match TestMagic(header)
    case None => None
    case Some(length) => UnpackInt(length)
  }

  lemma PackedHeader(body: Bytes, rest: Bytes)
    requires |body| < 0x8000_0000
    ensures var s := PackPackage(body).value + rest;
            s[..HEAD_LEN] + body + rest == s && BodyLength(s[..HEAD_LEN]) == Some(|body|)
  {
    var length := PackInt(|body|).value;
    var s := PackPackage(body).value + rest;
    assert s[..HEAD_LEN] == MAGIC + length;
    assert (MAGIC + length)[..8] == MAGIC && (MAGIC + length)[8..] == length;
    UnpackPacked(|body|);
  }

  predicate BeginsWithMagic(s: Bytes) {
    |s| >= 8 && forall i :: 0 <= i < 8 ==> s[i] as int == "1Q2W3E4R"[i] as int
  }

  /** Eight letters, the length of the body as a signed number, and the body. */
  lemma PackageFormat(body: Bytes)
    ensures PackPackage(body).Some? <==> |body| < 0x8000_0000
    ensures PackPackage(body).Some? ==>
              var p := PackPackage(body).value;
              && |p| == 12 + |body| && BeginsWithMagic(p) && SignedValue(p[8..12]) == |body| && p[12..] == body
  {
    hide SignedValue;
    PackIntFormat(|body|);
    if |body| < 0x8000_0000 {
      var length := PackInt(|body|).value;
      assert (MAGIC + length + body)[8..12] == length;
    }
  }

  lemma HeaderFormat(header: Bytes)
    ensures BodyLength(header) ==
            if |header| == 12 && BeginsWithMagic(header) then Some(SignedValue(header[8..12])) else None
  {
    hide UnpackInt, SignedValue;
    if |header| >= 8 {
      UnpackIntFormat(header[8..]);
      assert header[..8] == MAGIC <==> BeginsWithMagic(header);
      assert |header| == 12 ==> header[8..12] == header[8..];
    }
  }

  /** A header that announces a length is the one that `PackPackage` writes for it. */
  lemma HeaderIsPacked(header: Bytes, body: Bytes)
    requires BodyLength(header) == Some(|body|)
    ensures PackPackage(body) == Some(header + body)
  {
    PackUnpacked(header[8..]);
    assert header == MAGIC + header[8..];
  }

  // ---- receiving ----

  /** What is still to come on a connection.  `fragments` says how the transport cuts it up. */
  class Socket {
    var stream: Bytes
    var fragments: seq<nat>

    constructor (stream: Bytes, fragments: seq<nat>)
      ensures this.stream == stream
    {
      this.stream, this.fragments := stream, fragments;
    }

    /** At least one byte and at most `n`, or nothing when the peer has closed. */
    method Recv(n: nat) returns (d: Bytes)
      requires n > 0
      modifies this
      ensures d + stream == old(stream) && |d| <= n && (d == [] <==> old(stream) == [])
    {
      var k := 1;
      if fragments != [] {
        k, fragments := fragments[0], fragments[1..];
      }
      k := if k == 0 then 1 else if k > n then n else k;
      k := if k > |stream| then |stream| else k;
      d, stream := stream[..k], stream[k..];
    }
  }

  /** `recvall`: the next `total` bytes however they were fragmented, or None if the peer closes
      before that. */
  method ReceiveAll(sock: Socket, total: int) returns (data: Option<Bytes>)
    modifies sock
    ensures total <= |old(sock.stream)| ==>
              data == Some(old(sock.stream)[..Max0(total)]) && sock.stream == old(sock.stream)[Max0(total)..]
    ensures total > |old(sock.stream)| ==> data == None && sock.stream == []
  {
    var got: Bytes := [];
    var left := total;
    while left > 0
      invariant got + sock.stream == old(sock.stream)
      invariant left == total - |got| && (total > 0 ==> left >= 0) && (total <= 0 ==> got == [])
    {
      var d := sock.Recv(left);
      if d == [] {
        assert got == old(sock.stream);
        return None;
      }
      assert got + d + sock.stream == got + (d + sock.stream);
      got := got + d;
      left := total - |got|;
    }
    data := Some(got);
  }

  function Max0(n: int): nat {
    if n < 0 then 0 else n
  }

  // ---- the handler ----

  /** What the application makes of a request: go on, ask to stop, or raise. */
  datatype Verdict = Continue | Stop | Raise

  /** `opens` is applied to the first request, which carries the session key, `serves` to the rest. */
  datatype Application = Application(opens: Bytes -> Verdict, serves: Bytes -> Verdict)

  function Answer(app: Application, keyed: bool, req: Bytes): Verdict {
    if keyed then app.serves(req) else app.opens(req)
  }

  datatype Event = Opened(req: Bytes) | Served(req: Bytes) | LoggedOut

  /** The events of a connection in order, and whether an exception ended its handler. */
  datatype Trace = Trace(events: seq<Event>, raised: bool)

  function Before(e: Event, t: Trace): Trace {
    Trace([e] + t.events, t.raised)
  }

  const BROKEN := Trace([LoggedOut], false)
  const RAISED := Trace([], true)

  /** The handler on all that arrives on its connection.  A body cut short is handed on as None, which
      a session with a key takes for a logout. */
  function Handle(app: Application, keyed: bool, s: Bytes): Trace
    decreases |s|
  {
    if |s| < HEAD_LEN then BROKEN else
    match BodyLength(s[..HEAD_LEN])
    case None => RAISED
    case Some(n) =>
      if n <= 0 || n > MAX_BODY_LEN then BROKEN
      else if |s| < HEAD_LEN + n then (if keyed then Before(LoggedOut, BROKEN) else RAISED)
      else
        var req, rest := s[HEAD_LEN..HEAD_LEN + n], s[HEAD_LEN + n..];
        match Answer(app, keyed, req)
        case Continue => Before(if keyed then Served(req) else Opened(req), Handle(app, true, rest))
        case Stop => BROKEN
        case Raise => RAISED
  }

  datatype Ended = Running | Broke | Raised

  /** One pass of the handler's loop. */
  method Round(app: Application, keyed: bool, sock: Socket) returns (events: seq<Event>, keyedNow: bool, ended: Ended)
    modifies sock
    ensures ended == Running ==>
              |sock.stream| < |old(sock.stream)|
              && Handle(app, keyed, old(sock.stream)) ==
                   Trace(events + Handle(app, keyedNow, sock.stream).events, Handle(app, keyedNow, sock.stream).raised)
    ensures ended == Broke ==> Handle(app, keyed, old(sock.stream)) == Trace(events + [LoggedOut], false)
    ensures ended == Raised ==> Handle(app, keyed, old(sock.stream)) == Trace(events, true)
  {
    events, keyedNow := [], keyed;
    var header := ReceiveAll(sock, HEAD_LEN);
    if header == None {
      return events, keyedNow, Broke;
    }
    var length := BodyLength(header.value);
    if length == None {
      return events, keyedNow, Raised;
    }
    if length.value > MAX_BODY_LEN {
      return events, keyedNow, Broke;
    } else if length.value > 0 {
      var req := ReceiveAll(sock, length.value);
      ghost var s := old(sock.stream);
      assert req.Some? ==>
               req.value == s[HEAD_LEN..HEAD_LEN + length.value] && sock.stream == s[HEAD_LEN + length.value..];
      if keyed {
        if req == None {
          events := [LoggedOut];
          HandleNothing(app, keyed);
        } else {
          match app.serves(req.value) {
            case Continue => events := [Served(req.value)];
            case Stop => return events, keyedNow, Broke;
            case Raise => return events, keyedNow, Raised;
          }
        }
      } else {
        if req == None {
          return events, keyedNow, Raised;
        }
        match app.opens(req.value) {
          case Continue => events, keyedNow := [Opened(req.value)], true;
          case Stop => return events, keyedNow, Broke;
          case Raise => return events, keyedNow, Raised;
        }
      }
      return events, keyedNow, Running;
    } else {
      return events, keyedNow, Broke;
    }
  }

  lemma HandleNothing(app: Application, keyed: bool)
    ensures Handle(app, keyed, []) == BROKEN
  {
  }

  lemma Regroup(a: seq<Event>, b: seq<Event>, c: seq<Event>)
    ensures a + (b + c) == a + b + c
  {
  }

  /** The handler of one connection, for any fragmentation of its stream. */
  method Handler(app: Application, sock: Socket) returns (events: seq<Event>, raised: bool)
    modifies sock
    ensures Trace(events, raised) == Handle(app, false, old(sock.stream))
  {
    events, raised := [], false;
    var keyed := false;
    while true
      invariant var t := Handle(app, keyed, sock.stream);
                Handle(app, false, old(sock.stream)) == Trace(events + t.events, t.raised)
      decreases |sock.stream|
    {
      hide Handle;
      var more, keyedNow, ended := Round(app, keyed, sock);
      Regroup(events, more, Handle(app, keyedNow, sock.stream).events);
      Regroup(events, more, [LoggedOut]);
      events, keyed := events + more, keyedNow;
      if ended == Raised {
        return events, true;
      }
      if ended == Broke {
        break;
      }
    }
    events := events + [LoggedOut];
  }

  // ---- what the handler recovers ----

  predicate Sendable(bodies: seq<Bytes>) {
    forall b <- bodies :: 1 <= |b| <= MAX_BODY_LEN
  }

  function Packages(bodies: seq<Bytes>): Bytes
    requires forall b <- bodies :: |b| < 0x8000_0000
  {
    if bodies == [] then [] else PackPackage(bodies[0]).value + Packages(bodies[1..])
  }

  /** One event per body, in order; the first one opens the session unless it is open. */
  function Requests(keyed: bool, bodies: seq<Bytes>): seq<Event>
    decreases |bodies|
  {
    if bodies == [] then []
    else [if keyed then Served(bodies[0]) else Opened(bodies[0])] + Requests(true, bodies[1..])
  }

  predicate Accepts(app: Application, keyed: bool, bodies: seq<Bytes>)
    decreases |bodies|
  {
    bodies == [] ||
    (Answer(app, keyed, bodies[0]) == Continue && Accepts(app, true, bodies[1..]))
  }

  lemma OnePackage(app: Application, keyed: bool, body: Bytes, rest: Bytes)
    requires 1 <= |body| <= MAX_BODY_LEN && Accepts(app, keyed, [body])
    ensures Handle(app, keyed, PackPackage(body).value + rest)
            == Before(if keyed then Served(body) else Opened(body), Handle(app, true, rest))
  {
    hide PackPackage, BodyLength;
    var s := PackPackage(body).value + rest;
    PackedHeader(body, rest);
    assert s[HEAD_LEN..] == body + rest;
    assert s[HEAD_LEN..HEAD_LEN + |body|] == body && s[HEAD_LEN + |body|..] == rest;
  }

  /** The receive loop recovers exactly the packed bodies, in order. */
  lemma {:induction false} RecoversBodies(app: Application, keyed: bool, bodies: seq<Bytes>, rest: Bytes)
    requires Sendable(bodies) && Accepts(app, keyed, bodies)
    ensures var after := Handle(app, keyed || bodies != [], rest);
            Handle(app, keyed, Packages(bodies) + rest) == Trace(Requests(keyed, bodies) + after.events, after.raised)
    decreases |bodies|
  {
    hide Handle, PackPackage;
    if bodies == [] {
      assert [] + rest == rest;
      assert Requests(keyed, bodies) == [];
    } else {
      var first, tail := PackPackage(bodies[0]).value, Packages(bodies[1..]) + rest;
      assert Packages(bodies) + rest == first + tail;
      hide Packages;
      OnePackage(app, keyed, bodies[0], tail);
      RecoversBodies(app, true, bodies[1..], rest);
      Regroup([if keyed then Served(bodies[0]) else Opened(bodies[0])], Requests(true, bodies[1..]),
              Handle(app, true, rest).events);
    }
  }

  /** The body at the front of a stream, if the handler passes a complete one on. */
  function NextRequest(s: Bytes): (req: Option<Bytes>)
    ensures req.Some? ==> HEAD_LEN + |req.value| <= |s|
  {
    if |s| < HEAD_LEN then None else
    match BodyLength(s[..HEAD_LEN])
    case None => None
    case Some(n) => if 0 < n <= MAX_BODY_LEN && HEAD_LEN + n <= |s| then Some(s[HEAD_LEN..HEAD_LEN + n]) else None
  }

  lemma NextRequestIsPacked(s: Bytes)
    requires NextRequest(s).Some?
    ensures var req := NextRequest(s).value;
            && 1 <= |req| <= MAX_BODY_LEN
            && s == PackPackage(req).value + s[HEAD_LEN + |req|..]
  {
    hide PackPackage, BodyLength;
    var req := NextRequest(s).value;
    HeaderIsPacked(s[..HEAD_LEN], req);
  }

  /** A packed body gets through exactly when its length is from 1 to 10485760. */
  lemma ServedExactlyIfSendable(app: Application, body: Bytes, rest: Bytes)
    requires |body| < 0x8000_0000 && app.serves(body) == Continue
    ensures var t := Handle(app, true, PackPackage(body).value + rest);
            (t.events != [] && t.events[0] == Served(body)) <==> 1 <= |body| <= MAX_BODY_LEN
  {
    hide PackPackage;
    PackedHeader(body, rest);
    if 1 <= |body| <= MAX_BODY_LEN {
      assert Accepts(app, true, [body]);
      OnePackage(app, true, body, rest);
    }
  }

  // ---- how a handler ends ----

  /** Whether the handler raises on what is left of its stream: at the wrong magic, at a body cut short
      that should have brought the key, or when the application does. */
  predicate Raises(app: Application, keyed: bool, s: Bytes) {
    && |s| >= 12
    && (!BeginsWithMagic(s)
        || var n := SignedValue(s[8..12]);
           && 1 <= n <= 10485760
           && if |s| < 12 + n then !keyed else Answer(app, keyed, s[12..12 + n]) == Raise)
  }

  predicate CutShort(s: Bytes) {
    |s| >= 12 && BeginsWithMagic(s) && 1 <= SignedValue(s[8..12]) <= 10485760 && |s| < 12 + SignedValue(s[8..12])
  }

  predicate BeginsWithAccepted(app: Application, keyed: bool, s: Bytes) {
    && |s| >= 12 && BeginsWithMagic(s)
    && var n := SignedValue(s[8..12]);
       1 <= n <= 10485760 && 12 + n <= |s| && Answer(app, keyed, s[12..12 + n]) == Continue
  }

  lemma LastRound(app: Application, keyed: bool, s: Bytes)
    requires !BeginsWithAccepted(app, keyed, s)
    ensures Handle(app, keyed, s) ==
            if Raises(app, keyed, s) then Trace([], true)
            else Trace(if CutShort(s) && keyed then [LoggedOut, LoggedOut] else [LoggedOut], false)
  {
    hide BodyLength, SignedValue, BeginsWithMagic;
    if |s| >= HEAD_LEN {
      SameHeader(s);
      HeaderFormat(s[..HEAD_LEN]);
    }
  }

  lemma SameHeader(s: Bytes)
    requires |s| >= 12
    ensures s[..12][8..12] == s[8..12] && (BeginsWithMagic(s[..12]) <==> BeginsWithMagic(s))
  {
  }

  lemma AcceptedFirst(app: Application, keyed: bool, s: Bytes)
    ensures BeginsWithAccepted(app, keyed, s) <==> NextRequest(s).Some? && Accepts(app, keyed, [NextRequest(s).value])
  {
    hide BodyLength, SignedValue, BeginsWithMagic;
    if |s| >= HEAD_LEN {
      SameHeader(s);
      HeaderFormat(s[..HEAD_LEN]);
    }
  }

  /** What a handler does, read off the stream and the application: the packed bodies that the
      application accepts are served in order, and what is left decides how it ends.  It either raises or
      logs the connection out as its last act; a body cut short logs a session with a key out twice. */
  lemma HandlesExactly(app: Application, keyed: bool, s: Bytes)
    returns (bodies: seq<Bytes>, rest: Bytes)
    ensures Sendable(bodies) && Accepts(app, keyed, bodies) && s == Packages(bodies) + rest
    ensures var now := keyed || bodies != [];
            && !BeginsWithAccepted(app, now, rest)
            && Handle(app, keyed, s) ==
                 if Raises(app, now, rest) then Trace(Requests(keyed, bodies), true)
                 else if CutShort(rest) && now then Trace(Requests(keyed, bodies) + [LoggedOut, LoggedOut], false)
                 else Trace(Requests(keyed, bodies) + [LoggedOut], false)
  {
    hide Handle, PackPackage, Packages, NextRequest, Raises, CutShort, BeginsWithAccepted;
    bodies, rest := AcceptedBodies(app, keyed, s);
    RecoversBodies(app, keyed, bodies, rest);
    LastRound(app, keyed || bodies != [], rest);
    assert Requests(keyed, bodies) + [] == Requests(keyed, bodies);
  }

  lemma {:induction false} AcceptedBodies(app: Application, keyed: bool, s: Bytes)
    returns (bodies: seq<Bytes>, rest: Bytes)
    ensures Sendable(bodies) && Accepts(app, keyed, bodies) && s == Packages(bodies) + rest
    ensures !BeginsWithAccepted(app, keyed || bodies != [], rest)
    decreases |s|
  {
    hide PackPackage, NextRequest, BeginsWithAccepted;
    AcceptedFirst(app, keyed, s);
    if BeginsWithAccepted(app, keyed, s) {
      var req := NextRequest(s).value;
      NextRequestIsPacked(s);
      var more;
      more, rest := AcceptedBodies(app, true, s[HEAD_LEN + |req|..]);
      bodies := [req] + more;
      assert bodies[1..] == more;
    } else {
      bodies, rest := [], s;
    }
  }

  /** Whatever arrives: the requests that reach the application were packed bodies, and together they
      begin the stream. */
  lemma ServesOnlyPackages(app: Application, keyed: bool, s: Bytes) returns (bodies: seq<Bytes>, after: Trace)
    ensures Sendable(bodies) && Packages(bodies) <= s
    ensures Handle(app, keyed, s) == Trace(Requests(keyed, bodies) + after.events, after.raised)
    ensures forall e <- after.events :: e == LoggedOut
  {
    hide Handle, Packages, Raises, CutShort, BeginsWithAccepted;
    var rest;
    bodies, rest := HandlesExactly(app, keyed, s);
    var now := keyed || bodies != [];
    after := if Raises(app, now, rest) then Trace([], true)
             else Trace(if CutShort(rest) && now then [LoggedOut, LoggedOut] else [LoggedOut], false);
  }

  /** A handler that leaves its loop by a break logs its connection out, as its last act. */
  lemma BreakLogsOut(app: Application, keyed: bool, s: Bytes)
    ensures var t := Handle(app, keyed, s);
            !t.raised ==> t.events != [] && t.events[|t.events| - 1] == LoggedOut
  {
    hide Handle, Raises, CutShort;
    var _, _ := HandlesExactly(app, keyed, s);
  }
}
