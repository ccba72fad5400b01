/**
 The single-threaded echo server, and the proof that the multi-threaded one refines it.

 The reference server keeps its parser state in two maps shared by all connections.  Accepting a
 descriptor resets only one of them, and only a connection reset by its peer erases its entries.
 */
module ReferenceServer {
  import opened Bytes
  import opened FrameParser
  import opened EchoProtocol
  import opened EchoCompletion

  const MAX_REFERENCE_BODY := 1000

  /** `recvHeader` and `sessionInfo` are the two maps; the buffers belong to the current connection
      on each descriptor.  A larger header ends the process. */
  datatype Reference = Reference(
    recvHeader: map<nat, int>,
    sessionInfo: map<nat, nat>,
    input: map<nat, Bytes>,
    output: map<nat, Bytes>,
    exited: bool)

  const START := Reference(map[], map[], map[], map[], false)

  /** Reading a missing entry through `operator[]` of the map gives a zero value. */
  function Lookup<V>(m: map<nat, V>, fd: nat, zero: V): V {
    if fd in m then m[fd] else zero
  }

  function View(r: Reference, fd: nat): Session {
    Session(Lookup(r.recvHeader, fd, 0) != 0, Lookup(r.sessionInfo, fd, 0), Lookup(r.input, fd, []))
  }

  /** The reference server's reaction to a client event; `reset` tells that a closed connection was
      reset by its peer.  It has no steps of its own: the read callback answers at once. */
  function React(r: Reference, a: Action, reset: bool): Reference {
    if r.exited then r else
    match a
    case Accept(fd) => r.(recvHeader := r.recvHeader[fd := 1], input := r.input[fd := []], output := r.output[fd := []])
    case Receive(fd, chunk) =>
      var o := Feed(MAX_REFERENCE_BODY, View(r, fd), chunk);
      if o.refused then r.(exited := true) else
      r.(recvHeader := r.recvHeader[fd := if o.session.recvingHeader then 1 else 0],
         sessionInfo := r.sessionInfo[fd := o.session.bodySize],
         input := r.input[fd := o.session.input],
         output := r.output[fd := Lookup(r.output, fd, []) + Frames(o.bodies)])
    case Close(fd) =>
      if reset then r.(recvHeader := r.recvHeader - {fd}, sessionInfo := r.sessionInfo - {fd}) else r
    case _ => r
  }

  /** The shared maps act for this connection like parser state of its own, fresh at the accept. */
  ghost predicate Private(r: Reference, fd: nat, received: Bytes) {
    var o := Run(MAX_REFERENCE_BODY, Fresh(received));
    && !o.refused
    && SameParser(View(r, fd), o.session)
    && Lookup(r.output, fd, []) == Frames(o.bodies)
  }

  ghost predicate AllPrivate(s: State, r: Reference) {
    !r.exited ==> forall fd :: fd in s.conns ==> Private(r, fd, s.conns[fd].received)
  }

  /** The step brings no header larger than the reference server accepts. */
  predicate SmallHeader(s: State, a: Action)
    requires Possible(s, a)
  {
    a.Receive? ==> Sane(MAX_REFERENCE_BODY, s.conns[a.fd].received + a.chunk)
  }

  lemma ReceivePrivate(r: Reference, fd: nat, received: Bytes, chunk: Bytes)
    requires !r.exited && Private(r, fd, received)
    ensures var r' := React(r, Receive(fd, chunk), false);
            && (r'.exited <==> !Sane(MAX_REFERENCE_BODY, received + chunk))
            && (!r'.exited ==> Private(r', fd, received + chunk))
  {
    var o := Run(MAX_REFERENCE_BODY, Fresh(received));
    assert Arrive(Fresh(received), chunk) == Fresh(received + chunk);
    MoreInput(MAX_REFERENCE_BODY, Fresh(received), chunk);
    RefusesOversize(MAX_REFERENCE_BODY, 0, received + chunk);
    var mine, shared := Arrive(o.session, chunk), Arrive(View(r, fd), chunk);
    if !Run(MAX_REFERENCE_BODY, mine).refused {
      SameRun(MAX_REFERENCE_BODY, MAX_REFERENCE_BODY, mine, shared);
    }
    if !Run(MAX_REFERENCE_BODY, shared).refused {
      SameRun(MAX_REFERENCE_BODY, MAX_REFERENCE_BODY, shared, mine);
      FramesAppend(o.bodies, Run(MAX_REFERENCE_BODY, mine).bodies);
    }
  }

  lemma ReactKeepsPrivate(s: State, r: Reference, a: Action, reset: bool)
    requires Shape(s) && Possible(s, a) && !r.exited && AllPrivate(s, r)
    ensures AllPrivate(Next(s, a), React(r, a, reset))
    ensures React(r, a, reset).exited <==> !SmallHeader(s, a)
  {
    if a.Receive? {
      ReceivePrivate(r, a.fd, s.conns[a.fd].received, a.chunk);
    }
    var r' := React(r, a, reset);
    forall fd | !r'.exited && fd in Next(s, a).conns
      ensures Private(r', fd, Next(s, a).conns[fd].received)
    {
      ReactKeepsOthers(s, r, a, reset, fd);
    }
  }

  lemma ReactKeepsOthers(s: State, r: Reference, a: Action, reset: bool, fd: nat)
    requires Shape(s) && Possible(s, a) && !r.exited && AllPrivate(s, r)
    requires fd in Next(s, a).conns && !React(r, a, reset).exited
    requires a.Receive? && a.fd == fd ==> Private(React(r, a, reset), fd, s.conns[fd].received + a.chunk)
    ensures Private(React(r, a, reset), fd, Next(s, a).conns[fd].received)
  {
    ReceivedNext(s, a, fd);
    if a.Accept? && a.fd == fd {
      AcceptIsFresh(r, fd, reset);
    } else if !(a.Receive? && a.fd == fd) {
      assert Private(r, fd, s.conns[fd].received);
      ReactElsewhere(r, a, reset, fd);
    }
  }

  lemma ReceivedNext(s: State, a: Action, fd: nat)
    requires Shape(s) && Possible(s, a) && fd in Next(s, a).conns
    ensures a != Close(fd)
    ensures if a == Accept(fd) then Next(s, a).conns[fd].received == []
            else fd in s.conns &&
                 Next(s, a).conns[fd].received
                 == s.conns[fd].received + (if a.Receive? && a.fd == fd then a.chunk else [])
  {
  }

  lemma AcceptIsFresh(r: Reference, fd: nat, reset: bool)
    requires !r.exited
    ensures Private(React(r, Accept(fd), reset), fd, [])
  {
    assert View(React(r, Accept(fd), reset), fd) == Session(true, Lookup(r.sessionInfo, fd, 0), []);
  }

  lemma ReactElsewhere(r: Reference, a: Action, reset: bool, fd: nat)
    requires !React(r, a, reset).exited
    requires a != Close(fd) && a != Accept(fd) && !(a.Receive? && a.fd == fd)
    ensures var r' := React(r, a, reset);
            View(r', fd) == View(r, fd) && Lookup(r'.output, fd, []) == Lookup(r.output, fd, [])
  {
  }

  /** The process ends at the first four bytes of a new connection exactly if they announce more than
      1000 bytes. */
  lemma FirstHeaderEnds(r: Reference, fd: nat, header: Bytes)
    requires !r.exited && |header| == 4
    ensures React(React(r, Accept(fd), false), Receive(fd, header), false).exited <==> BigEndianValue(header) > 1000
  {
    hide Run, BigEndianValue;
    var shared := View(React(r, Accept(fd), false), fd);
    assert Arrive(shared, header) == Session(true, shared.bodySize, header) && header[..4] == header;
    Unsigned32Value(header);
    RefusesOversize(MAX_REFERENCE_BODY, shared.bodySize, header);
  }

  // ---- both servers, driven by the same clients ----

  function Actions(run: seq<(Action, bool)>): seq<Action> {
    seq(|run|, i requires 0 <= i < |run| => run[i].0)
  }

  function ReferenceAfter(r: Reference, run: seq<(Action, bool)>): Reference
    decreases |run|
  {
    if run == [] then r else ReferenceAfter(React(r, run[0].0, run[0].1), run[1..])
  }

  predicate SmallHeaders(s: State, run: seq<(Action, bool)>)
    requires Shape(s) && Admissible(s, Actions(run))
    decreases |run|
  {
    run == [] ||
    (assert Actions(run)[1..] == Actions(run[1..]);
     SmallHeader(s, run[0].0) && SmallHeaders(Next(s, run[0].0), run[1..]))
  }

  lemma {:induction false} ExitedStays(r: Reference, run: seq<(Action, bool)>)
    requires r.exited
    ensures ReferenceAfter(r, run) == r
    decreases |run|
  {
    if run != [] {
      ExitedStays(r, run[1..]);
    }
  }

  lemma {:induction false} RunKeepsPrivate(s: State, r: Reference, run: seq<(Action, bool)>)
    requires Inv(s) && Admissible(s, Actions(run)) && !r.exited && AllPrivate(s, r)
    ensures AllPrivate(After(s, Actions(run)), ReferenceAfter(r, run))
    ensures ReferenceAfter(r, run).exited <==> !SmallHeaders(s, run)
    decreases |run|
  {
    if run != [] {
      var (a, reset) := run[0];
      assert Actions(run)[1..] == Actions(run[1..]);
      ReactKeepsPrivate(s, r, a, reset);
      KeepsInv(s, a);
      if SmallHeader(s, a) {
        RunKeepsPrivate(Next(s, a), React(r, a, reset), run[1..]);
      } else {
        ExitedStays(React(r, a, reset), run[1..]);
      }
    }
  }

  /** Driven by the same accepts, reads and closes, with every header small enough for the reference
      server, the threaded server's output on each live connection is always a prefix of the
      reference server's, and equal to it once the threaded server is at rest.  The reference server
      has ended its process exactly when some header was too large. */
  lemma ThreadedRefinesReference(threads: nat, run: seq<(Action, bool)>)
    requires threads > 0 && Admissible(Init(threads), Actions(run))
    ensures var s, r := After(Init(threads), Actions(run)), ReferenceAfter(START, run);
            && (r.exited <==> !SmallHeaders(Init(threads), run))
            && (!r.exited ==> forall fd :: fd in s.conns ==>
                  && s.conns[fd].sent <= Lookup(r.output, fd, [])
                  && (Quiescent(s) ==> s.conns[fd].sent == Lookup(r.output, fd, [])))
  {
    var s, r := After(Init(threads), Actions(run)), ReferenceAfter(START, run);
    InitInv(threads);
    RunKeepsInv(Init(threads), Actions(run));
    RunKeepsPrivate(Init(threads), START, run);
    forall fd | !r.exited && fd in s.conns
      ensures s.conns[fd].sent <= Lookup(r.output, fd, [])
      ensures Quiescent(s) ==> s.conns[fd].sent == Lookup(r.output, fd, [])
    {
      RefinesOnOne(s, r, fd);
    }
  }

  lemma RefinesOnOne(s: State, r: Reference, fd: nat)
    requires Inv(s) && fd in s.conns && Private(r, fd, s.conns[fd].received)
    ensures s.conns[fd].sent <= Lookup(r.output, fd, [])
    ensures Quiescent(s) ==> s.conns[fd].sent == Lookup(r.output, fd, [])
  {
    var c := s.conns[fd];
    SameRun(MAX_REFERENCE_BODY, MAX_BODY, Fresh(c.received), Fresh(c.received));
    RefusesOversize(MAX_BODY, 0, c.received);
    assert InStep(c);
    SentIsPrefix(s, fd);
    if Quiescent(s) {
      RestDelivers(s, fd);
    }
  }
}
