/** Termination and completeness of the multi-threaded echo server, and the assumption it needs on
    descriptors. */
module EchoCompletion {
  import opened Bytes
  import opened FrameParser
  import opened EchoProtocol

  /** The steps the server takes by itself, without a client. */
  predicate Internal(a: Action) {
    a.PutNext? || a.Get? || a.Publish? || a.Notify? || a.Wake? || a.TryGet?
  }

  // ---- every run without new input is finite ----

  function WorkerLoad(w: Worker): nat {
    match w case Waiting => 0 case Taken(_) => 5 case Published => 3
  }

  function IoLoad(io: Io): nat {
    match io case Dispatching => 0 case Reading(_, pending) => 1 + 7 * |pending| case Draining => 1
  }

  /** The steps still owed by input queue, worker and pipe number `i`. */
  function Load(s: State, i: nat): nat
    requires Shape(s) && i < |s.inQ|
  {
    6 * |s.inQ[i]| + WorkerLoad(s.workers[i]) + 2 * s.pipes[i]
  }

  function Loads(s: State, n: nat): nat
    requires Shape(s) && n <= |s.inQ|
  {
    if n == 0 then 0 else Loads(s, n - 1) + Load(s, n - 1)
  }

  function Measure(s: State): nat
    requires Shape(s)
  {
    IoLoad(s.io) + Loads(s, |s.inQ|) + |s.outQ|
  }

  lemma {:induction false} LoadsChange(s: State, t: State, i: nat, n: nat)
    requires Shape(s) && Shape(t) && |s.inQ| == |t.inQ| && i < |s.inQ| && n <= |s.inQ|
    requires forall j :: 0 <= j < |s.inQ| && j != i ==> Load(s, j) == Load(t, j)
    ensures Loads(t, n) + (if i < n then Load(s, i) else 0) == Loads(s, n) + (if i < n then Load(t, i) else 0)
  {
    if n > 0 {
      LoadsChange(s, t, i, n - 1);
    }
  }

  /** Which `Load` an internal step changes. */
  function Place(s: State, a: Action): (i: nat)
    requires Shape(s) && Possible(s, a) && Internal(a)
    ensures i < |s.inQ|
  {
    if a.PutNext? then Shard(s, s.io.fd) else if a.TryGet? then 0 else a.i
  }

  lemma OneLoadChanges(s: State, a: Action)
    requires Shape(s) && Possible(s, a) && Internal(a)
    ensures var t, i := Next(s, a), Place(s, a);
            && |t.inQ| == |s.inQ|
            && (forall j :: 0 <= j < |s.inQ| && j != i ==> Load(s, j) == Load(t, j))
            && IoLoad(t.io) + Load(t, i) + |t.outQ| < IoLoad(s.io) + Load(s, i) + |s.outQ|
  {
    hide Run, Frame, Loads;
  }

  lemma InternalStepsDescend(s: State, a: Action)
    requires Shape(s) && Possible(s, a) && Internal(a)
    ensures Measure(Next(s, a)) < Measure(s)
  {
    hide Next, Load, IoLoad, Loads;
    OneLoadChanges(s, a);
    LoadsChange(s, Next(s, a), Place(s, a), |s.inQ|);
  }

  predicate AllInternal(run: seq<Action>) {
    forall a :: a in run ==> Internal(a)
  }

  /** Without new input no run is longer than the measure of the state it starts from. */
  lemma {:induction false} RunsAreFinite(s: State, run: seq<Action>)
    requires Shape(s) && Admissible(s, run) && AllInternal(run)
    ensures |run| + Measure(After(s, run)) <= Measure(s)
    decreases |run|
  {
    if run != [] {
      InternalStepsDescend(s, run[0]);
      RunsAreFinite(Next(s, run[0]), run[1..]);
    }
  }

  // ---- what holds a thread up ----

  /** A worker waits for nothing but an element in its own queue, or room in its own pipe, whatever the
      other threads do; the I/O thread never waits inside a callback, and between two of them only for a
      client or for a byte in a pipe. */
  lemma HeldUpOnlyBy(s: State, i: nat)
    requires Shape(s) && i < |s.workers|
    ensures Possible(s, Get(i)) || Possible(s, Publish(i)) || Possible(s, Notify(i)) <==>
            match s.workers[i]
            case Waiting => s.inQ[i] != []
            case Taken(_) => true
            case Published => s.pipes[i] < 65536
    ensures (exists a: Action :: (a.PutNext? || a.TryGet? || a.Wake?) && Possible(s, a)) <==>
            !s.io.Dispatching? || exists j :: 0 <= j < |s.pipes| && s.pipes[j] > 0
  {
    if s.io.Reading? {
      assert Possible(s, PutNext);
    } else if s.io.Draining? {
      assert Possible(s, TryGet);
    } else if j: nat :| j < |s.pipes| && s.pipes[j] > 0 {
      assert Possible(s, Wake(j, s.pipes[j]));
    }
  }

  /** While a callback runs, the I/O thread does nothing but what is left of it; and what it does between
      two of them concerns an open connection, an accept one that is not. */
  lemma CallbacksDoNotOverlap(s: State, a: Action)
    requires Shape(s) && Possible(s, a)
    ensures !s.io.Dispatching? && !a.Get? && !a.Publish? && !a.Notify? ==>
              a == if s.io.Reading? then PutNext else TryGet
    ensures a.Receive? || a.Close? ==> a.fd in s.conns
    ensures a.Accept? ==> a.fd !in s.conns && a.fd <= 1024
  {
  }

  // ---- what a finished run leaves behind ----

  ghost predicate Quiescent(s: State) {
    forall a :: Internal(a) ==> !Possible(s, a)
  }

  lemma QuiescentIsEmpty(s: State)
    requires Shape(s) && WillDrain(s) && Quiescent(s)
    ensures s.io.Dispatching? && s.outQ == []
    ensures forall i :: 0 <= i < |s.inQ| ==> s.inQ[i] == [] && s.workers[i].Waiting? && s.pipes[i] == 0
  {
    assert !Possible(s, PutNext) && !Possible(s, TryGet);
    forall i | 0 <= i < |s.inQ| ensures s.inQ[i] == [] && s.workers[i].Waiting? && s.pipes[i] == 0 {
      assert !Possible(s, Wake(i, 1)) && !Possible(s, Publish(i));
      assert !Possible(s, Notify(i)) && !Possible(s, Get(i));
    }
  }

  lemma RestDelivers(s: State, fd: nat)
    requires Inv(s) && Quiescent(s) && fd in s.conns
    ensures s.conns[fd].delivered == s.conns[fd].emitted && s.conns[fd].sent == Frames(s.conns[fd].emitted)
  {
    QuiescentIsEmpty(s);
    assert Conserved(s, fd) && UnderWay(s, fd) == [];
  }

  /** What a parser has made of all it was given, and what it still holds. */
  lemma EmittedIsWhole(c: Connection)
    requires InStep(c) && Sane(MAX_BODY, c.received)
    ensures WholeFrames(c.received) == c.emitted + HeldBack(c.parser)
    ensures c.received == Frames(c.emitted) + Residue(c.parser)
    ensures HeldBack(c.parser) != [] ==> Residue(c.parser) == [0, 0, 0, 0]
  {
    hide Run, WholeFrames;
    DecodesWholeFrames(MAX_BODY, 0, c.received);
    RunKeepsBytes(MAX_BODY, Fresh(c.received));
    assert BigEndian32(0) == [0, 0, 0, 0];
  }

  /** When the server has come to rest, every queue is empty, and every live connection has been
      sent all bodies its parser produced: that is each whole frame it received, except at most one
      zero-length frame whose header ended the input.  What was not sent is that header or an
      incomplete frame. */
  lemma CompleteAtRest(threads: nat, run: seq<Action>, fd: nat)
    requires threads > 0 && Admissible(Init(threads), run)
    requires Quiescent(After(Init(threads), run)) && fd in After(Init(threads), run).conns
    ensures var c := After(Init(threads), run).conns[fd];
            && c.delivered == c.emitted
            && (Sane(MAX_BODY, c.received) ==>
                  && WholeFrames(c.received) == c.delivered + HeldBack(c.parser)
                  && c.received == c.sent + Residue(c.parser)
                  && (HeldBack(c.parser) != [] ==> c.received == c.sent + [0, 0, 0, 0]))
  {
    hide Run, WholeFrames, Frames, Residue, Next, Possible;
    var s := After(Init(threads), run);
    InitInv(threads);
    RunKeepsInv(Init(threads), run);
    RestDelivers(s, fd);
    if Sane(MAX_BODY, s.conns[fd].received) {
      EmittedIsWhole(s.conns[fd]);
    }
  }

  // ---- whole callbacks as runs ----

  function Repeat(a: Action, n: nat): seq<Action> {
    if n == 0 then [] else [a] + Repeat(a, n - 1)
  }

  function Tagged(fd: nat, bodies: seq<Bytes>): seq<Element> {
    seq(|bodies|, i requires 0 <= i < |bodies| => Element(fd, bodies[i]))
  }

  /** The Puts of one read callback, taken without interruption, append its bodies in order. */
  lemma {:induction false} PutsOfOneCallback(s: State)
    requires Shape(s) && s.io.Reading?
    ensures var puts := Repeat(PutNext, |s.io.pending| + 1);
            var i := Shard(s, s.io.fd);
            && Admissible(s, puts)
            && After(s, puts) == s.(inQ := s.inQ[i := s.inQ[i] + Tagged(s.io.fd, s.io.pending)], io := Dispatching)
    decreases |s.io.pending|
  {
    var puts := Repeat(PutNext, |s.io.pending| + 1);
    var fd, i, t := s.io.fd, Shard(s, s.io.fd), Next(s, PutNext);
    assert puts[0] == PutNext && puts[1..] == Repeat(PutNext, |s.io.pending|);
    if s.io.pending == [] {
      assert s.inQ[i] + Tagged(fd, []) == s.inQ[i];
    } else {
      PutsOfOneCallback(t);
      assert t.inQ[i] + Tagged(fd, t.io.pending) == s.inQ[i] + Tagged(fd, s.io.pending);
    }
  }

  /** The TryGets of one notify callback, taken without interruption, empty the output queue and
      append to every live connection its own frames in order. */
  lemma {:induction false} TryGetsOfOneCallback(s: State)
    requires Shape(s) && s.io.Draining?
    ensures var gets := Repeat(TryGet, |s.outQ| + 1);
            && Admissible(s, gets)
            && var t := After(s, gets);
               && t == s.(outQ := [], io := Dispatching, conns := t.conns) && t.conns.Keys == s.conns.Keys
               && forall fd :: fd in s.conns ==>
                    && t.conns[fd].sent == s.conns[fd].sent + Concat(Select(s.outQ, fd))
                    && t.conns[fd].parser == s.conns[fd].parser
    decreases |s.outQ|
  {
    var gets := Repeat(TryGet, |s.outQ| + 1);
    var t := Next(s, TryGet);
    assert gets[0] == TryGet && gets[1..] == Repeat(TryGet, |s.outQ|);
    if s.outQ != [] {
      TryGetsOfOneCallback(t);
      TryGetMoves(s);
    }
  }

  lemma TryGetMoves(s: State)
    requires Shape(s) && s.io.Draining? && s.outQ != []
    ensures var t := Next(s, TryGet);
            && t.conns.Keys == s.conns.Keys && t == s.(outQ := s.outQ[1..], conns := t.conns)
            && forall fd :: fd in s.conns ==>
                 && t.conns[fd].sent + Concat(Select(t.outQ, fd)) == s.conns[fd].sent + Concat(Select(s.outQ, fd))
                 && t.conns[fd].parser == s.conns[fd].parser
  {
    hide Concat, Select;
    var t := Next(s, TryGet);
    forall fd | fd in s.conns
      ensures t.conns[fd].sent + Concat(Select(t.outQ, fd)) == s.conns[fd].sent + Concat(Select(s.outQ, fd))
    {
      FramesPop(s.outQ, fd);
    }
  }

  lemma FramesPop(q: seq<Element>, fd: nat)
    requires q != []
    ensures Concat(Select(q, fd)) == (if q[0].fd == fd then q[0].data else []) + Concat(Select(q[1..], fd))
  {
    if q[0].fd == fd {
      assert Select(q, fd)[1..] == Select(q[1..], fd);
    }
  }

  // ---- the descriptor assumption is exactly what is needed ----

  /** What a connection has been and will be sent of the bodies already taken in for its descriptor. */
  function Due(s: State, fd: nat): seq<Bytes>
    requires Shape(s) && fd in s.conns
  {
    s.conns[fd].delivered + UnderWay(s, fd)
  }

  /** Whatever a connection was accepted with, the server's own steps only move it along. */
  lemma InternalKeepsDue(s: State, a: Action, fd: nat)
    requires Shape(s) && Routed(s) && Possible(s, a) && Internal(a)
    requires fd in s.conns && s.conns[fd].sent == Frames(s.conns[fd].delivered)
    ensures var t := Next(s, a);
            && fd in t.conns && t.conns[fd].sent == Frames(t.conns[fd].delivered)
            && Due(t, fd) == Due(s, fd) && t.conns[fd].received == s.conns[fd].received
  {
    hide Frame, Frames, Run;
    // A state in which these bodies were emitted for this very connection.
    var owed := s.(conns := s.conns[fd := s.conns[fd].(emitted := Due(s, fd))]);
    assert UnderWay(owed, fd) == UnderWay(s, fd);
    KeepsConserved(owed, a, fd);
    SameStep(s, owed, a, fd);
  }

  /** What was emitted for a connection does not matter for the server's own steps. */
  lemma SameStep(s: State, owed: State, a: Action, fd: nat)
    requires Shape(s) && Possible(s, a) && Internal(a) && fd in s.conns
    requires exists bodies :: owed == s.(conns := s.conns[fd := s.conns[fd].(emitted := bodies)])
    ensures Possible(owed, a)
    ensures var t, u := Next(s, a), Next(owed, a);
            && fd in t.conns && fd in u.conns && u == t.(conns := u.conns) && UnderWay(u, fd) == UnderWay(t, fd)
            && u.conns[fd] == t.conns[fd].(emitted := owed.conns[fd].emitted)
            && t.conns[fd].received == s.conns[fd].received
  {
    hide Frame, Frames, Run, Select;
  }

  lemma {:induction false} RunKeepsDue(s: State, run: seq<Action>, fd: nat)
    requires Shape(s) && Routed(s) && WillDrain(s) && Admissible(s, run) && AllInternal(run)
    requires fd in s.conns && s.conns[fd].sent == Frames(s.conns[fd].delivered)
    ensures var t := After(s, run);
            && WillDrain(t) && fd in t.conns && t.conns[fd].sent == Frames(t.conns[fd].delivered)
            && Due(t, fd) == Due(s, fd) && t.conns[fd].received == s.conns[fd].received
    decreases |run|
  {
    hide Next, Possible, Routed, WillDrain, Due, Frames;
    if run != [] {
      assert run[0] in run;
      InternalKeepsDue(s, run[0], fd);
      KeepsRouted(s, run[0]);
      KeepsWillDrain(s, run[0]);
      RunKeepsDue(Next(s, run[0]), run[1..], fd);
    }
  }

  /** From every state the server can come to rest by itself. */
  lemma {:induction false} RunToRest(s: State) returns (run: seq<Action>)
    requires Shape(s)
    ensures Admissible(s, run) && AllInternal(run) && Quiescent(After(s, run))
    decreases Measure(s)
  {
    hide Next, Possible, Measure;
    if a :| Internal(a) && Possible(s, a) {
      InternalStepsDescend(s, a);
      var rest := RunToRest(Next(s, a));
      run := [a] + rest;
      assert run[1..] == rest;
    } else {
      run := [];
    }
  }

  /** The server's own steps send something to a connection that has received nothing. */
  predicate SendsForeign(s: State, run: seq<Action>, fd: nat)
    requires Shape(s)
  {
    && Admissible(s, run) && AllInternal(run) && fd in After(s, run).conns
    && After(s, run).conns[fd].received == [] && After(s, run).conns[fd].sent != []
  }

  lemma UncleanSends(s: State, fd: nat) returns (run: seq<Action>)
    requires Inv(s) && Possible(s, Accept(fd)) && !Clean(s, Accept(fd))
    ensures SendsForeign(Next(s, Accept(fd)), run, fd)
  {
    var t := Next(s, Accept(fd));
    AcceptedWithDue(s, fd);
    KeepsRouted(s, Accept(fd));
    KeepsWillDrain(s, Accept(fd));
    assert t.conns[fd].received == [] && t.conns[fd].sent == Frames(t.conns[fd].delivered);
    hide Possible, Next, Run, Routed, Due, Inv, Clean, WillDrain, Quiescent, Frames, AllInternal;
    run := RunToRest(t);
    RunKeepsDue(t, run, fd);
    RestDeliversDue(After(t, run), fd);
  }

  lemma CleanSendsNothing(s: State, fd: nat, run: seq<Action>)
    requires Inv(s) && Possible(s, Accept(fd)) && Clean(s, Accept(fd))
    ensures !SendsForeign(Next(s, Accept(fd)), run, fd)
  {
    KeepsInv(s, Accept(fd));
    hide Possible, Next, Run, Clean, Inv;
    var t := Next(s, Accept(fd));
    if SendsForeign(t, run, fd) {
      RunKeepsInv(t, run);
      NothingReceived(After(t, run), fd);
      assert false;
    }
  }

  /** A connection that has just been accepted, and received nothing, can be sent something exactly
      if elements for its descriptor were still under way. */
  lemma ForeignFramesExactlyIfUnclean(s: State, fd: nat)
    requires Inv(s) && Possible(s, Accept(fd))
    ensures !Clean(s, Accept(fd)) <==> exists run :: SendsForeign(Next(s, Accept(fd)), run, fd)
  {
    assert Shape(s);
    hide Inv, Possible, Next, Clean, SendsForeign;
    if Clean(s, Accept(fd)) {
      forall run ensures !SendsForeign(Next(s, Accept(fd)), run, fd) {
        CleanSendsNothing(s, fd, run);
      }
    } else {
      var run := UncleanSends(s, fd);
    }
  }

  lemma NothingReceived(s: State, fd: nat)
    requires Inv(s) && fd in s.conns && s.conns[fd].received == []
    ensures s.conns[fd].sent == []
  {
    assert Sane(MAX_BODY, []);
    SentIsPrefix(s, fd);
  }

  lemma AcceptedWithDue(s: State, fd: nat)
    requires Shape(s) && Possible(s, Accept(fd)) && !Clean(s, Accept(fd))
    ensures Due(Next(s, Accept(fd)), fd) != []
  {
    var t := Next(s, Accept(fd));
    assert Shard(t, fd) == Shard(s, fd);
    assert |Outgoing(s.outQ, fd)| == |Select(s.outQ, fd)|;
  }

  lemma RestDeliversDue(s: State, fd: nat)
    requires Shape(s) && WillDrain(s) && Quiescent(s) && fd in s.conns && Due(s, fd) != []
    requires s.conns[fd].sent == Frames(s.conns[fd].delivered)
    ensures s.conns[fd].sent != []
  {
    QuiescentIsEmpty(s);
    assert UnderWay(s, fd) == [];
    assert |Frame(s.conns[fd].delivered[0])| >= 4;
  }

  // ---- a run that breaks the assumption ----

  /** A run of steps that the code and the kernel allow, whether or not descriptors are reused. */
  predicate PossibleRun(s: State, run: seq<Action>, t: State)
    requires Shape(s)
    decreases |run|
  {
    if run == [] then s == t else Possible(s, run[0]) && PossibleRun(Next(s, run[0]), run[1..], t)
  }

  lemma {:induction false} Extend(first: State, run: seq<Action>, s: State, a: Action)
    returns (longer: seq<Action>, t: State)
    requires Shape(first) && PossibleRun(first, run, s) && Shape(s) && Possible(s, a)
    ensures t == Next(s, a) && longer == run + [a] && PossibleRun(first, longer, t)
    decreases |run|
  {
    longer, t := run + [a], Next(s, a);
    if run != [] {
      var tail, _ := Extend(Next(first, run[0]), run[1..], s, a);
      assert longer[1..] == tail;
    }
  }

  lemma EmptyRun(s: State)
    requires Shape(s)
    ensures PossibleRun(s, [], s)
  {
  }

  const ONE_BYTE_FRAME: Bytes := [0, 0, 0, 1, 7]

  /** One worker; the connection on descriptor 5 has just been replaced by a new one, while a body
      of the former lies in the input queue. */
  const REUSED := State(map[5 := Connection(Fresh([]), [], [], [], [])],
                        [[Element(5, [7])]], [Waiting], [0], [0], [], Dispatching)

  lemma OneByteFrame()
    ensures Frame([7]) == ONE_BYTE_FRAME && Unsigned32(ONE_BYTE_FRAME) == 1
  {
    assert BigEndian32(1) == [0, 0, 0, 1];
  }

  lemma FeedOneByteFrame()
    ensures Feed(MAX_BODY, Fresh([]), ONE_BYTE_FRAME) == Outcome(Session(true, 1, []), [[7]], false)
  {
    hide Run;
    OneByteFrame();
    assert Arrive(Fresh([]), ONE_BYTE_FRAME) == Fresh(ONE_BYTE_FRAME);
    assert ONE_BYTE_FRAME[4..5] == [7] && ONE_BYTE_FRAME[5..] == [];
    RunOneFrame(MAX_BODY, 0, ONE_BYTE_FRAME);
    RunStalled(MAX_BODY, Session(true, 1, []));
  }

  lemma ReachReused() returns (run: seq<Action>)
    ensures PossibleRun(Init(1), run, REUSED)
  {
    hide Run, Frame, PossibleRun;
    var s := Init(1);
    run := [];
    assert PossibleRun(Init(1), run, s) by { EmptyRun(s); }
    run, s := Extend(Init(1), run, s, Accept(5));
    FeedOneByteFrame();
    run, s := Extend(Init(1), run, s, Receive(5, ONE_BYTE_FRAME));
    assert s.io == Reading(5, [[7]]) && s.inQ == [[]] && Shard(s, 5) == 0;
    run, s := Extend(Init(1), run, s, PutNext);
    assert [] + [Element(5, [7])] == [Element(5, [7])] && [[7]][1..] == [];
    assert s.inQ[0] == [Element(5, [7])] && s.inQ == [s.inQ[0]] && s.io == Reading(5, []);
    run, s := Extend(Init(1), run, s, PutNext);
    run, s := Extend(Init(1), run, s, Close(5));
    run, s := Extend(Init(1), run, s, Accept(5));
    assert s == REUSED;
  }

  /** If a descriptor may be accepted again while a frame of its former connection is still on its
      way, the new connection can be sent a frame that it never received. */
  lemma ReusedDescriptorGetsForeignFrame()
    ensures exists run: seq<Action>, s: State ::
              && PossibleRun(Init(1), run, s)
              && 5 in s.conns && s.conns[5].received == [] && s.conns[5].sent == ONE_BYTE_FRAME
  {
    hide Frame;
    var run := ReachReused();
    var s := REUSED;
    run, s := Extend(Init(1), run, s, Get(0));
    OneByteFrame();
    run, s := Extend(Init(1), run, s, Publish(0));
    assert s.outQ == [Element(5, ONE_BYTE_FRAME)];
    run, s := Extend(Init(1), run, s, Notify(0));
    run, s := Extend(Init(1), run, s, Wake(0, 1));
    run, s := Extend(Init(1), run, s, TryGet);
    assert s.conns[5].sent == ONE_BYTE_FRAME;
  }
}
